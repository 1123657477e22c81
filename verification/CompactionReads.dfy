/** What installing a compaction does to reads. */
module CompactionReads {
  import opened InternalKeys
  import opened Versions
  import opened FileSearch
  import opened BoundaryFiles
  import opened CompactionInputs
  import opened DropRule
  import opened Compactions
  import opened Installs

  /** `es` lists the entries of the input files in iteration order. */
  ghost predicate IsMerge(es: seq<Entry>, inputs: seq<FileMetaData>) {
    && Sorted(es)
    && forall e :: e in es <==> exists f :: f in inputs && e in f.entries
  }

  ghost function OutsideInputs(v: Version, level: nat, inputs0: seq<FileMetaData>, inputs1: seq<FileMetaData>): set<Entry> {
    set l, f, e | 0 <= l < |v.files| && f in v.files[l] && !IsInput(l, f, level, inputs0, inputs1) && e in f.entries :: e
  }

  lemma OutsideHeld(v: Version, level: nat, inputs0: seq<FileMetaData>, inputs1: seq<FileMetaData>, e: Entry)
    ensures e in OutsideInputs(v, level, inputs0, inputs1)
       <==> exists l, f :: Holds(v, l, f) && !IsInput(l, f, level, inputs0, inputs1) && e in f.entries
  {
    if e in OutsideInputs(v, level, inputs0, inputs1) {
      var l, f :| 0 <= l < |v.files| && f in v.files[l] && !IsInput(l, f, level, inputs0, inputs1) && e in f.entries;
      assert Holds(v, l, f);
    }
  }

  lemma EntriesBefore(v: Version, level: nat, inputs0: seq<FileMetaData>, inputs1: seq<FileMetaData>, es: seq<Entry>)
    requires forall f :: f in inputs0 ==> Holds(v, level, f)
    requires forall f :: f in inputs1 ==> Holds(v, level + 1, f)
    requires IsMerge(es, inputs0 + inputs1)
    ensures Entries(v) == OutsideInputs(v, level, inputs0, inputs1) + EntrySet(es)
  {
    forall e ensures e in Entries(v) <==> e in OutsideInputs(v, level, inputs0, inputs1) || e in es {
      EntriesHeld(v, e);
      OutsideHeld(v, level, inputs0, inputs1, e);
      if e in es {
        var f :| f in inputs0 + inputs1 && e in f.entries;
        assert Holds(v, level, f) || Holds(v, level + 1, f);
      }
      if l, f :| Holds(v, l, f) && e in f.entries {
        if IsInput(l, f, level, inputs0, inputs1) {
          assert f in inputs0 + inputs1;
        }
      }
    }
  }

  lemma EntriesAfter(v: Version, w: Version, level: nat, inputs0: seq<FileMetaData>, inputs1: seq<FileMetaData>,
                     outputs: seq<FileMetaData>)
    requires IsReplacement(v, w, level, inputs0, inputs1, outputs) && level + 1 < NUM_LEVELS
    ensures Entries(w) == OutsideInputs(v, level, inputs0, inputs1) + EntrySet(Flatten(outputs))
  {
    forall e ensures e in Entries(w) <==> e in OutsideInputs(v, level, inputs0, inputs1) || e in Flatten(outputs) {
      EntriesHeld(w, e);
      OutsideHeld(v, level, inputs0, inputs1, e);
      FlattenHas(outputs);
      if f :| f in outputs && e in f.entries {
        assert Holds(w, level + 1, f);
      }
      if l, f :| Holds(v, l, f) && !IsInput(l, f, level, inputs0, inputs1) && e in f.entries {
        assert Holds(w, l, f);
      }
    }
  }

  /** The compaction drops some tombstone whose older value stays behind and surfaces. */
  ghost predicate ResurrectsSome(memory: set<Entry>, base: Version, v: Version, level: nat, inputs0: seq<FileMetaData>,
                                 inputs1: seq<FileMetaData>, es: seq<Entry>, smallestSnapshot: nat, oldest: nat) {
    exists i, r :: Resurrects(memory + OutsideInputs(v, level, inputs0, inputs1), es, i, r, smallestSnapshot, oldest, base, level)
  }

  /** Installing a compaction leaves every read anybody can still make as it was, if and only if the
      compaction resurrects nothing. Writes and releases since its start may have raised the bound. */
  lemma CompactionKeepsReadsIff(memory: set<Entry>, base: Version, v: Version, w: Version, level: nat,
                                inputs0: seq<FileMetaData>, inputs1: seq<FileMetaData>, outputs: seq<FileMetaData>,
                                es: seq<Entry>, smallestSnapshot: nat, oldest: nat)
    requires forall f :: f in inputs0 ==> Holds(v, level, f)
    requires forall f :: f in inputs1 ==> Holds(v, level + 1, f)
    requires level + 1 < NUM_LEVELS && Unique(memory + Entries(v)) && smallestSnapshot <= oldest
    requires IsMerge(es, inputs0 + inputs1)
    requires Flatten(outputs) == Kept(es, |es|, smallestSnapshot, base, level)
    requires IsReplacement(v, w, level, inputs0, inputs1, outputs)
    ensures (forall u, s :: s >= oldest ==> Read(memory + Entries(v), u, s) == Read(memory + Entries(w), u, s))
       <==> !ResurrectsSome(memory, base, v, level, inputs0, inputs1, es, smallestSnapshot, oldest)
  {
    var rest := memory + OutsideInputs(v, level, inputs0, inputs1);
    EntriesBefore(v, level, inputs0, inputs1, es);
    EntriesAfter(v, w, level, inputs0, inputs1, outputs);
    assert memory + Entries(v) == rest + EntrySet(es);
    assert memory + Entries(w) == rest + EntrySet(Flatten(outputs));
    ReadsKeptIff(rest, es, smallestSnapshot, oldest, base, level);
  }

  // ----- where a resurrected value can come from -----

  /** A level+1 file that shares a user key with an input of the level is itself an input. */
  lemma SharedKeyIsTaken(base: Version, level: nat, inputs0: seq<FileMetaData>, inputs1: seq<FileMetaData>,
                         lo: InternalKey, hi: InternalKey, f: FileMetaData, e: Entry, x: FileMetaData, r: Entry)
    requires LevelsOk(base) && level + 1 < NUM_LEVELS && TakesOverlapping(base.files[level + 1], inputs0, inputs1)
    requires IsSmallest(inputs0, lo) && IsLargest(inputs0, hi)
    requires f in inputs0 && WellFormed(f) && e in f.entries
    requires Holds(base, level + 1, x) && r in x.entries && r.key.user == e.key.user
    ensures x in inputs1
  {
    OverlappingMembers(base.files[level + 1], Some(lo.user), Some(hi.user));
    EntryInFileRange(x, r);
    EntryInFileRange(f, e);
    assert AtMost(lo, f.smallest) && AtMost(f.largest, hi);
  }

  /** A file outside the inputs with an older entry than an input of its user key was there when the
      compaction started, and lies below that input. */
  lemma OlderFileIsBelow(base: Version, v: Version, level: nat, inputs0: seq<FileMetaData>, inputs1: seq<FileMetaData>,
                         m: nat, f: FileMetaData, e: Entry, k: nat, x: FileMetaData, r: Entry)
    requires level < |base.files| && Layered(v) && LeavesNewer(base.files[level], inputs0)
    requires FlushedSince(base, v, level, inputs0 + inputs1)
    requires Holds(base, m, f) && ((m == level && f in inputs0) || (m == level + 1 && f in inputs1)) && e in f.entries
    requires Holds(v, k, x) && !IsInput(k, x, level, inputs0, inputs1) && r in x.entries
    requires r.key.user == e.key.user && r.key.sequence < e.key.sequence
    ensures Holds(base, k, x) && k >= m && (k == level ==> m != level)
  {
    assert !Newer(x, f);
    assert Holds(v, m, f);
    assert !NewerThanAll(x, base);
  }

  /** An entry older than an input entry of its user key, held outside the inputs, is either in a file of
      the output level that was left out, or below it. */
  lemma OlderOutsideIsDeeper(memory: set<Entry>, base: Version, v: Version, level: nat, inputs0: seq<FileMetaData>,
                             inputs1: seq<FileMetaData>, outputs: seq<FileMetaData>, lo: InternalKey, hi: InternalKey,
                             f: FileMetaData, e: Entry, r: Entry) returns (l: nat, g: FileMetaData)
    requires InstallOk(base, v, level, inputs0, inputs1, outputs) && NewerThan(memory, Entries(v))
    requires IsSmallest(inputs0, lo) && IsLargest(inputs0, hi)
    requires f in inputs0 + inputs1 && e in f.entries
    requires r in memory + OutsideInputs(v, level, inputs0, inputs1)
    requires r.key.user == e.key.user && r.key.sequence < e.key.sequence
    ensures Holds(base, l, g) && r in g.entries && l > level && (l == level + 1 ==> g !in inputs1 && f in inputs1)
  {
    hide NumbersUnique, Unique, Layered, LeavesNewer, FlushedSince, TakesOverlapping;
    InputsHeld(base, v, level, inputs0, inputs1, lo, hi);
    InputAtItsLevel(base, v, level, inputs0, inputs1, f);
    EntriesHeld(v, e);
    OutsideHeld(v, level, inputs0, inputs1, r);
    assert r !in memory;
    var k, x :| Holds(v, k, x) && !IsInput(k, x, level, inputs0, inputs1) && r in x.entries;
    var m := if f in inputs0 then level else level + 1;
    OlderFileIsBelow(base, v, level, inputs0, inputs1, m, f, e, k, x, r);
    l, g := k, x;
    if k == level + 1 && f in inputs0 {
      SharedKeyIsTaken(base, level, inputs0, inputs1, lo, hi, f, e, x, r);
    }
  }

  /** Of two files of a sorted level, the one with the older entry of a shared user key continues the other. */
  lemma OlderContinues(files: seq<FileMetaData>, f: FileMetaData, g: FileMetaData, e: Entry, r: Entry)
    requires AllWellFormed(files) && DisjointSorted(files) && f in files && g in files && f != g
    requires e in f.entries && r in g.entries && r.key.user == e.key.user && r.key.sequence < e.key.sequence
    ensures Continues(g, f.largest)
  {
    DisjointOrdered(files, f, g);
    EntryInFileRange(f, e);
    EntryInFileRange(g, r);
  }

  /** If no level below the output level spans the user key, an entry older than an input entry of the key, held
      outside the inputs, is in a file of the output level that continues the user key one of its inputs ends with. */
  lemma OlderOutsideContinues(memory: set<Entry>, base: Version, v: Version, level: nat, inputs0: seq<FileMetaData>,
                              inputs1: seq<FileMetaData>, outputs: seq<FileMetaData>, lo: InternalKey, hi: InternalKey,
                              es: seq<Entry>, e: Entry, r: Entry)
    returns (f: FileMetaData, g: FileMetaData)
    requires InstallOk(base, v, level, inputs0, inputs1, outputs) && NewerThan(memory, Entries(v))
    requires IsSmallest(inputs0, lo) && IsLargest(inputs0, hi) && IsMerge(es, inputs0 + inputs1)
    requires e in es && IsBaseLevel(base, level, e.key.user)
    requires r in memory + OutsideInputs(v, level, inputs0, inputs1)
    requires r.key.user == e.key.user && r.key.sequence < e.key.sequence
    ensures f in inputs1 && Holds(base, level + 1, g) && g !in inputs1 && Continues(g, f.largest)
    ensures e in f.entries && r in g.entries
  {
    hide NumbersUnique, Layered, LeavesNewer, FlushedSince, TakesOverlapping, IsBaseLevel, Unique, NewerThan, OutputsFrom;
    f :| f in inputs0 + inputs1 && e in f.entries;
    var l;
    l, g := OlderOutsideIsDeeper(memory, base, v, level, inputs0, inputs1, outputs, lo, hi, f, e, r);
    assert l == level + 1 by {
      assert WellFormed(g);
      EntryInFileRange(g, r);
      BaseLevelHasNone(base, level, e.key.user, l, g);
    }
    InputsHeld(base, v, level, inputs0, inputs1, lo, hi);
    LevelWellFormed(base, level + 1);
    OlderContinues(base.files[level + 1], f, g, e, r);
  }

  lemma BaseLevelHasNone(v: Version, level: nat, user: UserKey, l: nat, g: FileMetaData)
    requires IsBaseLevel(v, level, user) && Holds(v, l, g) && Spans(g, user) && l > level
    ensures l == level + 1
  {
  }

  /** The next-level inputs of a compaction are a convex part of their level. */
  lemma NextInputsConvex(base: Version, level: nat, inputs0: seq<FileMetaData>, inputs1: seq<FileMetaData>,
                         lo: InternalKey, hi: InternalKey)
    requires LevelsOk(base) && level + 1 < NUM_LEVELS && TakesOverlapping(base.files[level + 1], inputs0, inputs1)
    requires IsSmallest(inputs0, lo) && IsLargest(inputs0, hi)
    ensures AllWellFormed(base.files[level + 1]) && DisjointSorted(base.files[level + 1])
    ensures (forall f :: f in inputs1 ==> f in base.files[level + 1]) && Convex(base.files[level + 1], inputs1)
  {
    LevelWellFormed(base, level + 1);
    OverlappingIsClosed(base.files[level + 1], level + 1, lo.user, hi.user);
  }

  /** Such an older entry lies at or after the start of the boundary file of the next-level inputs. */
  lemma OlderOutsideAtBoundary(memory: set<Entry>, base: Version, v: Version, level: nat, inputs0: seq<FileMetaData>,
                               inputs1: seq<FileMetaData>, outputs: seq<FileMetaData>, lo: InternalKey, hi: InternalKey,
                               es: seq<Entry>, e: Entry, r: Entry)
    returns (key: InternalKey, g: FileMetaData)
    requires InstallOk(base, v, level, inputs0, inputs1, outputs) && NewerThan(memory, Entries(v))
    requires IsSmallest(inputs0, lo) && IsLargest(inputs0, hi) && IsMerge(es, inputs0 + inputs1)
    requires e in es && IsBaseLevel(base, level, e.key.user)
    requires r in memory + OutsideInputs(v, level, inputs0, inputs1)
    requires r.key.user == e.key.user && r.key.sequence < e.key.sequence
    ensures IsLargest(inputs1, key) && key.user == e.key.user && IsBoundaryFile(base.files[level + 1], key, g)
    ensures AtMost(g.smallest, r.key)
  {
    hide NumbersUnique, Layered, LeavesNewer, FlushedSince, TakesOverlapping, IsBaseLevel, Unique, NewerThan, OutputsFrom,
         Convex, IsMerge, DisjointSorted, IsLargest, IsSmallest;
    var f, x := OlderOutsideContinues(memory, base, v, level, inputs0, inputs1, outputs, lo, hi, es, e, r);
    NextInputsConvex(base, level, inputs0, inputs1, lo, hi);
    key := LargestExists(inputs1);
    OutsideContinuesTop(base.files[level + 1], inputs1, key, x, f);
    g := BoundaryFileExists(base.files[level + 1], key, x);
    EntryInFileRange(f, e);
    EntryInFileRange(x, r);
  }

  /** An entry held in two places is in one file. */
  lemma HeldOnce(v: Version, l: nat, f: FileMetaData, m: nat, g: FileMetaData, e: Entry)
    requires VersionOk(v) && Holds(v, l, f) && Holds(v, m, g) && e in f.entries && e in g.entries
    ensures l == m && f == g
  {
    hide Unique;
    assert l != m ==> Newer(f, g) || Newer(g, f);
    if l == m > 0 && f != g {
      DisjointOrdered(v.files[l], f, g);
      EntryInFileRange(f, e);
      EntryInFileRange(g, e);
    }
    assert l == m == 0 && f != g ==> Newer(f, g) || Newer(g, f);
  }

  /** What a caller can see of a resurrection: a read at `oldest` finds an input tombstone that the drop rule
      discards, of the user key the next-level inputs end with, and the boundary file starts with a value. */
  ghost predicate SurfacesAtBoundary(all: set<Entry>, base: Version, level: nat, inputs1: seq<FileMetaData>, es: seq<Entry>,
                                     i: nat, key: InternalKey, g: FileMetaData, smallestSnapshot: nat, oldest: nat) {
    && level + 1 < |base.files| && i < |es|
    && ObsoleteTombstone(es[i], smallestSnapshot, base, level)
    && IsNewest(all, es[i].key.user, oldest, es[i])
    && IsLargest(inputs1, key) && key.user == es[i].key.user
    && IsBoundaryFile(base.files[level + 1], key, g) && g.smallest.kind == TypeValue
  }

  /** The first entry of the boundary file lies outside the inputs and is older than any input entry of its user key. */
  lemma BoundaryEntryIsOutside(base: Version, v: Version, level: nat, inputs0: seq<FileMetaData>,
                               inputs1: seq<FileMetaData>, outputs: seq<FileMetaData>, lo: InternalKey, hi: InternalKey,
                               es: seq<Entry>, e: Entry, key: InternalKey, g: FileMetaData)
    requires InstallOk(base, v, level, inputs0, inputs1, outputs)
    requires IsSmallest(inputs0, lo) && IsLargest(inputs0, hi) && IsMerge(es, inputs0 + inputs1)
    requires e in es && IsLargest(inputs1, key) && key.user == e.key.user && IsBoundaryFile(base.files[level + 1], key, g)
    ensures WellFormed(g) && g.entries[0] in OutsideInputs(v, level, inputs0, inputs1)
    ensures Less(e.key, g.smallest) && g.smallest.user == e.key.user
  {
    hide NumbersUnique, Layered, LeavesNewer, TakesOverlapping, Unique, OutputsFrom, DisjointSorted;
    assert Holds(base, level + 1, g) && Holds(v, level + 1, g);
    assert g !in inputs1 by {
      SmallestAtMostLargest(g);
    }
    OutsideHeld(v, level, inputs0, inputs1, g.entries[0]);
    InputsHeld(base, v, level, inputs0, inputs1, lo, hi);
    var f :| f in inputs0 + inputs1 && e in f.entries;
    EntryInFileRange(f, e);
    if f in inputs0 {
      SharedKeyIsTaken(base, level, inputs0, inputs1, lo, hi, f, e, g, g.entries[0]);
    }
    assert AtMost(f.largest, key);
  }

  lemma ResurrectedSurfaces(memory: set<Entry>, base: Version, v: Version, level: nat, inputs0: seq<FileMetaData>,
                            inputs1: seq<FileMetaData>, outputs: seq<FileMetaData>, lo: InternalKey, hi: InternalKey,
                            es: seq<Entry>, i: nat, r: Entry, smallestSnapshot: nat, oldest: nat)
    returns (key: InternalKey, g: FileMetaData)
    requires InstallOk(base, v, level, inputs0, inputs1, outputs) && NewerThan(memory, Entries(v))
    requires IsSmallest(inputs0, lo) && IsLargest(inputs0, hi) && IsMerge(es, inputs0 + inputs1)
    requires Unique(memory + Entries(v))
    requires Resurrects(memory + OutsideInputs(v, level, inputs0, inputs1), es, i, r, smallestSnapshot, oldest, base, level)
    ensures SurfacesAtBoundary(memory + Entries(v), base, level, inputs1, es, i, key, g, smallestSnapshot, oldest)
  {
    hide InstallOk, NewerThan, IsMerge, Unique, IsBaseLevel, IsLargest, IsSmallest, IsBoundaryFile;
    key, g := OlderOutsideAtBoundary(memory, base, v, level, inputs0, inputs1, outputs, lo, hi, es, es[i], r);
    BoundaryEntryIsOutside(base, v, level, inputs0, inputs1, outputs, lo, hi, es, es[i], key, g);
    InputsHeldNow(base, v, level, inputs0, inputs1, outputs, lo, hi);
    EntriesBefore(v, level, inputs0, inputs1, es);
    var rest := memory + OutsideInputs(v, level, inputs0, inputs1);
    assert memory + Entries(v) == rest + EntrySet(es);
    assert Visible(g.entries[0], r.key.user, oldest);
    SameSequence(memory + Entries(v), g.entries[0], r);
  }

  lemma SameSequence(s: set<Entry>, a: Entry, b: Entry)
    requires Unique(s) && a in s && b in s && a.key.user == b.key.user
    ensures a.key.sequence == b.key.sequence ==> a == b
  {
  }

  lemma LevelsAreOk(v: Version)
    requires VersionOk(v)
    ensures LevelsOk(v) && |v.files| == NUM_LEVELS
  {
  }

  lemma InputsHeldNow(base: Version, v: Version, level: nat, inputs0: seq<FileMetaData>, inputs1: seq<FileMetaData>,
                      outputs: seq<FileMetaData>, lo: InternalKey, hi: InternalKey)
    requires InstallOk(base, v, level, inputs0, inputs1, outputs) && IsSmallest(inputs0, lo) && IsLargest(inputs0, hi)
    ensures forall f :: f in inputs0 ==> Holds(v, level, f)
    ensures forall f :: f in inputs1 ==> Holds(v, level + 1, f)
    ensures level + 1 < |base.files|
  {
    hide VersionOk, InputsOk, OutputsFrom;
    LevelsAreOk(base);
    InputsHeld(base, v, level, inputs0, inputs1, lo, hi);
  }

  lemma SurfacedResurrects(memory: set<Entry>, base: Version, v: Version, level: nat, inputs0: seq<FileMetaData>,
                           inputs1: seq<FileMetaData>, outputs: seq<FileMetaData>, lo: InternalKey, hi: InternalKey,
                           es: seq<Entry>, i: nat, key: InternalKey, g: FileMetaData, smallestSnapshot: nat, oldest: nat)
    requires InstallOk(base, v, level, inputs0, inputs1, outputs) && NewerThan(memory, Entries(v))
    requires IsSmallest(inputs0, lo) && IsLargest(inputs0, hi) && IsMerge(es, inputs0 + inputs1)
    requires Unique(memory + Entries(v))
    requires SurfacesAtBoundary(memory + Entries(v), base, level, inputs1, es, i, key, g, smallestSnapshot, oldest)
    ensures g.entries != []
    ensures Resurrects(memory + OutsideInputs(v, level, inputs0, inputs1), es, i, g.entries[0], smallestSnapshot, oldest, base, level)
  {
    hide InstallOk, NewerThan, IsMerge, Unique, IsBaseLevel, IsLargest, IsSmallest, IsBoundaryFile;
    BoundaryEntryIsOutside(base, v, level, inputs0, inputs1, outputs, lo, hi, es, es[i], key, g);
    InputsHeldNow(base, v, level, inputs0, inputs1, outputs, lo, hi);
    EntriesBefore(v, level, inputs0, inputs1, es);
    var rest := memory + OutsideInputs(v, level, inputs0, inputs1);
    var r, u := g.entries[0], es[i].key.user;
    assert memory + Entries(v) == rest + EntrySet(es);
    SameSequence(memory + Entries(v), r, es[i]);
    forall o | o in rest && Visible(o, u, oldest) ensures o.key.sequence <= r.key.sequence {
      NotOutsideToo(memory, base, v, level, inputs0, inputs1, outputs, lo, hi, es, es[i], o);
      SameSequence(memory + Entries(v), o, es[i]);
      var k, h := OlderOutsideAtBoundary(memory, base, v, level, inputs0, inputs1, outputs, lo, hi, es, es[i], o);
      SameBoundary(base.files[level + 1], inputs1, key, g, k, h);
    }
  }

  lemma SameBoundary(files: seq<FileMetaData>, inputs: seq<FileMetaData>, key: InternalKey, g: FileMetaData,
                     k: InternalKey, h: FileMetaData)
    requires IsLargest(inputs, key) && IsLargest(inputs, k)
    requires IsBoundaryFile(files, key, g) && IsBoundaryFile(files, k, h)
    ensures k == key && g.smallest == h.smallest
  {
    LargestUnique(inputs, key);
  }

  /** An input entry is not also held outside the inputs. */
  lemma NotOutsideToo(memory: set<Entry>, base: Version, v: Version, level: nat, inputs0: seq<FileMetaData>,
                      inputs1: seq<FileMetaData>, outputs: seq<FileMetaData>, lo: InternalKey, hi: InternalKey,
                      es: seq<Entry>, e: Entry, o: Entry)
    requires InstallOk(base, v, level, inputs0, inputs1, outputs) && NewerThan(memory, Entries(v))
    requires IsSmallest(inputs0, lo) && IsLargest(inputs0, hi) && IsMerge(es, inputs0 + inputs1)
    requires e in es && o in memory + OutsideInputs(v, level, inputs0, inputs1)
    ensures o != e
  {
    hide VersionOk, InputsOk, OutputsFrom, FlushedSince, IsSmallest, IsLargest, WellFormed, DisjointSorted, Sorted;
    if o == e {
      InputsHeldNow(base, v, level, inputs0, inputs1, outputs, lo, hi);
      var f :| f in inputs0 + inputs1 && e in f.entries;
      var m := if f in inputs0 then level else level + 1;
      assert Holds(v, m, f);
      EntriesHeld(v, e);
      OutsideHeld(v, level, inputs0, inputs1, e);
      assert e !in memory;
      var k, x :| Holds(v, k, x) && !IsInput(k, x, level, inputs0, inputs1) && e in x.entries;
      HeldOnce(v, m, f, k, x, e);
    }
  }

  /** A compaction resurrects a value exactly when one surfaces at the boundary of its next-level inputs. */
  lemma ResurrectsIffSurfaces(memory: set<Entry>, base: Version, v: Version, level: nat, inputs0: seq<FileMetaData>,
                              inputs1: seq<FileMetaData>, outputs: seq<FileMetaData>, lo: InternalKey, hi: InternalKey,
                              es: seq<Entry>, smallestSnapshot: nat, oldest: nat)
    requires InstallOk(base, v, level, inputs0, inputs1, outputs) && NewerThan(memory, Entries(v))
    requires IsSmallest(inputs0, lo) && IsLargest(inputs0, hi) && IsMerge(es, inputs0 + inputs1)
    requires Unique(memory + Entries(v))
    ensures ResurrectsSome(memory, base, v, level, inputs0, inputs1, es, smallestSnapshot, oldest)
       <==> exists i, key, g ::
              SurfacesAtBoundary(memory + Entries(v), base, level, inputs1, es, i, key, g, smallestSnapshot, oldest)
  {
    hide InstallOk, NewerThan, IsMerge, Unique, IsLargest, IsSmallest, Resurrects, SurfacesAtBoundary;
    if i, r :| Resurrects(memory + OutsideInputs(v, level, inputs0, inputs1), es, i, r, smallestSnapshot, oldest, base, level) {
      var key, g := ResurrectedSurfaces(memory, base, v, level, inputs0, inputs1, outputs, lo, hi, es, i, r, smallestSnapshot, oldest);
    } else if i, key, g :| SurfacesAtBoundary(memory + Entries(v), base, level, inputs1, es, i, key, g, smallestSnapshot, oldest) {
      SurfacedResurrects(memory, base, v, level, inputs0, inputs1, outputs, lo, hi, es, i, key, g, smallestSnapshot, oldest);
    }
  }

  /** Had the output level's inputs been closed at their boundary too, nothing could be resurrected. */
  lemma ClosedInputsResurrectNothing(memory: set<Entry>, base: Version, v: Version, level: nat, inputs0: seq<FileMetaData>,
                                     inputs1: seq<FileMetaData>, outputs: seq<FileMetaData>, lo: InternalKey, hi: InternalKey,
                                     es: seq<Entry>, smallestSnapshot: nat, oldest: nat)
    requires InstallOk(base, v, level, inputs0, inputs1, outputs) && NewerThan(memory, Entries(v))
    requires IsSmallest(inputs0, lo) && IsLargest(inputs0, hi) && IsMerge(es, inputs0 + inputs1)
    requires Unique(memory + Entries(v))
    requires BoundaryClosed(base.files[level + 1], inputs1)
    ensures !ResurrectsSome(memory, base, v, level, inputs0, inputs1, es, smallestSnapshot, oldest)
  {
    hide InstallOk, NewerThan, IsMerge, Unique, ResurrectsSome;
    ResurrectsIffSurfaces(memory, base, v, level, inputs0, inputs1, outputs, lo, hi, es, smallestSnapshot, oldest);
  }

  lemma {:induction false} LargestExists(files: seq<FileMetaData>) returns (key: InternalKey)
    requires files != []
    ensures IsLargest(files, key)
  {
    var n := |files| - 1;
    var init, last := files[..n], files[n];
    assert files == init + [last];
    if init == [] {
      key := last.largest;
    } else {
      var k := LargestExists(init);
      key := if Less(k, last.largest) then last.largest else k;
    }
  }
}
