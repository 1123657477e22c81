/** Installing a new version: flushes, trivial moves and compaction results keep the version sound. */
module Installs {
  import opened InternalKeys
  import opened Versions
  import opened FileSearch
  import opened BoundaryFiles
  import opened CompactionInputs
  import opened DropRule

  // ----- soundness from pairwise facts -----

  lemma SortedPairsDisjoint(files: seq<FileMetaData>)
    requires AllWellFormed(files) && SortedBySmallest(files)
    requires forall f, g :: f in files && g in files && f != g ==> Less(f.largest, g.smallest) || Less(g.largest, f.smallest)
    ensures DisjointSorted(files)
  {
    forall i, j | 0 <= i < j < |files| ensures Less(files[i].largest, files[j].smallest) {
      assert BySmallestKey(files[i], files[j]);
      SmallestAtMostLargest(files[i]);
      SmallestAtMostLargest(files[j]);
    }
  }

  /** All of `files` sort wholly before `g`, or all sort wholly after it. */
  ghost predicate OneSide(g: FileMetaData, files: seq<FileMetaData>) {
    || (forall f :: f in files ==> Less(f.largest, g.smallest))
    || (forall f :: f in files ==> Less(g.largest, f.smallest))
  }

  // ----- adding one new, newest file -----

  /** `w` is `v` with the file added at the level. */
  ghost predicate IsFlush(v: Version, w: Version, level: nat, f: FileMetaData) {
    && |w.files| == NUM_LEVELS
    && (forall l :: 0 <= l < NUM_LEVELS ==> SortedBySmallest(w.files[l]))
    && forall l, g :: Holds(w, l, g) <==> Holds(v, l, g) || (l == level && g == f)
  }

  /** The file's entries are newer than every entry the version holds of the same user key. */
  ghost predicate NewerThanAll(f: FileMetaData, v: Version) {
    forall l, g :: Holds(v, l, g) ==> Newer(f, g)
  }

  /** A new file may go below level 0 only past levels it does not overlap. */
  ghost predicate FlushLevelOk(v: Version, level: nat, f: FileMetaData) {
    level < NUM_LEVELS && (level > 0 ==> forall l, g :: 0 <= l <= level && Holds(v, l, g) ==> !Meet(f, g))
  }

  lemma NotMeetingIsApart(f: FileMetaData, g: FileMetaData)
    requires WellFormed(f) && WellFormed(g) && !Meet(f, g)
    ensures Newer(f, g) && Newer(g, f)
    ensures Less(f.largest, g.smallest) || Less(g.largest, f.smallest)
  {
    ApartIsNewer(f, g);
  }

  lemma FlushKeepsLevels(v: Version, w: Version, level: nat, f: FileMetaData)
    requires LevelsOk(v) && WellFormed(f) && FlushLevelOk(v, level, f) && IsFlush(v, w, level, f)
    ensures LevelsOk(w)
  {
    assert forall l, g :: Holds(w, l, g) ==> WellFormed(g);
    forall l | 1 <= l < NUM_LEVELS ensures DisjointSorted(w.files[l]) {
      var files := w.files[l];
      assert forall g :: g in files ==> Holds(w, l, g);
      forall a, b | a in files && b in files && a != b ensures Less(a.largest, b.smallest) || Less(b.largest, a.smallest) {
        if Holds(v, l, a) && Holds(v, l, b) {
          DisjointOrdered(v.files[l], a, b);
        } else if a == f && Holds(v, l, b) {
          NotMeetingIsApart(f, b);
        } else {
          NotMeetingIsApart(f, a);
        }
      }
      SortedPairsDisjoint(files);
    }
  }

  lemma FlushKeepsLayers(v: Version, w: Version, level: nat, f: FileMetaData)
    requires LevelsOk(v) && Layered(v) && WellFormed(f) && FlushLevelOk(v, level, f) && IsFlush(v, w, level, f)
    requires NewerThanAll(f, v) && NumbersBelow(v, f.number)
    ensures Layered(w)
  {
    forall l, g, m, h | Holds(w, l, g) && Holds(w, m, h) && l < m ensures Newer(g, h) {
      if Holds(v, m, h) {
        assert g == f || Holds(v, l, g);
      } else {
        assert Holds(v, l, g);
        NotMeetingIsApart(f, g);
      }
    }
    forall g, h | Holds(w, 0, g) && Holds(w, 0, h) && g.number > h.number ensures Newer(g, h) {
      assert Holds(v, 0, h) by {
        assert Holds(w, 0, g);
      }
    }
  }

  lemma FlushEntries(v: Version, w: Version, level: nat, f: FileMetaData)
    requires IsFlush(v, w, level, f) && level < NUM_LEVELS
    ensures Entries(w) == Entries(v) + EntrySet(f.entries)
  {
    forall e ensures e in Entries(w) <==> e in Entries(v) || e in f.entries {
      EntriesHeld(v, e);
      EntriesHeld(w, e);
      if e in f.entries {
        assert Holds(w, level, f);
      }
      if l, g :| Holds(v, l, g) && e in g.entries {
        assert Holds(w, l, g);
      }
    }
  }

  /** A memtable flush keeps both version invariants. */
  lemma FlushKeepsVersion(v: Version, w: Version, level: nat, f: FileMetaData)
    requires VersionOk(v) && WellFormed(f) && FlushLevelOk(v, level, f) && IsFlush(v, w, level, f)
    requires NewerThanAll(f, v) && NumbersBelow(v, f.number)
    requires Unique(Entries(v) + EntrySet(f.entries))
    ensures VersionOk(w)
  {
    FlushKeepsLevels(v, w, level, f);
    FlushKeepsLayers(v, w, level, f);
    FlushEntries(v, w, level, f);
  }

  // ----- replacing inputs by outputs -----

  /** `w` is `v` with the inputs replaced by `outputs`, which go to the level below. */
  ghost predicate IsReplacement(v: Version, w: Version, level: nat, inputs0: seq<FileMetaData>, inputs1: seq<FileMetaData>,
                                outputs: seq<FileMetaData>) {
    && |w.files| == NUM_LEVELS
    && (forall l :: 0 <= l < NUM_LEVELS ==> SortedBySmallest(w.files[l]))
    && forall l, f :: Holds(w, l, f) <==>
         || (Holds(v, l, f) && !IsInput(l, f, level, inputs0, inputs1))
         || (l == level + 1 && f in outputs)
  }

  predicate IsInput(l: int, f: FileMetaData, level: nat, inputs0: seq<FileMetaData>, inputs1: seq<FileMetaData>) {
    (l == level && f in inputs0) || (l == level + 1 && f in inputs1)
  }

  /** The current version holds all files of the compaction's input version. What was flushed since is newer than
      everything in it, and below the compaction's level it keeps clear of the inputs. */
  ghost predicate FlushedSince(base: Version, v: Version, level: nat, inputs: seq<FileMetaData>) {
    && |v.files| == NUM_LEVELS
    && (forall l, f :: Holds(base, l, f) ==> Holds(v, l, f))
    && (forall l, f :: Holds(v, l, f) && !Holds(base, l, f) ==> NewerThanAll(f, base))
    && (forall l, f, g :: Holds(v, l, f) && !Holds(base, l, f) && l > level && g in inputs ==> !Meet(f, g))
  }

  /** Each output entry comes from an input entry. */
  ghost predicate OutputsFrom(inputs: seq<FileMetaData>, outputs: seq<FileMetaData>) {
    forall o, e :: o in outputs && e in o.entries ==> exists f :: f in inputs && e in f.entries
  }

  lemma OutsideOneSide(base: Version, level: nat, inputs0: seq<FileMetaData>, inputs1: seq<FileMetaData>,
                       lo: InternalKey, hi: InternalKey, g: FileMetaData)
    requires LevelsOk(base) && InputsOk(base, level, inputs0, inputs1)
    requires IsSmallest(inputs0, lo) && IsLargest(inputs0, hi)
    requires Holds(base, level + 1, g) && g !in inputs1
    ensures OneSide(g, inputs0 + inputs1)
  {
    var next := base.files[level + 1];
    OverlappingMembers(next, Some(lo.user), Some(hi.user));
    if hi.user < g.smallest.user {
      forall f | f in inputs0 + inputs1 ensures Less(f.largest, g.smallest) {
        if f in inputs0 {
          assert AtMost(f.largest, hi);
        } else {
          SmallestAtMostLargest(g);
          DisjointOrdered(next, f, g);
        }
      }
    } else {
      forall f | f in inputs0 + inputs1 ensures Less(g.largest, f.smallest) {
        if f in inputs0 {
          assert AtMost(lo, f.smallest);
        } else {
          SmallestAtMostLargest(g);
          DisjointOrdered(next, f, g);
        }
      }
    }
  }

  /** A file that meets no file of a gap-free set lies on one side of the whole set. */
  lemma ClearIsOneSide(g: FileMetaData, inputs: seq<FileMetaData>)
    requires WellFormed(g) && AllWellFormed(inputs) && GapFree(inputs)
    requires forall f :: f in inputs ==> !Meet(g, f)
    ensures OneSide(g, inputs)
  {
    SmallestAtMostLargest(g);
    forall f | f in inputs ensures f.largest.user < g.smallest.user || g.largest.user < f.smallest.user {
      assert !Meet(g, f);
    }
    forall a, b | a in inputs && b in inputs ensures a.largest.user < g.smallest.user ==> b.largest.user < g.smallest.user {
      if a.largest.user < g.smallest.user {
        SidesAgree(g, inputs, a, b);
      }
    }
  }

  lemma SidesAgree(g: FileMetaData, inputs: seq<FileMetaData>, a: FileMetaData, b: FileMetaData)
    requires WellFormed(g) && AllWellFormed(inputs) && GapFree(inputs)
    requires forall f :: f in inputs ==> !Meet(g, f)
    requires a in inputs && b in inputs && a.largest.user < g.smallest.user
    ensures b.largest.user < g.smallest.user
  {
    SmallestAtMostLargest(a);
    SmallestAtMostLargest(b);
    assert !Covered(inputs, g.smallest.user) by {
      forall f | f in inputs ensures !Spans(f, g.smallest.user) {
        SmallestAtMostLargest(g);
        assert !Meet(g, f);
      }
    }
    assert !Meet(g, b);
    assert Covered(inputs, a.largest.user) by { assert Spans(a, a.largest.user); }
    assert Covered(inputs, b.largest.user) by { assert Spans(b, b.largest.user); }
  }

  lemma OutputOneSide(inputs: seq<FileMetaData>, outputs: seq<FileMetaData>, o: FileMetaData, g: FileMetaData)
    requires AllWellFormed(inputs) && WellFormed(o) && o in outputs && OutputsFrom(inputs, outputs)
    requires OneSide(g, inputs)
    ensures Less(o.largest, g.smallest) || Less(g.largest, o.smallest)
  {
    var first, last := o.entries[0], o.entries[|o.entries| - 1];
    assert first in o.entries && last in o.entries;
    var f :| f in inputs && first in f.entries;
    var h :| h in inputs && last in h.entries;
    EntryInFileRange(f, first);
    EntryInFileRange(h, last);
  }

  /** What the install of a compaction relies on. */
  ghost predicate InstallOk(base: Version, v: Version, level: nat, inputs0: seq<FileMetaData>, inputs1: seq<FileMetaData>,
                            outputs: seq<FileMetaData>) {
    && VersionOk(base) && VersionOk(v)
    && InputsOk(base, level, inputs0, inputs1)
    && level + 1 < NUM_LEVELS
    && FlushedSince(base, v, level, inputs0 + inputs1)
    && AllWellFormed(outputs) && DisjointSorted(outputs)
    && OutputsFrom(inputs0 + inputs1, outputs)
  }

  lemma InputsHeld(base: Version, v: Version, level: nat, inputs0: seq<FileMetaData>, inputs1: seq<FileMetaData>,
                   lo: InternalKey, hi: InternalKey)
    requires LevelsOk(base) && InputsOk(base, level, inputs0, inputs1) && level + 1 < NUM_LEVELS
    requires IsSmallest(inputs0, lo) && IsLargest(inputs0, hi)
    ensures forall f :: f in inputs0 ==> Holds(base, level, f)
    ensures forall f :: f in inputs1 ==> Holds(base, level + 1, f)
    ensures AllWellFormed(inputs0 + inputs1)
  {
    OverlappingMembers(base.files[level + 1], Some(lo.user), Some(hi.user));
    forall f | f in inputs0 ensures Holds(base, level, f) {
    }
    forall f | f in inputs1 ensures Holds(base, level + 1, f) {
    }
  }

  /** Every file that stays at the output level lies on one side of all inputs. */
  lemma StayingOneSide(base: Version, v: Version, level: nat, inputs0: seq<FileMetaData>, inputs1: seq<FileMetaData>,
                       outputs: seq<FileMetaData>, lo: InternalKey, hi: InternalKey, g: FileMetaData)
    requires InstallOk(base, v, level, inputs0, inputs1, outputs)
    requires IsSmallest(inputs0, lo) && IsLargest(inputs0, hi)
    requires GapFree(inputs0 + inputs1) || v == base
    requires Holds(v, level + 1, g) && g !in inputs1
    ensures OneSide(g, inputs0 + inputs1)
  {
    hide Layered, NumbersUnique, Unique, GapFree, OneSide;
    InputsHeld(base, v, level, inputs0, inputs1, lo, hi);
    if Holds(base, level + 1, g) {
      OutsideOneSide(base, level, inputs0, inputs1, lo, hi, g);
    } else {
      ClearIsOneSide(g, inputs0 + inputs1);
    }
  }

  lemma ReplacementKeepsLevels(base: Version, v: Version, w: Version, level: nat, inputs0: seq<FileMetaData>,
                               inputs1: seq<FileMetaData>, outputs: seq<FileMetaData>, lo: InternalKey, hi: InternalKey)
    requires InstallOk(base, v, level, inputs0, inputs1, outputs)
    requires IsSmallest(inputs0, lo) && IsLargest(inputs0, hi)
    requires GapFree(inputs0 + inputs1) || v == base
    requires IsReplacement(v, w, level, inputs0, inputs1, outputs)
    ensures LevelsOk(w)
  {
    hide Layered, NumbersUnique, Unique, GapFree, OneSide, OutputsFrom, FlushedSince, InputsOk;
    InputsHeld(base, v, level, inputs0, inputs1, lo, hi);
    assert forall l, f :: Holds(w, l, f) ==> WellFormed(f);
    forall l | 1 <= l < NUM_LEVELS ensures DisjointSorted(w.files[l]) {
      var files := w.files[l];
      assert forall f :: f in files ==> Holds(w, l, f);
      forall a, b | a in files && b in files && a != b ensures Less(a.largest, b.smallest) || Less(b.largest, a.smallest) {
        PairStaysDisjoint(base, v, w, level, inputs0, inputs1, outputs, lo, hi, l, a, b);
      }
      SortedPairsDisjoint(files);
    }
  }

  lemma PairStaysDisjoint(base: Version, v: Version, w: Version, level: nat, inputs0: seq<FileMetaData>,
                          inputs1: seq<FileMetaData>, outputs: seq<FileMetaData>, lo: InternalKey, hi: InternalKey,
                          l: nat, a: FileMetaData, b: FileMetaData)
    requires InstallOk(base, v, level, inputs0, inputs1, outputs)
    requires IsSmallest(inputs0, lo) && IsLargest(inputs0, hi)
    requires GapFree(inputs0 + inputs1) || v == base
    requires IsReplacement(v, w, level, inputs0, inputs1, outputs)
    requires 1 <= l < NUM_LEVELS && Holds(w, l, a) && Holds(w, l, b) && a != b
    ensures Less(a.largest, b.smallest) || Less(b.largest, a.smallest)
  {
    hide Layered, NumbersUnique, Unique, GapFree, OneSide, OutputsFrom, FlushedSince, InputsOk;
    InputsHeld(base, v, level, inputs0, inputs1, lo, hi);
    var aStays := Holds(v, l, a) && !IsInput(l, a, level, inputs0, inputs1);
    var bStays := Holds(v, l, b) && !IsInput(l, b, level, inputs0, inputs1);
    if aStays && bStays {
      DisjointOrdered(v.files[l], a, b);
    } else if aStays {
      StayingOneSide(base, v, level, inputs0, inputs1, outputs, lo, hi, a);
      OutputOneSide(inputs0 + inputs1, outputs, b, a);
    } else if bStays {
      StayingOneSide(base, v, level, inputs0, inputs1, outputs, lo, hi, b);
      OutputOneSide(inputs0 + inputs1, outputs, a, b);
    } else {
      DisjointOrdered(outputs, a, b);
    }
  }

  /** A file that stays above the output level is newer than every output. */
  lemma StayingNewerThanOutput(base: Version, v: Version, w: Version, level: nat, inputs0: seq<FileMetaData>,
                               inputs1: seq<FileMetaData>, outputs: seq<FileMetaData>, lo: InternalKey, hi: InternalKey,
                               l: nat, x: FileMetaData, o: FileMetaData)
    requires InstallOk(base, v, level, inputs0, inputs1, outputs)
    requires IsSmallest(inputs0, lo) && IsLargest(inputs0, hi)
    requires Holds(v, l, x) && !IsInput(l, x, level, inputs0, inputs1) && l <= level && o in outputs
    ensures Newer(x, o)
  {
    hide LevelsOk, NumbersUnique, Unique;
    assert LevelsOk(base);
    InputsHeld(base, v, level, inputs0, inputs1, lo, hi);
    forall a, b | a in x.entries && b in o.entries && a.key.user == b.key.user ensures a.key.sequence > b.key.sequence {
      var f :| f in inputs0 + inputs1 && b in f.entries;
      InputAtItsLevel(base, v, level, inputs0, inputs1, f);
      if Holds(base, l, x) {
        if f in inputs0 && l == level {
          assert Newer(x, f);
        } else {
          assert Newer(x, f) by {
            var m := if f in inputs1 then level + 1 else level;
            assert Holds(base, m, f);
          }
        }
      } else {
        assert NewerThanAll(x, base);
        assert Newer(x, f);
      }
    }
  }

  lemma InputAtItsLevel(base: Version, v: Version, level: nat, inputs0: seq<FileMetaData>, inputs1: seq<FileMetaData>, f: FileMetaData)
    requires forall f :: f in inputs0 ==> Holds(base, level, f)
    requires forall f :: f in inputs1 ==> Holds(base, level + 1, f)
    requires FlushedSince(base, v, level, inputs0 + inputs1)
    requires f in inputs0 + inputs1
    ensures (f in inputs0 && Holds(base, level, f) && Holds(v, level, f))
         || (f in inputs1 && Holds(base, level + 1, f) && Holds(v, level + 1, f))
  {
  }

  lemma ReplacementKeepsLayers(base: Version, v: Version, w: Version, level: nat, inputs0: seq<FileMetaData>,
                               inputs1: seq<FileMetaData>, outputs: seq<FileMetaData>, lo: InternalKey, hi: InternalKey)
    requires InstallOk(base, v, level, inputs0, inputs1, outputs)
    requires IsSmallest(inputs0, lo) && IsLargest(inputs0, hi)
    requires IsReplacement(v, w, level, inputs0, inputs1, outputs)
    ensures Layered(w)
  {
    hide LevelsOk, NumbersUnique, Unique, InputsOk;
    forall l, f, m, g | Holds(w, l, f) && Holds(w, m, g) && l < m ensures Newer(f, g) {
      if !(Holds(v, m, g) && !IsInput(m, g, level, inputs0, inputs1)) {
        StayingNewerThanOutput(base, v, w, level, inputs0, inputs1, outputs, lo, hi, l, f, g);
      } else if !(Holds(v, l, f) && !IsInput(l, f, level, inputs0, inputs1)) {
        OutputNewerThanDeeper(base, v, level, inputs0, inputs1, outputs, lo, hi, f, m, g);
      }
    }
    forall f, g | Holds(w, 0, f) && Holds(w, 0, g) && f.number > g.number ensures Newer(f, g) {
    }
  }

  lemma OutputNewerThanDeeper(base: Version, v: Version, level: nat, inputs0: seq<FileMetaData>, inputs1: seq<FileMetaData>,
                              outputs: seq<FileMetaData>, lo: InternalKey, hi: InternalKey, o: FileMetaData, m: nat, y: FileMetaData)
    requires InstallOk(base, v, level, inputs0, inputs1, outputs)
    requires IsSmallest(inputs0, lo) && IsLargest(inputs0, hi)
    requires o in outputs && Holds(v, m, y) && m > level + 1
    ensures Newer(o, y)
  {
    hide LevelsOk, NumbersUnique, Unique, InputsOk;
    InputsHeld(base, v, level, inputs0, inputs1, lo, hi);
    forall a, b | a in o.entries && b in y.entries && a.key.user == b.key.user ensures a.key.sequence > b.key.sequence {
      var f :| f in inputs0 + inputs1 && a in f.entries;
      InputAtItsLevel(base, v, level, inputs0, inputs1, f);
      assert Newer(f, y);
    }
  }

  lemma ReplacementEntries(v: Version, w: Version, level: nat, inputs0: seq<FileMetaData>, inputs1: seq<FileMetaData>,
                           outputs: seq<FileMetaData>)
    requires IsReplacement(v, w, level, inputs0, inputs1, outputs) && level + 1 < NUM_LEVELS
    requires forall f :: f in inputs0 ==> Holds(v, level, f)
    requires forall f :: f in inputs1 ==> Holds(v, level + 1, f)
    requires OutputsFrom(inputs0 + inputs1, outputs)
    ensures Entries(w) <= Entries(v)
  {
    forall e | e in Entries(w) ensures e in Entries(v) {
      EntriesHeld(w, e);
      EntriesHeld(v, e);
      var l, f :| Holds(w, l, f) && e in f.entries;
      if !Holds(v, l, f) {
        var g :| g in inputs0 + inputs1 && e in g.entries;
        assert Holds(v, level, g) || Holds(v, level + 1, g);
      }
    }
  }

  /** Installing a compaction's results keeps both version invariants, even when memtables were
      flushed while it ran: provided its inputs cover a gap-free range of user keys. */
  lemma ReplacementKeepsVersion(base: Version, v: Version, w: Version, level: nat, inputs0: seq<FileMetaData>,
                                inputs1: seq<FileMetaData>, outputs: seq<FileMetaData>, lo: InternalKey, hi: InternalKey)
    requires InstallOk(base, v, level, inputs0, inputs1, outputs)
    requires IsSmallest(inputs0, lo) && IsLargest(inputs0, hi)
    requires GapFree(inputs0 + inputs1) || v == base
    requires IsReplacement(v, w, level, inputs0, inputs1, outputs)
    requires forall o, l, f :: o in outputs && Holds(v, l, f) && !IsInput(l, f, level, inputs0, inputs1) ==> f.number != o.number
    requires forall o, p :: o in outputs && p in outputs && o.number == p.number ==> o == p
    ensures VersionOk(w)
  {
    hide Layered, InputsOk, GapFree, OutputsFrom;
    ReplacementKeepsLevels(base, v, w, level, inputs0, inputs1, outputs, lo, hi);
    ReplacementKeepsLayers(base, v, w, level, inputs0, inputs1, outputs, lo, hi);
    InputsHeld(base, v, level, inputs0, inputs1, lo, hi);
    ReplacementEntries(v, w, level, inputs0, inputs1, outputs);
  }
}
