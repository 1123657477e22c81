/** Point lookups: memtables, level-0 files newest first, then one file per deeper level. */
module VersionGet {
  import opened InternalKeys
  import opened Versions
  import opened FileSearch
  import opened BoundaryFiles
  import opened DropRule
  import opened Cursors

  /** What a lookup in one place yields: the entry that decides the read, if that place has one. */
  datatype Lookup = NotFound | Found(entry: Entry)

  ghost predicate NoneVisible(es: seq<Entry>, user: UserKey, sequence: nat) {
    forall e :: e in es ==> !Visible(e, user, sequence)
  }

  ghost predicate NewestIn(es: seq<Entry>, user: UserKey, sequence: nat, e: Entry) {
    && e in es && Visible(e, user, sequence)
    && forall o :: o in es && Visible(o, user, sequence) ==> o.key.sequence <= e.key.sequence
  }

  /** The lookup answers for exactly these entries. */
  ghost predicate Answers(r: Lookup, es: seq<Entry>, user: UserKey, sequence: nat) {
    match r
    case NotFound => NoneVisible(es, user, sequence)
    case Found(e) => NewestIn(es, user, sequence, e)
  }

  /** A search of one sorted run: the entry found counts only if it is of the sought user key. */
  method SearchRun(es: seq<Entry>, user: UserKey, sequence: SequenceNumber) returns (r: Lookup)
    requires Sorted(es)
    ensures Answers(r, es, user, sequence)
  {
    var pos := SeekEntry(es, LookupKey(user, sequence));
    if pos < |es| && es[pos].key.user == user {
      r := Found(es[pos]);
      forall o | o in es && Visible(o, user, sequence) ensures o.key.sequence <= es[pos].key.sequence {
        var j :| 0 <= j < |es| && es[j] == o;
        assert j > pos ==> Before(es[pos], es[j]);
      }
    } else {
      r := NotFound;
      forall o | o in es ensures !Visible(o, user, sequence) {
        var j :| 0 <= j < |es| && es[j] == o;
        assert pos < j ==> Before(es[pos], es[j]);
      }
    }
  }

  // ----- level 0 -----

  predicate NewestFirst(files: seq<FileMetaData>) {
    forall i, j :: 0 <= i < j < |files| ==> files[i].number >= files[j].number
  }

  /** Sorts by descending file number. */
  method SortNewestFirst(files: seq<FileMetaData>) returns (r: seq<FileMetaData>)
    ensures NewestFirst(r)
    ensures forall f :: f in r <==> f in files
  {
    r := [];
    for i := 0 to |files|
      invariant NewestFirst(r)
      invariant forall f :: f in r <==> f in files[..i]
    {
      var k := 0;
      while k < |r| && r[k].number >= files[i].number
        invariant 0 <= k <= |r|
        invariant forall j :: 0 <= j < k ==> r[j].number >= files[i].number
      {
        k := k + 1;
      }
      var s := r[..k] + [files[i]] + r[k..];
      assert forall f :: f in s <==> f in r || f == files[i];
      assert forall j :: k < j < |s| ==> s[j] == r[j - 1];
      r := s;
    }
    assert files[..|files|] == files;
  }

  /** The level-0 files whose range has the user key. */
  method OverlappingLevel0(files: seq<FileMetaData>, user: UserKey) returns (r: seq<FileMetaData>)
    ensures forall f :: f in r <==> f in files && Spans(f, user)
  {
    r := [];
    for i := 0 to |files|
      invariant forall f :: f in r <==> f in files[..i] && Spans(f, user)
    {
      if user >= files[i].smallest.user && user <= files[i].largest.user {
        r := r + [files[i]];
      }
    }
    assert files[..|files|] == files;
  }

  ghost predicate LevelClear(v: Version, level: int, user: UserKey, sequence: nat) {
    forall f :: Holds(v, level, f) ==> NoneVisible(f.entries, user, sequence)
  }

  /** The decisive entry is newer than anything visible in files that are not clear of the read. */
  ghost predicate Decides(v: Version, user: UserKey, sequence: nat, e: Entry) {
    IsNewest(Entries(v), user, sequence, e)
  }

  lemma FileDecides(v: Version, l: nat, f: FileMetaData, user: UserKey, sequence: nat, e: Entry)
    requires Holds(v, l, f) && NewestIn(f.entries, user, sequence, e)
    requires forall m, g :: Holds(v, m, g) ==> Newer(f, g) || NoneVisible(g.entries, user, sequence) || g == f
    ensures Decides(v, user, sequence, e)
  {
    EntriesHeld(v, e);
    forall o | o in Entries(v) && Visible(o, user, sequence) ensures o.key.sequence <= e.key.sequence {
      EntriesHeld(v, o);
      var m, g :| Holds(v, m, g) && o in g.entries;
      assert Newer(f, g) || NoneVisible(g.entries, user, sequence) || g == f;
    }
  }

  method GetLevel0(v: Version, user: UserKey, sequence: SequenceNumber) returns (r: Lookup)
    requires VersionOk(v)
    ensures r.Found? ==> Decides(v, user, sequence, r.entry)
    ensures r.NotFound? ==> LevelClear(v, 0, user, sequence)
  {
    var overlapping := OverlappingLevel0(v.files[0], user);
    var tmp := SortNewestFirst(overlapping);
    for i := 0 to |tmp|
      invariant forall k :: 0 <= k < i ==> NoneVisible(tmp[k].entries, user, sequence)
    {
      hide Layered, Unique, NumbersUnique, NewestIn, NoneVisible;
      assert Holds(v, 0, tmp[i]);
      r := SearchRun(tmp[i].entries, user, sequence);
      if r.Found? {
        Level0FileDecides(v, tmp, i, user, sequence, r.entry);
        return;
      }
    }
    r := NotFound;
    forall f | Holds(v, 0, f) ensures NoneVisible(f.entries, user, sequence) {
      if f !in tmp {
        NotSpannedNotVisible(f, user, sequence);
      }
    }
  }

  lemma NotSpannedNotVisible(f: FileMetaData, user: UserKey, sequence: nat)
    requires WellFormed(f) && !Spans(f, user)
    ensures NoneVisible(f.entries, user, sequence)
  {
    forall e | e in f.entries ensures !Visible(e, user, sequence) {
      EntryInFileRange(f, e);
    }
  }

  lemma Level0FileDecides(v: Version, tmp: seq<FileMetaData>, i: nat, user: UserKey, sequence: nat, e: Entry)
    requires VersionOk(v) && i < |tmp| && NewestFirst(tmp)
    requires forall f :: f in tmp <==> Holds(v, 0, f) && Spans(f, user)
    requires forall k :: 0 <= k < i ==> NoneVisible(tmp[k].entries, user, sequence)
    requires NewestIn(tmp[i].entries, user, sequence, e)
    ensures Decides(v, user, sequence, e)
  {
    hide NewestIn, NoneVisible, Unique, Newer;
    var f := tmp[i];
    assert Holds(v, 0, f);
    forall m, g | Holds(v, m, g) && g != f ensures Newer(f, g) || NoneVisible(g.entries, user, sequence) {
      if m == 0 {
        if Spans(g, user) {
          var k :| 0 <= k < |tmp| && tmp[k] == g;
          assert g.number != f.number;
          assert k > i ==> g.number <= f.number;
        } else {
          NotSpannedNotVisible(g, user, sequence);
        }
      }
    }
    FileDecides(v, 0, f, user, sequence, e);
  }

  // ----- deeper levels -----

  /** In a sorted level only the first file whose largest key is at or after the lookup key can answer. */
  lemma OthersClear(files: seq<FileMetaData>, index: nat, user: UserKey, sequence: SequenceNumber, k: nat)
    requires AllWellFormed(files) && DisjointSorted(files) && index <= |files|
    requires forall i :: 0 <= i < index ==> Less(files[i].largest, LookupKey(user, sequence))
    requires k < index
    ensures NoneVisible(files[k].entries, user, sequence)
  {
    forall e | e in files[k].entries ensures !Visible(e, user, sequence) {
      EntryInFileRange(files[k], e);
    }
  }

  lemma LaterClear(files: seq<FileMetaData>, index: nat, user: UserKey, sequence: SequenceNumber, k: nat)
    requires AllWellFormed(files) && DisjointSorted(files) && index < k < |files|
    requires AtMost(LookupKey(user, sequence), files[index].largest)
    requires NoneVisible(files[index].entries, user, sequence)
    ensures NoneVisible(files[k].entries, user, sequence)
  {
    var f := files[index];
    assert WellFormed(f);
    var last := f.entries[|f.entries| - 1];
    assert last in f.entries && !Visible(last, user, sequence);
    forall e | e in files[k].entries ensures !Visible(e, user, sequence) {
      EntryInFileRange(files[k], e);
      assert Less(f.largest, files[k].smallest);
    }
  }

  method GetInLevel(v: Version, level: nat, user: UserKey, sequence: SequenceNumber) returns (r: Lookup)
    requires VersionOk(v) && 1 <= level < NUM_LEVELS
    requires forall l :: 0 <= l < level ==> LevelClear(v, l, user, sequence)
    ensures r.Found? ==> Decides(v, user, sequence, r.entry)
    ensures r.NotFound? ==> LevelClear(v, level, user, sequence)
  {
    hide Layered, Unique, NumbersUnique, NewestIn, NoneVisible;
    var files := v.files[level];
    LevelWellFormed(v, level);
    DisjointIsLargestSorted(files);
    var index := FindFile(files, LookupKey(user, sequence));
    r := NotFound;
    if index < |files| {
      var f := files[index];
      if user < f.smallest.user {
        NotSpannedNotVisible(f, user, sequence);
      } else {
        assert WellFormed(f);
        r := SearchRun(f.entries, user, sequence);
      }
    }
    if r.Found? {
      LevelFileDecides(v, level, index, user, sequence, r.entry);
    } else {
      forall g | Holds(v, level, g) ensures NoneVisible(g.entries, user, sequence) {
        var k :| 0 <= k < |files| && files[k] == g;
        if k < index {
          OthersClear(files, index, user, sequence, k);
        } else if k > index {
          LaterClear(files, index, user, sequence, k);
        }
      }
    }
  }

  lemma LevelFileDecides(v: Version, level: nat, index: nat, user: UserKey, sequence: SequenceNumber, e: Entry)
    requires VersionOk(v) && 1 <= level < NUM_LEVELS && index < |v.files[level]|
    requires forall l :: 0 <= l < level ==> LevelClear(v, l, user, sequence)
    requires forall i :: 0 <= i < index ==> Less(v.files[level][i].largest, LookupKey(user, sequence))
    requires NewestIn(v.files[level][index].entries, user, sequence, e)
    ensures Decides(v, user, sequence, e)
  {
    hide NewestIn, NoneVisible, Unique, NumbersUnique, Newer;
    var files := v.files[level];
    var f := files[index];
    LevelWellFormed(v, level);
    assert Holds(v, level, f);
    forall m, g | Holds(v, m, g) && g != f ensures Newer(f, g) || NoneVisible(g.entries, user, sequence) {
      if m < level {
        assert LevelClear(v, m, user, sequence);
      } else if m == level {
        var k :| 0 <= k < |files| && files[k] == g;
        if k < index {
          OthersClear(files, index, user, sequence, k);
        } else {
          FilesWithin(v, level, f);
          FilesWithin(v, level, g);
          EarlierIsNewer(f, g, Entries(v));
        }
      }
    }
    FileDecides(v, level, f, user, sequence, e);
  }

  lemma FilesWithin(v: Version, level: nat, f: FileMetaData)
    requires Holds(v, level, f)
    ensures forall e :: e in f.entries ==> e in Entries(v)
  {
    forall e | e in f.entries ensures e in Entries(v) {
      EntriesHeld(v, e);
    }
  }

  /** Version::Get: the first file that has the user key visible decides. */
  method GetFromVersion(v: Version, user: UserKey, sequence: SequenceNumber) returns (r: Lookup)
    requires VersionOk(v)
    ensures r.Found? ==> IsNewest(Entries(v), user, sequence, r.entry)
    ensures r.NotFound? ==> forall e :: e in Entries(v) ==> !Visible(e, user, sequence)
  {
    hide Layered, Unique, NumbersUnique, LevelsOk;
    assert |v.files| == NUM_LEVELS by { FilesCount(v); }
    r := GetLevel0(v, user, sequence);
    if r.Found? {
      return;
    }
    for level := 1 to NUM_LEVELS
      invariant forall l :: 0 <= l < level ==> LevelClear(v, l, user, sequence)
    {
      r := GetInLevel(v, level, user, sequence);
      if r.Found? {
        return;
      }
    }
    r := NotFound;
    forall e | e in Entries(v) ensures !Visible(e, user, sequence) {
      EntriesHeld(v, e);
      var l, f :| Holds(v, l, f) && e in f.entries;
      assert LevelClear(v, l, user, sequence);
    }
  }

  lemma FilesCount(v: Version)
    requires LevelsOk(v)
    ensures |v.files| == NUM_LEVELS
  {
  }

  // ----- the whole database -----

  /** DBImpl::Get over the active memtable, the immutable one and the version. */
  method Get(mem: seq<Entry>, imm: Option<seq<Entry>>, v: Version, user: UserKey, sequence: SequenceNumber)
    returns (r: Option<Value>)
    requires Sorted(mem) && (imm.Some? ==> Sorted(imm.value)) && VersionOk(v)
    requires imm.Some? ==> NewerThan(EntrySet(mem), EntrySet(imm.value))
    requires NewerThan(EntrySet(mem) + ImmSet(imm), Entries(v))
    requires Unique(EntrySet(mem) + ImmSet(imm) + Entries(v))
    ensures r == Read(EntrySet(mem) + ImmSet(imm) + Entries(v), user, sequence)
  {
    ghost var all := EntrySet(mem) + ImmSet(imm) + Entries(v);
    hide VersionOk, Entries, Unique, Read;
    var found := SearchRun(mem, user, sequence);
    if found.NotFound? && imm.Some? {
      found := SearchRun(imm.value, user, sequence);
    }
    if found.NotFound? {
      found := GetFromVersion(v, user, sequence);
    }
    if found.Found? {
      assert IsNewest(all, user, sequence, found.entry);
      ReadNewest(all, user, sequence, found.entry);
      r := if found.entry.key.kind == TypeValue then Some(found.entry.value) else None;
    } else {
      ReadNothing(all, user, sequence);
      r := None;
    }
  }

  ghost function ImmSet(imm: Option<seq<Entry>>): set<Entry> {
    if imm.Some? then EntrySet(imm.value) else {}
  }
}
