/** Table files, versions, and the two invariants that make level-by-level lookup work. */
module Versions {
  import opened InternalKeys

  const NUM_LEVELS: nat := 7
  const MAX_MEM_COMPACT_LEVEL: nat := 2

  /** A table file: its manifest record together with the entries the table holds. */
  datatype FileMetaData = FileMetaData(
    number: nat, fileSize: nat, smallest: InternalKey, largest: InternalKey, entries: seq<Entry>)

  predicate WellFormed(f: FileMetaData) {
    && |f.entries| > 0
    && Sorted(f.entries)
    && f.smallest == f.entries[0].key
    && f.largest == f.entries[|f.entries| - 1].key
  }

  /** The user key lies in the file's user-key range. */
  predicate Spans(f: FileMetaData, user: UserKey) {
    f.smallest.user <= user <= f.largest.user
  }

  lemma EntryInFileRange(f: FileMetaData, e: Entry)
    requires WellFormed(f) && e in f.entries
    ensures AtMost(f.smallest, e.key) && AtMost(e.key, f.largest)
    ensures Spans(f, e.key.user)
  {
    var i :| 0 <= i < |f.entries| && f.entries[i] == e;
    assert i > 0 ==> Before(f.entries[0], e);
    assert i < |f.entries| - 1 ==> Before(e, f.entries[|f.entries| - 1]);
  }

  /** The order the version builder keeps each level's files in. */
  predicate BySmallestKey(f: FileMetaData, g: FileMetaData) {
    Less(f.smallest, g.smallest) || (f.smallest == g.smallest && f.number < g.number)
  }

  predicate SortedBySmallest(fs: seq<FileMetaData>) {
    forall i, j :: 0 <= i < j < |fs| ==> BySmallestKey(fs[i], fs[j])
  }

  /** Sorted and pairwise disjoint by internal key: required of every level but 0. */
  predicate DisjointSorted(fs: seq<FileMetaData>) {
    forall i, j :: 0 <= i < j < |fs| ==> Less(fs[i].largest, fs[j].smallest)
  }

  predicate NoDuplicates(fs: seq<FileMetaData>) {
    forall i, j :: 0 <= i < j < |fs| ==> fs[i] != fs[j]
  }

  predicate AllWellFormed(fs: seq<FileMetaData>) {
    forall f :: f in fs ==> WellFormed(f)
  }

  /** Of any user key held by both files, `f` holds only newer entries than `g`. */
  ghost predicate Newer(f: FileMetaData, g: FileMetaData) {
    forall a, b :: a in f.entries && b in g.entries && a.key.user == b.key.user ==> a.key.sequence > b.key.sequence
  }

  datatype Version = Version(files: seq<seq<FileMetaData>>)

  predicate Holds(v: Version, level: int, f: FileMetaData) {
    0 <= level < |v.files| && f in v.files[level]
  }

  /** Files of a level are well formed and kept in the builder's order;
      levels above 0 are disjoint by internal key. */
  ghost predicate LevelsOk(v: Version) {
    && |v.files| == NUM_LEVELS
    && (forall l, f :: Holds(v, l, f) ==> WellFormed(f))
    && SortedBySmallest(v.files[0])
    && (forall l :: 1 <= l < NUM_LEVELS ==> DisjointSorted(v.files[l]))
  }

  lemma LevelWellFormed(v: Version, level: nat)
    requires LevelsOk(v) && level < NUM_LEVELS
    ensures AllWellFormed(v.files[level]) && (level > 0 ==> DisjointSorted(v.files[level]))
    ensures NoDuplicates(v.files[level])
  {
    assert forall f :: f in v.files[level] ==> Holds(v, level, f);
    forall i, j | 0 <= i < j < |v.files[level]| ensures v.files[level][i] != v.files[level][j] {
      assert Holds(v, level, v.files[level][i]);
      SmallestAtMostLargest(v.files[level][i]);
    }
  }

  /** A file number names one file, in one level. */
  ghost predicate NumbersUnique(v: Version) {
    forall l, f, m, g :: Holds(v, l, f) && Holds(v, m, g) && f.number == g.number ==> l == m && f == g
  }

  ghost predicate NumbersBelow(v: Version, n: nat) {
    forall l, f :: Holds(v, l, f) ==> f.number < n
  }

  /** Shallower levels hold newer entries than deeper ones, and within level 0
      files with larger numbers hold newer entries. */
  ghost predicate Layered(v: Version) {
    && (forall l, f, m, g :: Holds(v, l, f) && Holds(v, m, g) && l < m ==> Newer(f, g))
    && (forall f, g :: Holds(v, 0, f) && Holds(v, 0, g) && f.number > g.number ==> Newer(f, g))
  }

  ghost predicate VersionOk(v: Version) {
    LevelsOk(v) && NumbersUnique(v) && Layered(v) && Unique(Entries(v))
  }

  ghost function Entries(v: Version): set<Entry> {
    set l, f, e | 0 <= l < |v.files| && f in v.files[l] && e in f.entries :: e
  }

  lemma EntriesHeld(v: Version, e: Entry)
    ensures e in Entries(v) <==> exists l, f :: Holds(v, l, f) && e in f.entries
  {
    if e in Entries(v) {
      var l, f :| 0 <= l < |v.files| && f in v.files[l] && e in f.entries;
      assert Holds(v, l, f);
    }
  }

  /** Files whose user-key ranges do not meet share no user key. */
  lemma ApartIsNewer(f: FileMetaData, g: FileMetaData)
    requires WellFormed(f) && WellFormed(g)
    requires f.largest.user < g.smallest.user || g.largest.user < f.smallest.user
    ensures Newer(f, g) && Newer(g, f)
  {
    forall a, b | a in f.entries && b in g.entries ensures a.key.user != b.key.user {
      EntryInFileRange(f, a);
      EntryInFileRange(g, b);
    }
  }

  /** Of two files in internal-key order, the first holds the newer entries of a shared user key. */
  lemma EarlierIsNewer(f: FileMetaData, g: FileMetaData, s: set<Entry>)
    requires WellFormed(f) && WellFormed(g)
    requires Less(f.largest, g.smallest)
    requires Unique(s) && (forall e :: e in f.entries || e in g.entries ==> e in s)
    ensures Newer(f, g)
  {
    forall a, b | a in f.entries && b in g.entries && a.key.user == b.key.user
      ensures a.key.sequence > b.key.sequence
    {
      EntryInFileRange(f, a);
      EntryInFileRange(g, b);
      assert a in s && b in s;
    }
  }

  lemma SmallestAtMostLargest(f: FileMetaData)
    requires WellFormed(f)
    ensures AtMost(f.smallest, f.largest) && f.smallest.user <= f.largest.user
  {
    EntryInFileRange(f, f.entries[0]);
  }
}
