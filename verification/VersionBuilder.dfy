/** Version edits and the builder that folds them into a version. */
module VersionBuilder {
  import opened InternalKeys
  import opened Versions

  datatype VersionEdit = VersionEdit(
    compactPointers: seq<(nat, InternalKey)>,
    deletedFiles: set<(nat, nat)>,
    newFiles: seq<(nat, FileMetaData)>)

  predicate EditOk(edit: VersionEdit) {
    && (forall i :: 0 <= i < |edit.newFiles| ==> edit.newFiles[i].0 < NUM_LEVELS)
    && (forall p :: p in edit.deletedFiles ==> p.0 < NUM_LEVELS)
    && (forall i :: 0 <= i < |edit.compactPointers| ==> edit.compactPointers[i].0 < NUM_LEVELS)
  }

  // ----- the specification: levels as sets of files -----

  ghost function AddedAt(edit: VersionEdit, level: nat): set<FileMetaData> {
    set i | 0 <= i < |edit.newFiles| && edit.newFiles[i].0 == level :: edit.newFiles[i].1
  }

  ghost function DeletedAt(edit: VersionEdit, level: nat): set<nat> {
    set p | p in edit.deletedFiles && p.0 == level :: p.1
  }

  ghost function Numbers(files: set<FileMetaData>): set<nat> {
    set f | f in files :: f.number
  }

  ghost function LevelSet(v: Version, level: nat): set<FileMetaData>
    requires level < |v.files|
  {
    set f | f in v.files[level]
  }

  /** One level after one edit: added files are in, deleted numbers are out, addition wins. */
  ghost function Edited(files: set<FileMetaData>, edit: VersionEdit, level: nat): set<FileMetaData> {
    set f | f in files + AddedAt(edit, level) && f.number !in DeletedAt(edit, level) - Numbers(AddedAt(edit, level))
  }

  // ----- sorted levels -----

  lemma {:induction false} SortedSameSet(a: seq<FileMetaData>, b: seq<FileMetaData>)
    requires SortedBySmallest(a) && SortedBySmallest(b)
    requires forall f :: f in a <==> f in b
    ensures a == b
  {
    if b != [] {
      assert b[0] in a;
    }
    if a != [] {
      assert a[0] in b && b[0] in a;
      var j :| 0 <= j < |b| && b[j] == a[0];
      var i :| 0 <= i < |a| && a[i] == b[0];
      assert i == 0 && j == 0;
      forall f ensures f in a[1..] <==> f in b[1..] {
        if f in a[1..] {
          var k :| 0 <= k < |a[1..]| && a[1..][k] == f;
          assert a[k + 1] == f && f != a[0] && f in b;
        }
        if f in b[1..] {
          var k :| 0 <= k < |b[1..]| && b[1..][k] == f;
          assert b[k + 1] == f && f != b[0] && f in a;
        }
      }
      SortedSameSet(a[1..], b[1..]);
      assert a == [a[0]] + a[1..] && b == [b[0]] + b[1..];
    }
  }

  /** Equivalent under the builder's order. */
  predicate SameSlot(f: FileMetaData, g: FileMetaData) {
    f.smallest == g.smallest && f.number == g.number
  }

  /** First position whose file sorts after `x`. */
  method UpperBound(files: seq<FileMetaData>, lo: nat, x: FileMetaData) returns (pos: nat)
    requires SortedBySmallest(files) && lo <= |files|
    ensures lo <= pos <= |files|
    ensures forall k :: lo <= k < pos ==> !BySmallestKey(x, files[k])
    ensures forall k :: pos <= k < |files| ==> BySmallestKey(x, files[k])
  {
    pos := lo;
    var hi := |files|;
    while pos < hi
      invariant lo <= pos <= hi <= |files|
      invariant forall k :: lo <= k < pos ==> !BySmallestKey(x, files[k])
      invariant forall k :: hi <= k < |files| ==> BySmallestKey(x, files[k])
    {
      var mid := (pos + hi) / 2;
      if BySmallestKey(x, files[mid]) {
        hi := mid;
      } else {
        pos := mid + 1;
      }
    }
  }

  ghost predicate AllBefore(r: seq<FileMetaData>, rest: seq<FileMetaData>, i: nat, deleted: set<nat>) {
    forall x, k {:trigger BySmallestKey(x, rest[k])} ::
      x in r && i <= k < |rest| && rest[k].number !in deleted ==> BySmallestKey(x, rest[k])
  }

  /** `r` merges the first `i` of `base` and the first `j` of `added`, and sorts before what remains. */
  ghost predicate MergedSoFar(r: seq<FileMetaData>, base: seq<FileMetaData>, i: nat, added: seq<FileMetaData>, j: nat,
                              deleted: set<nat>) {
    && i <= |base| && j <= |added|
    && SortedBySmallest(r)
    && AllBefore(r, base, i, deleted)
    && AllBefore(r, added, j, deleted)
    && forall f :: f in r <==> (f in base[..i] || f in added[..j]) && f.number !in deleted
  }

  predicate OrderedBefore(x: FileMetaData, rest: seq<FileMetaData>, i: nat, deleted: set<nat>) {
    forall k :: i <= k < |rest| && rest[k].number !in deleted ==> BySmallestKey(x, rest[k])
  }

  lemma MergeBase(r: seq<FileMetaData>, base: seq<FileMetaData>, i: nat, added: seq<FileMetaData>, j: nat, deleted: set<nat>)
    requires MergedSoFar(r, base, i, added, j, deleted)
    requires SortedBySmallest(base) && i < |base|
    requires base[i].number !in deleted ==> OrderedBefore(base[i], added, j, deleted)
    ensures MergedSoFar(if base[i].number in deleted then r else r + [base[i]], base, i + 1, added, j, deleted)
  {
    assert base[..i + 1] == base[..i] + [base[i]];
  }

  lemma MergeAdded(r: seq<FileMetaData>, base: seq<FileMetaData>, i: nat, added: seq<FileMetaData>, j: nat, deleted: set<nat>)
    requires MergedSoFar(r, base, i, added, j, deleted)
    requires SortedBySmallest(added) && j < |added|
    requires added[j].number !in deleted ==> OrderedBefore(added[j], base, i, deleted)
    ensures MergedSoFar(if added[j].number in deleted then r else r + [added[j]], base, i, added, j + 1, deleted)
  {
    assert added[..j + 1] == added[..j] + [added[j]];
  }

  method MaybeAddFile(r: seq<FileMetaData>, f: FileMetaData, deleted: set<nat>) returns (r': seq<FileMetaData>)
    ensures r' == if f.number in deleted then r else r + [f]
  {
    r' := if f.number in deleted then r else r + [f];
  }

  /** A kept base file that does not sort after `added[j]` sorts before all kept files from there on. */
  lemma NotAfter(base: seq<FileMetaData>, i: nat, added: seq<FileMetaData>, j: nat, deleted: set<nat>)
    requires SortedBySmallest(added) && i < |base| && j < |added|
    requires !BySmallestKey(added[j], base[i]) && !SameSlot(base[i], added[j])
    ensures OrderedBefore(base[i], added, j, deleted)
  {
    forall k | j <= k < |added| ensures BySmallestKey(base[i], added[k]) {
      assert k > j ==> BySmallestKey(added[j], added[k]);
    }
  }

  /** The merge of one level: pre-existing and added files in order, deleted ones left out. */
  method SaveLevel(base: seq<FileMetaData>, added: seq<FileMetaData>, deleted: set<nat>) returns (r: seq<FileMetaData>)
    requires SortedBySmallest(base) && SortedBySmallest(added)
    requires forall f, g {:trigger SameSlot(f, g)} :: f in base && g in added && f.number !in deleted ==> !SameSlot(f, g)
    ensures SortedBySmallest(r)
    ensures forall f :: f in r <==> (f in base || f in added) && f.number !in deleted
  {
    r := [];
    var i := 0;
    assert MergedSoFar(r, base, i, added, 0, deleted);
    for j := 0 to |added|
      invariant MergedSoFar(r, base, i, added, j, deleted)
    {
      var pos := UpperBound(base, i, added[j]);
      while i < pos
        invariant i <= pos && MergedSoFar(r, base, i, added, j, deleted)
      {
        hide MergedSoFar;
        if base[i].number !in deleted {
          assert !SameSlot(base[i], added[j]);
          NotAfter(base, i, added, j, deleted);
        }
        MergeBase(r, base, i, added, j, deleted);
        r := MaybeAddFile(r, base[i], deleted);
        i := i + 1;
      }
      MergeAdded(r, base, i, added, j, deleted);
      r := MaybeAddFile(r, added[j], deleted);
    }
    while i < |base|
      invariant MergedSoFar(r, base, i, added, |added|, deleted)
    {
      MergeBase(r, base, i, added, |added|, deleted);
      r := MaybeAddFile(r, base[i], deleted);
      i := i + 1;
    }
    assert base[..i] == base && added[..|added|] == added;
  }

  // ----- the builder -----

  /** Inserts into the ordered set of added files; an equivalent element blocks the insertion. */
  method InsertFile(files: seq<FileMetaData>, f: FileMetaData) returns (r: seq<FileMetaData>)
    requires SortedBySmallest(files)
    ensures SortedBySmallest(r)
    ensures (exists g :: g in files && SameSlot(g, f)) ==> r == files
    ensures !(exists g :: g in files && SameSlot(g, f)) ==> forall g :: g in r <==> g in files || g == f
  {
    var pos := UpperBound(files, 0, f);
    if pos > 0 && SameSlot(files[pos - 1], f) {
      return files;
    }
    forall g | g in files ensures !SameSlot(g, f) {
      var k :| 0 <= k < |files| && files[k] == g;
      assert k + 1 < pos ==> BySmallestKey(files[k], files[pos - 1]);
    }
    r := files[..pos] + [f] + files[pos..];
  }

  ghost predicate NumbersApart(a: set<FileMetaData>, b: set<FileMetaData>) {
    forall f, g :: f in a && g in b ==> f.number != g.number
  }

  /** The edit adds, at this level, files with numbers that `seen` does not use, each once. */
  ghost predicate AddsFresh(edit: VersionEdit, level: nat, seen: set<FileMetaData>) {
    && NumbersApart(seen, AddedAt(edit, level))
    && forall i, j :: 0 <= i < j < |edit.newFiles| && edit.newFiles[i].0 == level && edit.newFiles[j].0 == level
         ==> edit.newFiles[i].1.number != edit.newFiles[j].1.number
  }

  class Builder {
    const base: Version
    var compactPointer: seq<Option<InternalKey>>
    var deletedFiles: seq<set<nat>>
    var addedFiles: seq<seq<FileMetaData>>

    ghost predicate Valid() reads this {
      && |base.files| == |deletedFiles| == |addedFiles| == |compactPointer| == NUM_LEVELS
      && forall l :: 0 <= l < NUM_LEVELS ==>
           && SortedBySmallest(base.files[l]) && SortedBySmallest(addedFiles[l])
           && NumbersApart(LevelSet(base, l), Added(l))
    }

    ghost function Added(level: nat): set<FileMetaData>
      requires level < |addedFiles|
      reads this
    {
      set f | f in addedFiles[level]
    }

    /** Every file of the level the builder knows of, deleted or not. */
    ghost function Seen(level: nat): set<FileMetaData>
      requires level < |addedFiles| && level < |base.files|
      reads this
    {
      LevelSet(base, level) + Added(level)
    }

    /** The files the level would have if saved now. */
    ghost function Level(level: nat): set<FileMetaData>
      requires level < |addedFiles| && level < |base.files| && level < |deletedFiles|
      reads this
    {
      set f | f in Seen(level) && f.number !in deletedFiles[level]
    }

    constructor (base: Version, compactPointer: seq<Option<InternalKey>>)
      requires |base.files| == NUM_LEVELS && |compactPointer| == NUM_LEVELS
      requires forall l :: 0 <= l < NUM_LEVELS ==> SortedBySmallest(base.files[l])
      ensures Valid() && this.base == base && this.compactPointer == compactPointer
      ensures forall l :: 0 <= l < NUM_LEVELS ==> Level(l) == Seen(l) == LevelSet(base, l)
    {
      this.base, this.compactPointer := base, compactPointer;
      deletedFiles := seq(NUM_LEVELS, _ => {});
      addedFiles := seq(NUM_LEVELS, _ => []);
    }

    /** Adds one file: its number is no longer deleted and the file joins the added ones. */
    method AddFile(level: nat, f: FileMetaData)
      requires Valid() && level < NUM_LEVELS
      requires forall g :: g in Seen(level) ==> g.number != f.number
      modifies this`deletedFiles, this`addedFiles
      ensures Valid()
      ensures Seen(level) == old(Seen(level)) + {f}
      ensures deletedFiles[level] == old(deletedFiles[level]) - {f.number}
      ensures forall l :: 0 <= l < NUM_LEVELS && l != level ==>
                Seen(l) == old(Seen(l)) && deletedFiles[l] == old(deletedFiles[l])
    {
      deletedFiles := deletedFiles[level := deletedFiles[level] - {f.number}];
      assert forall g :: g in addedFiles[level] ==> g in Added(level) && g in Seen(level);
      var inserted := InsertFile(addedFiles[level], f);
      assert forall g :: g in inserted <==> g in addedFiles[level] || g == f;
      addedFiles := addedFiles[level := inserted];
      assert Added(level) == old(Added(level)) + {f};
      assert forall l :: 0 <= l < NUM_LEVELS && l != level ==> Added(l) == old(Added(l));
      assert forall g :: g in LevelSet(base, level) ==> g in old(Seen(level));
    }

    /** Folds one edit in: deletions first, then additions, which win over deletions. */
    method Apply(edit: VersionEdit)
      requires Valid() && EditOk(edit)
      requires forall l :: 0 <= l < NUM_LEVELS ==> AddsFresh(edit, l, Seen(l))
      modifies this
      ensures Valid()
      ensures compactPointer == PointersAfter(old(compactPointer), edit.compactPointers)
      ensures forall l :: 0 <= l < NUM_LEVELS ==> Seen(l) == old(Seen(l)) + AddedAt(edit, l)
      ensures forall l :: 0 <= l < NUM_LEVELS ==> Level(l) == Edited(old(Level(l)), edit, l)
    {
      for i := 0 to |edit.compactPointers|
        modifies this`compactPointer
        invariant compactPointer == PointersAfter(old(compactPointer), edit.compactPointers[..i])
      {
        compactPointer := compactPointer[edit.compactPointers[i].0 := Some(edit.compactPointers[i].1)];
        assert edit.compactPointers[..i + 1][..i] == edit.compactPointers[..i];
      }
      assert edit.compactPointers[..|edit.compactPointers|] == edit.compactPointers;
      MarkDeleted(edit);
      forall l | 0 <= l < NUM_LEVELS ensures Seen(l) == old(Seen(l)) {
        assert addedFiles[l] == old(addedFiles[l]);
      }
      AddFiles(edit);
      forall l | 0 <= l < NUM_LEVELS ensures Level(l) == Edited(old(Level(l)), edit, l) {
        FoldedIsEdited(old(Seen(l)), old(deletedFiles[l]), edit, l);
      }
    }

    method MarkDeleted(edit: VersionEdit)
      requires Valid() && EditOk(edit)
      modifies this`deletedFiles
      ensures Valid()
      ensures forall l :: 0 <= l < NUM_LEVELS ==> deletedFiles[l] == old(deletedFiles[l]) + DeletedAt(edit, l)
    {
      var todo := edit.deletedFiles;
      while todo != {}
        invariant |deletedFiles| == NUM_LEVELS && todo <= edit.deletedFiles
        invariant forall l, n :: 0 <= l < NUM_LEVELS ==>
          (n in deletedFiles[l] <==> n in old(deletedFiles[l]) || ((l, n) in edit.deletedFiles && (l, n) !in todo))
        decreases todo
      {
        var p :| p in todo;
        todo := todo - {p};
        deletedFiles := deletedFiles[p.0 := deletedFiles[p.0] + {p.1}];
      }
      forall l | 0 <= l < NUM_LEVELS ensures deletedFiles[l] == old(deletedFiles[l]) + DeletedAt(edit, l) {
        forall n ensures n in DeletedAt(edit, l) <==> (l, n) in edit.deletedFiles {
          if (l, n) in edit.deletedFiles {
            var p := (l, n);
            assert p in edit.deletedFiles && p.0 == l && p.1 == n;
          }
        }
      }
    }

    method AddFiles(edit: VersionEdit)
      requires Valid() && EditOk(edit)
      requires forall l :: 0 <= l < NUM_LEVELS ==> AddsFresh(edit, l, Seen(l))
      modifies this`deletedFiles, this`addedFiles
      ensures Valid()
      ensures forall l :: 0 <= l < NUM_LEVELS ==> Seen(l) == old(Seen(l)) + AddedAt(edit, l)
      ensures forall l :: 0 <= l < NUM_LEVELS ==> deletedFiles[l] == old(deletedFiles[l]) - Numbers(AddedAt(edit, l))
    {
      for i := 0 to |edit.newFiles|
        invariant Valid()
        invariant forall l :: 0 <= l < NUM_LEVELS ==> Seen(l) == old(Seen(l)) + AddedUpTo(edit, l, i)
        invariant forall l :: 0 <= l < NUM_LEVELS ==> deletedFiles[l] == old(deletedFiles[l]) - Numbers(AddedUpTo(edit, l, i))
      {
        var (level, f) := edit.newFiles[i];
        forall g | g in Seen(level) ensures g.number != f.number {
          assert AddsFresh(edit, level, old(Seen(level)));
          assert f in AddedAt(edit, level);
        }
        AddedUpToNext(edit, i);
        AddFile(level, f);
      }
      forall l | 0 <= l < NUM_LEVELS ensures AddedUpTo(edit, l, |edit.newFiles|) == AddedAt(edit, l) {
      }
    }

    /** Writes the current state out as a version. */
    method SaveTo() returns (v: Version)
      requires Valid()
      ensures |v.files| == NUM_LEVELS
      ensures forall l :: 0 <= l < NUM_LEVELS ==> SortedBySmallest(v.files[l]) && LevelSet(v, l) == Level(l)
    {
      var files: seq<seq<FileMetaData>> := [];
      for level := 0 to NUM_LEVELS
        invariant |files| == level
        invariant forall l :: 0 <= l < level ==>
          SortedBySmallest(files[l]) && forall f :: f in files[l] <==> f in Level(l)
      {
        forall f, g | f in base.files[level] && g in addedFiles[level] ensures !SameSlot(f, g) {
          assert f in LevelSet(base, level) && g in Added(level);
        }
        var r := SaveLevel(base.files[level], addedFiles[level], deletedFiles[level]);
        files := files + [r];
      }
      v := Version(files);
    }
  }

  function PointersAfter(pointers: seq<Option<InternalKey>>, updates: seq<(nat, InternalKey)>): (r: seq<Option<InternalKey>>)
    requires forall i :: 0 <= i < |updates| ==> updates[i].0 < |pointers|
    ensures |r| == |pointers|
  {
    if updates == [] then pointers
    else
      var n := |updates| - 1;
      PointersAfter(pointers, updates[..n])[updates[n].0 := Some(updates[n].1)]
  }

  ghost function AddedUpTo(edit: VersionEdit, level: nat, n: nat): set<FileMetaData>
    requires n <= |edit.newFiles|
  {
    set i | 0 <= i < n && edit.newFiles[i].0 == level :: edit.newFiles[i].1
  }

  lemma AddedUpToNext(edit: VersionEdit, i: nat)
    requires i < |edit.newFiles|
    ensures forall l :: AddedUpTo(edit, l, i + 1)
                     == AddedUpTo(edit, l, i) + if edit.newFiles[i].0 == l then {edit.newFiles[i].1} else {}
  {
  }

  lemma FoldedIsEdited(seen: set<FileMetaData>, deleted: set<nat>, edit: VersionEdit, level: nat)
    requires AddsFresh(edit, level, seen)
    ensures (set f | f in seen + AddedAt(edit, level)
                     && f.number !in deleted + DeletedAt(edit, level) - Numbers(AddedAt(edit, level)))
         == Edited((set f | f in seen && f.number !in deleted), edit, level)
  {
    var added := AddedAt(edit, level);
    forall f | f in seen ensures f.number !in Numbers(added) {
    }
    forall f | f in added ensures f.number in Numbers(added) {
    }
  }
}
