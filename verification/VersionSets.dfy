/** The version set: installs edits, places flushed memtables and picks compactions. */
module VersionSets {
  import opened InternalKeys
  import opened Versions
  import opened FileSearch
  import opened BoundaryFiles
  import opened CompactionInputs
  import opened CompactionPicking
  import opened VersionBuilder
  import opened Installs

  datatype Options = Options(maxFileSize: nat)

  function MaxGrandParentOverlapBytes(o: Options): nat {
    10 * o.maxFileSize
  }

  function ExpandedCompactionByteSizeLimit(o: Options): nat {
    25 * o.maxFileSize
  }

  lemma DisjointIsSortedBySmallest(files: seq<FileMetaData>)
    requires AllWellFormed(files) && DisjointSorted(files)
    ensures SortedBySmallest(files)
  {
    forall i, j | 0 <= i < j < |files| ensures BySmallestKey(files[i], files[j]) {
      SmallestAtMostLargest(files[i]);
    }
  }

  lemma LevelsSortedBySmallest(v: Version)
    requires LevelsOk(v)
    ensures forall l :: 0 <= l < NUM_LEVELS ==> SortedBySmallest(v.files[l])
  {
    forall l | 0 <= l < NUM_LEVELS ensures SortedBySmallest(v.files[l]) {
      LevelWellFormed(v, l);
      if l > 0 {
        DisjointIsSortedBySmallest(v.files[l]);
      }
    }
  }

  // ----- where to put a flushed memtable -----

  /** Some file of the level overlaps the range. */
  ghost predicate LevelOverlaps(v: Version, level: int, smallest: UserKey, largest: UserKey) {
    exists f :: Holds(v, level, f) && Overlaps(f, Some(smallest), Some(largest))
  }

  /** Too many bytes of the grandparent level lie under the range. */
  ghost predicate TooMuchBelow(v: Version, level: nat, smallest: UserKey, largest: UserKey, options: Options)
    requires level < |v.files|
  {
    SumOfSizes(Overlapping(v.files[level], Some(smallest), Some(largest))) > 10 * options.maxFileSize
  }

  method OverlapInLevel(v: Version, level: nat, smallest: UserKey, largest: UserKey) returns (r: bool)
    requires LevelsOk(v) && level < NUM_LEVELS
    ensures r <==> LevelOverlaps(v, level, smallest, largest)
  {
    LevelWellFormed(v, level);
    r := SomeFileOverlapsRange(level > 0, v.files[level], Some(smallest), Some(largest));
    assert forall f :: f in v.files[level] <==> Holds(v, level, f);
  }

  /** Of levels 0 to 2, the deepest that the range can be put in without passing a level it overlaps, or one whose
      grandparents hold too much under it. */
  ghost predicate IsDeepestLevel(v: Version, smallest: UserKey, largest: UserKey, options: Options, level: nat) {
    && |v.files| == NUM_LEVELS && level <= 2
    && (level > 0 ==> forall l :: 0 <= l <= level ==> !LevelOverlaps(v, l, smallest, largest))
    && (level > 0 ==> forall l :: 2 <= l <= level + 1 ==> !TooMuchBelow(v, l, smallest, largest, options))
    && (level < 2 ==>
          || LevelOverlaps(v, 0, smallest, largest)
          || LevelOverlaps(v, level + 1, smallest, largest)
          || TooMuchBelow(v, level + 2, smallest, largest, options))
  }

  method PickLevelForMemTableOutput(v: Version, smallest: UserKey, largest: UserKey, options: Options) returns (level: nat)
    requires LevelsOk(v)
    ensures IsDeepestLevel(v, smallest, largest, options, level)
  {
    level := 0;
    var overlaps0 := OverlapInLevel(v, 0, smallest, largest);
    if !overlaps0 {
      while level < MAX_MEM_COMPACT_LEVEL
        invariant level <= MAX_MEM_COMPACT_LEVEL
        invariant forall l :: 0 <= l <= level ==> !LevelOverlaps(v, l, smallest, largest)
        invariant forall l :: 2 <= l <= level + 1 ==> !TooMuchBelow(v, l, smallest, largest, options)
      {
        var overlaps := OverlapInLevel(v, level + 1, smallest, largest);
        if overlaps {
          break;
        }
        if level + 2 < NUM_LEVELS {
          LevelWellFormed(v, level + 2);
          var under, _, _ := GetOverlappingInputs(v.files[level + 2], level + 2, Some(smallest), Some(largest));
          var sum := TotalFileSize(under);
          if sum > MaxGrandParentOverlapBytes(options) {
            break;
          }
        }
        level := level + 1;
      }
    }
  }

  lemma PickedLevelIsSafe(v: Version, level: nat, f: FileMetaData)
    requires LevelsOk(v) && level <= MAX_MEM_COMPACT_LEVEL && WellFormed(f)
    requires level > 0 ==> forall l :: 0 <= l <= level ==> !LevelOverlaps(v, l, f.smallest.user, f.largest.user)
    ensures FlushLevelOk(v, level, f)
  {
    forall l, g | level > 0 && 0 <= l <= level && Holds(v, l, g) ensures !Meet(f, g) {
      assert !LevelOverlaps(v, l, f.smallest.user, f.largest.user);
    }
  }

  // ----- edits and what they do to a version -----

  ghost predicate IsEdited(v: Version, w: Version, edit: VersionEdit) {
    && |v.files| == |w.files| == NUM_LEVELS
    && forall l :: 0 <= l < NUM_LEVELS ==>
         SortedBySmallest(w.files[l]) && LevelSet(w, l) == Edited(LevelSet(v, l), edit, l)
  }

  lemma FlushEdit(v: Version, w: Version, edit: VersionEdit, level: nat, f: FileMetaData)
    requires LevelsOk(v) && level < NUM_LEVELS
    requires edit.deletedFiles == {} && edit.newFiles == [(level, f)]
    requires IsEdited(v, w, edit)
    ensures IsFlush(v, w, level, f)
  {
    forall l: nat ensures AddedAt(edit, l) == if l == level then {f} else {} {
      if l == level {
        assert edit.newFiles[0].0 == level && edit.newFiles[0].1 in AddedAt(edit, l);
      }
    }
    forall l, g ensures Holds(w, l, g) <==> Holds(v, l, g) || (l == level && g == f) {
      if 0 <= l < NUM_LEVELS {
        assert DeletedAt(edit, l) == {};
        assert g in w.files[l] <==> g in LevelSet(w, l);
        assert g in v.files[l] <==> g in LevelSet(v, l);
      }
    }
  }

  lemma FlushEditFresh(v: Version, edit: VersionEdit, level: nat, f: FileMetaData)
    requires LevelsOk(v) && NumbersBelow(v, f.number)
    requires edit.newFiles == [(level, f)]
    ensures forall l :: 0 <= l < NUM_LEVELS ==> AddsFresh(edit, l, LevelSet(v, l))
  {
    forall l, g, h | 0 <= l < NUM_LEVELS && g in LevelSet(v, l) && h in AddedAt(edit, l) ensures g.number != h.number {
      assert Holds(v, l, g);
    }
  }

  /** The edit of a finished compaction: its inputs deleted by number, its outputs added below. */
  ghost predicate IsCompactionEdit(edit: VersionEdit, level: nat, inputs0: seq<FileMetaData>, inputs1: seq<FileMetaData>,
                                   outputs: seq<FileMetaData>) {
    && (forall l, n :: (l, n) in edit.deletedFiles <==>
          || (l == level && exists f :: f in inputs0 && f.number == n)
          || (l == level + 1 && exists f :: f in inputs1 && f.number == n))
    && |edit.newFiles| == |outputs|
    && forall i :: 0 <= i < |outputs| ==> edit.newFiles[i] == (level + 1, outputs[i])
  }

  lemma CompactionEditAdds(edit: VersionEdit, level: nat, inputs0: seq<FileMetaData>, inputs1: seq<FileMetaData>,
                           outputs: seq<FileMetaData>, l: nat)
    requires IsCompactionEdit(edit, level, inputs0, inputs1, outputs)
    ensures AddedAt(edit, l) == if l == level + 1 then FileSet(outputs) else {}
  {
    forall f ensures f in AddedAt(edit, l) <==> l == level + 1 && f in outputs {
      if f in outputs && l == level + 1 {
        var i :| 0 <= i < |outputs| && outputs[i] == f;
        assert edit.newFiles[i].0 == l && edit.newFiles[i].1 == f;
      }
    }
  }

  /** No number of an output is that of a file that stays at the output level or of a deleted one. */
  ghost predicate OutputsApart(v: Version, level: nat, outputs: seq<FileMetaData>) {
    forall f, o :: Holds(v, level + 1, f) && o in outputs ==> f.number != o.number
  }

  ghost predicate DistinctNumbers(outputs: seq<FileMetaData>) {
    forall i, j :: 0 <= i < j < |outputs| ==> outputs[i].number != outputs[j].number
  }

  lemma CompactionEditFresh(v: Version, edit: VersionEdit, level: nat, inputs0: seq<FileMetaData>, inputs1: seq<FileMetaData>,
                            outputs: seq<FileMetaData>)
    requires LevelsOk(v) && level + 1 < NUM_LEVELS
    requires IsCompactionEdit(edit, level, inputs0, inputs1, outputs)
    requires OutputsApart(v, level, outputs) && DistinctNumbers(outputs)
    ensures forall l :: 0 <= l < NUM_LEVELS ==> AddsFresh(edit, l, LevelSet(v, l))
    ensures EditOkFiles(edit)
  {
    forall l | 0 <= l < NUM_LEVELS ensures AddsFresh(edit, l, LevelSet(v, l)) {
      CompactionEditAdds(edit, level, inputs0, inputs1, outputs, l);
      forall f | f in LevelSet(v, l) ensures Holds(v, l, f) {
      }
    }
    forall p | p in edit.deletedFiles ensures p.0 < NUM_LEVELS {
      assert (p.0, p.1) in edit.deletedFiles;
    }
  }

  predicate EditOkFiles(edit: VersionEdit) {
    && (forall i :: 0 <= i < |edit.newFiles| ==> edit.newFiles[i].0 < NUM_LEVELS)
    && (forall p :: p in edit.deletedFiles ==> p.0 < NUM_LEVELS)
  }

  lemma CompactionEditReplaces(v: Version, w: Version, edit: VersionEdit, level: nat, inputs0: seq<FileMetaData>,
                               inputs1: seq<FileMetaData>, outputs: seq<FileMetaData>)
    requires LevelsOk(v) && NumbersUnique(v) && level + 1 < NUM_LEVELS
    requires forall f :: f in inputs0 ==> Holds(v, level, f)
    requires forall f :: f in inputs1 ==> Holds(v, level + 1, f)
    requires IsCompactionEdit(edit, level, inputs0, inputs1, outputs)
    requires OutputsApart(v, level, outputs)
    requires IsEdited(v, w, edit)
    ensures IsReplacement(v, w, level, inputs0, inputs1, outputs)
  {
    forall l, f ensures Holds(w, l, f) <==>
        (Holds(v, l, f) && !IsInput(l, f, level, inputs0, inputs1)) || (l == level + 1 && f in outputs)
    {
      if 0 <= l < NUM_LEVELS {
        EditedMember(v, w, edit, level, inputs0, inputs1, outputs, l, f);
      }
    }
  }

  lemma EditedMember(v: Version, w: Version, edit: VersionEdit, level: nat, inputs0: seq<FileMetaData>,
                     inputs1: seq<FileMetaData>, outputs: seq<FileMetaData>, l: nat, f: FileMetaData)
    requires LevelsOk(v) && NumbersUnique(v) && level + 1 < NUM_LEVELS && l < NUM_LEVELS
    requires forall f :: f in inputs0 ==> Holds(v, level, f)
    requires forall f :: f in inputs1 ==> Holds(v, level + 1, f)
    requires IsCompactionEdit(edit, level, inputs0, inputs1, outputs)
    requires OutputsApart(v, level, outputs)
    requires IsEdited(v, w, edit)
    ensures Holds(w, l, f) <==>
              (Holds(v, l, f) && !IsInput(l, f, level, inputs0, inputs1)) || (l == level + 1 && f in outputs)
  {
    hide LevelsOk, IsEdited;
    CompactionEditAdds(edit, level, inputs0, inputs1, outputs, l);
    assert |v.files| == NUM_LEVELS && |w.files| == NUM_LEVELS && LevelSet(w, l) == Edited(LevelSet(v, l), edit, l) by {
      EditedAt(v, w, edit, l);
    }
    assert Holds(w, l, f) <==> f in LevelSet(w, l);
    assert Holds(v, l, f) <==> f in LevelSet(v, l);
    assert f.number in DeletedAt(edit, l) <==> (l, f.number) in edit.deletedFiles by {
      if (l, f.number) in edit.deletedFiles {
        var p := (l, f.number);
        assert p in edit.deletedFiles && p.0 == l && p.1 == f.number;
      }
    }
    if Holds(v, l, f) {
      assert (l, f.number) in edit.deletedFiles <==> IsInput(l, f, level, inputs0, inputs1);
      if l == level + 1 {
        forall o | o in outputs ensures o.number != f.number {
        }
      }
      assert f.number !in Numbers(AddedAt(edit, l));
    }
    if l == level + 1 && f in outputs {
      assert f.number in Numbers(AddedAt(edit, l));
    }
  }

  lemma EditedAt(v: Version, w: Version, edit: VersionEdit, l: nat)
    requires IsEdited(v, w, edit) && l < NUM_LEVELS
    ensures |v.files| == NUM_LEVELS && |w.files| == NUM_LEVELS
    ensures LevelSet(w, l) == Edited(LevelSet(v, l), edit, l)
  {
  }

  // ----- the version set -----

  /** File `i` is the first whose largest key is after the pointer, or the first of all if there is none. */
  ghost predicate IsFirstAfter(files: seq<FileMetaData>, pointer: Option<InternalKey>, i: nat)
    requires i < |files|
  {
    && (i > 0 ==> pointer.Some?) && (forall j :: 0 <= j < i ==> AtMost(files[j].largest, pointer.value))
    && (pointer.None? || Less(pointer.value, files[i].largest)
        || (i == 0 && forall j :: 0 <= j < |files| ==> AtMost(files[j].largest, pointer.value)))
  }

  method FirstAfterPointer(files: seq<FileMetaData>, pointer: Option<InternalKey>) returns (f: FileMetaData)
    requires files != []
    ensures exists i :: 0 <= i < |files| && files[i] == f && IsFirstAfter(files, pointer, i)
  {
    for i := 0 to |files|
      invariant (i > 0 ==> pointer.Some?) && forall j :: 0 <= j < i ==> AtMost(files[j].largest, pointer.value)
    {
      if pointer.None? || Compare(files[i].largest, pointer.value) > 0 {
        assert IsFirstAfter(files, pointer, i);
        return files[i];
      }
    }
    assert IsFirstAfter(files, pointer, 0);
    f := files[0];
  }

  class VersionSet {
    const options: Options
    var current: Version
    var compactPointer: seq<Option<InternalKey>>
    var nextFileNumber: nat
    var lastSequence: SequenceNumber

    ghost predicate Valid() reads this {
      VersionOk(current) && |compactPointer| == NUM_LEVELS
    }

    constructor (options: Options)
      ensures Valid() && this.options == options
      ensures current == Version(seq(NUM_LEVELS, _ => [])) && nextFileNumber == 2 && lastSequence == 0
      ensures compactPointer == seq(NUM_LEVELS, _ => None)
    {
      this.options := options;
      current := Version(seq(NUM_LEVELS, _ => []));
      compactPointer := seq(NUM_LEVELS, _ => None);
      nextFileNumber, lastSequence := 2, 0;
      new;
      assert forall l, f :: !Holds(current, l, f);
      assert Entries(current) == {};
    }

    method NewFileNumber() returns (n: nat)
      modifies this`nextFileNumber
      ensures n == old(nextFileNumber) && nextFileNumber == n + 1
    {
      n := nextFileNumber;
      nextFileNumber := nextFileNumber + 1;
    }

    /** Builds the version the edit leads to and makes it current. */
    method LogAndApply(edit: VersionEdit)
      requires LevelsOk(current) && |compactPointer| == NUM_LEVELS
      requires EditOk(edit)
      requires forall l :: 0 <= l < NUM_LEVELS ==> AddsFresh(edit, l, LevelSet(current, l))
      modifies this`current, this`compactPointer
      ensures IsEdited(old(current), current, edit)
      ensures compactPointer == PointersAfter(old(compactPointer), edit.compactPointers)
    {
      LevelsSortedBySmallest(current);
      var builder := new Builder(current, compactPointer);
      builder.Apply(edit);
      current := builder.SaveTo();
      compactPointer := builder.compactPointer;
    }

    /** Picks the inputs of a compaction of the level: from the given file, or from the first file
        after the level's compaction pointer. The pointer moves to the end of what was picked. */
    method PickCompaction(level: nat, fileToCompact: Option<FileMetaData>)
      returns (inputs0: seq<FileMetaData>, inputs1: seq<FileMetaData>, grandparents: seq<FileMetaData>, largest: InternalKey)
      requires Valid() && level + 1 < NUM_LEVELS && current.files[level] != []
      requires fileToCompact.Some? ==> fileToCompact.value in current.files[level]
      modifies this`compactPointer
      ensures Valid()
      ensures InputsOk(current, level, inputs0, inputs1) && GapFree(inputs0 + inputs1)
      ensures NoDuplicates(inputs0) && NoDuplicates(inputs1)
      ensures fileToCompact.Some? ==> fileToCompact.value in inputs0
      ensures fileToCompact.None? ==>
                exists i :: 0 <= i < |current.files[level]| && current.files[level][i] in inputs0
                            && IsFirstAfter(current.files[level], old(compactPointer)[level], i)
      ensures IsLargest(inputs0, largest) && compactPointer == old(compactPointer)[level := Some(largest)]
      ensures level + 2 < NUM_LEVELS ==> TakesOverlapping(current.files[level + 2], inputs0 + inputs1, grandparents)
      ensures level + 2 >= NUM_LEVELS ==> grandparents == []
    {
      hide Layered, NumbersUnique, Unique, InputsOk;
      var f;
      if fileToCompact.Some? {
        f := fileToCompact.value;
      } else {
        f := FirstAfterPointer(current.files[level], compactPointer[level]);
      }
      var picked := PickedInputs(current, level, f);
      inputs0, inputs1, largest := ChooseInputs(current, level, picked, ExpandedCompactionByteSizeLimit(options));
      var all := inputs0 + inputs1;
      assert f in inputs0 && all != [];
      var allStart, allLimit := GetRange(all);
      if level + 2 < NUM_LEVELS {
        LevelWellFormed(current, level + 2);
        ghost var b, e;
        grandparents, b, e := GetOverlappingInputs(current.files[level + 2], level + 2, Some(allStart.user), Some(allLimit.user));
        TakesOverlappingHull(current.files[level + 2], all, allStart, allLimit);
      } else {
        grandparents := [];
      }
      compactPointer := compactPointer[level := Some(largest)];
    }
  }

  /** The files a compaction starts from: one file, or at level 0 all files it transitively overlaps. */
  method PickedInputs(v: Version, level: nat, f: FileMetaData) returns (picked: seq<FileMetaData>)
    requires LevelsOk(v) && level + 1 < NUM_LEVELS && f in v.files[level]
    ensures f in picked && ClosedInputs(v.files[level], level, picked) && GapFree(picked)
  {
    LevelWellFormed(v, level);
    SmallestAtMostLargest(f);
    if level == 0 {
      var smallest, largest := GetRange([f]);
      assert f in [f] && smallest == f.smallest && largest == f.largest;
      ghost var b, e;
      picked, b, e := GetOverlappingInputs(v.files[0], 0, Some(smallest.user), Some(largest.user));
      OverlappingMembers(v.files[0], b, e);
      OverlappingIsClosed(v.files[0], 0, b.value, e.value);
      PickedIsGapFree(v.files[0], f, b.value, e.value);
    } else {
      picked := [f];
      SingleIsConvex(v.files[level], f);
      SingleIsGapFree(f);
    }
  }

  lemma SingleIsConvex(files: seq<FileMetaData>, f: FileMetaData)
    requires AllWellFormed(files) && f in files
    ensures Convex(files, [f])
  {
    SmallestAtMostLargest(f);
    forall x | x in files ensures !(Less(f.largest, x.smallest) && Less(x.largest, f.smallest)) {
      SmallestAtMostLargest(x);
    }
  }

  lemma PickedIsGapFree(files: seq<FileMetaData>, f: FileMetaData, b: UserKey, e: UserKey)
    requires AllWellFormed(files) && f in files
    requires Grown(files, Some(f.smallest.user), Some(f.largest.user), Some(b), Some(e)) && OverlapClosed(files, Some(b), Some(e))
    ensures GapFree(Overlapping(files, Some(b), Some(e)))
  {
    var r := Overlapping(files, Some(b), Some(e));
    OverlappingMembers(files, Some(b), Some(e));
    forall u | f.smallest.user <= u <= f.largest.user ensures Covered([f], u) {
      assert f in [f] && Spans(f, u);
    }
    assert f in r;
    assert [] + r == r;
    ScanIsGapFree(files, [f], [], f.smallest.user, f.largest.user, b, e);
  }
}
