/** SetupOtherInputs and PickCompaction. */
module CompactionPicking {
  import opened InternalKeys
  import opened Versions
  import opened FileSearch
  import opened BoundaryFiles
  import opened CompactionInputs

  /** One round of input collection: close the picked files at their upper boundary and take what
      they meet in the next level. `others` are files already known to join up with the picked ones. */
  method CollectInputs(v: Version, level: nat, picked: seq<FileMetaData>, ghost others: seq<FileMetaData>)
    returns (inputs0: seq<FileMetaData>, inputs1: seq<FileMetaData>, smallest: InternalKey, largest: InternalKey)
    requires LevelsOk(v) && Unique(Entries(v)) && level + 1 < NUM_LEVELS
    requires picked != [] && ClosedInputs(v.files[level], level, picked)
    ensures Includes(inputs0, picked) && inputs0 != [] && InputsOk(v, level, inputs0, inputs1)
    ensures NoDuplicates(inputs0) && NoDuplicates(inputs1)
    ensures ClosedInputs(v.files[level], level, inputs0)
    ensures IsSmallest(inputs0, smallest) && IsLargest(inputs0, largest)
    ensures inputs1 == Overlapping(v.files[level + 1], Some(smallest.user), Some(largest.user))
    ensures GapFree(others + picked) ==> GapFree(others + inputs0) && GapFree(others + inputs0 + inputs1)
  {
    LevelWellFormed(v, level);
    LevelWellFormed(v, level + 1);
    if level == 0 {
      SeparatedIsBoundaryClosed(v.files[0], picked);
    }
    inputs0 := AddBoundaryInputs(v.files[level], picked, others);
    smallest, largest := GetRange(inputs0);
    ClosedLeavesNewer(v, level, inputs0, largest);
    ghost var b, e;
    inputs1, b, e := GetOverlappingInputs(v.files[level + 1], level + 1, Some(smallest.user), Some(largest.user));
    OverlappingMembers(v.files[level + 1], b, e);
    OverlappingNoDuplicates(v.files[level + 1], b, e);
    TakesOverlappingHull(v.files[level + 1], inputs0, smallest, largest);
    if GapFree(others + inputs0) {
      HullExtends(inputs0, others + inputs0, smallest, largest, inputs1);
    }
  }

  /** The files of the level that meet the whole range picked so far. */
  method WidenInputs(v: Version, level: nat, inputs0: seq<FileMetaData>, inputs1: seq<FileMetaData>,
                     allStart: InternalKey, allLimit: InternalKey) returns (expanded0: seq<FileMetaData>)
    requires LevelsOk(v) && level + 1 < NUM_LEVELS
    requires inputs0 != [] && ClosedInputs(v.files[level], level, inputs0) && AllWellFormed(inputs1)
    requires IsSmallest(inputs0 + inputs1, allStart) && IsLargest(inputs0 + inputs1, allLimit)
    ensures ClosedInputs(v.files[level], level, expanded0) && Includes(expanded0, inputs0)
    ensures GapFree(inputs0 + inputs1) ==> GapFree(inputs1 + expanded0)
  {
    LevelWellFormed(v, level);
    var files := v.files[level];
    var all := inputs0 + inputs1;
    ghost var b, e;
    expanded0, b, e := GetOverlappingInputs(files, level, Some(allStart.user), Some(allLimit.user));
    OverlappingMembers(files, b, e);
    OverlappingIsClosed(files, level, b.value, e.value);
    forall f | f in inputs0 ensures f in expanded0 {
      HullOverlaps(all, allStart, allLimit, f);
    }
    if GapFree(all) {
      WidenedIsGapFree(files, level, inputs0, inputs1, allStart, allLimit, b.value, e.value);
    }
  }

  lemma HullOverlaps(all: seq<FileMetaData>, lo: InternalKey, hi: InternalKey, f: FileMetaData)
    requires IsSmallest(all, lo) && IsLargest(all, hi) && f in all && WellFormed(f)
    ensures lo.user <= f.smallest.user && f.largest.user <= hi.user
    ensures forall b, e :: Widens(b, e, Some(lo.user), Some(hi.user)) ==> Overlaps(f, b, e)
  {
    SmallestAtMostLargest(f);
    assert AtMost(lo, f.smallest) && AtMost(f.largest, hi);
  }

  lemma WidenedIsGapFree(files: seq<FileMetaData>, level: nat, inputs0: seq<FileMetaData>, inputs1: seq<FileMetaData>,
                         lo: InternalKey, hi: InternalKey, b: UserKey, e: UserKey)
    requires AllWellFormed(files) && AllWellFormed(inputs1) && (forall f :: f in inputs0 ==> f in files)
    requires IsSmallest(inputs0 + inputs1, lo) && IsLargest(inputs0 + inputs1, hi)
    requires GapFree(inputs0 + inputs1)
    requires Grown(files, Some(lo.user), Some(hi.user), Some(b), Some(e))
    requires if level == 0 then OverlapClosed(files, Some(b), Some(e)) else b == lo.user && e == hi.user
    ensures GapFree(inputs1 + Overlapping(files, Some(b), Some(e)))
  {
    var all := inputs0 + inputs1;
    var r := Overlapping(files, Some(b), Some(e));
    OverlappingMembers(files, Some(b), Some(e));
    forall f | f in all ensures f in inputs1 + r && WellFormed(f) {
      HullOverlaps(all, lo, hi, f);
    }
    if level == 0 {
      forall u | lo.user <= u <= hi.user ensures Covered(all, u) {
        HullCovered(all, all, lo, hi, u);
      }
      forall f | f in inputs1 ensures lo.user <= f.smallest.user && f.largest.user <= hi.user {
        assert f in all;
        HullOverlaps(all, lo, hi, f);
      }
      ScanIsGapFree(files, all, inputs1, lo.user, hi.user, b, e);
    } else {
      HullExtends(all, all, lo, hi, r);
      SameFilesGapFree(all + r, inputs1 + r);
    }
  }

  /** Growing the inputs keeps the next level's contribution, and with it gap-freedom. */
  lemma ExpansionIsGapFree(v: Version, level: nat, inputs0: seq<FileMetaData>, inputs1: seq<FileMetaData>,
                           smallest: InternalKey, largest: InternalKey, expanded0: seq<FileMetaData>,
                           newStart: InternalKey, newLimit: InternalKey)
    requires LevelsOk(v) && level + 1 < NUM_LEVELS
    requires AllWellFormed(inputs0) && Includes(expanded0, inputs0)
    requires IsSmallest(inputs0, smallest) && IsLargest(inputs0, largest)
    requires inputs1 == Overlapping(v.files[level + 1], Some(smallest.user), Some(largest.user))
    requires IsSmallest(expanded0, newStart) && IsLargest(expanded0, newLimit)
    requires GapFree(inputs1 + expanded0 + Overlapping(v.files[level + 1], Some(newStart.user), Some(newLimit.user)))
    ensures GapFree(expanded0 + Overlapping(v.files[level + 1], Some(newStart.user), Some(newLimit.user)))
  {
    LevelWellFormed(v, level + 1);
    var next := v.files[level + 1];
    var expanded1 := Overlapping(next, Some(newStart.user), Some(newLimit.user));
    OverlappingMembers(next, Some(smallest.user), Some(largest.user));
    OverlappingMembers(next, Some(newStart.user), Some(newLimit.user));
    var f :| f in inputs0 && f.smallest == smallest;
    var g :| g in inputs0 && g.largest == largest;
    assert AtMost(newStart, f.smallest) && AtMost(g.largest, newLimit);
    assert Includes(expanded1, inputs1);
    SameFilesGapFree(inputs1 + expanded0 + expanded1, expanded0 + expanded1);
  }

  lemma SameNextFiles(next: seq<FileMetaData>, inputs0: seq<FileMetaData>, smallest: InternalKey, largest: InternalKey,
                      expanded0: seq<FileMetaData>, newStart: InternalKey, newLimit: InternalKey)
    requires Includes(expanded0, inputs0) && IsSmallest(inputs0, smallest) && IsLargest(inputs0, largest)
    requires IsSmallest(expanded0, newStart) && IsLargest(expanded0, newLimit)
    ensures var few := Overlapping(next, Some(smallest.user), Some(largest.user));
            var many := Overlapping(next, Some(newStart.user), Some(newLimit.user));
            |few| == |many| ==> few == many
  {
    var f :| f in inputs0 && f.smallest == smallest;
    var g :| g in inputs0 && g.largest == largest;
    assert AtMost(newStart, f.smallest) && AtMost(g.largest, newLimit);
    OverlappingWidened(next, Some(smallest.user), Some(largest.user), Some(newStart.user), Some(newLimit.user));
  }

  /** Takes more files of the level when that adds none of the next level and stays small enough. */
  method ExpandInputs(v: Version, level: nat, inputs0: seq<FileMetaData>, inputs1: seq<FileMetaData>,
                      smallest: InternalKey, largest: InternalKey, expandedLimit: nat)
    returns (r0: seq<FileMetaData>, r1: seq<FileMetaData>, newLargest: InternalKey)
    requires LevelsOk(v) && Unique(Entries(v)) && level + 1 < NUM_LEVELS
    requires ClosedInputs(v.files[level], level, inputs0) && InputsOk(v, level, inputs0, inputs1)
    requires IsSmallest(inputs0, smallest) && IsLargest(inputs0, largest)
    requires inputs1 == Overlapping(v.files[level + 1], Some(smallest.user), Some(largest.user))
    ensures InputsOk(v, level, r0, r1) && Includes(r0, inputs0) && IsLargest(r0, newLargest)
    ensures NoDuplicates(inputs1) ==> NoDuplicates(r0) && NoDuplicates(r1)
    ensures GapFree(inputs0 + inputs1) ==> GapFree(r0 + r1)
    ensures r1 == inputs1
    ensures r0 == inputs0 || (|r0| > |inputs0| && SumOfSizes(inputs1) + SumOfSizes(r0) < expandedLimit)
  {
    hide InputsOk, GapFree, NoDuplicates;
    LevelWellFormed(v, level);
    LevelWellFormed(v, level + 1);
    OverlappingMembers(v.files[level + 1], Some(smallest.user), Some(largest.user));
    r0, r1, newLargest := inputs0, inputs1, largest;
    var allStart, allLimit := GetRange(inputs0 + inputs1);
    var widened0 := WidenInputs(v, level, inputs0, inputs1, allStart, allLimit);
    var expanded0, expanded1, newStart, newLimit := CollectInputs(v, level, widened0, inputs1);
    var inputs0Size := TotalFileSize(inputs0);
    var inputs1Size := TotalFileSize(inputs1);
    var expanded0Size := TotalFileSize(expanded0);
    if |expanded0| > |inputs0| && inputs1Size + expanded0Size < expandedLimit && |expanded1| == |inputs1| {
      if GapFree(inputs0 + inputs1) {
        ExpansionIsGapFree(v, level, inputs0, inputs1, smallest, largest, expanded0, newStart, newLimit);
      }
      SameNextFiles(v.files[level + 1], inputs0, smallest, largest, expanded0, newStart, newLimit);
      r0, r1, newLargest := expanded0, expanded1, newLimit;
    }
  }

  /** The inputs of a compaction that starts from `picked`: closed at the boundary, with the meeting
      files of the next level, grown within the level when that is free and small enough. */
  method ChooseInputs(v: Version, level: nat, picked: seq<FileMetaData>, expandedLimit: nat)
    returns (inputs0: seq<FileMetaData>, inputs1: seq<FileMetaData>, largest: InternalKey)
    requires LevelsOk(v) && Unique(Entries(v)) && level + 1 < NUM_LEVELS
    requires picked != [] && ClosedInputs(v.files[level], level, picked)
    ensures InputsOk(v, level, inputs0, inputs1)
    ensures NoDuplicates(inputs0) && NoDuplicates(inputs1)
    ensures Includes(inputs0, picked)
    ensures IsLargest(inputs0, largest)
    ensures GapFree(picked) ==> GapFree(inputs0 + inputs1)
  {
    hide LevelsOk, Unique, InputsOk, ClosedInputs, GapFree, NoDuplicates, IsLargest, IsSmallest, Includes, Overlapping;
    var smallest;
    inputs0, inputs1, smallest, largest := CollectInputs(v, level, picked, []);
    assert [] + picked == picked && [] + inputs0 == inputs0;
    if inputs1 != [] {
      ghost var collected := inputs0;
      inputs0, inputs1, largest := ExpandInputs(v, level, inputs0, inputs1, smallest, largest, expandedLimit);
      IncludesThrough(inputs0, collected, picked);
    }
  }

  lemma IncludesThrough(a: seq<FileMetaData>, b: seq<FileMetaData>, c: seq<FileMetaData>)
    requires Includes(a, b) && Includes(b, c)
    ensures Includes(a, c)
  {
  }
}
