/** Choosing the input files of a compaction. */
module CompactionInputs {
  import opened InternalKeys
  import opened Versions
  import opened FileSearch
  import opened BoundaryFiles

  /** What the inputs of any compaction satisfy: nothing older is left behind in the level, and the
      next level contributes every file meeting the key range of the level's inputs. */
  ghost predicate InputsOk(v: Version, level: nat, inputs0: seq<FileMetaData>, inputs1: seq<FileMetaData>) {
    && level + 1 < |v.files|
    && inputs0 != []
    && (forall f :: f in inputs0 ==> f in v.files[level])
    && LeavesNewer(v.files[level], inputs0)
    && TakesOverlapping(v.files[level + 1], inputs0, inputs1)
  }

  ghost predicate TakesOverlapping(next: seq<FileMetaData>, inputs0: seq<FileMetaData>, inputs1: seq<FileMetaData>) {
    forall lo, hi :: IsSmallest(inputs0, lo) && IsLargest(inputs0, hi) ==>
      inputs1 == Overlapping(next, Some(lo.user), Some(hi.user))
  }

  lemma TakesOverlappingHull(next: seq<FileMetaData>, inputs0: seq<FileMetaData>, lo: InternalKey, hi: InternalKey)
    requires IsSmallest(inputs0, lo) && IsLargest(inputs0, hi)
    ensures TakesOverlapping(next, inputs0, Overlapping(next, Some(lo.user), Some(hi.user)))
  {
    forall l, h | IsSmallest(inputs0, l) && IsLargest(inputs0, h) ensures l == lo && h == hi {
      var f :| f in inputs0 && f.smallest == l;
      var g :| g in inputs0 && g.smallest == lo;
      assert AtMost(lo, f.smallest) && AtMost(l, g.smallest);
      LargestUnique(inputs0, hi);
    }
  }

  /** The closure each kind of level needs of its inputs. */
  ghost predicate ClosedInputs(files: seq<FileMetaData>, level: nat, inputs: seq<FileMetaData>) {
    && (forall f :: f in inputs ==> f in files)
    && NoDuplicates(inputs)
    && if level == 0 then Separated(files, inputs) else Convex(files, inputs)
  }

  lemma ClosedLeavesNewer(v: Version, level: nat, inputs: seq<FileMetaData>, key: InternalKey)
    requires LevelsOk(v) && Unique(Entries(v)) && level < NUM_LEVELS
    requires ClosedInputs(v.files[level], level, inputs) && BoundaryClosed(v.files[level], inputs) && IsLargest(inputs, key)
    ensures LeavesNewer(v.files[level], inputs)
  {
    assert forall f :: f in v.files[level] ==> Holds(v, level, f);
    if level == 0 {
      SeparatedLeavesNewer(v.files[level], inputs);
    } else {
      ConvexLeavesNewer(v.files[level], inputs, key, Entries(v));
    }
  }

  lemma OverlappingIsClosed(files: seq<FileMetaData>, level: nat, b: UserKey, e: UserKey)
    requires AllWellFormed(files) && NoDuplicates(files)
    requires level == 0 ==> OverlapClosed(files, Some(b), Some(e))
    ensures ClosedInputs(files, level, Overlapping(files, Some(b), Some(e)))
  {
    var r := Overlapping(files, Some(b), Some(e));
    OverlappingMembers(files, Some(b), Some(e));
    OverlappingNoDuplicates(files, Some(b), Some(e));
    if level == 0 {
      forall x, f | x in files && f in r && Meet(x, f) ensures x in r {
        assert ContainedIn(f, Some(b), Some(e));
      }
    } else {
      forall f, x, g | f in r && g in r && x in files && Less(f.largest, x.smallest) && Less(x.largest, g.smallest)
        ensures x in r
      {
        SmallestAtMostLargest(x);
      }
    }
  }

  // ----- coverage -----

  predicate Includes(big: seq<FileMetaData>, small: seq<FileMetaData>) {
    forall f :: f in small ==> f in big
  }

  lemma CoveredIncludes(big: seq<FileMetaData>, small: seq<FileMetaData>, u: UserKey)
    requires Includes(big, small) && Covered(small, u)
    ensures Covered(big, u)
  {
    var f :| f in small && Spans(f, u);
    assert f in big;
  }

  lemma SameFilesGapFree(a: seq<FileMetaData>, b: seq<FileMetaData>)
    requires Includes(a, b) && Includes(b, a) && GapFree(a)
    ensures GapFree(b)
  {
    forall u, w, z | Covered(b, u) && Covered(b, z) && u <= w <= z ensures Covered(b, w) {
      CoveredIncludes(a, b, u);
      CoveredIncludes(a, b, z);
      assert Covered(a, w);
      CoveredIncludes(b, a, w);
    }
  }

  /** A gap-free set covers its whole hull. */
  lemma HullCovered(files: seq<FileMetaData>, within: seq<FileMetaData>, lo: InternalKey, hi: InternalKey, u: UserKey)
    requires AllWellFormed(files) && IsSmallest(files, lo) && IsLargest(files, hi)
    requires Includes(within, files) && GapFree(within)
    requires lo.user <= u <= hi.user
    ensures Covered(within, u)
  {
    var f :| f in files && f.smallest == lo;
    var g :| g in files && g.largest == hi;
    SmallestAtMostLargest(f);
    SmallestAtMostLargest(g);
    assert f in within && Spans(f, lo.user) && Covered(within, lo.user);
    assert g in within && Spans(g, hi.user) && Covered(within, hi.user);
  }

  /** Whatever overlaps the hull of a gap-free set touches it. */
  lemma OverlapTouches(files: seq<FileMetaData>, within: seq<FileMetaData>, lo: InternalKey, hi: InternalKey, g: FileMetaData)
    requires AllWellFormed(files) && IsSmallest(files, lo) && IsLargest(files, hi)
    requires Includes(within, files) && GapFree(within)
    requires WellFormed(g) && Overlaps(g, Some(lo.user), Some(hi.user))
    ensures Touches(within, g)
  {
    SmallestAtMostLargest(g);
    HullOrdered(files, lo, hi);
    var u := if lo.user > g.smallest.user then lo.user else g.smallest.user;
    HullCovered(files, within, lo, hi, u);
    assert Spans(g, u);
  }

  lemma HullOrdered(files: seq<FileMetaData>, lo: InternalKey, hi: InternalKey)
    requires AllWellFormed(files) && IsSmallest(files, lo) && IsLargest(files, hi)
    ensures lo.user <= hi.user
  {
    var f :| f in files && f.smallest == lo;
    SmallestAtMostLargest(f);
    assert AtMost(f.largest, hi);
  }

  lemma HullExtends(files: seq<FileMetaData>, within: seq<FileMetaData>, lo: InternalKey, hi: InternalKey, more: seq<FileMetaData>)
    requires AllWellFormed(files) && IsSmallest(files, lo) && IsLargest(files, hi)
    requires Includes(within, files) && GapFree(within)
    requires AllWellFormed(more) && (forall g :: g in more ==> Overlaps(g, Some(lo.user), Some(hi.user)))
    ensures GapFree(within + more)
  {
    forall g | g in more ensures Touches(within, g) {
      OverlapTouches(files, within, lo, hi, g);
    }
    GapFreeExtends(within, more);
  }

  /** A grown level-0 scan whose query is covered by `core` yields a gap-free set with it. */
  lemma ScanIsGapFree(files: seq<FileMetaData>, core: seq<FileMetaData>, rest: seq<FileMetaData>,
                      begin: UserKey, end: UserKey, b: UserKey, e: UserKey)
    requires AllWellFormed(files) && AllWellFormed(rest)
    requires Grown(files, Some(begin), Some(end), Some(b), Some(e)) && OverlapClosed(files, Some(b), Some(e))
    requires forall u :: begin <= u <= end ==> Covered(core, u)
    requires forall f :: f in rest ==> begin <= f.smallest.user && f.largest.user <= end
    requires Includes(rest + Overlapping(files, Some(b), Some(e)), core)
    ensures GapFree(rest + Overlapping(files, Some(b), Some(e)))
  {
    var r := Overlapping(files, Some(b), Some(e));
    OverlappingMembers(files, Some(b), Some(e));
    forall u, w, z | Covered(rest + r, u) && Covered(rest + r, z) && u <= w <= z ensures Covered(rest + r, w) {
      ScanSpan(files, rest, begin, end, b, e, u);
      ScanSpan(files, rest, begin, end, b, e, z);
      if begin <= w <= end {
        CoveredIncludes(rest + r, core, w);
      } else {
        GrownIsCovered(files, Some(begin), Some(end), Some(b), Some(e), w);
        CoveredIncludes(rest + r, r, w);
      }
    }
  }

  lemma ScanSpan(files: seq<FileMetaData>, rest: seq<FileMetaData>, begin: UserKey, end: UserKey, b: UserKey, e: UserKey, u: UserKey)
    requires OverlapClosed(files, Some(b), Some(e)) && b <= begin && end <= e
    requires forall f :: f in rest ==> begin <= f.smallest.user && f.largest.user <= end
    requires Covered(rest + Overlapping(files, Some(b), Some(e)), u)
    ensures b <= u <= e
  {
    OverlappingMembers(files, Some(b), Some(e));
    var f :| f in rest + Overlapping(files, Some(b), Some(e)) && Spans(f, u);
    assert f in rest || ContainedIn(f, Some(b), Some(e));
  }

  // ----- sizes -----

  ghost function SumOfSizes(files: seq<FileMetaData>): nat {
    if files == [] then 0 else SumOfSizes(files[..|files| - 1]) + files[|files| - 1].fileSize
  }

  method TotalFileSize(files: seq<FileMetaData>) returns (sum: nat)
    ensures sum == SumOfSizes(files)
  {
    sum := 0;
    for i := 0 to |files|
      invariant sum == SumOfSizes(files[..i])
    {
      sum := sum + files[i].fileSize;
      assert files[..i + 1][..i] == files[..i];
    }
    assert files[..|files|] == files;
  }
}
