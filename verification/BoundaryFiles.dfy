/** Closing a set of input files so that no older entry of a picked user key stays behind. */
module BoundaryFiles {
  import opened InternalKeys
  import opened Versions
  import opened FileSearch

  // ----- closure properties of a set of input files -----

  ghost predicate IsLargest(files: seq<FileMetaData>, key: InternalKey) {
    (exists f :: f in files && f.largest == key) && (forall f :: f in files ==> AtMost(f.largest, key))
  }

  ghost predicate IsSmallest(files: seq<FileMetaData>, key: InternalKey) {
    (exists f :: f in files && f.smallest == key) && (forall f :: f in files ==> AtMost(key, f.smallest))
  }

  /** `x` starts after `key` but within the same user key. */
  predicate Continues(x: FileMetaData, key: InternalKey) {
    Less(key, x.smallest) && x.smallest.user == key.user
  }

  /** No file of the level continues the user key that ends the inputs. */
  ghost predicate BoundaryClosed(files: seq<FileMetaData>, inputs: seq<FileMetaData>) {
    forall x, key {:trigger Continues(x, key)} :: x in files && IsLargest(inputs, key) ==> !Continues(x, key)
  }

  /** The inputs leave out no file that lies between two of them. */
  ghost predicate Convex(files: seq<FileMetaData>, inputs: seq<FileMetaData>) {
    forall f, x, g {:trigger Less(f.largest, x.smallest), Less(x.largest, g.smallest)} ::
      f in inputs && g in inputs && x in files && Less(f.largest, x.smallest) && Less(x.largest, g.smallest) ==> x in inputs
  }

  /** Files left out meet no input: what level-0 inputs must satisfy. */
  ghost predicate Separated(files: seq<FileMetaData>, inputs: seq<FileMetaData>) {
    forall x, f {:trigger Meet(x, f)} :: x in files && f in inputs && Meet(x, f) ==> x in inputs
  }

  /** Of a user key held on both sides, the files left behind hold only newer entries. */
  ghost predicate LeavesNewer(files: seq<FileMetaData>, inputs: seq<FileMetaData>) {
    forall x, f {:trigger Newer(x, f)} :: x in files && x !in inputs && f in inputs ==> Newer(x, f)
  }

  ghost predicate GapFree(files: seq<FileMetaData>) {
    forall u, w, z {:trigger Covered(files, u), Covered(files, w), Covered(files, z)} ::
      Covered(files, u) && Covered(files, z) && u <= w <= z ==> Covered(files, w)
  }

  lemma SeparatedLeavesNewer(files: seq<FileMetaData>, inputs: seq<FileMetaData>)
    requires AllWellFormed(files) && (forall f :: f in inputs ==> f in files)
    requires Separated(files, inputs)
    ensures LeavesNewer(files, inputs)
  {
    forall x, f | x in files && x !in inputs && f in inputs ensures Newer(x, f) {
      assert !Meet(x, f);
      ApartIsNewer(x, f);
    }
  }

  lemma SeparatedIsBoundaryClosed(files: seq<FileMetaData>, inputs: seq<FileMetaData>)
    requires AllWellFormed(files) && (forall f :: f in inputs ==> f in files)
    requires Separated(files, inputs)
    ensures BoundaryClosed(files, inputs)
  {
    forall x, key | x in files && IsLargest(inputs, key) && Continues(x, key) ensures false {
      var f :| f in inputs && f.largest == key;
      SmallestAtMostLargest(f);
      SmallestAtMostLargest(x);
      assert Meet(x, f);
    }
  }

  /** Two files of a sorted level are ordered one way or the other. */
  lemma DisjointOrdered(files: seq<FileMetaData>, f: FileMetaData, g: FileMetaData)
    requires DisjointSorted(files) && f in files && g in files && f != g
    ensures Less(f.largest, g.smallest) || Less(g.largest, f.smallest)
  {
    var i :| 0 <= i < |files| && files[i] == f;
    var j :| 0 <= j < |files| && files[j] == g;
    assert i < j || j < i;
  }

  /** A file left out that continues the user key at the end of some input continues the one at the end of all. */
  lemma OutsideContinuesTop(files: seq<FileMetaData>, inputs: seq<FileMetaData>, key: InternalKey,
                            x: FileMetaData, f: FileMetaData)
    requires AllWellFormed(files) && DisjointSorted(files) && (forall f :: f in inputs ==> f in files)
    requires Convex(files, inputs) && IsLargest(inputs, key)
    requires x in files && x !in inputs && f in inputs && Continues(x, f.largest)
    ensures Continues(x, key)
  {
    var top :| top in inputs && top.largest == key;
    SmallestAtMostLargest(x);
    SmallestAtMostLargest(top);
    DisjointOrdered(files, x, top);
    assert AtMost(f.largest, key);
  }

  /** A file that continues the user key at the end of some input is itself an input. */
  lemma ContinuationIsPicked(files: seq<FileMetaData>, inputs: seq<FileMetaData>, key: InternalKey,
                             x: FileMetaData, f: FileMetaData)
    requires AllWellFormed(files) && DisjointSorted(files) && (forall f :: f in inputs ==> f in files)
    requires Convex(files, inputs) && BoundaryClosed(files, inputs) && IsLargest(inputs, key)
    requires x in files && f in inputs && Continues(x, f.largest)
    ensures x in inputs
  {
    if x !in inputs {
      OutsideContinuesTop(files, inputs, key, x, f);
    }
  }

  lemma ConvexLeavesNewerOne(files: seq<FileMetaData>, inputs: seq<FileMetaData>, key: InternalKey, all: set<Entry>,
                             x: FileMetaData, f: FileMetaData)
    requires AllWellFormed(files) && DisjointSorted(files) && (forall f :: f in inputs ==> f in files)
    requires Convex(files, inputs) && BoundaryClosed(files, inputs) && IsLargest(inputs, key)
    requires Unique(all) && (forall f, e :: f in files && e in f.entries ==> e in all)
    requires x in files && x !in inputs && f in inputs
    ensures Newer(x, f)
  {
    DisjointOrdered(files, x, f);
    if Less(x.largest, f.smallest) {
      EarlierIsNewer(x, f, all);
    } else {
      if Continues(x, f.largest) {
        ContinuationIsPicked(files, inputs, key, x, f);
      }
      ApartIsNewer(x, f);
    }
  }

  lemma ConvexLeavesNewer(files: seq<FileMetaData>, inputs: seq<FileMetaData>, key: InternalKey, all: set<Entry>)
    requires AllWellFormed(files) && DisjointSorted(files) && (forall f :: f in inputs ==> f in files)
    requires Convex(files, inputs) && BoundaryClosed(files, inputs) && IsLargest(inputs, key)
    requires Unique(all) && (forall f, e :: f in files && e in f.entries ==> e in all)
    ensures LeavesNewer(files, inputs)
  {
    forall x, f | x in files && x !in inputs && f in inputs ensures Newer(x, f) {
      ConvexLeavesNewerOne(files, inputs, key, all, x, f);
    }
  }

  // ----- gap-freedom -----

  lemma CoveredGrows(files: seq<FileMetaData>, more: seq<FileMetaData>, u: UserKey)
    ensures Covered(files + more, u) <==> Covered(files, u) || Covered(more, u)
  {
    if Covered(files + more, u) {
      var f :| f in files + more && Spans(f, u);
    }
    if Covered(files, u) {
      var f :| f in files && Spans(f, u);
      assert f in files + more;
    }
    if Covered(more, u) {
      var f :| f in more && Spans(f, u);
      assert f in files + more;
    }
  }

  /** `g` meets the keys covered by `files`. */
  ghost predicate Touches(files: seq<FileMetaData>, g: FileMetaData) {
    exists u :: Covered(files, u) && Spans(g, u)
  }

  /** Adding files that each touch a gap-free set leaves it gap-free. */
  lemma GapFreeExtends(files: seq<FileMetaData>, more: seq<FileMetaData>)
    requires GapFree(files)
    requires forall g :: g in more ==> Touches(files, g)
    ensures GapFree(files + more)
  {
    var both := files + more;
    forall u, w, z | Covered(both, u) && Covered(both, z) && u <= w <= z ensures Covered(both, w) {
      CoveredGrows(files, more, w);
      if !Covered(more, w) {
        var below := Anchor(files, more, u, w);
        var above := Anchor(files, more, z, w);
        assert Covered(files, w);
      }
    }
  }

  /** From a key covered by the union one reaches a covered key of `files` on the same side of `w`. */
  lemma Anchor(files: seq<FileMetaData>, more: seq<FileMetaData>, u: UserKey, w: UserKey) returns (a: UserKey)
    requires Covered(files + more, u) && !Covered(more, w)
    requires forall g :: g in more ==> Touches(files, g)
    ensures Covered(files, a)
    ensures (u <= w ==> a <= w) && (u >= w ==> a >= w)
  {
    CoveredGrows(files, more, u);
    if Covered(files, u) {
      a := u;
    } else {
      var g :| g in more && Spans(g, u);
      a :| Covered(files, a) && Spans(g, a);
      assert !Spans(g, w);
    }
  }

  lemma SingleIsGapFree(f: FileMetaData)
    ensures GapFree([f])
  {
    forall u, w, z | Covered([f], u) && Covered([f], z) && u <= w <= z ensures Covered([f], w) {
      assert f in [f] && Spans(f, w);
    }
  }

  // ----- the boundary search -----

  method GetRange(inputs: seq<FileMetaData>) returns (smallest: InternalKey, largest: InternalKey)
    requires inputs != []
    ensures IsSmallest(inputs, smallest) && IsLargest(inputs, largest)
  {
    smallest, largest := inputs[0].smallest, inputs[0].largest;
    for i := 1 to |inputs|
      invariant exists f :: f in inputs && f.smallest == smallest
      invariant exists f :: f in inputs && f.largest == largest
      invariant forall j :: 0 <= j < i ==> AtMost(smallest, inputs[j].smallest)
      invariant forall j :: 0 <= j < i ==> AtMost(inputs[j].largest, largest)
    {
      var f := inputs[i];
      if Compare(f.smallest, smallest) < 0 {
        smallest := f.smallest;
      }
      if Compare(f.largest, largest) > 0 {
        largest := f.largest;
      }
    }
  }

  method FindLargestKey(files: seq<FileMetaData>) returns (found: bool, largestKey: InternalKey)
    ensures found <==> files != []
    ensures found ==> IsLargest(files, largestKey)
  {
    if files == [] {
      return false, InternalKey(0, 0, TypeDeletion);
    }
    largestKey := files[0].largest;
    for i := 1 to |files|
      invariant exists f :: f in files && f.largest == largestKey
      invariant forall j :: 0 <= j < i ==> AtMost(files[j].largest, largestKey)
    {
      if Compare(files[i].largest, largestKey) > 0 {
        largestKey := files[i].largest;
      }
    }
    found := true;
  }

  /** The file with which the user key of `key` goes on. */
  ghost predicate IsBoundaryFile(files: seq<FileMetaData>, key: InternalKey, g: FileMetaData) {
    && g in files && Continues(g, key)
    && forall x :: x in files && Continues(x, key) ==> AtMost(g.smallest, x.smallest)
  }

  lemma {:induction false} BoundaryFileExists(files: seq<FileMetaData>, key: InternalKey, x: FileMetaData)
    returns (g: FileMetaData)
    requires x in files && Continues(x, key)
    ensures IsBoundaryFile(files, key, g)
  {
    var n := |files| - 1;
    var init, last := files[..n], files[n];
    assert files == init + [last];
    if y :| y in init && Continues(y, key) {
      var h := BoundaryFileExists(init, key, y);
      g := if Continues(last, key) && Less(last.smallest, h.smallest) then last else h;
    } else {
      g := last;
    }
  }

  /** The first file that continues the user key of `largestKey`, if there is one. */
  method FindSmallestBoundaryFile(levelFiles: seq<FileMetaData>, largestKey: InternalKey) returns (r: Option<FileMetaData>)
    ensures r.None? ==> forall x :: x in levelFiles ==> !Continues(x, largestKey)
    ensures r.Some? ==> IsBoundaryFile(levelFiles, largestKey, r.value)
  {
    r := None;
    for i := 0 to |levelFiles|
      invariant r.None? ==> forall j :: 0 <= j < i ==> !Continues(levelFiles[j], largestKey)
      invariant r.Some? ==> r.value in levelFiles && Continues(r.value, largestKey)
      invariant r.Some? ==> forall j :: 0 <= j < i && Continues(levelFiles[j], largestKey) ==> AtMost(r.value.smallest, levelFiles[j].smallest)
    {
      var f := levelFiles[i];
      if Compare(f.smallest, largestKey) > 0 && f.smallest.user == largestKey.user {
        if r.None? || Compare(f.smallest, r.value.smallest) < 0 {
          r := Some(f);
        }
      }
    }
  }

  ghost function StartingAfter(files: seq<FileMetaData>, key: InternalKey): set<FileMetaData> {
    set f | f in files && Less(key, f.smallest)
  }

  /** Nothing lies between a convex set and its first continuation. */
  lemma NothingBetween(files: seq<FileMetaData>, inputs: seq<FileMetaData>, key: InternalKey, c: FileMetaData,
                       f: FileMetaData, x: FileMetaData)
    requires AllWellFormed(files) && DisjointSorted(files) && (forall f :: f in inputs ==> f in files)
    requires Convex(files, inputs) && IsLargest(inputs, key)
    requires c in files && Less(key, c.smallest) && c.smallest.user == key.user
    requires Continues(x, key) ==> AtMost(c.smallest, x.smallest)
    requires f in inputs && x in files && Less(f.largest, x.smallest) && Less(x.largest, c.smallest)
    ensures x in inputs
  {
    var top :| top in inputs && top.largest == key;
    SmallestAtMostLargest(top);
    SmallestAtMostLargest(x);
    if x != top {
      DisjointOrdered(files, x, top);
    }
  }

  /** The first continuation of a convex set keeps it convex. */
  lemma ConvexExtends(files: seq<FileMetaData>, inputs: seq<FileMetaData>, key: InternalKey, c: FileMetaData)
    requires AllWellFormed(files) && DisjointSorted(files) && (forall f :: f in inputs ==> f in files)
    requires Convex(files, inputs) && IsLargest(inputs, key)
    requires c in files && Continues(c, key)
    requires forall x :: x in files && Continues(x, key) ==> AtMost(c.smallest, x.smallest)
    ensures Convex(files, inputs + [c])
  {
    forall f, x, g | f in inputs + [c] && g in inputs + [c] && x in files && Less(f.largest, x.smallest) && Less(x.largest, g.smallest)
      ensures x in inputs + [c]
    {
      if g != c && f != c {
        assert x in inputs;
      } else if f != c {
        NothingBetween(files, inputs, key, c, f, x);
      } else {
        NothingAfterContinuation(inputs, key, c, x, g);
      }
    }
  }

  lemma NothingAfterContinuation(inputs: seq<FileMetaData>, key: InternalKey, c: FileMetaData, x: FileMetaData, g: FileMetaData)
    requires IsLargest(inputs, key) && WellFormed(c) && WellFormed(x) && WellFormed(g) && Less(key, c.smallest)
    requires g in inputs || g == c
    ensures !(Less(c.largest, x.smallest) && Less(x.largest, g.smallest))
  {
    SmallestAtMostLargest(c);
    SmallestAtMostLargest(x);
    SmallestAtMostLargest(g);
  }

  lemma LargestExtends(inputs: seq<FileMetaData>, key: InternalKey, c: FileMetaData)
    requires IsLargest(inputs, key) && WellFormed(c) && Less(key, c.smallest)
    ensures IsLargest(inputs + [c], c.largest)
  {
    SmallestAtMostLargest(c);
    assert c in inputs + [c];
  }

  lemma ContinuationTouches(others: seq<FileMetaData>, inputs: seq<FileMetaData>, key: InternalKey, c: FileMetaData)
    requires IsLargest(inputs, key) && AllWellFormed(inputs) && WellFormed(c) && Continues(c, key)
    requires GapFree(others + inputs)
    ensures GapFree(others + (inputs + [c]))
  {
    var top :| top in inputs && top.largest == key;
    SmallestAtMostLargest(top);
    SmallestAtMostLargest(c);
    assert top in others + inputs && Spans(top, key.user);
    assert Covered(others + inputs, key.user) && Spans(c, key.user);
    GapFreeExtends(others + inputs, [c]);
    assert others + inputs + [c] == others + (inputs + [c]);
  }

  /** Adds files of the level until none continues the user key the inputs end with. The additions
      keep a convex set convex, and a set that is gap-free together with `others` gap-free. */
  method AddBoundaryInputs(levelFiles: seq<FileMetaData>, compactionFiles: seq<FileMetaData>, ghost others: seq<FileMetaData>)
    returns (r: seq<FileMetaData>)
    requires AllWellFormed(levelFiles) && (forall f :: f in compactionFiles ==> f in levelFiles)
    ensures compactionFiles <= r && (forall f :: f in r ==> f in levelFiles)
    ensures BoundaryClosed(levelFiles, r)
    ensures BoundaryClosed(levelFiles, compactionFiles) ==> r == compactionFiles
    ensures DisjointSorted(levelFiles) && Convex(levelFiles, compactionFiles) ==> Convex(levelFiles, r)
    ensures GapFree(others + compactionFiles) ==> GapFree(others + r)
    ensures NoDuplicates(compactionFiles) ==> NoDuplicates(r)
  {
    r := compactionFiles;
    var found, largestKey := FindLargestKey(r);
    if !found {
      return;
    }
    var continueSearching := true;
    while continueSearching
      invariant compactionFiles <= r && (forall f :: f in r ==> f in levelFiles)
      invariant IsLargest(r, largestKey)
      invariant BoundaryClosed(levelFiles, compactionFiles) ==> r == compactionFiles
      invariant DisjointSorted(levelFiles) && Convex(levelFiles, compactionFiles) ==> Convex(levelFiles, r)
      invariant GapFree(others + compactionFiles) ==> GapFree(others + r)
      invariant NoDuplicates(compactionFiles) ==> NoDuplicates(r)
      invariant !continueSearching ==> BoundaryClosed(levelFiles, r)
      decreases continueSearching, |StartingAfter(levelFiles, largestKey)|
    {
      var boundary := FindSmallestBoundaryFile(levelFiles, largestKey);
      if boundary.Some? {
        var c := boundary.value;
        BoundaryStep(levelFiles, r, largestKey, c, others);
        r := r + [c];
        largestKey := c.largest;
      } else {
        LargestUnique(r, largestKey);
        continueSearching := false;
      }
    }
  }

  lemma LargestUnique(inputs: seq<FileMetaData>, key: InternalKey)
    requires IsLargest(inputs, key)
    ensures forall k :: IsLargest(inputs, k) ==> k == key
  {
  }

  lemma BoundaryStep(levelFiles: seq<FileMetaData>, r: seq<FileMetaData>, key: InternalKey, c: FileMetaData, others: seq<FileMetaData>)
    requires AllWellFormed(levelFiles) && (forall f :: f in r ==> f in levelFiles)
    requires IsLargest(r, key) && c in levelFiles && Continues(c, key)
    requires forall x :: x in levelFiles && Continues(x, key) ==> AtMost(c.smallest, x.smallest)
    ensures IsLargest(r + [c], c.largest)
    ensures !BoundaryClosed(levelFiles, r)
    ensures DisjointSorted(levelFiles) && Convex(levelFiles, r) ==> Convex(levelFiles, r + [c])
    ensures GapFree(others + r) ==> GapFree(others + (r + [c]))
    ensures NoDuplicates(r) ==> NoDuplicates(r + [c])
    ensures |StartingAfter(levelFiles, c.largest)| < |StartingAfter(levelFiles, key)|
  {
    hide Convex, GapFree, DisjointSorted;
    LargestExtends(r, key, c);
    if DisjointSorted(levelFiles) && Convex(levelFiles, r) {
      ConvexExtends(levelFiles, r, key, c);
    }
    if GapFree(others + r) {
      ContinuationTouches(others, r, key, c);
    }
    SmallestAtMostLargest(c);
    assert forall f :: f in r ==> AtMost(f.largest, key) && f != c;
    assert c in StartingAfter(levelFiles, key) && c !in StartingAfter(levelFiles, c.largest);
    SubsetIsSmaller(StartingAfter(levelFiles, c.largest), StartingAfter(levelFiles, key), c);
  }
}
