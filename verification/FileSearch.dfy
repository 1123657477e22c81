/** Searching the files of a level: binary search, range overlap, and the restarting
    scan that collects a closed set of level-0 files. */
module FileSearch {
  import opened InternalKeys
  import opened Versions

  // ----- ranges of user keys; None is an open end -----

  predicate AfterFile(user: Option<UserKey>, f: FileMetaData) {
    user.Some? && user.value > f.largest.user
  }

  predicate BeforeFile(user: Option<UserKey>, f: FileMetaData) {
    user.Some? && user.value < f.smallest.user
  }

  predicate Overlaps(f: FileMetaData, begin: Option<UserKey>, end: Option<UserKey>) {
    !AfterFile(begin, f) && !BeforeFile(end, f)
  }

  predicate InRange(user: UserKey, begin: Option<UserKey>, end: Option<UserKey>) {
    (begin.Some? ==> begin.value <= user) && (end.Some? ==> user <= end.value)
  }

  predicate ContainedIn(f: FileMetaData, begin: Option<UserKey>, end: Option<UserKey>) {
    InRange(f.smallest.user, begin, end) && InRange(f.largest.user, begin, end)
  }

  /** The range [b, e] includes the range [begin, end]. */
  predicate Widens(b: Option<UserKey>, e: Option<UserKey>, begin: Option<UserKey>, end: Option<UserKey>) {
    && (b.Some? ==> begin.Some? && b.value <= begin.value)
    && (e.Some? ==> end.Some? && end.value <= e.value)
  }

  /** No file straddles an end of the range: whatever overlaps it lies inside it. */
  ghost predicate OverlapClosed(files: seq<FileMetaData>, b: Option<UserKey>, e: Option<UserKey>) {
    forall f :: f in files && Overlaps(f, b, e) ==> ContainedIn(f, b, e)
  }

  /** The files that overlap the range, in order. */
  function Overlapping(files: seq<FileMetaData>, begin: Option<UserKey>, end: Option<UserKey>): seq<FileMetaData> {
    if files == [] then []
    else
      var n := |files| - 1;
      Overlapping(files[..n], begin, end) + if Overlaps(files[n], begin, end) then [files[n]] else []
  }

  lemma {:induction false} OverlappingMembers(files: seq<FileMetaData>, begin: Option<UserKey>, end: Option<UserKey>)
    ensures forall f :: f in Overlapping(files, begin, end) <==> f in files && Overlaps(f, begin, end)
  {
    if files != [] {
      var n := |files| - 1;
      OverlappingMembers(files[..n], begin, end);
      assert files == files[..n] + [files[n]];
    }
  }

  lemma {:induction false} OverlappingNoDuplicates(files: seq<FileMetaData>, begin: Option<UserKey>, end: Option<UserKey>)
    requires NoDuplicates(files)
    ensures NoDuplicates(Overlapping(files, begin, end))
  {
    if files != [] {
      var n := |files| - 1;
      OverlappingNoDuplicates(files[..n], begin, end);
      OverlappingMembers(files[..n], begin, end);
      var r := Overlapping(files[..n], begin, end);
      forall i | 0 <= i < |r| ensures r[i] != files[n] {
        assert r[i] in files[..n];
      }
    }
  }

  /** A wider range that meets no more files meets the same files. */
  lemma {:induction false} OverlappingWidened(files: seq<FileMetaData>, begin: Option<UserKey>, end: Option<UserKey>,
                                              b: Option<UserKey>, e: Option<UserKey>)
    requires Widens(b, e, begin, end)
    ensures var few, many := Overlapping(files, begin, end), Overlapping(files, b, e);
            |few| <= |many| && (|few| == |many| ==> few == many)
  {
    if files != [] {
      OverlappingWidened(files[..|files| - 1], begin, end, b, e);
    }
  }

  // ----- binary search -----

  predicate LargestSorted(files: seq<FileMetaData>) {
    forall i, j :: 0 <= i < j < |files| ==> Less(files[i].largest, files[j].largest)
  }

  lemma DisjointIsLargestSorted(files: seq<FileMetaData>)
    requires DisjointSorted(files) && AllWellFormed(files)
    ensures LargestSorted(files)
  {
    forall i, j | 0 <= i < j < |files| ensures Less(files[i].largest, files[j].largest) {
      SmallestAtMostLargest(files[j]);
    }
  }

  /** The smallest index whose file's largest key is at or after `key`. */
  method FindFile(files: seq<FileMetaData>, key: InternalKey) returns (right: nat)
    requires LargestSorted(files)
    ensures right <= |files|
    ensures forall i :: 0 <= i < right ==> Less(files[i].largest, key)
    ensures forall i :: right <= i < |files| ==> AtMost(key, files[i].largest)
  {
    var left := 0;
    right := |files|;
    while left < right
      invariant left <= right <= |files|
      invariant forall i :: 0 <= i < left ==> Less(files[i].largest, key)
      invariant forall i :: right <= i < |files| ==> AtMost(key, files[i].largest)
    {
      var mid := (left + right) / 2;
      if Compare(files[mid].largest, key) < 0 {
        left := mid + 1;
      } else {
        right := mid;
      }
    }
  }

  method SomeFileOverlapsRange(disjointSortedFiles: bool, files: seq<FileMetaData>,
                               smallest: Option<UserKey>, largest: Option<UserKey>) returns (r: bool)
    requires AllWellFormed(files)
    requires disjointSortedFiles ==> DisjointSorted(files)
    ensures r <==> exists f :: f in files && Overlaps(f, smallest, largest)
  {
    if !disjointSortedFiles {
      for i := 0 to |files|
        invariant forall j :: 0 <= j < i ==> !Overlaps(files[j], smallest, largest)
      {
        if AfterFile(smallest, files[i]) || BeforeFile(largest, files[i]) {
        } else {
          assert Overlaps(files[i], smallest, largest);
          return true;
        }
      }
      return false;
    }
    DisjointIsLargestSorted(files);
    var index := 0;
    if smallest.Some? {
      var smallKey := InternalKey(smallest.value, MAX_SEQUENCE_NUMBER, VALUE_TYPE_FOR_SEEK);
      index := FindFile(files, smallKey);
    }
    assert forall i :: 0 <= i < index ==> AfterFile(smallest, files[i]);
    assert forall i :: index <= i < |files| ==> !AfterFile(smallest, files[i]);
    if index >= |files| {
      return false;
    }
    if BeforeFile(largest, files[index]) {
      forall i | index < i < |files| ensures BeforeFile(largest, files[i]) {
        SmallestAtMostLargest(files[index]);
      }
    } else {
      assert Overlaps(files[index], smallest, largest);
    }
    return !BeforeFile(largest, files[index]);
  }

  // ----- collecting overlapping files -----

  predicate AllContained(files: seq<FileMetaData>, b: Option<UserKey>, e: Option<UserKey>) {
    forall f :: f in files ==> ContainedIn(f, b, e)
  }

  ghost predicate Covered(files: seq<FileMetaData>, user: UserKey) {
    exists f :: f in files && Spans(f, user)
  }

  // How many files still reach past an end of the range: each restart takes one away.

  ghost function StartingBefore(files: seq<FileMetaData>, begin: Option<UserKey>): set<FileMetaData> {
    set f | f in files && begin.Some? && f.smallest.user < begin.value
  }

  ghost function EndingAfter(files: seq<FileMetaData>, end: Option<UserKey>): set<FileMetaData> {
    set f | f in files && end.Some? && end.value < f.largest.user
  }

  ghost function Reach(files: seq<FileMetaData>, begin: Option<UserKey>, end: Option<UserKey>): nat {
    |StartingBefore(files, begin)| + |EndingAfter(files, end)|
  }

  lemma {:induction false} SubsetIsSmaller(s: set<FileMetaData>, t: set<FileMetaData>, f: FileMetaData)
    requires s <= t && f in t && f !in s
    ensures |s| < |t|
    decreases s
  {
    if g :| g in s {
      SubsetIsSmaller(s - {g}, t - {g}, f);
    }
  }

  lemma ReachShrinks(files: seq<FileMetaData>, begin: Option<UserKey>, end: Option<UserKey>, f: FileMetaData)
    requires f in files
    ensures begin.Some? && f.smallest.user < begin.value ==>
              Reach(files, Some(f.smallest.user), end) < Reach(files, begin, end)
    ensures end.Some? && end.value < f.largest.user ==>
              Reach(files, begin, Some(f.largest.user)) < Reach(files, begin, end)
  {
    if begin.Some? && f.smallest.user < begin.value {
      SubsetIsSmaller(StartingBefore(files, Some(f.smallest.user)), StartingBefore(files, begin), f);
    }
    if end.Some? && end.value < f.largest.user {
      SubsetIsSmaller(EndingAfter(files, Some(f.largest.user)), EndingAfter(files, end), f);
    }
  }

  predicate Meet(f: FileMetaData, g: FileMetaData) {
    f.smallest.user <= g.largest.user && g.smallest.user <= f.largest.user
  }

  /** `s` has every file that overlaps the query and every file that meets one of its own. */
  ghost predicate ClosedSet(files: seq<FileMetaData>, begin: Option<UserKey>, end: Option<UserKey>, s: set<FileMetaData>) {
    && (forall f :: f in files && Overlaps(f, begin, end) ==> f in s)
    && (forall f, g :: f in files && g in s && Meet(f, g) ==> f in s)
  }

  ghost predicate CoveredBy(s: set<FileMetaData>, user: UserKey) {
    exists f :: f in s && Spans(f, user)
  }

  /** [b, e] grew from [begin, end] over files only, and over none that a closed set could leave out. */
  ghost predicate Grown(files: seq<FileMetaData>, begin: Option<UserKey>, end: Option<UserKey>,
                        b: Option<UserKey>, e: Option<UserKey>) {
    && Widens(b, e, begin, end)
    && b.Some? == begin.Some? && e.Some? == end.Some?
    && ((b == begin && e == end) || (b.Some? && e.Some? ==> b.value <= e.value))
    && (forall u {:trigger Covered(files, u)} :: InRange(u, b, e) ==> InRange(u, begin, end) || Covered(files, u))
    && (forall s, u {:trigger ClosedSet(files, begin, end, s), CoveredBy(s, u)} ::
          ClosedSet(files, begin, end, s) && InRange(u, b, e) ==> InRange(u, begin, end) || CoveredBy(s, u))
  }

  /** A closed set contains every file that overlaps the grown range. */
  lemma ClosedSetHasOverlapping(files: seq<FileMetaData>, begin: Option<UserKey>, end: Option<UserKey>,
                                b: Option<UserKey>, e: Option<UserKey>, s: set<FileMetaData>, f: FileMetaData)
    requires Grown(files, begin, end, b, e) && ClosedSet(files, begin, end, s)
    requires f in files && WellFormed(f) && Overlaps(f, b, e)
    ensures f in s
  {
    if b == begin && e == end {
      return;
    }
    SmallestAtMostLargest(f);
    var u := if b.Some? && b.value > f.smallest.user then b.value else f.smallest.user;
    assert InRange(u, b, e) && Spans(f, u);
    if InRange(u, begin, end) {
      assert Overlaps(f, begin, end);
    } else {
      assert CoveredBy(s, u);
      var g :| g in s && Spans(g, u);
      assert Meet(f, g);
    }
  }

  lemma GrowOver(files: seq<FileMetaData>, begin: Option<UserKey>, end: Option<UserKey>,
                 b: Option<UserKey>, e: Option<UserKey>, f: FileMetaData, b': Option<UserKey>, e': Option<UserKey>)
    requires Grown(files, begin, end, b, e)
    requires f in files && WellFormed(f) && Overlaps(f, b, e)
    requires b' == b || (b.Some? && b' == Some(f.smallest.user) && f.smallest.user < b.value)
    requires e' == e || (e.Some? && e' == Some(f.largest.user) && f.largest.user > e.value)
    ensures Grown(files, begin, end, b', e')
  {
    SmallestAtMostLargest(f);
    forall u | InRange(u, b', e') && !InRange(u, begin, end) ensures Covered(files, u) {
      assert !InRange(u, b, e) ==> Spans(f, u);
    }
    forall s, u | ClosedSet(files, begin, end, s) && InRange(u, b', e') && !InRange(u, begin, end)
      ensures CoveredBy(s, u)
    {
      if !InRange(u, b, e) {
        ClosedSetHasOverlapping(files, begin, end, b, e, s, f);
        assert Spans(f, u);
      }
    }
  }

  /** Growing over a file at either end keeps the range justified and brings the scan closer to its end. */
  lemma GrowAtEnd(files: seq<FileMetaData>, begin: Option<UserKey>, end: Option<UserKey>,
                  b: Option<UserKey>, e: Option<UserKey>, f: FileMetaData)
    requires Grown(files, begin, end, b, e)
    requires f in files && WellFormed(f) && Overlaps(f, b, e)
    ensures f.smallest.user <= f.largest.user
    ensures b.Some? && f.smallest.user < b.value ==>
              Grown(files, begin, end, Some(f.smallest.user), e) && Reach(files, Some(f.smallest.user), e) < Reach(files, b, e)
    ensures e.Some? && f.largest.user > e.value ==>
              Grown(files, begin, end, b, Some(f.largest.user)) && Reach(files, b, Some(f.largest.user)) < Reach(files, b, e)
  {
    SmallestAtMostLargest(f);
    ReachShrinks(files, b, e, f);
    if b.Some? && f.smallest.user < b.value {
      GrowOver(files, begin, end, b, e, f, Some(f.smallest.user), e);
    }
    if e.Some? && f.largest.user > e.value {
      GrowOver(files, begin, end, b, e, f, b, Some(f.largest.user));
    }
  }

  lemma OverlappingSnoc(files: seq<FileMetaData>, i: nat, b: Option<UserKey>, e: Option<UserKey>)
    requires i < |files|
    ensures Overlapping(files[..i + 1], b, e)
         == Overlapping(files[..i], b, e) + if Overlaps(files[i], b, e) then [files[i]] else []
  {
    assert files[..i + 1][..i] == files[..i];
  }

  /** Collects the files of a level that overlap [begin, end]. At level 0, where files may
      overlap each other, the range grows until no file straddles it: [b, e] is the least such
      range around the query, and everything it adds to the query is covered by collected files. */
  method GetOverlappingInputs(files: seq<FileMetaData>, level: nat, begin: Option<UserKey>, end: Option<UserKey>)
    returns (inputs: seq<FileMetaData>, ghost b: Option<UserKey>, ghost e: Option<UserKey>)
    requires AllWellFormed(files)
    ensures inputs == Overlapping(files, b, e)
    ensures level > 0 ==> b == begin && e == end
    ensures level == 0 ==> OverlapClosed(files, b, e)
    ensures Grown(files, begin, end, b, e)
    ensures level > 0 ==> inputs == Overlapping(files, begin, end)
    ensures level == 0 ==> IsLeastClosed(files, begin, end, FileSet(inputs))
  {
    var userBegin, userEnd := begin, end;
    assert Grown(files, begin, end, userBegin, userEnd);
    hide Grown, IsLeastClosed;
    inputs := [];
    var i := 0;
    while i < |files|
      invariant 0 <= i <= |files|
      invariant level > 0 ==> userBegin == begin && userEnd == end
      invariant inputs == Overlapping(files[..i], userBegin, userEnd)
      invariant level == 0 ==> AllContained(inputs, userBegin, userEnd)
      invariant Grown(files, begin, end, userBegin, userEnd)
      decreases Reach(files, userBegin, userEnd), |files| - i
    {
      var f := files[i];
      OverlappingSnoc(files, i, userBegin, userEnd);
      i := i + 1;
      var fileStart, fileLimit := f.smallest.user, f.largest.user;
      if AfterFile(userBegin, f) {
      } else if BeforeFile(userEnd, f) {
      } else {
        inputs := inputs + [f];
        if level == 0 {
          GrowAtEnd(files, begin, end, userBegin, userEnd, f);
          if userBegin.Some? && fileStart < userBegin.value {
            userBegin := Some(fileStart);
            inputs := [];
            i := 0;
          } else if userEnd.Some? && fileLimit > userEnd.value {
            userEnd := Some(fileLimit);
            inputs := [];
            i := 0;
          }
        }
      }
    }
    assert files[..i] == files;
    b, e := userBegin, userEnd;
    OverlappingMembers(files, b, e);
    if level == 0 { LeastClosedSet(files, begin, end, b, e); }
  }

  /** Everything the grown range adds to the query is covered by the collected files. */
  lemma GrownIsCovered(files: seq<FileMetaData>, begin: Option<UserKey>, end: Option<UserKey>,
                       b: Option<UserKey>, e: Option<UserKey>, u: UserKey)
    requires Grown(files, begin, end, b, e)
    requires InRange(u, b, e) && !InRange(u, begin, end)
    ensures Covered(Overlapping(files, b, e), u)
  {
    assert Covered(files, u);
    var f :| f in files && Spans(f, u);
    assert Overlaps(f, b, e);
    OverlappingMembers(files, b, e);
  }

  ghost function FileSet(files: seq<FileMetaData>): set<FileMetaData> {
    set f | f in files
  }

  ghost predicate IsLeastClosed(files: seq<FileMetaData>, begin: Option<UserKey>, end: Option<UserKey>, r: set<FileMetaData>) {
    ClosedSet(files, begin, end, r) && forall s :: ClosedSet(files, begin, end, s) ==> r <= s
  }

  /** The level-0 scan returns the least closed set of files containing the query. */
  lemma LeastClosedSet(files: seq<FileMetaData>, begin: Option<UserKey>, end: Option<UserKey>,
                       b: Option<UserKey>, e: Option<UserKey>)
    requires AllWellFormed(files)
    requires Grown(files, begin, end, b, e) && OverlapClosed(files, b, e)
    ensures IsLeastClosed(files, begin, end, FileSet(Overlapping(files, b, e)))
  {
    OverlappingMembers(files, b, e);
    var r := FileSet(Overlapping(files, b, e));
    forall f | f in files && Overlaps(f, begin, end) ensures f in r {
      assert Overlaps(f, b, e);
    }
    forall f, g | f in files && g in r && Meet(f, g) ensures f in r {
      assert ContainedIn(g, b, e);
      assert Overlaps(f, b, e);
    }
    forall s, f | ClosedSet(files, begin, end, s) && f in r ensures f in s {
      ClosedSetHasOverlapping(files, begin, end, b, e, s, f);
    }
  }
}
