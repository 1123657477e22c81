/** A running compaction: its scan pointers, and the loop that turns inputs into outputs. */
module Compactions {
  import opened InternalKeys
  import opened Versions
  import opened DropRule

  datatype CompactionLimits = CompactionLimits(maxOutputFileSize: nat, maxGrandParentOverlapBytes: nat)

  class Compaction {
    const level: nat
    const inputVersion: Version
    const inputs0: seq<FileMetaData>
    const inputs1: seq<FileMetaData>
    const grandparents: seq<FileMetaData>
    // State of the scan: the first file of each deep level that may still matter, and the
    // position among the grandparents.
    var levelPtrs: seq<nat>
    var grandparentIndex: nat
    var seenKey: bool
    var overlappedBytes: nat

    constructor (level: nat, version: Version, inputs0: seq<FileMetaData>, inputs1: seq<FileMetaData>,
                 grandparents: seq<FileMetaData>)
      ensures this.level == level && inputVersion == version
      ensures this.inputs0 == inputs0 && this.inputs1 == inputs1 && this.grandparents == grandparents
      ensures levelPtrs == seq(NUM_LEVELS, _ => 0)
      ensures grandparentIndex == 0 && !seenKey && overlappedBytes == 0
    {
      this.level, inputVersion := level, version;
      this.inputs0, this.inputs1, this.grandparents := inputs0, inputs1, grandparents;
      levelPtrs := seq(NUM_LEVELS, _ => 0);
      grandparentIndex, seenKey, overlappedBytes := 0, false, 0;
    }

    ghost predicate Ready() {
      LevelsOk(inputVersion) && level + 1 < NUM_LEVELS
    }

    /** Files the pointers have passed end before `user`. */
    ghost predicate PointersBehind(user: UserKey)
      requires Ready()
      reads this`levelPtrs
    {
      && |levelPtrs| == NUM_LEVELS
      && (forall l :: 0 <= l < NUM_LEVELS ==> levelPtrs[l] <= |inputVersion.files[l]|)
      && forall l, k :: level + 2 <= l < NUM_LEVELS && 0 <= k < levelPtrs[l] ==> inputVersion.files[l][k].largest.user < user
    }

    /** Keys must be asked for in ascending order: the pointers only move forward. */
    method IsBaseLevelForKey(user: UserKey) returns (r: bool)
      requires Ready() && PointersBehind(user)
      modifies this`levelPtrs
      ensures r <==> IsBaseLevel(inputVersion, level, user)
      ensures PointersBehind(user)
    {
      for lvl := level + 2 to NUM_LEVELS
        invariant PointersBehind(user)
        invariant forall l, f :: level + 2 <= l < lvl && Holds(inputVersion, l, f) ==> !Spans(f, user)
      {
        var files := inputVersion.files[lvl];
        var found := false;
        while levelPtrs[lvl] < |files| && !found
          invariant PointersBehind(user)
          invariant found ==> levelPtrs[lvl] < |files| && user <= files[levelPtrs[lvl]].largest.user
                              && user < files[levelPtrs[lvl]].smallest.user
          decreases !found, |files| - levelPtrs[lvl]
        {
          var f := files[levelPtrs[lvl]];
          if user <= f.largest.user {
            if user >= f.smallest.user {
              assert Holds(inputVersion, lvl, f);
              return false;
            }
            found := true;
          } else {
            levelPtrs := levelPtrs[lvl := levelPtrs[lvl] + 1];
          }
        }
        NoSpanFrom(inputVersion, lvl, levelPtrs[lvl], user);
      }
      return true;
    }

    /** Whether the output file should end before this key: too many grandparent bytes lie under it. */
    method ShouldStopBefore(key: InternalKey, limits: CompactionLimits) returns (stop: bool)
      requires grandparentIndex <= |grandparents|
      modifies this`grandparentIndex, this`seenKey, this`overlappedBytes
      ensures old(grandparentIndex) <= grandparentIndex <= |grandparents| && seenKey
      ensures forall k :: old(grandparentIndex) <= k < grandparentIndex ==> Less(grandparents[k].largest, key)
      ensures grandparentIndex < |grandparents| ==> AtMost(key, grandparents[grandparentIndex].largest)
      ensures var overlap := old(overlappedBytes) + if old(seenKey) then BytesBetween(grandparents, old(grandparentIndex), grandparentIndex) else 0;
              stop == (overlap > limits.maxGrandParentOverlapBytes) && overlappedBytes == if stop then 0 else overlap
    {
      ghost var first := grandparentIndex;
      while grandparentIndex < |grandparents| && Compare(key, grandparents[grandparentIndex].largest) > 0
        invariant first <= grandparentIndex <= |grandparents|
        invariant seenKey == old(seenKey)
        invariant forall k :: first <= k < grandparentIndex ==> Less(grandparents[k].largest, key)
        invariant overlappedBytes == old(overlappedBytes) + if seenKey then BytesBetween(grandparents, first, grandparentIndex) else 0
      {
        if seenKey {
          overlappedBytes := overlappedBytes + grandparents[grandparentIndex].fileSize;
        }
        grandparentIndex := grandparentIndex + 1;
      }
      seenKey := true;
      stop := overlappedBytes > limits.maxGrandParentOverlapBytes;
      if stop {
        overlappedBytes := 0;
      }
    }
  }

  ghost function BytesBetween(files: seq<FileMetaData>, lo: nat, hi: nat): nat
    requires lo <= hi <= |files|
    decreases hi
  {
    if lo == hi then 0 else BytesBetween(files, lo, hi - 1) + files[hi - 1].fileSize
  }

  lemma {:induction false} BytesSplit(files: seq<FileMetaData>, lo: nat, mid: nat, hi: nat)
    requires lo <= mid <= hi <= |files|
    ensures BytesBetween(files, lo, hi) == BytesBetween(files, lo, mid) + BytesBetween(files, mid, hi)
    decreases hi
  {
    if mid < hi { BytesSplit(files, lo, mid, hi - 1); }
  }

  // ----- how much an output lies over -----

  /** The files before position `i` end before the key, and the one there does not. */
  ghost predicate IsPlace(files: seq<FileMetaData>, key: InternalKey, i: nat) {
    && i <= |files|
    && (forall k :: 0 <= k < i ==> Less(files[k].largest, key))
    && (i < |files| ==> AtMost(key, files[i].largest))
  }

  /** The grandparents that end within the range of keys hold no more than so many bytes. */
  ghost predicate IsNarrow(files: seq<FileMetaData>, smallest: InternalKey, largest: InternalKey, limit: nat) {
    exists a, b :: IsPlace(files, smallest, a) && IsPlace(files, largest, b) && a <= b && BytesBetween(files, a, b) <= limit
  }

  ghost predicate AllNarrow(files: seq<FileMetaData>, outputs: seq<FileMetaData>, limit: nat) {
    forall i :: 0 <= i < |outputs| ==> IsNarrow(files, outputs[i].smallest, outputs[i].largest, limit)
  }

  /** The overlap counted so far covers what the file under way lies over, from position `a` on. */
  ghost predicate OverlapOk(s: CompactionState, files: seq<FileMetaData>, limit: nat, a: nat, index: nat, overlapped: nat) {
    && AllNarrow(files, s.outputs, limit)
    && index <= |files| && overlapped <= limit
    && (s.builder.Some? ==>
          && a <= index && IsPlace(files, s.smallest, a) && BytesBetween(files, a, index) <= overlapped
          && IsNarrow(files, s.smallest, s.largest, limit))
  }

  lemma PlaceAdvances(files: seq<FileMetaData>, before: InternalKey, key: InternalKey, i: nat, j: nat)
    requires i > 0 ==> IsPlace(files, before, i) && Less(before, key)
    requires i <= j <= |files| && (forall k :: i <= k < j ==> Less(files[k].largest, key))
    requires j < |files| ==> AtMost(key, files[j].largest)
    ensures IsPlace(files, key, j)
  {
  }

  lemma OverlapAdvances(s: CompactionState, files: seq<FileMetaData>, limit: nat, a: nat, i: nat, overlapped: nat, j: nat, now: nat)
    requires OverlapOk(s, files, limit, a, i, overlapped) && i <= j <= |files| && now <= limit
    requires s.builder.Some? ==> now >= overlapped + BytesBetween(files, i, j)
    ensures OverlapOk(s, files, limit, a, j, now)
  {
    hide IsNarrow, AllNarrow, IsPlace;
    if s.builder.Some? { BytesSplit(files, a, i, j); }
  }

  /** A finished file has the bounds of the one that was under way. */
  ghost predicate Finishes(s: CompactionState, r: CompactionState) {
    && r.builder.None? && |r.outputs| == |s.outputs| + 1 && r.outputs[..|s.outputs|] == s.outputs
    && r.outputs[|s.outputs|].smallest == s.smallest && r.outputs[|s.outputs|].largest == s.largest
  }

  lemma FinishedIsNarrow(s: CompactionState, r: CompactionState, files: seq<FileMetaData>, limit: nat)
    requires Finishes(s, r) && AllNarrow(files, s.outputs, limit) && IsNarrow(files, s.smallest, s.largest, limit)
    ensures AllNarrow(files, r.outputs, limit)
  {
    hide IsNarrow;
    forall i | 0 <= i < |r.outputs| ensures IsNarrow(files, r.outputs[i].smallest, r.outputs[i].largest, limit) {
      assert i < |s.outputs| ==> r.outputs[i] == s.outputs[i];
    }
  }

  /** The file under way with one more key. */
  function Grown(s: CompactionState, key: InternalKey): CompactionState {
    s.(smallest := if s.builder.None? then key else s.smallest, largest := key)
  }

  lemma AddedIsNarrow(s: CompactionState, r: CompactionState, key: InternalKey, files: seq<FileMetaData>, limit: nat, a: nat,
                      index: nat, overlapped: nat)
    requires OverlapOk(s, files, limit, a, index, overlapped) && IsPlace(files, key, index)
    requires if r.builder.Some? then r.outputs == s.outputs && r.smallest == Grown(s, key).smallest && r.largest == key
             else Finishes(Grown(s, key), r)
    ensures OverlapOk(r, files, limit, if s.builder.None? then index else a, index, overlapped)
  {
    var from := if s.builder.None? then index else a;
    assert IsPlace(files, Grown(s, key).smallest, from) && BytesBetween(files, from, index) <= limit;
    assert IsNarrow(files, Grown(s, key).smallest, key, limit);
    hide IsNarrow, IsPlace, AllNarrow;
    if r.builder.None? { FinishedIsNarrow(Grown(s, key), r, files, limit); }
  }

  /** After a stop the count starts again, and no file is under way. */
  lemma StoppedOverlap(s: CompactionState, r: CompactionState, files: seq<FileMetaData>, limit: nat, a: nat, i: nat, overlapped: nat, j: nat)
    requires OverlapOk(s, files, limit, a, i, overlapped) && s.builder.Some? && Finishes(s, r) && j <= |files|
    ensures OverlapOk(r, files, limit, a, j, 0)
  {
    hide IsNarrow, AllNarrow, IsPlace;
    FinishedIsNarrow(s, r, files, limit);
  }

  lemma EmptyOverlap(s: CompactionState, files: seq<FileMetaData>, limit: nat, a: nat, i: nat, overlapped: nat, j: nat)
    requires OverlapOk(s, files, limit, a, i, overlapped) && s.builder.None? && j <= |files|
    ensures OverlapOk(s, files, limit, a, j, 0)
  {
  }

  lemma NoSpanFrom(v: Version, level: nat, i: nat, user: UserKey)
    requires LevelsOk(v) && 1 <= level < NUM_LEVELS && i <= |v.files[level]|
    requires forall k :: 0 <= k < i ==> v.files[level][k].largest.user < user
    requires i < |v.files[level]| ==> user < v.files[level][i].smallest.user
    ensures forall f :: Holds(v, level, f) ==> !Spans(f, user)
  {
    var files := v.files[level];
    forall f | Holds(v, level, f) ensures !Spans(f, user) {
      var k :| 0 <= k < |files| && files[k] == f;
      if k > i {
        assert Holds(v, level, files[i]);
        SmallestAtMostLargest(files[i]);
        assert Less(files[i].largest, files[k].smallest);
      }
    }
  }

  // ----- output files -----

  function Flatten(files: seq<FileMetaData>): seq<Entry> {
    if files == [] then [] else Flatten(files[..|files| - 1]) + files[|files| - 1].entries
  }

  lemma {:induction false} FlattenHas(files: seq<FileMetaData>)
    ensures forall e :: e in Flatten(files) <==> exists f :: f in files && e in f.entries
  {
    if files != [] {
      var n := |files| - 1;
      FlattenHas(files[..n]);
      assert files == files[..n] + [files[n]];
    }
  }

  /** Each file is bounded by its first and last entry. */
  predicate Built(files: seq<FileMetaData>) {
    forall i :: 0 <= i < |files| ==>
      && |files[i].entries| > 0
      && files[i].smallest == files[i].entries[0].key
      && files[i].largest == files[i].entries[|files[i].entries| - 1].key
  }

  /** The files carry the numbers handed out, in order. */
  predicate Numbered(files: seq<FileMetaData>, numberOf: nat -> nat) {
    forall i :: 0 <= i < |files| ==> files[i].number == numberOf(i)
  }

  lemma SortedParts(a: seq<Entry>, b: seq<Entry>)
    requires Sorted(a + b)
    ensures Sorted(a) && Sorted(b)
    ensures forall x, y :: x in a && y in b ==> Before(x, y)
  {
    var ab := a + b;
    assert forall i :: 0 <= i < |a| ==> a[i] == ab[i];
    assert forall i :: 0 <= i < |b| ==> b[i] == ab[|a| + i];
    forall x, y | x in a && y in b ensures Before(x, y) {
      var i :| 0 <= i < |a| && a[i] == x;
      var j :| 0 <= j < |b| && b[j] == y;
      assert Before(ab[i], ab[|a| + j]);
    }
  }

  lemma {:induction false} FilesBeforeLast(init: seq<FileMetaData>, last: FileMetaData)
    requires Built(init) && |last.entries| > 0 && last.smallest == last.entries[0].key
    requires forall x, y :: x in Flatten(init) && y in last.entries ==> Before(x, y)
    ensures forall i :: 0 <= i < |init| ==> Less(init[i].largest, last.smallest)
  {
    FlattenHas(init);
    forall i | 0 <= i < |init| ensures Less(init[i].largest, last.smallest) {
      assert Before(init[i].entries[|init[i].entries| - 1], last.entries[0]);
    }
  }

  lemma AppendDisjoint(init: seq<FileMetaData>, last: FileMetaData)
    requires AllWellFormed(init) && DisjointSorted(init) && WellFormed(last)
    requires forall i :: 0 <= i < |init| ==> Less(init[i].largest, last.smallest)
    ensures AllWellFormed(init + [last]) && DisjointSorted(init + [last])
  {
  }

  /** Cutting a sorted run into files yields well-formed, sorted, disjoint files. */
  lemma {:induction false} BuiltIsSound(files: seq<FileMetaData>)
    requires Built(files) && Sorted(Flatten(files))
    ensures AllWellFormed(files) && DisjointSorted(files)
  {
    if files != [] {
      var n := |files| - 1;
      var init, last := files[..n], files[n];
      assert Flatten(files) == Flatten(init) + last.entries;
      SortedParts(Flatten(init), last.entries);
      BuiltIsSound(init);
      FilesBeforeLast(init, last);
      AppendDisjoint(init, last);
      assert files == init + [last];
    }
  }

  lemma {:induction false} BuiltExtends(outputs: seq<FileMetaData>, numberOf: nat -> nat, f: FileMetaData)
    requires Built(outputs) && Numbered(outputs, numberOf) && |f.entries| > 0 && f.number == numberOf(|outputs|)
    requires f.smallest == f.entries[0].key && f.largest == f.entries[|f.entries| - 1].key
    ensures Built(outputs + [f]) && Numbered(outputs + [f], numberOf)
    ensures Flatten(outputs + [f]) == Flatten(outputs) + f.entries
  {
    var r := outputs + [f];
    assert r[..|outputs|] == outputs && r[|outputs|] == f;
    assert forall i :: 0 <= i < |outputs| ==> r[i] == outputs[i];
  }

  // ----- the compaction loop -----

  /** Finished output files and the one being built, if any. */
  datatype CompactionState = CompactionState(
    outputs: seq<FileMetaData>, builder: Option<seq<Entry>>, smallest: InternalKey, largest: InternalKey)

  predicate OutputOk(s: CompactionState, numberOf: nat -> nat) {
    && Built(s.outputs) && Numbered(s.outputs, numberOf)
    && (s.builder.Some? ==>
          && |s.builder.value| > 0
          && s.smallest == s.builder.value[0].key
          && s.largest == s.builder.value[|s.builder.value| - 1].key)
  }

  /** The size limit is passed at most by the last entry of a file, and the file's size is what the builder reports. */
  predicate WithinLimit(files: seq<FileMetaData>, limits: CompactionLimits, fileSize: seq<Entry> -> nat) {
    forall i :: 0 <= i < |files| ==>
      && files[i].fileSize == fileSize(files[i].entries)
      && Below(files[i].entries, |files[i].entries|, limits, fileSize)
  }

  /** Before its `n`-th entry the file was below the limit all the time. */
  predicate Below(es: seq<Entry>, n: nat, limits: CompactionLimits, fileSize: seq<Entry> -> nat) {
    forall k :: 0 < k < n && k <= |es| ==> fileSize(es[..k]) < limits.maxOutputFileSize
  }

  predicate SizesOk(s: CompactionState, limits: CompactionLimits, fileSize: seq<Entry> -> nat) {
    && WithinLimit(s.outputs, limits, fileSize)
    && (s.builder.Some? ==> Below(s.builder.value, |s.builder.value| + 1, limits, fileSize))
  }

  lemma BelowGrows(es: seq<Entry>, e: Entry, limits: CompactionLimits, fileSize: seq<Entry> -> nat)
    requires Below(es, |es| + 1, limits, fileSize)
    ensures Below(es + [e], |es| + 1, limits, fileSize)
    ensures fileSize(es + [e]) < limits.maxOutputFileSize ==> Below(es + [e], |es| + 2, limits, fileSize)
  {
    assert (es + [e])[..|es| + 1] == es + [e];
    forall k | 0 < k <= |es| ensures (es + [e])[..k] == es[..k] {
    }
  }

  lemma BelowShorter(es: seq<Entry>, n: nat, limits: CompactionLimits, fileSize: seq<Entry> -> nat)
    requires Below(es, n + 1, limits, fileSize)
    ensures Below(es, n, limits, fileSize)
  {
  }

  function Written(s: CompactionState): seq<Entry> {
    Flatten(s.outputs) + if s.builder.Some? then s.builder.value else []
  }

  method FinishCompactionOutputFile(s: CompactionState, numberOf: nat -> nat, limits: CompactionLimits, fileSize: seq<Entry> -> nat)
    returns (r: CompactionState)
    requires OutputOk(s, numberOf) && s.builder.Some?
    requires WithinLimit(s.outputs, limits, fileSize)
    requires Below(s.builder.value, |s.builder.value|, limits, fileSize)
    ensures OutputOk(r, numberOf) && r.builder.None? && Written(r) == Written(s)
    ensures SizesOk(r, limits, fileSize) && Finishes(s, r)
  {
    var f := FileMetaData(numberOf(|s.outputs|), fileSize(s.builder.value), s.smallest, s.largest, s.builder.value);
    BuiltExtends(s.outputs, numberOf, f);
    r := s.(outputs := s.outputs + [f], builder := None);
  }

  method AddToOutput(s: CompactionState, e: Entry, numberOf: nat -> nat, limits: CompactionLimits, fileSize: seq<Entry> -> nat)
    returns (r: CompactionState)
    requires OutputOk(s, numberOf)
    requires SizesOk(s, limits, fileSize)
    ensures OutputOk(r, numberOf) && Written(r) == Written(s) + [e]
    ensures SizesOk(r, limits, fileSize)
    ensures if r.builder.Some? then r.outputs == s.outputs && r.smallest == Grown(s, e.key).smallest && r.largest == e.key
            else Finishes(Grown(s, e.key), r)
  {
    r := s;
    if r.builder.None? {
      r := r.(builder := Some([]));
    }
    if |r.builder.value| == 0 {
      r := r.(smallest := e.key);
    }
    r := r.(largest := e.key, builder := Some(r.builder.value + [e]));
    assert Written(r) == Written(s) + [e];
    BelowGrows(if s.builder.Some? then s.builder.value else [], e, limits, fileSize);
    if fileSize(r.builder.value) >= limits.maxOutputFileSize {
      r := FinishCompactionOutputFile(r, numberOf, limits, fileSize);
    }
  }

  /** The decision about one entry, from the sequence number of the one before it. */
  method DecideDrop(c: Compaction, es: seq<Entry>, i: nat, currentUserKey: Option<UserKey>, lastSequence: SequenceNumber,
                    smallestSnapshot: SequenceNumber) returns (drop: bool)
    requires c.Ready() && Sorted(es) && i < |es| && c.PointersBehind(es[i].key.user)
    requires smallestSnapshot < MAX_SEQUENCE_NUMBER
    requires currentUserKey == if i > 0 then Some(es[i - 1].key.user) else None
    requires i > 0 ==> lastSequence == es[i - 1].key.sequence
    modifies c`levelPtrs
    ensures c.PointersBehind(es[i].key.user)
    ensures drop == Dropped(es, i, smallestSnapshot, c.inputVersion, c.level)
  {
    var e := es[i];
    var lastSequenceForKey := lastSequence;
    if currentUserKey.None? || e.key.user != currentUserKey.value {
      lastSequenceForKey := MAX_SEQUENCE_NUMBER;
    }
    drop := false;
    if lastSequenceForKey <= smallestSnapshot {
      drop := true;
    } else if e.key.kind == TypeDeletion && e.key.sequence <= smallestSnapshot {
      drop := c.IsBaseLevelForKey(e.key.user);
    }
  }

  /** The first `i` entries have been scanned: what they leave is written, and the pointers stand at the last one. */
  ghost predicate Scanned(c: Compaction, es: seq<Entry>, i: nat, s: CompactionState, smallestSnapshot: nat, limits: CompactionLimits,
                          fileSize: seq<Entry> -> nat, numberOf: nat -> nat)
    requires c.Ready() && i <= |es|
    reads c
  {
    && (i < |es| ==> c.PointersBehind(es[i].key.user))
    && OutputOk(s, numberOf) && SizesOk(s, limits, fileSize)
    && Written(s) == Kept(es, i, smallestSnapshot, c.inputVersion, c.level)
  }

  /** The same for the overlap with the grandparents. */
  ghost predicate Overlapped(c: Compaction, es: seq<Entry>, i: nat, s: CompactionState, limit: nat, a: nat)
    requires i <= |es|
    reads c
  {
    && c.grandparentIndex <= |c.grandparents| && (i > 0 ==> c.seenKey)
    && (i == 0 ==> s.builder.None? && c.grandparentIndex == 0)
    && (i > 0 ==> IsPlace(c.grandparents, es[i - 1].key, c.grandparentIndex))
    && OverlapOk(s, c.grandparents, limit, a, c.grandparentIndex, c.overlappedBytes)
  }

  /** Ends the output file where too many grandparent bytes lie under it. */
  method StopIfOverlapping(c: Compaction, es: seq<Entry>, i: nat, s: CompactionState, limits: CompactionLimits,
                           fileSize: seq<Entry> -> nat, numberOf: nat -> nat, ghost a: nat) returns (r: CompactionState)
    requires Sorted(es) && i < |es| && Overlapped(c, es, i, s, limits.maxGrandParentOverlapBytes, a)
    requires OutputOk(s, numberOf) && SizesOk(s, limits, fileSize)
    modifies c`grandparentIndex, c`seenKey, c`overlappedBytes
    ensures OutputOk(r, numberOf) && SizesOk(r, limits, fileSize) && Written(r) == Written(s)
    ensures c.grandparentIndex <= |c.grandparents| && c.seenKey && IsPlace(c.grandparents, es[i].key, c.grandparentIndex)
    ensures OverlapOk(r, c.grandparents, limits.maxGrandParentOverlapBytes, a, c.grandparentIndex, c.overlappedBytes)
  {
    hide OutputOk, Written, WithinLimit, Below, IsPlace, OverlapOk, AllNarrow, Finishes;
    ghost var gps, limit, index, overlapped := c.grandparents, limits.maxGrandParentOverlapBytes, c.grandparentIndex, c.overlappedBytes;
    var key := es[i].key;
    assert i > 0 ==> Before(es[i - 1], es[i]);
    var stop := c.ShouldStopBefore(key, limits);
    PlaceAdvances(gps, if i > 0 then es[i - 1].key else key, key, index, c.grandparentIndex);
    r := s;
    if !stop {
      OverlapAdvances(s, gps, limit, a, index, overlapped, c.grandparentIndex, c.overlappedBytes);
    } else if s.builder.Some? {
      BelowShorter(s.builder.value, |s.builder.value|, limits, fileSize);
      r := FinishCompactionOutputFile(s, numberOf, limits, fileSize);
      StoppedOverlap(s, r, gps, limit, a, index, overlapped, c.grandparentIndex);
    } else {
      EmptyOverlap(s, gps, limit, a, index, overlapped, c.grandparentIndex);
    }
  }

  /** Takes in one entry. */
  method ScanEntry(c: Compaction, es: seq<Entry>, i: nat, s: CompactionState, currentUserKey: Option<UserKey>, lastSequence: SequenceNumber,
                   smallestSnapshot: SequenceNumber, limits: CompactionLimits, fileSize: seq<Entry> -> nat, numberOf: nat -> nat,
                   ghost a: nat) returns (r: CompactionState, ghost b: nat)
    requires c.Ready() && Sorted(es) && i < |es| && smallestSnapshot < MAX_SEQUENCE_NUMBER
    requires currentUserKey == if i > 0 then Some(es[i - 1].key.user) else None
    requires i > 0 ==> lastSequence == es[i - 1].key.sequence
    requires Scanned(c, es, i, s, smallestSnapshot, limits, fileSize, numberOf)
    requires Overlapped(c, es, i, s, limits.maxGrandParentOverlapBytes, a)
    modifies c
    ensures Scanned(c, es, i + 1, r, smallestSnapshot, limits, fileSize, numberOf)
    ensures Overlapped(c, es, i + 1, r, limits.maxGrandParentOverlapBytes, b)
  {
    hide OutputOk, Written, WithinLimit, Below, IsPlace, OverlapOk, Finishes, Grown;
    var e := es[i];
    r := StopIfOverlapping(c, es, i, s, limits, fileSize, numberOf, a);
    b := a;
    var drop := DecideDrop(c, es, i, currentUserKey, lastSequence, smallestSnapshot);
    if !drop {
      ghost var before := r;
      r := AddToOutput(r, e, numberOf, limits, fileSize);
      AddedIsNarrow(before, r, e.key, c.grandparents, limits.maxGrandParentOverlapBytes, a, c.grandparentIndex, c.overlappedBytes);
      if before.builder.None? { b := c.grandparentIndex; }
    }
    assert i + 1 < |es| ==> Before(es[i], es[i + 1]);
  }

  /** Scans the merged input entries, drops what the rule allows and cuts the rest into files.
      `fileSize` stands for the size the table builder reports, and `numberOf(i)` for the number that
      the i-th output gets; other threads may take numbers in between. */
  method DoCompactionWork(c: Compaction, es: seq<Entry>, smallestSnapshot: SequenceNumber, limits: CompactionLimits,
                          fileSize: seq<Entry> -> nat, numberOf: nat -> nat) returns (outputs: seq<FileMetaData>)
    requires c.Ready() && Sorted(es) && smallestSnapshot < MAX_SEQUENCE_NUMBER
    requires c.levelPtrs == seq(NUM_LEVELS, _ => 0) && c.grandparentIndex == 0 && c.overlappedBytes == 0 && !c.seenKey
    modifies c
    ensures Built(outputs) && Numbered(outputs, numberOf)
    ensures Flatten(outputs) == Kept(es, |es|, smallestSnapshot, c.inputVersion, c.level)
    ensures forall e :: e in Flatten(outputs) <==>
              && e in es
              && !(exists n :: n in es && n.key.user == e.key.user && n.key.sequence > e.key.sequence && n.key.sequence <= smallestSnapshot)
              && !(e.key.kind == TypeDeletion && e.key.sequence <= smallestSnapshot
                   && forall l, f :: c.level + 2 <= l && Holds(c.inputVersion, l, f) ==> !(f.smallest.user <= e.key.user <= f.largest.user))
    ensures WithinLimit(outputs, limits, fileSize)
    ensures AllNarrow(c.grandparents, outputs, limits.maxGrandParentOverlapBytes)
  {
    ghost var a: nat := 0;
    var state := CompactionState([], None, InternalKey(0, 0, TypeDeletion), InternalKey(0, 0, TypeDeletion));
    var currentUserKey: Option<UserKey> := None;
    var lastSequence: SequenceNumber := MAX_SEQUENCE_NUMBER;
    for i := 0 to |es|
      invariant currentUserKey == if i > 0 then Some(es[i - 1].key.user) else None
      invariant i > 0 ==> lastSequence == es[i - 1].key.sequence
      invariant Scanned(c, es, i, state, smallestSnapshot, limits, fileSize, numberOf)
      invariant Overlapped(c, es, i, state, limits.maxGrandParentOverlapBytes, a)
    {
      hide Scanned, Overlapped;
      state, a := ScanEntry(c, es, i, state, currentUserKey, lastSequence, smallestSnapshot, limits, fileSize, numberOf, a);
      currentUserKey, lastSequence := Some(es[i].key.user), es[i].key.sequence;
    }
    hide IsNarrow, AllNarrow, Below, Finishes;
    if state.builder.Some? {
      BelowShorter(state.builder.value, |state.builder.value|, limits, fileSize);
      ghost var before := state;
      state := FinishCompactionOutputFile(state, numberOf, limits, fileSize);
      FinishedIsNarrow(before, state, c.grandparents, limits.maxGrandParentOverlapBytes);
    }
    outputs := state.outputs;
    KeptExactly(es, smallestSnapshot, c.inputVersion, c.level);
  }
}
