/** A run of the database in which a compaction makes a deleted key read as its old value. */
module Resurrection {
  import opened InternalKeys
  import opened Versions
  import opened FileSearch
  import opened BoundaryFiles
  import opened CompactionInputs
  import opened DropRule
  import opened Compactions
  import opened Installs
  import opened CompactionReads
  import opened DbSteps
  import opened DbRuns

  // User keys 1 and 2. Key 2 is written once and deleted once.
  const W := Entry(InternalKey(1, 1, TypeValue), "w")
  const OLD := Entry(InternalKey(2, 2, TypeValue), "old")
  const TOMBSTONE := Entry(InternalKey(2, 3, TypeDeletion), "")
  const X := Entry(InternalKey(1, 4, TypeValue), "x")

  const B := FileMetaData(2, 100, W.key, OLD.key, [W, OLD])
  const D := FileMetaData(3, 50, TOMBSTONE.key, TOMBSTONE.key, [TOMBSTONE])
  const F := FileMetaData(4, 100, W.key, TOMBSTONE.key, [W, TOMBSTONE])
  const G := FileMetaData(5, 50, OLD.key, OLD.key, [OLD])
  const A := FileMetaData(6, 50, X.key, X.key, [X])
  const OUT := FileMetaData(7, 50, X.key, X.key, [X])

  /** Files at levels 1 and 2, and nowhere else. */
  function At(one: seq<FileMetaData>, two: seq<FileMetaData>): Version {
    Version([[], one, two, [], [], [], []])
  }

  const FIRST := Plan(1, At([D], [B]), [D], [B], [], TOMBSTONE.key, 2, [])
  const SECOND := Plan(1, At([A], [F, G]), [A], [F], [], X.key, 4, [])

  const FIRST_MERGE := [W, TOMBSTONE, OLD]
  const SECOND_MERGE := [X, W, TOMBSTONE]

  // The value is written and settles in level 2. A snapshot is taken.
  ghost const S0 := DbState([], None, Version(seq(NUM_LEVELS, _ => [])), 0, 2, [], None, {}, true)
  ghost const S1 := S0.(mem := [W, OLD], lastSequence := 2, history := {W, OLD})
  ghost const S2 := S1.(mem := [], imm := Some([W, OLD]))
  ghost const S3 := S2.(imm := None, version := At([], [B]), nextFileNumber := 3)
  ghost const S4 := S3.(snapshots := [2])
  // The key is deleted, and the tombstone settles in level 1.
  ghost const S5 := S4.(mem := [TOMBSTONE], lastSequence := 3, history := {W, OLD, TOMBSTONE})
  ghost const S6 := S5.(mem := [], imm := Some([TOMBSTONE]))
  ghost const S7 := S6.(imm := None, version := At([D], [B]), nextFileNumber := 4)
  // A compaction that must keep everything for the snapshot cuts the key's versions into two files.
  ghost const S8 := S7.(running := Some(FIRST))
  ghost const S9 := S8.(nextFileNumber := 5, running := Some(FIRST.(taken := [4])))
  ghost const S10 := S9.(nextFileNumber := 6, running := Some(FIRST.(taken := [4, 5])))
  ghost const S11 := S10.(version := At([], [F, G]), running := None)
  // The snapshot goes, and another write settles in level 1.
  ghost const S12 := S11.(snapshots := [])
  ghost const S13 := S12.(mem := [X], lastSequence := 4, history := {W, OLD, TOMBSTONE, X})
  ghost const S14 := S13.(mem := [], imm := Some([X]))
  ghost const S15 := S14.(imm := None, version := At([A], [F, G]), nextFileNumber := 7)
  // Its compaction takes the file with the tombstone and leaves the one with the value.
  ghost const S16 := S15.(running := Some(SECOND))
  ghost const START := S16.(nextFileNumber := 8, running := Some(SECOND.(taken := [7])))
  ghost const END := START.(version := At([], [OUT, G]), running := None, clean := false)

  ghost const RUN := [S0, S1, S2, S3, S4, S5, S6, S7, S8, S9, S10, S11, S12, S13, S14, S15, S16, START, END]

  // ----- what the versions hold -----

  lemma AtHolds(one: seq<FileMetaData>, two: seq<FileMetaData>)
    ensures forall l, f :: Holds(At(one, two), l, f) <==> (l == 1 && f in one) || (l == 2 && f in two)
  {
  }

  lemma FilesAreSound()
    ensures AllWellFormed([B, D, F, G, A, OUT])
  {
  }

  lemma AtSorted(one: seq<FileMetaData>, two: seq<FileMetaData>)
    requires SortedBySmallest(one) && SortedBySmallest(two)
    ensures forall l :: 0 <= l < NUM_LEVELS ==> SortedBySmallest(At(one, two).files[l])
  {
  }

  // ----- the steps that write and flush -----

  lemma BatchesAre()
    ensures BatchEntries([Put(1, "w"), Put(2, "old")], 1) == {W, OLD}
    ensures BatchEntries([Delete(2)], 3) == {TOMBSTONE}
    ensures BatchEntries([Put(1, "x")], 4) == {X}
  {
    var two := [Put(1, "w"), Put(2, "old")];
    assert UpdateEntry(two[0], 1) == W && UpdateEntry(two[1], 2) == OLD;
    assert UpdateEntry([Delete(2)][0], 3) == TOMBSTONE && UpdateEntry([Put(1, "x")][0], 4) == X;
  }

  lemma WritesAreSteps()
    ensures WriteStep(S0, [Put(1, "w"), Put(2, "old")], S1)
    ensures WriteStep(S4, [Delete(2)], S5)
    ensures WriteStep(S12, [Put(1, "x")], S13)
  {
    hide BatchEntries;
    BatchesAre();
  }

  lemma FlushAt(v: Version, one: seq<FileMetaData>, two: seq<FileMetaData>, level: nat, f: FileMetaData)
    requires SortedBySmallest(one) && SortedBySmallest(two) && level in {1, 2}
    requires forall l, g :: Holds(v, l, g) <==> (l == 1 && g in one && !(level == 1 && g == f)) || (l == 2 && g in two && !(level == 2 && g == f))
    requires f in if level == 1 then one else two
    ensures IsFlush(v, At(one, two), level, f)
  {
    AtHolds(one, two);
    AtSorted(one, two);
  }

  lemma FlushesAreSteps()
    ensures FlushStep(S2, 2, B, S3)
    ensures FlushStep(S6, 1, D, S7)
    ensures FlushStep(S14, 1, A, S15)
  {
    hide IsFlush;
    FilesAreSound();
    AtHolds([], [B]);
    AtHolds([], [F, G]);
    FlushAt(S2.version, [], [B], 2, B);
    FlushAt(S6.version, [D], [B], 1, D);
    FlushAt(S14.version, [A], [F, G], 1, A);
  }

  // ----- the first compaction -----

  /** The only file of a level and all it overlaps in the next are inputs as the source picks them. */
  lemma SingleInputOk(v: Version, level: nat, f: FileMetaData, inputs1: seq<FileMetaData>)
    requires level + 1 < |v.files| && v.files[level] == [f] && WellFormed(f)
    requires f.smallest.user == f.largest.user
    requires inputs1 == Overlapping(v.files[level + 1], Some(f.smallest.user), Some(f.largest.user))
    requires forall g :: g in inputs1 ==> Spans(g, f.smallest.user)
    ensures InputsOk(v, level, [f], inputs1) && GapFree([f] + inputs1)
  {
    assert f in [f] && IsSmallest([f], f.smallest) && IsLargest([f], f.largest);
    TakesOverlappingHull(v.files[level + 1], [f], f.smallest, f.largest);
    SingleIsGapFree(f);
    assert Spans(f, f.smallest.user) && Covered([f], f.smallest.user);
    GapFreeExtends([f], inputs1);
  }

  lemma OverlapsAre()
    ensures Overlapping([B], Some(2), Some(2)) == [B]
    ensures Overlapping([F, G], Some(1), Some(1)) == [F]
  {
    assert [B][..0] == [] && [F, G][..1] == [F] && [F][..0] == [];
    assert Overlapping([B], Some(2), Some(2)) == Overlapping([], Some(2), Some(2)) + [B];
    assert Overlapping([F], Some(1), Some(1)) == Overlapping([], Some(1), Some(1)) + [F];
    assert Overlapping([F, G], Some(1), Some(1)) == Overlapping([F], Some(1), Some(1)) + [];
  }

  lemma BeginsAreSteps()
    ensures BeginStep(S7, FIRST, S8)
    ensures BeginStep(S15, SECOND, S16)
  {
    hide InputsOk, GapFree, Overlapping;
    FilesAreSound();
    OverlapsAre();
    SingleInputOk(FIRST.base, 1, D, [B]);
    SingleInputOk(SECOND.base, 1, A, [F]);
  }

  lemma OpensAreSteps()
    ensures OpenStep(S8, S9) && OpenStep(S9, S10) && OpenStep(S16, START)
  {
    assert [] + [4] == [4] && [4] + [5] == [4, 5] && [] + [7] == [7];
  }

  lemma MergesAre()
    ensures IsMerge(FIRST_MERGE, [D] + [B])
    ensures IsMerge(SECOND_MERGE, [A] + [F])
  {
    assert [D] + [B] == [D, B] && [A] + [F] == [A, F];
    assert D in [D, B] && B in [D, B] && A in [A, F] && F in [A, F];
    assert FIRST_MERGE[0] == B.entries[0] && FIRST_MERGE[1] == D.entries[0] && FIRST_MERGE[2] == B.entries[1];
    assert SECOND_MERGE[0] == A.entries[0] && SECOND_MERGE[1] == F.entries[0] && SECOND_MERGE[2] == F.entries[1];
  }

  /** The snapshot at 2 sees the value and not the tombstone, so nothing may be dropped. */
  lemma FirstKeepsAll()
    ensures Kept(FIRST_MERGE, 3, 2, FIRST.base, 1) == FIRST_MERGE
  {
    var es, v := FIRST_MERGE, FIRST.base;
    assert !Dropped(es, 0, 2, v, 1) && !Dropped(es, 1, 2, v, 1) && !Dropped(es, 2, 2, v, 1);
    assert Kept(es, 0, 2, v, 1) == [];
    assert Kept(es, 1, 2, v, 1) == [W];
    assert Kept(es, 2, 2, v, 1) == [W, TOMBSTONE];
  }

  lemma OutputsFlatten()
    ensures Flatten([F, G]) == FIRST_MERGE && Flatten([OUT]) == [X]
  {
    assert [F, G][..1] == [F] && [F][..0] == [] && [OUT][..0] == [];
    assert Flatten([F]) == [W, TOMBSTONE];
    assert Flatten([F, G]) == Flatten([F]) + [OLD];
  }

  lemma FirstFinishes()
    ensures FinishStep(S10, FIRST_MERGE, [F, G], S11)
  {
    hide IsMerge, Kept, IsReplacement, Flatten;
    MergesAre();
    FirstKeepsAll();
    FilesAreSound();
    OutputsFlatten();
    ReplacedAt([D], [B], [F, G]);
    assert !Resurrecting(S10, S10.running.value, FIRST_MERGE);
  }

  lemma ReplacedAt(inputs0: seq<FileMetaData>, inputs1: seq<FileMetaData>, outputs: seq<FileMetaData>)
    requires SortedBySmallest(outputs)
    ensures IsReplacement(At(inputs0, inputs1), At([], outputs), 1, inputs0, inputs1, outputs)
  {
    AtHolds(inputs0, inputs1);
    AtHolds([], outputs);
    AtSorted([], outputs);
  }

  // ----- the second compaction -----

  lemma SecondKeepsOnlyX()
    ensures Kept(SECOND_MERGE, 3, 4, SECOND.base, 1) == [X]
    ensures ObsoleteTombstone(TOMBSTONE, 4, SECOND.base, 1)
  {
    var es, v := SECOND_MERGE, SECOND.base;
    AtHolds([A], [F, G]);
    assert IsBaseLevel(v, 1, 2);
    assert !Dropped(es, 0, 4, v, 1) && Dropped(es, 1, 4, v, 1) && Dropped(es, 2, 4, v, 1);
    assert Kept(es, 0, 4, v, 1) == [];
    assert Kept(es, 1, 4, v, 1) == [X];
    assert Kept(es, 2, 4, v, 1) == [X];
  }

  lemma SecondReplaces()
    ensures IsReplacement(At([A], [F, G]), At([], [OUT, G]), 1, [A], [F], [OUT])
  {
    AtHolds([A], [F, G]);
    AtHolds([], [OUT, G]);
    AtSorted([], [OUT, G]);
    assert F in [F] && OUT in [OUT];
  }

  lemma SecondResurrects()
    ensures Resurrecting(START, START.running.value, SECOND_MERGE)
  {
    hide ObsoleteTombstone;
    var v := SECOND.base;
    AtHolds([A], [F, G]);
    SecondKeepsOnlyX();
    var rest := Memory(START) + OutsideInputs(v, 1, [A], [F]);
    forall e ensures e in rest <==> e == OLD {
      OutsideHeld(v, 1, [A], [F], e);
      assert A in [A] && F in [F];
      assert Holds(v, 2, G) && !IsInput(2, G, 1, [A], [F]);
    }
    assert SECOND_MERGE[2] in SECOND_MERGE;
    assert Resurrects(rest, SECOND_MERGE, 2, OLD, 4, 4, v, 1);
  }

  lemma SecondFinishes()
    ensures FinishStep(START, SECOND_MERGE, [OUT], END)
  {
    hide IsMerge, Kept, IsReplacement, Resurrecting, Flatten;
    MergesAre();
    SecondKeepsOnlyX();
    SecondReplaces();
    SecondResurrects();
    FilesAreSound();
    OutputsFlatten();
  }

  // ----- the run -----

  lemma NextOf(s: DbState, t: DbState)
    ensures (exists updates :: WriteStep(s, updates, t)) ==> Next(s, t)
    ensures SwitchStep(s, t) || SnapshotStep(s, t) || OpenStep(s, t) ==> Next(s, t)
    ensures (exists i :: ReleaseStep(s, i, t)) ==> Next(s, t)
    ensures (exists level, f :: FlushStep(s, level, f, t)) ==> Next(s, t)
    ensures (exists p :: BeginStep(s, p, t)) ==> Next(s, t)
    ensures (exists es, outputs :: FinishStep(s, es, outputs, t)) ==> Next(s, t)
  {
    hide WriteStep, SwitchStep, SnapshotStep, OpenStep, ReleaseStep, FlushStep, BeginStep, FinishStep, MoveStep, EmptyFlushStep;
  }

  lemma OtherSteps()
    ensures SwitchStep(S1, S2) && SnapshotStep(S3, S4) && SwitchStep(S5, S6)
    ensures ReleaseStep(S11, 0, S12) && SwitchStep(S13, S14)
  {
  }

  lemma RunIsRun()
    ensures IsRun(RUN)
  {
    hide WriteStep, SwitchStep, SnapshotStep, OpenStep, ReleaseStep, FlushStep, BeginStep, FinishStep, Next;
    assert Init(RUN[0]);
    forall i | 0 < i < |RUN| ensures Next(RUN[i - 1], RUN[i]) {
      WritesAreSteps();
      FlushesAreSteps();
      BeginsAreSteps();
      OpensAreSteps();
      FirstFinishes();
      SecondFinishes();
      OtherSteps();
      NextOf(RUN[i - 1], RUN[i]);
    }
  }

  lemma ReadBefore()
    ensures Read(AllEntries(START), 2, 4) == None
  {
    hide Read;
    AtHolds([A], [F, G]);
    forall e ensures e in AllEntries(START) <==> e in {X, W, TOMBSTONE, OLD} {
      EntriesHeld(START.version, e);
      assert Holds(START.version, 1, A) && Holds(START.version, 2, F) && Holds(START.version, 2, G);
    }
    assert IsNewest(AllEntries(START), 2, 4, TOMBSTONE);
    ReadNewest(AllEntries(START), 2, 4, TOMBSTONE);
  }

  lemma ReadAfter()
    ensures Read(AllEntries(END), 2, 4) == Some("old")
  {
    hide Read;
    AtHolds([], [OUT, G]);
    forall e ensures e in AllEntries(END) <==> e == X || e == OLD {
      EntriesHeld(END.version, e);
      assert Holds(END.version, 2, OUT) && Holds(END.version, 2, G);
    }
    assert IsNewest(AllEntries(END), 2, 4, OLD);
    ReadNewest(AllEntries(END), 2, 4, OLD);
  }

  /** A run from the empty database that deletes a key and, after a last compaction, reads its old value. All
      states but the last read exactly. The file that continues the user key F ends with is not among the inputs. */
  lemma CompactionResurrects()
    ensures IsRun(RUN) && RUN[|RUN| - 2] == START && RUN[|RUN| - 1] == END
    ensures forall m :: 0 <= m < |RUN| - 1 ==> ReadsExactly(RUN[m])
    ensures exists es, outputs :: FinishStep(START, es, outputs, END)
    ensures !BoundaryClosed(At([A], [F, G]).files[2], [F])
    ensures Read(AllEntries(START), 2, START.lastSequence) == None
    ensures Read(AllEntries(END), 2, END.lastSequence) == Some("old")
    ensures Read(END.history, 2, END.lastSequence) == None
  {
    hide FinishStep, Read, AllEntries, IsRun, ReadsExactly, NothingSurfaced;
    RunIsRun();
    CleanIff(RUN, |RUN| - 2);
    SecondFinishes();
    assert F in [F] && IsLargest([F], TOMBSTONE.key) && G in [F, G] && Continues(G, TOMBSTONE.key);
    ReadBefore();
    ReadAfter();
    assert IsNewest(END.history, 2, 4, TOMBSTONE);
    ReadNewest(END.history, 2, 4, TOMBSTONE);
  }
}
