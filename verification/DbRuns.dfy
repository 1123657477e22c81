/** Safety over whole runs of the database. */
module DbRuns {
  import opened InternalKeys
  import opened Versions
  import opened FileSearch
  import opened BoundaryFiles
  import opened CompactionInputs
  import opened DropRule
  import opened Compactions
  import opened Installs
  import opened CompactionReads
  import opened DbSteps

  ghost predicate Init(s: DbState) {
    && s.mem == [] && s.imm == None && s.version == Version(seq(NUM_LEVELS, _ => []))
    && s.lastSequence == 0 && s.snapshots == [] && s.running == None && s.history == {} && s.clean
  }

  ghost predicate IsWrite(s: DbState, t: DbState) { exists updates :: WriteStep(s, updates, t) }
  ghost predicate IsRelease(s: DbState, t: DbState) { exists i :: ReleaseStep(s, i, t) }
  ghost predicate IsFlushOf(s: DbState, t: DbState) { exists level, f :: FlushStep(s, level, f, t) }
  ghost predicate IsBegin(s: DbState, t: DbState) { exists p :: BeginStep(s, p, t) }
  ghost predicate IsMove(s: DbState, t: DbState) { exists level, f :: MoveStep(s, level, f, t) }
  ghost predicate IsFinish(s: DbState, t: DbState) { exists es, outputs :: FinishStep(s, es, outputs, t) }

  /** One atomic step of anybody: a writer, a snapshot holder, or the background thread. */
  ghost predicate Next(s: DbState, t: DbState) {
    || IsWrite(s, t) || SwitchStep(s, t) || SnapshotStep(s, t) || IsRelease(s, t)
    || EmptyFlushStep(s, t) || IsFlushOf(s, t)
    || IsBegin(s, t) || OpenStep(s, t) || IsMove(s, t) || IsFinish(s, t)
  }

  ghost predicate IsRun(run: seq<DbState>) {
    && |run| > 0 && Init(run[0])
    && forall i :: 0 < i < |run| ==> Next(run[i - 1], run[i])
  }

  lemma InitOk(s: DbState)
    requires Init(s)
    ensures StateOk(s)
  {
    assert forall l, f :: !Holds(s.version, l, f);
    assert Entries(s.version) == {} && AllEntries(s) == {};
  }

  lemma NextKeeps(s: DbState, t: DbState)
    requires StateOk(s) && Next(s, t)
    ensures StateOk(t)
  {
    hide StateOk, WriteStep, SwitchStep, SnapshotStep, ReleaseStep, EmptyFlushStep, FlushStep, BeginStep, OpenStep, MoveStep, FinishStep;
    if IsWrite(s, t) {
      var updates :| WriteStep(s, updates, t);
      WriteKeeps(s, updates, t);
    } else if SwitchStep(s, t) {
      SwitchKeeps(s, t);
    } else if SnapshotStep(s, t) {
      SnapshotKeeps(s, t);
    } else if IsRelease(s, t) {
      var i :| ReleaseStep(s, i, t);
      ReleaseKeeps(s, i, t);
    } else if EmptyFlushStep(s, t) {
      EmptyFlushKeeps(s, t);
    } else if IsFlushOf(s, t) {
      var level, f :| FlushStep(s, level, f, t);
      FlushKeeps(s, level, f, t);
    } else if IsBegin(s, t) {
      var p :| BeginStep(s, p, t);
      BeginKeeps(s, p, t);
    } else if OpenStep(s, t) {
      OpenKeeps(s, t);
    } else if IsMove(s, t) {
      var level, f :| MoveStep(s, level, f, t);
      MoveKeeps(s, level, f, t);
    } else {
      var es, outputs :| FinishStep(s, es, outputs, t);
      FinishKeeps(s, es, outputs, t);
    }
  }

  /** The invariant holds in every state of every run. */
  lemma {:induction false} RunsAreSound(run: seq<DbState>, n: nat)
    requires IsRun(run) && n < |run|
    ensures StateOk(run[n])
    decreases n
  {
    hide Init, Next, StateOk;
    if n == 0 {
      InitOk(run[0]);
    } else {
      RunsAreSound(run, n - 1);
      NextKeeps(run[n - 1], run[n]);
    }
  }

  // ----- history only grows upwards -----

  ghost predicate HistoryExtends(s: DbState, t: DbState) {
    && s.history <= t.history && s.lastSequence <= t.lastSequence
    && forall e :: e in t.history && e !in s.history ==> e.key.sequence > s.lastSequence
  }

  lemma NextExtends(s: DbState, t: DbState)
    requires Next(s, t)
    ensures HistoryExtends(s, t)
    ensures t.clean ==> s.clean
    ensures s.clean && !t.clean ==> IsFinish(s, t)
  {
    hide Sorted, IsReplacement, IsMerge, Built, Kept, Flatten, ResurrectsSome, InputsOk, GapFree, IsFlush, FlushLevelOk,
         WellFormed;
    if IsWrite(s, t) {
      var updates :| WriteStep(s, updates, t);
      BatchIsFresh(updates, s.lastSequence + 1);
    }
  }

  lemma {:induction false} RunExtends(run: seq<DbState>, i: nat, j: nat)
    requires IsRun(run) && i <= j < |run|
    ensures HistoryExtends(run[i], run[j])
    ensures run[j].clean ==> run[i].clean
    decreases j
  {
    hide Init, Next;
    if i < j {
      RunExtends(run, i, j - 1);
      NextExtends(run[j - 1], run[j]);
    }
  }

  /** Later writes do not change what was written as of a sequence number. */
  lemma HistoryReadStable(s: DbState, t: DbState, u: UserKey, q: nat)
    requires HistoryExtends(s, t) && q <= s.lastSequence && Unique(t.history)
    ensures Read(s.history, u, q) == Read(t.history, u, q)
  {
    ReadDependsOnVisible(s.history, t.history, u, q);
  }

  // ----- when a run reads exactly -----

  /** At its install the running compaction surfaces a value at the boundary of its next-level inputs. */
  ghost predicate Surfaces(s: DbState, es: seq<Entry>) {
    && s.running.Some?
    && var p := s.running.value;
       exists i, key, g ::
         SurfacesAtBoundary(AllEntries(s), p.base, p.level, p.inputs1, es, i, key, g, p.smallestSnapshot, OldestReadable(s))
  }

  lemma FinishSurfaces(s: DbState, es: seq<Entry>, outputs: seq<FileMetaData>, t: DbState)
    requires StateOk(s) && FinishStep(s, es, outputs, t)
    ensures t.clean <==> s.clean && !Surfaces(s, es)
  {
    hide MemoryOk, NumbersBelow, Kept, Flatten, Sorted, Built, IsReplacement, ReadsMatch, Unique, TakenOk, HaveNumbers,
         LevelsOk, Layered, NumbersUnique, FlushedSince, InputsOk, GapFree, ResurrectsSome, SurfacesAtBoundary;
    var p := s.running.value;
    PlanHasInput(p, s.version);
    var lo, hi := HullOf(p.inputs0);
    OutputsAreFromInputs(p, es, outputs);
    MemoryIsNewer(s);
    UniqueSubset(AllEntries(s), s.history);
    ResurrectsIffSurfaces(Memory(s), p.base, s.version, p.level, p.inputs0, p.inputs1, outputs, lo, hi, es,
                          p.smallestSnapshot, OldestReadable(s));
  }

  lemma MemoryIsNewer(s: DbState)
    requires MemoryOk(s)
    ensures NewerThan(Memory(s), Entries(s.version))
  {
  }

  /** From a state that reads exactly, an install reads exactly if and only if nothing surfaces: whatever was
      written, flushed or released since the compaction began. */
  lemma FinishKeepsReadsIff(s: DbState, es: seq<Entry>, outputs: seq<FileMetaData>, t: DbState)
    requires StateOk(s) && FinishStep(s, es, outputs, t) && s.clean
    ensures ReadsMatch(AllEntries(t), t.history, OldestReadable(t)) <==> !Surfaces(s, es)
    ensures ReadsMatch(AllEntries(t), t.history, OldestReadable(t)) <==> t.clean
  {
    hide VersionOk, MemoryOk, NumbersBelow, Kept, Flatten, Sorted, Built, Resurrecting, IsReplacement, PlanOk, Unique,
         Surfaces, Read, TakenOk, AllEntries, IsMerge;
    FinishSurfaces(s, es, outputs, t);
    FinishChangesNoReadIff(s, es, outputs, t);
  }

  /** Step `k` of the run installs a compaction that surfaces a value. */
  ghost predicate SurfacesAt(run: seq<DbState>, k: nat, es: seq<Entry>, outputs: seq<FileMetaData>) {
    k + 1 < |run| && FinishStep(run[k], es, outputs, run[k + 1]) && Surfaces(run[k], es)
  }

  /** No compaction of the run's first `n` steps surfaces a value. */
  ghost predicate NothingSurfaced(run: seq<DbState>, n: nat)
    requires n < |run|
  {
    forall k, es, outputs :: 0 <= k < n ==> !SurfacesAt(run, k, es, outputs)
  }

  ghost predicate ReadsExactly(s: DbState) {
    ReadsMatch(AllEntries(s), s.history, OldestReadable(s))
  }

  /** One step of a run that has read exactly so far. */
  lemma StepReadsExactlyIff(run: seq<DbState>, n: nat)
    requires IsRun(run) && 0 < n < |run| && run[n - 1].clean && NothingSurfaced(run, n - 1)
    ensures run[n].clean <==> NothingSurfaced(run, n)
    ensures run[n].clean <==> ReadsExactly(run[n])
  {
    hide Init, Next, StateOk, FinishStep, Surfaces, ReadsMatch, HistoryExtends, IsFinish;
    RunsAreSound(run, n - 1);
    RunsAreSound(run, n);
    var s, t := run[n - 1], run[n];
    CleanReadsExactly(t);
    NextExtends(s, t);
    forall es, outputs | FinishStep(s, es, outputs, t) ensures t.clean == !Surfaces(s, es) == ReadsExactly(t) {
      FinishKeepsReadsIff(s, es, outputs, t);
    }
    if !t.clean {
      var es, outputs := FinishWitness(s, t);
      assert SurfacesAt(run, n - 1, es, outputs);
    }
  }

  lemma FinishWitness(s: DbState, t: DbState) returns (es: seq<Entry>, outputs: seq<FileMetaData>)
    requires IsFinish(s, t)
    ensures FinishStep(s, es, outputs, t)
  {
    hide FinishStep;
    es, outputs :| FinishStep(s, es, outputs, t);
  }

  lemma CleanReadsExactly(s: DbState)
    requires StateOk(s)
    ensures s.clean ==> ReadsExactly(s)
  {
  }

  lemma {:induction false} CleanIff(run: seq<DbState>, n: nat)
    requires IsRun(run) && n < |run|
    ensures run[n].clean <==> NothingSurfaced(run, n)
    ensures run[n].clean <==> forall m :: 0 <= m <= n ==> ReadsExactly(run[m])
    decreases n
  {
    hide Next, StateOk, FinishStep, Surfaces, ReadsExactly, HistoryExtends;
    RunsAreSound(run, n);
    CleanReadsExactly(run[n]);
    if n > 0 {
      CleanIff(run, n - 1);
      RunExtends(run, n - 1, n);
      if run[n - 1].clean {
        StepReadsExactlyIff(run, n);
      }
    }
  }

  /** All states of a run read exactly what was ever written, for every reader that may still look, if and only
      if none of its compactions surfaces a value. */
  lemma RunsReadExactlyIff(run: seq<DbState>, n: nat)
    requires IsRun(run) && n < |run|
    ensures (forall m, u, q :: 0 <= m <= n && Readable(run[m], q) ==>
               Read(AllEntries(run[m]), u, q) == Read(run[m].history, u, q))
       <==> NothingSurfaced(run, n)
  {
    hide IsRun, NothingSurfaced, Read, AllEntries, OldestReadable, Readable;
    CleanIff(run, n);
    forall m: nat, q: nat | 0 <= m <= n ensures Readable(run[m], q) <==> q >= OldestReadable(run[m]) {
      LiveReads(run, m, q);
    }
  }

  lemma LiveReads(run: seq<DbState>, m: nat, q: nat)
    requires IsRun(run) && m < |run|
    ensures Readable(run[m], q) <==> q >= OldestReadable(run[m])
  {
    hide IsRun, Readable, OldestReadable;
    RunsAreSound(run, m);
    ReadableIff(run[m], q);
  }

  /** A snapshot taken at any point of a run reads, for as long as it is live, exactly the newest write
      of each user key made before it was taken: across every later write, memtable switch, flush, trivial
      move and compaction, in any order, as long as no compaction surfaces a value. */
  lemma SnapshotsAreStable(run: seq<DbState>, i: nat, j: nat, u: UserKey, q: nat)
    requires IsRun(run) && i <= j < |run|
    requires q <= run[i].lastSequence && Readable(run[j], q)
    requires NothingSurfaced(run, j)
    ensures Read(AllEntries(run[j]), u, q) == Read(run[i].history, u, q)
  {
    hide NothingSurfaced;
    LiveReads(run, j, q);
    CleanIff(run, j);
    RunsAreSound(run, j);
    RunExtends(run, i, j);
    HistoryReadStable(run[i], run[j], u, q);
  }

  /** In terms of a map: what the database was when a snapshot was taken, the snapshot reads for as long as it lives. */
  lemma SnapshotReadsMap(run: seq<DbState>, i: nat, j: nat, m: map<UserKey, Value>, u: UserKey)
    requires IsRun(run) && i <= j < |run|
    requires ReadsAs(run[i].history, run[i].lastSequence, m)
    requires run[i].lastSequence in run[j].snapshots && NothingSurfaced(run, j)
    ensures Read(AllEntries(run[j]), u, run[i].lastSequence) == if u in m then Some(m[u]) else None
  {
    hide IsRun, NothingSurfaced, AllEntries, Read;
    var q := run[i].lastSequence;
    var k :| 0 <= k < |run[j].snapshots| && run[j].snapshots[k] == q;
    assert run[j].snapshots[k] <= q;
    SnapshotsAreStable(run, i, j, u, q);
  }

  /** The next-level inputs of every compaction of the run end at a user-key boundary. */
  ghost predicate AllClosed(run: seq<DbState>, n: nat)
    requires n < |run|
  {
    forall k :: 0 <= k < n && run[k].running.Some? ==> PlanClosed(run[k].running.value)
  }

  ghost predicate PlanClosed(p: Plan) {
    p.level + 1 < |p.base.files| && BoundaryClosed(p.base.files[p.level + 1], p.inputs1)
  }

  /** A compaction whose next-level inputs end at a user-key boundary never surfaces anything. */
  lemma ClosedSurfacesNothing(s: DbState, es: seq<Entry>)
    requires s.running.Some? && PlanClosed(s.running.value)
    ensures !Surfaces(s, es)
  {
  }

  lemma ClosedRunsSurfaceNothing(run: seq<DbState>, n: nat)
    requires n < |run| && AllClosed(run, n)
    ensures NothingSurfaced(run, n)
  {
    hide Surfaces, PlanClosed;
    forall k, es, outputs | 0 <= k < n && SurfacesAt(run, k, es, outputs) ensures false {
      ClosedSurfacesNothing(run[k], es);
    }
  }

  /** Had AddBoundaryInputs been applied to the next-level inputs too, snapshots would be stable in every run. */
  lemma ClosedRunsAreStable(run: seq<DbState>, i: nat, j: nat, u: UserKey, q: nat)
    requires IsRun(run) && i <= j < |run|
    requires q <= run[i].lastSequence && Readable(run[j], q)
    requires AllClosed(run, j)
    ensures Read(AllEntries(run[j]), u, q) == Read(run[i].history, u, q)
  {
    hide IsRun, NothingSurfaced, AllClosed;
    ClosedRunsSurfaceNothing(run, j);
    SnapshotsAreStable(run, i, j, u, q);
  }
}
