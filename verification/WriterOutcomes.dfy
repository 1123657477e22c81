/** What a writer is told about its write, and what became of it. */
module WriterOutcomes {
  import opened InternalKeys
  import opened WriterQueue
  import opened WriterProtocol

  // ----- status and completion -----

  /** A completed writer holds the status it was completed with. */
  ghost predicate Told(s: State) {
    forall c :: c in s.completions ==> c.id in s.writers && s.writers[c.id].status == c.status
  }

  ghost predicate HasCompletion(s: State, x: Id, status: Status) {
    exists c :: c in s.completions && c.id == x && c.status == status
  }

  /** The members of an applied group have been completed with success. */
  ghost predicate AppliedTold(s: State) {
    forall g, x :: g in s.applied && x in g.members ==> HasCompletion(s, x, Ok)
  }

  /** Statuses, completions and groups are as before. */
  ghost predicate SameOutcomes(s: State, t: State) {
    && t.completions == s.completions && t.applied == s.applied
    && forall x :: x in s.writers ==> x in t.writers && t.writers[x].status == s.writers[x].status
  }

  lemma OnlyFinishTells(s: State, a: Action)
    requires InBounds(s, a) && Enabled(s, a) && !a.Finish?
    ensures SameOutcomes(s, Do(s, a))
  {
    hide BuildGroup, InQueue;
  }

  lemma CompletedLeft(s: State, c: Completion)
    requires OrderOk(s) && c in s.completions
    ensures c.id in s.writers && c.id !in s.queue
  {
    var k :| 0 <= k < |s.completions| && s.completions[k] == c;
    assert Ids(s.completions)[k] == c.id;
    assert s.arrivals[k] == c.id;
    CompletedOrQueued(s, c.id);
    hide Distinct;
  }

  /** A finishing leader completes exactly its group, each with its outcome. */
  lemma FinishCompletes(s: State, x: Id, n: nat, t: State)
    requires IsFinish(s, x, n, t)
    ensures forall i :: 0 <= i < n ==> Completion(s.queue[i], x, s.writers[x].pc.outcome) in t.completions
    ensures forall c :: c in t.completions <==>
              c in s.completions || (c.id in s.queue[..n] && c.leader == x && c.status == s.writers[x].pc.outcome)
  {
    hide AfterFinish;
    var done, outcome := Completed(s.queue[..n], x, s.writers[x].pc.outcome), s.writers[x].pc.outcome;
    forall c ensures c in done <==> c.id in s.queue[..n] && c.leader == x && c.status == outcome {
      if c.id in s.queue[..n] && c.leader == x && c.status == outcome {
        var i :| 0 <= i < n && s.queue[..n][i] == c.id;
        assert done[i] == c;
      }
    }
    forall i | 0 <= i < n ensures Completion(s.queue[i], x, outcome) in done {
      assert done[i] == Completion(s.queue[i], x, outcome);
    }
  }

  lemma TellsMember(s: State, x: Id, n: nat, t: State, y: Id)
    requires InQueue(s) && IsFinish(s, x, n, t) && y in s.queue[..n]
    ensures y in t.writers && t.writers[y].status == s.writers[x].pc.outcome
  {
    InPrefix(s.queue, n, y);
  }

  lemma TellsNoOther(s: State, x: Id, n: nat, t: State, y: Id)
    requires IsFinish(s, x, n, t) && y in s.writers && y !in s.queue
    ensures y in t.writers && t.writers[y].status == s.writers[y].status
  {
    assert s.queue[0] in s.queue;
    if y in s.queue[..n] { InPrefix(s.queue, n, y); }
  }

  lemma FinishTells(s: State, x: Id, n: nat, t: State)
    requires OrderOk(s) && InQueue(s) && Told(s) && IsFinish(s, x, n, t)
    ensures Told(t)
    ensures forall i :: 0 <= i < n ==> Completion(s.queue[i], x, s.writers[x].pc.outcome) in t.completions
  {
    FinishCompletes(s, x, n, t);
    hide IsFinish, OrderOk, InQueue;
    forall c | c in t.completions ensures c.id in t.writers && t.writers[c.id].status == c.status {
      if c in s.completions {
        CompletedLeft(s, c);
        TellsNoOther(s, x, n, t, c.id);
      } else {
        TellsMember(s, x, n, t, c.id);
      }
    }
  }

  lemma FinishAppliedTold(s: State, x: Id, n: nat, t: State)
    requires AppliedTold(s) && IsFinish(s, x, n, t) && GroupsAfter(s, x, t)
    requires forall i :: 0 <= i < n ==> Completion(s.queue[i], x, s.writers[x].pc.outcome) in t.completions
    requires s.writers[x].pc.wrote.Some? ==> s.writers[x].pc.wrote.value.members == s.queue[..n]
    ensures AppliedTold(t)
  {
    forall g, y | g in t.applied && y in g.members ensures HasCompletion(t, y, Ok) {
      if g in s.applied {
        assert HasCompletion(s, y, Ok);
        StillCompleted(s, t, y, Ok);
      } else {
        var i :| 0 <= i < n && s.queue[..n][i] == y;
        assert Completion(s.queue[i], x, Ok) in t.completions;
      }
    }
  }

  lemma FinishFacts(s: State, x: Id) returns (n: nat)
    requires Inv(s) && Finishes(s, x)
    ensures OrderOk(s) && InQueue(s) && IsFinish(s, x, n, FinishGroup(s, x)) && GroupsAfter(s, x, FinishGroup(s, x))
    ensures s.writers[x].pc.wrote.Some? ==> s.writers[x].pc.wrote.value.members == s.queue[..n]
    ensures s.writers[x].pc.wrote.None? ==> s.queue[..n] == [x]
  {
    n := PopsGroup(s, x);
    FinishIs(s, x, n);
    FinishGroups(s, x);
  }

  lemma StepTells(s: State, a: Action)
    requires Inv(s) && Told(s) && AppliedTold(s) && Enabled(s, a)
    ensures InBounds(s, a) && Told(Do(s, a)) && AppliedTold(Do(s, a))
  {
    StepKeeps(s, a);
    hide Inv, InBounds, IsFinish, GroupsAfter, OrderOk;
    if a.Finish? {
      var n := FinishFacts(s, a.id);
      FinishTells(s, a.id, n, Do(s, a));
      FinishAppliedTold(s, a.id, n, Do(s, a));
    } else {
      OnlyFinishTells(s, a);
      SameTold(s, Do(s, a));
    }
  }

  lemma SameTold(s: State, t: State)
    requires Told(s) && AppliedTold(s) && SameOutcomes(s, t)
    ensures Told(t) && AppliedTold(t)
  {
    forall g, x | g in t.applied && x in g.members ensures HasCompletion(t, x, Ok) {
      assert HasCompletion(s, x, Ok);
    }
  }

  lemma {:induction false} AlwaysTold(base: nat, schedule: seq<Action>)
    ensures Told(Exec(base, schedule)) && AppliedTold(Exec(base, schedule))
  {
    hide Inv, Told, AppliedTold, Enabled, InBounds;
    if schedule == [] {
      NothingTold(base);
    } else {
      var init := schedule[..|schedule| - 1];
      AlwaysTold(base, init);
      if Enabled(Exec(base, init), schedule[|schedule| - 1]) {
        StepTells(Exec(base, init), schedule[|schedule| - 1]);
      }
    }
  }

  lemma NothingTold(base: nat)
    ensures Told(Initial(base)) && AppliedTold(Initial(base))
  {
  }

  lemma IsTold(s: State, x: Id, status: Status)
    requires Told(s) && HasCompletion(s, x, status)
    ensures x in s.writers && s.writers[x].status == status
  {
  }

  /** Who is done or has returned has been completed, with the status it was told. */
  lemma ToldByCompletion(base: nat, schedule: seq<Action>, x: Id)
    requires x in Exec(base, schedule).writers
    requires var w := Exec(base, schedule).writers[x]; w.done || w.pc.Returned?
    ensures var s := Exec(base, schedule);
            exists c :: c in s.completions && c.id == x && c.status == s.writers[x].status
  {
    hide Exec, Inv;
    CompletedOnceInOrder(base, schedule);
    AlwaysTold(base, schedule);
    var s := Exec(base, schedule);
    var k :| 0 <= k < |s.completions| && Ids(s.completions)[k] == x;
    assert s.completions[k] in s.completions;
  }

  /** What Write returns is what happened: a write of a batch is told it succeeded if and only if it belongs to a
      group that was applied. */
  lemma StatusIsOutcome(base: nat, schedule: seq<Action>, x: Id)
    requires x in Exec(base, schedule).writers
    requires var w := Exec(base, schedule).writers[x]; (w.done || w.pc.Returned?) && w.batch.Some?
    ensures var s := Exec(base, schedule);
            s.writers[x].status == Ok <==> exists g :: g in s.applied && x in g.members
  {
    hide Exec, OrderOk, ThreadsOk, MemoryOk, SequencesOk, LeaderOk;
    var s := Exec(base, schedule);
    ToldByCompletion(base, schedule, x);
    AlwaysTold(base, schedule);
    var c :| c in s.completions && c.id == x && c.status == s.writers[x].status;
    assert CompletionOk(s, c);
    if g :| g in s.applied && x in g.members {
      assert HasCompletion(s, x, Ok);
      IsTold(s, x, Ok);
    }
  }

  /** A write that asked for a sync and was told it succeeded is in the synced part of the log, whoever wrote it. */
  lemma SyncIsHonoured(base: nat, schedule: seq<Action>, x: Id)
    requires x in Exec(base, schedule).writers
    requires var w := Exec(base, schedule).writers[x]; (w.done || w.pc.Returned?) && w.sync && w.batch.Some? && w.status == Ok
    ensures var s := Exec(base, schedule);
            exists i :: 0 <= i < s.synced <= |s.log| && s.log[i] in s.applied && x in s.log[i].members
  {
    hide Exec, OrderOk, ThreadsOk, MemoryOk, SequencesOk, LeaderOk;
    var s := Exec(base, schedule);
    ToldByCompletion(base, schedule, x);
    var c :| c in s.completions && c.id == x && c.status == s.writers[x].status;
    assert CompletionOk(s, c);
  }

  // ----- failures -----

  /** A leader's attempt to make room, to append or to sync fails. */
  ghost predicate Fails(s: State, a: Action) {
    Enabled(s, a) && (a.Room? || a.Append? || a.Sync?) && a.status == Failed
  }

  /** Whose writes fail with it. */
  function Concerned(s: State, a: Action): seq<Id>
    requires Fails(s, a)
  {
    if a.Room? then [a.id] else s.writers[a.id].pc.group.members
  }

  /** The leader is about to tell these writers of the failure, or has done so. */
  ghost predicate Failing(s: State, x: Id, ids: seq<Id>) {
    || TellsFailure(s, x, ids)
    || forall y :: y in ids ==> HasCompletion(s, y, Failed)
  }

  ghost predicate TellsFailure(s: State, x: Id, ids: seq<Id>) {
    && Finishes(s, x) && s.writers[x].pc.outcome == Failed
    && ids == if s.writers[x].pc.wrote.Some? then s.writers[x].pc.wrote.value.members else [x]
  }

  lemma FailureBegins(s: State, a: Action)
    requires Inv(s) && Fails(s, a)
    ensures InBounds(s, a) && TellsFailure(Do(s, a), a.id, Concerned(s, a))
  {
    InvInBounds(s, a);
    hide Inv;
    TellsNext(s, a);
    hide Do, InBounds;
  }

  lemma TellsNext(s: State, a: Action)
    requires InBounds(s, a) && Fails(s, a)
    ensures TellsFailure(Do(s, a), a.id, Concerned(s, a))
  {
    hide BuildGroup, InQueue;
  }

  /** As long as the leader has not finished, nobody but it can do anything about its group. */
  lemma OthersLeaveLeader(s: State, a: Action, x: Id)
    requires Inv(s) && Finishes(s, x) && Enabled(s, a) && a != Finish(x)
    ensures InBounds(s, a) && !a.Finish? && x in Do(s, a).writers && Do(s, a).writers[x].pc == s.writers[x].pc
  {
    InvInBounds(s, a);
    OneLeader(s, x, a.id);
    hide Inv, InBounds;
    MovesItself(s, a, x);
  }

  lemma OneLeader(s: State, x: Id, y: Id)
    requires ThreadsOk(s) && Finishes(s, x)
    ensures Finishes(s, y) ==> x == y
  {
    assert ThreadOk(s.writers[x], x, s.queue);
    assert Finishes(s, y) ==> ThreadOk(s.writers[y], y, s.queue);
  }

  lemma MovesItself(s: State, a: Action, x: Id)
    requires InBounds(s, a) && Enabled(s, a) && !a.Finish? && Finishes(s, x)
    ensures x in Do(s, a).writers && Do(s, a).writers[x].pc == s.writers[x].pc
  {
    hide BuildGroup, InQueue;
  }

  lemma CompletionsGrow(s: State, a: Action)
    requires InBounds(s, a) && Enabled(s, a)
    ensures s.completions <= Do(s, a).completions
  {
    hide BuildGroup, InQueue;
  }

  lemma StillCompleted(s: State, t: State, x: Id, status: Status)
    requires HasCompletion(s, x, status) && s.completions <= t.completions
    ensures HasCompletion(t, x, status)
  {
    var c :| c in s.completions && c.id == x && c.status == status;
    assert c in t.completions;
  }

  lemma StillTells(s: State, a: Action, x: Id, ids: seq<Id>)
    requires Inv(s) && TellsFailure(s, x, ids) && Enabled(s, a) && a != Finish(x)
    ensures InBounds(s, a) && TellsFailure(Do(s, a), x, ids)
  {
    hide Inv, InBounds, Do, Enabled;
    OthersLeaveLeader(s, a, x);
  }

  lemma FinishIsDone(s: State, x: Id)
    requires InBounds(s, Finish(x)) && Enabled(s, Finish(x))
    ensures Finishes(s, x) && Do(s, Finish(x)) == FinishGroup(s, x)
  {
    hide FinishGroup;
  }

  lemma FailingStep(s: State, a: Action, x: Id, ids: seq<Id>)
    requires Inv(s) && Told(s) && Failing(s, x, ids) && Enabled(s, a)
    ensures InBounds(s, a) && Failing(Do(s, a), x, ids)
  {
    hide Inv, InBounds, Do, Enabled, FinishGroup, TellsFailure, HasCompletion, Told;
    StepKeeps(s, a);
    if TellsFailure(s, x, ids) {
      if a == Finish(x) {
        FinishIsDone(s, x);
        FailureTold(s, x, ids);
      } else {
        StillTells(s, a, x, ids);
      }
    } else {
      CompletionsGrow(s, a);
      forall y | y in ids ensures HasCompletion(Do(s, a), y, Failed) {
        StillCompleted(s, Do(s, a), y, Failed);
      }
    }
  }

  lemma FailureTold(s: State, x: Id, ids: seq<Id>)
    requires Inv(s) && Told(s) && TellsFailure(s, x, ids)
    ensures forall y :: y in ids ==> HasCompletion(FinishGroup(s, x), y, Failed)
  {
    hide Inv, IsFinish, GroupsAfter, OrderOk, InQueue, FinishGroup;
    var n := FinishFacts(s, x);
    FinishCompletes(s, x, n, FinishGroup(s, x));
    FinishSize(s, x, n, FinishGroup(s, x));
    forall y | y in ids ensures HasCompletion(FinishGroup(s, x), y, Failed) {
      assert Completion(y, x, Failed) in FinishGroup(s, x).completions;
    }
  }

  lemma FinishSize(s: State, x: Id, n: nat, t: State)
    requires IsFinish(s, x, n, t)
    ensures n <= |s.queue|
  {
  }

  lemma ExecNext(base: nat, schedule: seq<Action>, n: nat)
    requires 0 < n <= |schedule|
    ensures var s, a := Exec(base, schedule[..n - 1]), schedule[n - 1];
            && Inv(s)
            && (Enabled(s, a) ==> InBounds(s, a) && Exec(base, schedule[..n]) == Do(s, a))
            && (!Enabled(s, a) ==> Exec(base, schedule[..n]) == s)
  {
    hide Inv, InBounds, Enabled;
    assert schedule[..n][..n - 1] == schedule[..n - 1];
    if Enabled(Exec(base, schedule[..n - 1]), schedule[n - 1]) {
      StepKeeps(Exec(base, schedule[..n - 1]), schedule[n - 1]);
    }
  }

  lemma {:induction false} StaysFailing(base: nat, schedule: seq<Action>, k: nat, n: nat)
    requires k < n <= |schedule| && Fails(Exec(base, schedule[..k]), schedule[k])
    ensures Failing(Exec(base, schedule[..n]), schedule[k].id, Concerned(Exec(base, schedule[..k]), schedule[k]))
    decreases n
  {
    hide Exec, Do, Inv, InBounds, Enabled, Concerned, Failing, TellsFailure, Told, AppliedTold;
    var s, a := Exec(base, schedule[..n - 1]), schedule[n - 1];
    ExecNext(base, schedule, n);
    AlwaysTold(base, schedule[..n - 1]);
    if n == k + 1 {
      FailsEnabled(s, a);
      FailureBegins(s, a);
      IsFailing(Do(s, a), a.id, Concerned(s, a));
    } else {
      StaysFailing(base, schedule, k, n - 1);
      if Enabled(s, a) {
        FailingStep(s, a, schedule[k].id, Concerned(Exec(base, schedule[..k]), schedule[k]));
      }
    }
  }

  lemma FailsEnabled(s: State, a: Action)
    requires Fails(s, a)
    ensures Enabled(s, a)
  {
  }

  lemma IsFailing(s: State, x: Id, ids: seq<Id>)
    requires TellsFailure(s, x, ids)
    ensures Failing(s, x, ids)
  {
  }

  /** A failure to make room, to append or to sync is reported to every write of the group, at any later time. */
  lemma FailureIsReported(base: nat, schedule: seq<Action>, k: nat, y: Id)
    requires k < |schedule| && Fails(Exec(base, schedule[..k]), schedule[k])
    requires y in Concerned(Exec(base, schedule[..k]), schedule[k])
    requires var s := Exec(base, schedule); y in s.writers && (s.writers[y].done || s.writers[y].pc.Returned?)
    ensures Exec(base, schedule).writers[y].status == Failed
  {
    hide Exec, Concerned, OrderOk, SequencesOk, MemoryOk, CompletionsOk;
    StaysFailing(base, schedule, k, |schedule|);
    AlwaysTold(base, schedule);
    assert schedule[..|schedule|] == schedule;
    var s := Exec(base, schedule);
    StillWaiting(s, schedule[k].id, Concerned(Exec(base, schedule[..k]), schedule[k]), y);
    IsTold(s, y, Failed);
  }

  lemma StillWaiting(s: State, x: Id, ids: seq<Id>, y: Id)
    requires Inv(s) && Failing(s, x, ids) && y in ids && y in s.writers && (s.writers[y].done || s.writers[y].pc.Returned?)
    ensures HasCompletion(s, y, Failed)
  {
    hide OrderOk, SequencesOk, MemoryOk, CompletionsOk;
    assert ThreadOk(s.writers[y], y, s.queue);
    if TellsFailure(s, x, ids) {
      var n := FinishFacts(s, x);
      FinishSize(s, x, n, FinishGroup(s, x));
      InPrefix(s.queue, n, y);
    }
  }

  lemma InPrefix(queue: seq<Id>, n: nat, y: Id)
    requires n <= |queue| && y in queue[..n]
    ensures y in queue
  {
  }

  // ----- after a failed sync -----

  predicate InLog(pc: Pc) {
    pc.Appending? || pc.Syncing? || pc.Inserting?
  }

  /** A failed sync is about to become the background error, or is, and nobody is past making room. */
  ghost predicate Stopped(s: State, x: Id) {
    || (Finishes(s, x) && s.writers[x].pc.syncFailed)
    || (s.backgroundError && forall y :: y in s.writers ==> !InLog(s.writers[y].pc))
  }

  lemma FailedSyncStops(s: State, a: Action)
    requires Inv(s) && Enabled(s, a) && a.Sync? && a.status == Failed
    ensures InBounds(s, a) && Stopped(Do(s, a), a.id) && Do(s, a).log == s.log
  {
    InvInBounds(s, a);
    SyncFails(s, a);
    hide InBounds, Inv, Do;
  }

  lemma SyncFails(s: State, a: Action)
    requires InBounds(s, a) && Enabled(s, a) && a.Sync? && a.status == Failed
    ensures Finishes(Do(s, a), a.id) && Do(s, a).writers[a.id].pc.syncFailed && Do(s, a).log == s.log
  {
    hide BuildGroup, InQueue;
  }

  /** While a leader finishes, nobody is at the log. */
  lemma OnlyLeaderInLog(s: State, x: Id)
    requires Inv(s) && Finishes(s, x)
    ensures forall y :: y in s.writers ==> !InLog(s.writers[y].pc)
  {
    hide OrderOk, SequencesOk, MemoryOk, CompletionsOk, LeaderOk;
    assert ThreadOk(s.writers[x], x, s.queue);
    forall y | y in s.writers ensures !InLog(s.writers[y].pc) {
      assert ThreadOk(s.writers[y], y, s.queue);
    }
  }

  lemma FinishLeavesLog(s: State, x: Id, n: nat, t: State)
    requires IsFinish(s, x, n, t) && (forall y :: y in s.writers ==> !InLog(s.writers[y].pc))
    ensures t.log == s.log && forall y :: y in t.writers ==> !InLog(t.writers[y].pc)
  {
  }

  lemma StoppedMove(s: State, a: Action)
    requires InBounds(s, a) && Enabled(s, a) && !a.Finish? && s.backgroundError
    requires forall y :: y in s.writers ==> !InLog(s.writers[y].pc)
    ensures var t := Do(s, a);
            t.log == s.log && t.backgroundError && forall y :: y in t.writers ==> !InLog(t.writers[y].pc)
  {
    hide BuildGroup, InQueue;
  }

  lemma StoppedStep(s: State, a: Action, x: Id)
    requires Inv(s) && Stopped(s, x) && Enabled(s, a)
    ensures InBounds(s, a) && Stopped(Do(s, a), x) && Do(s, a).log == s.log
  {
    InvInBounds(s, a);
    hide Inv, InBounds, IsFinish, GroupsAfter, OrderOk;
    if a.Finish? {
      OnlyLeaderInLog(s, a.id);
      var n := FinishFacts(s, a.id);
      FinishLeavesLog(s, a.id, n, Do(s, a));
      FinishError(s, a.id);
      if Finishes(s, x) && s.writers[x].pc.syncFailed && a.id != x {
        OthersLeaveLeader(s, a, x);
      }
    } else if Finishes(s, x) && s.writers[x].pc.syncFailed {
      OthersLeaveLeader(s, a, x);
      OnlyLeaderInLog(s, x);
      NoAppend(s, a);
    } else {
      StoppedMove(s, a);
    }
  }

  lemma FinishError(s: State, x: Id)
    requires Finishes(s, x)
    ensures FinishGroup(s, x).backgroundError == (s.backgroundError || s.writers[x].pc.syncFailed)
  {
  }

  lemma NoAppend(s: State, a: Action)
    requires InBounds(s, a) && Enabled(s, a) && !a.Finish? && forall y :: y in s.writers ==> !InLog(s.writers[y].pc)
    ensures Do(s, a).log == s.log
  {
    hide BuildGroup, InQueue;
  }

  lemma {:induction false} StaysStopped(base: nat, schedule: seq<Action>, k: nat, n: nat)
    requires k < n <= |schedule| && schedule[k].Sync? && schedule[k].status == Failed
    requires Enabled(Exec(base, schedule[..k]), schedule[k])
    ensures Stopped(Exec(base, schedule[..n]), schedule[k].id)
    ensures Exec(base, schedule[..n]).log == Exec(base, schedule[..k]).log
    decreases n
  {
    hide Exec, Do, Inv, InBounds, Enabled, Stopped;
    var s, a := Exec(base, schedule[..n - 1]), schedule[n - 1];
    ExecNext(base, schedule, n);
    if n == k + 1 {
      FailedSyncStops(s, a);
    } else {
      StaysStopped(base, schedule, k, n - 1);
      if Enabled(s, a) {
        StoppedStep(s, a, schedule[k].id);
      }
    }
  }

  /** After a failed sync nothing is ever appended to the log again. */
  lemma FailedSyncEndsLog(base: nat, schedule: seq<Action>, k: nat)
    requires k < |schedule| && schedule[k].Sync? && schedule[k].status == Failed
    requires Enabled(Exec(base, schedule[..k]), schedule[k])
    ensures Exec(base, schedule).log == Exec(base, schedule[..k]).log
  {
    hide Exec;
    StaysStopped(base, schedule, k, |schedule|);
    assert schedule[..|schedule|] == schedule;
  }
}
