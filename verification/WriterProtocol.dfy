/** Every interleaving of the writers' steps. */
module WriterProtocol {
  import opened InternalKeys
  import opened DbSteps
  import opened WriterQueue

  // ----- what holds in every state -----

  ghost predicate InQueue(s: State) {
    forall k :: 0 <= k < |s.queue| ==> s.queue[k] in s.writers
  }

  function Ids(cs: seq<Completion>): seq<Id> {
    seq(|cs|, i requires 0 <= i < |cs| => cs[i].id)
  }

  /** Writers are completed once each, in the order of arrival. */
  ghost predicate OrderOk(s: State) {
    && s.arrivals == Ids(s.completions) + s.queue
    && Distinct(s.arrivals)
    && forall x :: x in s.writers <==> x in s.arrivals
  }

  predicate IsLeading(pc: Pc) {
    !pc.Waiting? && !pc.Ready? && !pc.Returned?
  }

  /** Only the writer at the front works, nobody blocks who could go on, and who is done is told. */
  ghost predicate ThreadOk(w: Writer, x: Id, queue: seq<Id>) {
    && (x in queue ==> !w.done && !w.pc.Returned?)
    && (x !in queue ==> w.pc.Returned? || (w.pc.Ready? && w.done))
    && (w.pc.Waiting? ==> |queue| > 0 && x != queue[0])
    && (IsLeading(w.pc) ==> |queue| > 0 && x == queue[0])
  }

  ghost predicate ThreadsOk(s: State) {
    forall x :: x in s.writers ==> ThreadOk(s.writers[x], x, s.queue)
  }

  function GroupOf(pc: Pc): Option<Group> {
    match pc
    case Appending(g) => Some(g)
    case Syncing(g) => Some(g)
    case Inserting(g, _) => Some(g)
    case Finishing(_, _, wrote, _) => wrote
    case _ => None
  }

  /** The group under way is a beginning of the queue and gets the next sequence numbers; a writer
      that wants a sync is only in the group of one that syncs. */
  ghost predicate GroupOk(s: State, leader: Id, g: Group)
    requires InQueue(s) && leader in s.writers
  {
    && 0 < |g.members| <= |s.queue|
    && g.start == |s.completions|
    && g.members == s.queue[..|g.members|]
    && g.last == g.members[|g.members| - 1]
    && g.previous == s.lastSequence
    && g.updates == Updates(s.writers, s.queue[..|g.members|])
    && s.writers[leader].batch.Some?
    && forall k :: 0 <= k < |g.members| && s.writers[s.queue[k]].sync ==> s.writers[leader].sync
  }

  /** Whether the group is in the log, and if the leader asked for it, synced. */
  ghost predicate Logged(s: State, leader: Id, g: Group)
    requires leader in s.writers
  {
    && |s.log| > 0 && s.log[|s.log| - 1] == g
    && (s.writers[leader].sync ==> s.synced == |s.log|)
  }

  ghost predicate LeaderOk(s: State) {
    InQueue(s) && (|s.queue| > 0 ==> PcOk(s, s.queue[0], s.writers[s.queue[0]].pc))
  }

  ghost predicate PcOk(s: State, leader: Id, pc: Pc)
    requires InQueue(s) && leader in s.writers
  {
    && (GroupOf(pc).Some? ==> GroupOk(s, leader, GroupOf(pc).value))
    && (pc.Syncing? ==> |s.log| > 0 && s.log[|s.log| - 1] == pc.group)
    && (pc.Inserting? ==> pc.inserted <= |pc.group.updates| && Logged(s, leader, pc.group))
    && (pc.Finishing? && pc.wrote.Some? ==> pc.last == pc.wrote.value.last)
    && (pc.Finishing? && pc.wrote.None? ==> pc.last == leader)
    && (pc.Finishing? && pc.wrote.Some? && pc.outcome == Ok ==> Logged(s, leader, pc.wrote.value))
    && (pc.Finishing? && pc.wrote.None? && pc.outcome == Ok ==> s.writers[leader].batch.None?)
  }

  function Total(gs: seq<Group>): nat {
    if gs == [] then 0 else Total(gs[..|gs| - 1]) + |gs[|gs| - 1].updates|
  }

  /** Finished groups hold consecutive sequence numbers and consecutive arrivals, in the same order. */
  ghost predicate SequencesOk(s: State) {
    && s.lastSequence == s.base + Total(s.finished)
    && (forall i :: 0 <= i < |s.finished| ==> s.finished[i].previous == s.base + Total(s.finished[..i]))
    && (forall i :: 0 <= i < |s.finished| ==> IsArrivals(s, s.finished[i]))
    && forall i, j :: 0 <= i < j < |s.finished| ==> s.finished[i].start + |s.finished[i].members| <= s.finished[j].start
  }

  ghost predicate IsArrivals(s: State, g: Group) {
    && g.start + |g.members| <= |s.completions| <= |s.arrivals|
    && s.arrivals[g.start..g.start + |g.members|] == g.members
  }

  function Stamps(g: Group): seq<Stamped> {
    seq(|g.updates|, i requires 0 <= i < |g.updates| => Stamped(g.previous + 1 + i, g.updates[i]))
  }

  function Applied(gs: seq<Group>): seq<Stamped> {
    if gs == [] then [] else Applied(gs[..|gs| - 1]) + Stamps(gs[|gs| - 1])
  }

  /** The part of the memtable the writer at the front has put there so far. */
  function UnderWay(s: State): seq<Stamped> {
    if |s.queue| == 0 || s.queue[0] !in s.writers then [] else Inserted(s.writers[s.queue[0]].pc)
  }

  function Inserted(pc: Pc): seq<Stamped> {
    match pc
    case Inserting(g, k) => if k <= |g.updates| then Stamps(g)[..k] else Stamps(g)
    case Finishing(_, outcome, wrote, _) => if outcome == Ok && wrote.Some? then Stamps(wrote.value) else []
    case _ => []
  }

  ghost predicate MemoryOk(s: State) {
    && s.mem == Applied(s.applied) + UnderWay(s)
    && forall g :: g in s.applied ==> g.previous + |g.updates| <= s.lastSequence
  }

  /** A completed write that was to write something, and succeeded, was logged by its leader's group, applied,
      and synced if it asked for it. */
  ghost predicate CompletionOk(s: State, c: Completion) {
    && c.id in s.writers && c.leader in s.writers
    && (s.writers[c.id].sync && s.writers[c.leader].batch.Some? ==> s.writers[c.leader].sync)
    && (s.writers[c.id].batch.Some? && c.status == Ok ==>
          exists i :: 0 <= i < |s.log| && s.log[i] in s.applied && c.id in s.log[i].members
                   && (s.writers[c.id].sync ==> i < s.synced))
  }

  ghost predicate CompletionsOk(s: State) {
    && s.synced <= |s.log|
    && forall c :: c in s.completions ==> CompletionOk(s, c)
  }

  ghost predicate Inv(s: State) {
    && OrderOk(s) && ThreadsOk(s) && LeaderOk(s) && SequencesOk(s) && MemoryOk(s) && CompletionsOk(s)
  }

  // ----- the steps -----

  function Initial(lastSequence: nat): State {
    State(map[], [], lastSequence, lastSequence, [], 0, [], false, [], [], [], [])
  }

  predicate Enabled(s: State, a: Action) {
    match a
    case Arrive(x, _, _, _) => x !in s.writers
    case Look(x) => x in s.writers && s.writers[x].pc.Ready?
    case Room(x, status) => x in s.writers && s.writers[x].pc.MakingRoom? && (s.backgroundError ==> status == Failed)
    case Append(x, _) => x in s.writers && s.writers[x].pc.Appending?
    case Sync(x, _) => x in s.writers && s.writers[x].pc.Syncing?
    case Insert(x) => x in s.writers && s.writers[x].pc.Inserting?
    case Finish(x) => x in s.writers && s.writers[x].pc.Finishing?
    case WakeSpuriously(x) => x in s.writers && s.writers[x].pc.Waiting?
  }

  function At(s: State, x: Id, pc: Pc): State
    requires x in s.writers
  {
    s.(writers := s.writers[x := s.writers[x].(pc := pc)])
  }

  function BuildGroup(s: State, leader: Id): Group
    requires |s.queue| > 0 && leader in s.writers && forall k :: 0 <= k < |s.queue| ==> s.queue[k] in s.writers
  {
    var w := s.writers[leader];
    var n := GroupEnd(s.writers, s.queue, 1, w.size, MaxSize(w.size), w.sync);
    Group(|s.completions|, s.queue[..n], s.queue[n - 1], s.lastSequence, Updates(s.writers, s.queue[..n]))
  }

  function Signalled(w: Writer): Writer {
    if w.pc.Waiting? then w.(pc := Ready) else w
  }

  /** A writer after the leader has completed `popped` and signalled the new front. */
  function AfterFinish(w: Writer, x: Id, leader: Id, outcome: Status, popped: seq<Id>, rest: seq<Id>): Writer {
    if x == leader then w.(pc := Returned, status := outcome)
    else if x in popped then Signalled(w.(status := outcome, done := true))
    else if rest != [] && x == rest[0] then Signalled(w)
    else w
  }

  function FinishGroup(s: State, leader: Id): State
    requires leader in s.writers && s.writers[leader].pc.Finishing?
  {
    var Finishing(last, outcome, wrote, syncFailed) := s.writers[leader].pc;
    var popped := PopUntil(s.queue, last);
    var rest := if |popped| <= |s.queue| then s.queue[|popped|..] else [];
    s.(writers := map x | x in s.writers :: AfterFinish(s.writers[x], x, leader, outcome, popped, rest),
       queue := rest,
       lastSequence := if wrote.Some? then wrote.value.previous + |wrote.value.updates| else s.lastSequence,
       backgroundError := s.backgroundError || syncFailed,
       completions := s.completions + seq(|popped|, i requires 0 <= i < |popped| => Completion(popped[i], leader, outcome)),
       finished := s.finished + if wrote.Some? then [wrote.value] else [],
       applied := s.applied + if wrote.Some? && outcome == Ok then [wrote.value] else [])
  }

  ghost predicate InBounds(s: State, a: Action) {
    && InQueue(s)
    && ((a.Room? || (a.Look? && a.id in s.writers && !s.writers[a.id].done)) ==> |s.queue| > 0)
  }

  lemma InvInBounds(s: State, a: Action)
    requires ThreadsOk(s) && LeaderOk(s) && Enabled(s, a)
    ensures InBounds(s, a)
  {
    if a.Room? || a.Look? {
      assert ThreadOk(s.writers[a.id], a.id, s.queue);
    }
  }

  function Do(s: State, a: Action): State
    requires InBounds(s, a) && Enabled(s, a)
  {
    match a
    case Arrive(x, batch, size, sync) =>
      s.(writers := s.writers[x := Writer(batch, size, sync, Ready, false, Ok)],
         queue := s.queue + [x], arrivals := s.arrivals + [x])
    case Look(x) =>
      At(s, x, if s.writers[x].done then Returned else if s.queue[0] == x then MakingRoom else Waiting)
    case Room(x, status) =>
      At(s, x, if status == Ok && s.writers[x].batch.Some? then Appending(BuildGroup(s, x)) else Finishing(x, status, None, false))
    case Append(x, status) =>
      var g := s.writers[x].pc.group;
      if status == Ok then At(s.(log := s.log + [g]), x, if s.writers[x].sync then Syncing(g) else Inserting(g, 0))
      else At(s, x, Finishing(g.last, Failed, Some(g), false))
    case Sync(x, status) =>
      var g := s.writers[x].pc.group;
      if status == Ok then At(s.(synced := |s.log|), x, Inserting(g, 0))
      else At(s, x, Finishing(g.last, Failed, Some(g), true))
    case Insert(x) =>
      var Inserting(g, k) := s.writers[x].pc;
      if k < |g.updates| then At(s.(mem := s.mem + [Stamped(g.previous + 1 + k, g.updates[k])]), x, Inserting(g, k + 1))
      else At(s, x, Finishing(g.last, Ok, Some(g), false))
    case Finish(x) => FinishGroup(s, x)
    case WakeSpuriously(x) => At(s, x, Ready)
  }

  // ----- what the steps leave alone -----

  /** Nobody's request changes, and nobody leaves the table. */
  ghost predicate SameRequests(ws: map<Id, Writer>, vs: map<Id, Writer>) {
    forall x :: x in ws ==> x in vs && vs[x].batch == ws[x].batch && vs[x].sync == ws[x].sync
  }

  lemma {:induction false} UpdatesSame(ws: map<Id, Writer>, vs: map<Id, Writer>, ids: seq<Id>)
    requires SameRequests(ws, vs) && forall k :: 0 <= k < |ids| ==> ids[k] in ws
    ensures Updates(ws, ids) == Updates(vs, ids)
  {
    if ids != [] {
      UpdatesSame(ws, vs, ids[..|ids| - 1]);
    }
  }

  /** The history is as before. */
  ghost predicate SameHistory(s: State, t: State) {
    && t.base == s.base && t.lastSequence == s.lastSequence && t.completions == s.completions
    && t.finished == s.finished && t.applied == s.applied
    && s.arrivals <= t.arrivals
  }

  lemma SequencesKept(s: State, t: State)
    requires SequencesOk(s) && SameHistory(s, t)
    ensures SequencesOk(t)
  {
    forall i | 0 <= i < |t.finished| ensures IsArrivals(t, t.finished[i]) {
      ArrivalsKept(s, t, s.finished[i]);
    }
    hide Total, IsArrivals;
  }

  lemma ArrivalsKept(s: State, t: State, g: Group)
    requires IsArrivals(s, g) && s.arrivals <= t.arrivals && s.completions <= t.completions && |t.completions| <= |t.arrivals|
    ensures IsArrivals(t, g)
  {
    assert t.arrivals[g.start..g.start + |g.members|] == s.arrivals[g.start..g.start + |g.members|];
  }

  lemma CompletionsKept(s: State, t: State)
    requires CompletionsOk(s) && SameHistory(s, t) && SameRequests(s.writers, t.writers)
    requires s.log <= t.log && s.synced <= t.synced <= |t.log|
    ensures CompletionsOk(t)
  {
    forall c | c in t.completions ensures CompletionOk(t, c) {
      assert CompletionOk(s, c);
      if t.writers[c.id].batch.Some? && c.status == Ok {
        var i :| 0 <= i < |s.log| && s.log[i] in s.applied && c.id in s.log[i].members && (s.writers[c.id].sync ==> i < s.synced);
        assert t.log[i] == s.log[i];
      }
    }
  }

  lemma GroupKept(s: State, t: State, leader: Id, g: Group)
    requires InQueue(s) && InQueue(t) && leader in s.writers && leader in t.writers
    requires GroupOk(s, leader, g) && SameRequests(s.writers, t.writers)
    requires s.queue <= t.queue && |t.completions| == |s.completions| && t.lastSequence == s.lastSequence
    ensures GroupOk(t, leader, g)
  {
    assert t.queue[..|g.members|] == s.queue[..|g.members|];
    UpdatesSame(s.writers, t.writers, s.queue[..|g.members|]);
    forall k | 0 <= k < |g.members| && t.writers[t.queue[k]].sync ensures t.writers[leader].sync {
      assert t.queue[k] == s.queue[k];
    }
  }

  // ----- arriving, looking, waking -----

  lemma ArriveKeeps(s: State, a: Action)
    requires Inv(s) && a.Arrive? && Enabled(s, a) && InBounds(s, a)
    ensures Inv(Do(s, a))
  {
    ArriveOrder(s, a);
    ArriveThreads(s, a);
    assert s.synced <= |s.log|;
    assert a.id !in s.writers;
    hide OrderOk, ThreadsOk, SequencesOk, CompletionsOk, MemoryOk, PcOk, LeaderOk;
    var t := Do(s, a);
    SequencesKept(s, t);
    CompletionsKept(s, t);
    ArriveLeader(s, a);
  }

  lemma ArriveOrder(s: State, a: Action)
    requires OrderOk(s) && a.Arrive? && Enabled(s, a) && InBounds(s, a)
    ensures OrderOk(Do(s, a))
  {
    var t := Do(s, a);
    assert a.id !in s.arrivals;
    assert t.arrivals == Ids(t.completions) + t.queue;
  }

  lemma ArriveThreads(s: State, a: Action)
    requires OrderOk(s) && ThreadsOk(s) && a.Arrive? && Enabled(s, a) && InBounds(s, a)
    ensures ThreadsOk(Do(s, a))
  {
    var t := Do(s, a);
    forall x | x in t.writers ensures ThreadOk(t.writers[x], x, t.queue) {
      if x != a.id {
        assert ThreadOk(s.writers[x], x, s.queue);
        assert x in t.queue <==> x in s.queue;
      }
    }
  }

  lemma PcKept(s: State, t: State, leader: Id, pc: Pc)
    requires InQueue(s) && InQueue(t) && leader in s.writers && leader in t.writers
    requires PcOk(s, leader, pc) && SameRequests(s.writers, t.writers)
    requires s.queue <= t.queue && |t.completions| == |s.completions| && t.lastSequence == s.lastSequence
    requires t.log == s.log && t.synced == s.synced
    ensures PcOk(t, leader, pc)
  {
    hide GroupOk;
    if GroupOf(pc).Some? {
      GroupKept(s, t, leader, GroupOf(pc).value);
    }
  }

  lemma ArriveLeader(s: State, a: Action)
    requires LeaderOk(s) && MemoryOk(s) && a.Arrive? && Enabled(s, a) && InBounds(s, a)
    ensures LeaderOk(Do(s, a)) && MemoryOk(Do(s, a))
  {
    hide PcOk, Applied, Stamps;
    var t := Do(s, a);
    assert InQueue(t);
    if |s.queue| > 0 {
      var x := s.queue[0];
      assert t.queue[0] == x && t.writers[x] == s.writers[x];
      PcKept(s, t, x, s.writers[x].pc);
    } else {
      NoGroup(t, a.id, Ready);
    }
  }

  lemma NoGroup(s: State, x: Id, pc: Pc)
    requires InQueue(s) && x in s.writers && (pc.Ready? || pc.Waiting? || pc.MakingRoom? || pc.Returned?)
    ensures PcOk(s, x, pc) && Inserted(pc) == []
  {
  }

  /** One thread moves on; of the shared state only the log and the memtable change. */
  ghost predicate Moves(s: State, t: State, x: Id, pc: Pc) {
    && x in s.writers
    && t.writers == s.writers[x := s.writers[x].(pc := pc)]
    && t.queue == s.queue && t.base == s.base && t.lastSequence == s.lastSequence
    && t.arrivals == s.arrivals && t.completions == s.completions && t.finished == s.finished && t.applied == s.applied
  }

  lemma MoveKeepsOthers(s: State, t: State, x: Id, pc: Pc)
    requires InQueue(s) && OrderOk(s) && ThreadsOk(s) && SequencesOk(s) && CompletionsOk(s)
    requires x in s.writers && ThreadOk(s.writers[x].(pc := pc), x, s.queue)
    requires Moves(s, t, x, pc)
    requires s.log <= t.log && s.synced <= t.synced <= |t.log|
    ensures InQueue(t) && OrderOk(t) && ThreadsOk(t) && SequencesOk(t) && CompletionsOk(t)
    ensures SameRequests(s.writers, t.writers)
  {
    hide SequencesOk, CompletionsOk, ThreadOk;
    SequencesKept(s, t);
    CompletionsKept(s, t);
  }

  lemma IdleMoveLeader(s: State, t: State, x: Id, pc: Pc)
    requires LeaderOk(s) && MemoryOk(s) && Moves(s, t, x, pc) && t.log == s.log && t.synced == s.synced && t.mem == s.mem
    requires !IsLeading(s.writers[x].pc) && (IsLeading(pc) ==> pc.MakingRoom?)
    ensures LeaderOk(t) && MemoryOk(t)
  {
    hide PcOk, Applied, Stamps, Inserted;
    assert InQueue(t);
    NoGroup(s, x, s.writers[x].pc);
    NoGroup(t, x, pc);
    if |s.queue| > 0 && s.queue[0] != x {
      PcKept(s, t, s.queue[0], s.writers[s.queue[0]].pc);
    }
  }

  /** A move of a thread that does not lead keeps everything about the one that does. */
  lemma IdleMoveKeeps(s: State, t: State, x: Id, pc: Pc)
    requires Inv(s) && Moves(s, t, x, pc) && t.log == s.log && t.synced == s.synced && t.mem == s.mem && ThreadOk(s.writers[x].(pc := pc), x, s.queue)
    requires !IsLeading(s.writers[x].pc)
    requires IsLeading(pc) ==> pc.MakingRoom?
    ensures Inv(t)
  {
    assert s.synced <= |s.log|;
    hide SequencesOk, CompletionsOk, MemoryOk, OrderOk, ThreadsOk, ThreadOk, PcOk;
    MoveKeepsOthers(s, t, x, pc);
    IdleMoveLeader(s, t, x, pc);
  }

  lemma LookKeeps(s: State, a: Action)
    requires Inv(s) && (a.Look? || a.WakeSpuriously?) && Enabled(s, a) && InBounds(s, a)
    ensures Inv(Do(s, a))
  {
    hide LeaderOk, SequencesOk, MemoryOk, CompletionsOk, OrderOk;
    assert ThreadOk(s.writers[a.id], a.id, s.queue);
    var t := Do(s, a);
    IdleMoveKeeps(s, t, a.id, t.writers[a.id].pc);
  }

  // ----- the leader's steps while others may arrive -----

  lemma LeaderMoveKeeps(s: State, t: State, x: Id, pc: Pc)
    requires Inv(s) && x in s.writers && IsLeading(s.writers[x].pc) && IsLeading(pc)
    requires Moves(s, t, x, pc)
    requires s.log <= t.log && s.synced <= t.synced <= |t.log|
    requires InQueue(t) && PcOk(t, x, pc) && t.mem == Applied(s.applied) + Inserted(pc)
    ensures Inv(t)
  {
    assert ThreadOk(s.writers[x], x, s.queue);
    assert ThreadOk(s.writers[x].(pc := pc), x, s.queue);
    hide OrderOk, ThreadsOk, SequencesOk, CompletionsOk, ThreadOk, PcOk, Inserted, Applied;
    MoveKeepsOthers(s, t, x, pc);
  }

  /** The group a leader builds is one it may write for. */
  lemma BuiltGroupOk(s: State, x: Id)
    requires InQueue(s) && |s.queue| > 0 && s.queue[0] == x && s.writers[x].batch.Some?
    ensures GroupOk(s, x, BuildGroup(s, x))
  {
    hide Updates;
    var g := BuildGroup(s, x);
    forall k | 0 <= k < |g.members| && s.writers[s.queue[k]].sync ensures s.writers[x].sync {
      if k == 0 { assert s.queue[k] == x; }
    }
  }

  lemma LeaderFacts(s: State, x: Id)
    requires Inv(s) && x in s.writers && IsLeading(s.writers[x].pc)
    ensures |s.queue| > 0 && s.queue[0] == x && InQueue(s) && PcOk(s, x, s.writers[x].pc)
    ensures s.mem == Applied(s.applied) + Inserted(s.writers[x].pc)
    ensures s.synced <= |s.log|
  {
    hide PcOk, Inserted, Applied;
    assert ThreadOk(s.writers[x], x, s.queue);
  }

  lemma GroupMoves(s: State, t: State, x: Id, pc: Pc, g: Group)
    requires InQueue(s) && x in s.writers && GroupOk(s, x, g)
    requires Moves(s, t, x, pc)
    ensures InQueue(t) && GroupOk(t, x, g)
  {
    hide GroupOk;
    GroupKept(s, t, x, g);
  }

  lemma GroupInsertsOk(t: State, x: Id, g: Group, k: nat)
    requires InQueue(t) && x in t.writers && GroupOk(t, x, g) && Logged(t, x, g) && k <= |g.updates|
    ensures PcOk(t, x, Inserting(g, k)) && Inserted(Inserting(g, k)) == Stamps(g)[..k]
  {
    hide GroupOk, Stamps;
  }

  lemma GroupFinishesOk(t: State, x: Id, g: Group, outcome: Status, syncFailed: bool)
    requires InQueue(t) && x in t.writers && GroupOk(t, x, g) && (outcome == Ok ==> Logged(t, x, g))
    ensures PcOk(t, x, Finishing(g.last, outcome, Some(g), syncFailed))
    ensures Inserted(Finishing(g.last, outcome, Some(g), syncFailed)) == if outcome == Ok then Stamps(g) else []
  {
    hide GroupOk, Stamps;
  }

  lemma GroupGoesOnOk(t: State, x: Id, g: Group, pc: Pc)
    requires InQueue(t) && x in t.writers && GroupOk(t, x, g)
    requires pc == Appending(g) || (pc == Syncing(g) && |t.log| > 0 && t.log[|t.log| - 1] == g)
    ensures PcOk(t, x, pc) && Inserted(pc) == []
  {
    hide GroupOk, Stamps;
  }

  lemma NoGroupFinishesOk(t: State, x: Id, outcome: Status)
    requires InQueue(t) && x in t.writers && (outcome == Ok ==> t.writers[x].batch.None?)
    ensures PcOk(t, x, Finishing(x, outcome, None, false)) && Inserted(Finishing(x, outcome, None, false)) == []
  {
  }

  lemma RoomMadeKeeps(s: State, x: Id)
    requires Inv(s) && x in s.writers && s.writers[x].pc == MakingRoom && s.writers[x].batch.Some?
    ensures |s.queue| > 0 && InQueue(s) && Inv(At(s, x, Appending(BuildGroup(s, x))))
  {
    hide Inv, GroupOk, PcOk, Inserted, Applied, Stamps, Updates, SameRequests, OrderOk, ThreadsOk, LeaderOk, SequencesOk,
         MemoryOk, CompletionsOk, BuildGroup;
    LeaderFacts(s, x);
    NoGroup(s, x, MakingRoom);
    var g := BuildGroup(s, x);
    BuiltGroupOk(s, x);
    var t := At(s, x, Appending(g));
    assert Moves(s, t, x, Appending(g));
    hide Moves, At;
    GroupMoves(s, t, x, Appending(g), g);
    GroupGoesOnOk(t, x, g, Appending(g));
    LeaderMoveKeeps(s, t, x, Appending(g));
  }

  lemma NoGroupKeeps(s: State, x: Id, outcome: Status)
    requires Inv(s) && x in s.writers && s.writers[x].pc == MakingRoom && (outcome == Ok ==> s.writers[x].batch.None?)
    ensures Inv(At(s, x, Finishing(x, outcome, None, false)))
  {
    hide Inv, PcOk, Applied, Stamps, Updates, SameRequests, OrderOk, ThreadsOk, LeaderOk, SequencesOk, MemoryOk, CompletionsOk;
    LeaderFacts(s, x);
    var t := At(s, x, Finishing(x, outcome, None, false));
    assert InQueue(t);
    assert Moves(s, t, x, Finishing(x, outcome, None, false));
    hide Moves, At;
    NoGroupFinishesOk(t, x, outcome);
    LeaderMoveKeeps(s, t, x, Finishing(x, outcome, None, false));
  }

  lemma PcGives(s: State, x: Id, g: Group)
    requires InQueue(s) && x in s.writers && PcOk(s, x, s.writers[x].pc) && GroupOf(s.writers[x].pc) == Some(g)
    ensures GroupOk(s, x, g)
    ensures s.writers[x].pc.Syncing? ==> |s.log| > 0 && s.log[|s.log| - 1] == g
    ensures s.writers[x].pc.Inserting? ==> Logged(s, x, g) && s.writers[x].pc.inserted <= |g.updates|
    ensures s.writers[x].pc.Inserting? ==> Inserted(s.writers[x].pc) == Stamps(g)[..s.writers[x].pc.inserted]
    ensures s.writers[x].pc.Appending? || s.writers[x].pc.Syncing? ==> Inserted(s.writers[x].pc) == []
  {
    hide GroupOk, Stamps;
  }

  lemma GroupFacts(s: State, x: Id, g: Group)
    requires Inv(s) && x in s.writers && GroupOf(s.writers[x].pc) == Some(g)
    ensures InQueue(s) && GroupOk(s, x, g) && s.synced <= |s.log|
    ensures s.writers[x].pc == Syncing(g) ==> |s.log| > 0 && s.log[|s.log| - 1] == g
    ensures s.writers[x].pc == Syncing(g) || s.writers[x].pc == Appending(g) ==> s.mem == Applied(s.applied)
  {
    LeaderFacts(s, x);
    PcGives(s, x, g);
  }

  lemma FailedGroupKeeps(s: State, x: Id, g: Group, syncFailed: bool)
    requires Inv(s) && x in s.writers && (s.writers[x].pc == Appending(g) || s.writers[x].pc == Syncing(g))
    ensures Inv(At(s, x, Finishing(g.last, Failed, Some(g), syncFailed)))
  {
    hide Inv, GroupOk, PcOk, Inserted, Applied, Stamps, InQueue, Updates, SameRequests, OrderOk, ThreadsOk, LeaderOk,
         SequencesOk, MemoryOk, CompletionsOk;
    GroupFacts(s, x, g);
    var pc := Finishing(g.last, Failed, Some(g), syncFailed);
    var t := At(s, x, pc);
    assert Moves(s, t, x, pc);
    hide Moves, At;
    GroupMoves(s, t, x, pc, g);
    GroupFinishesOk(t, x, g, Failed, syncFailed);
    LeaderMoveKeeps(s, t, x, pc);
  }

  lemma LoggedGroupKeeps(s: State, x: Id, g: Group)
    requires Inv(s) && x in s.writers && s.writers[x].pc == Appending(g)
    ensures Inv(At(s.(log := s.log + [g]), x, if s.writers[x].sync then Syncing(g) else Inserting(g, 0)))
  {
    hide Inv, GroupOk, PcOk, Inserted, Applied, Stamps, InQueue, Updates, SameRequests, OrderOk, ThreadsOk, LeaderOk,
         SequencesOk, MemoryOk, CompletionsOk;
    GroupFacts(s, x, g);
    var pc := if s.writers[x].sync then Syncing(g) else Inserting(g, 0);
    var t := At(s.(log := s.log + [g]), x, pc);
    assert Moves(s, t, x, pc);
    hide Moves, At;
    GroupMoves(s, t, x, pc, g);
    if s.writers[x].sync { GroupGoesOnOk(t, x, g, pc); } else { GroupInsertsOk(t, x, g, 0); }
    LeaderMoveKeeps(s, t, x, pc);
  }

  lemma SyncedGroupKeeps(s: State, x: Id, g: Group)
    requires Inv(s) && x in s.writers && s.writers[x].pc == Syncing(g)
    ensures Inv(At(s.(synced := |s.log|), x, Inserting(g, 0)))
  {
    hide Inv, GroupOk, PcOk, Inserted, Applied, Stamps, InQueue, Updates, SameRequests, OrderOk, ThreadsOk, LeaderOk,
         SequencesOk, MemoryOk, CompletionsOk;
    GroupFacts(s, x, g);
    var t := At(s.(synced := |s.log|), x, Inserting(g, 0));
    assert Moves(s, t, x, Inserting(g, 0));
    hide Moves, At;
    GroupMoves(s, t, x, Inserting(g, 0), g);
    GroupInsertsOk(t, x, g, 0);
    LeaderMoveKeeps(s, t, x, Inserting(g, 0));
  }

  lemma InsertingFacts(s: State, x: Id, g: Group, k: nat)
    requires Inv(s) && x in s.writers && s.writers[x].pc == Inserting(g, k)
    ensures InQueue(s) && GroupOk(s, x, g) && Logged(s, x, g) && k <= |g.updates|
    ensures s.mem == Applied(s.applied) + Stamps(g)[..k] && s.synced <= |s.log|
  {
    LeaderFacts(s, x);
    PcGives(s, x, g);
  }

  lemma InsertedUpdateKeeps(s: State, x: Id, g: Group, k: nat)
    requires Inv(s) && x in s.writers && s.writers[x].pc == Inserting(g, k) && k < |g.updates|
    ensures Inv(At(s.(mem := s.mem + [Stamped(g.previous + 1 + k, g.updates[k])]), x, Inserting(g, k + 1)))
  {
    hide Inv, GroupOk, PcOk, Inserted, Applied, Stamps, InQueue, Updates, SameRequests, OrderOk, ThreadsOk, LeaderOk,
         SequencesOk, MemoryOk, CompletionsOk, Logged;
    InsertingFacts(s, x, g, k);
    var stamp := Stamped(g.previous + 1 + k, g.updates[k]);
    var t := At(s.(mem := s.mem + [stamp]), x, Inserting(g, k + 1));
    assert Moves(s, t, x, Inserting(g, k + 1));
    hide Moves, At;
    GroupMoves(s, t, x, Inserting(g, k + 1), g);
    LoggedMoves(s, t, x, g);
    GroupInsertsOk(t, x, g, k + 1);
    StampsGrow(g, k, s.mem, Applied(s.applied));
    LeaderMoveKeeps(s, t, x, Inserting(g, k + 1));
  }

  lemma LoggedMoves(s: State, t: State, x: Id, g: Group)
    requires x in s.writers && x in t.writers && t.log == s.log && t.synced == s.synced
    requires t.writers[x].sync == s.writers[x].sync && Logged(s, x, g)
    ensures Logged(t, x, g)
  {
  }

  lemma StampsLength(g: Group)
    ensures |Stamps(g)| == |g.updates|
  {
  }

  lemma StampsGrow(g: Group, k: nat, mem: seq<Stamped>, applied: seq<Stamped>)
    requires k < |g.updates| && mem == applied + Stamps(g)[..k]
    ensures mem + [Stamped(g.previous + 1 + k, g.updates[k])] == applied + Stamps(g)[..k + 1]
  {
    var stamp := Stamped(g.previous + 1 + k, g.updates[k]);
    assert Stamps(g)[..k + 1] == Stamps(g)[..k] + [stamp];
    assert applied + (Stamps(g)[..k] + [stamp]) == (applied + Stamps(g)[..k]) + [stamp];
  }

  lemma InsertedGroupKeeps(s: State, x: Id, g: Group, k: nat)
    requires Inv(s) && x in s.writers && s.writers[x].pc == Inserting(g, k) && k >= |g.updates|
    ensures Inv(At(s, x, Finishing(g.last, Ok, Some(g), false)))
  {
    hide Inv, GroupOk, PcOk, Inserted, Applied, Stamps, InQueue, Updates, SameRequests, OrderOk, ThreadsOk, LeaderOk,
         SequencesOk, MemoryOk, CompletionsOk, Logged;
    InsertingFacts(s, x, g, k);
    StampsLength(g);
    var pc := Finishing(g.last, Ok, Some(g), false);
    var t := At(s, x, pc);
    assert Moves(s, t, x, pc);
    hide Moves, At;
    GroupMoves(s, t, x, pc, g);
    LoggedMoves(s, t, x, g);
    GroupFinishesOk(t, x, g, Ok, false);
    LeaderMoveKeeps(s, t, x, pc);
  }

  // ----- completing a group -----

  ghost predicate Finishes(s: State, x: Id) {
    x in s.writers && s.writers[x].pc.Finishing?
  }

  /** The leader takes exactly its group off the queue. */
  lemma PopsGroup(s: State, x: Id) returns (n: nat)
    requires Inv(s) && Finishes(s, x)
    ensures 0 < n <= |s.queue| && s.queue[0] == x
    ensures PopUntil(s.queue, s.writers[x].pc.last) == s.queue[..n]
    ensures s.writers[x].pc.wrote.Some? ==> n == |s.writers[x].pc.wrote.value.members| && GroupOk(s, x, s.writers[x].pc.wrote.value)
    ensures s.writers[x].pc.wrote.None? ==> n == 1
  {
    LeaderFacts(s, x);
    QueueDistinct(s);
    hide Inv, Distinct;
    var pc := s.writers[x].pc;
    n := if pc.wrote.Some? then |pc.wrote.value.members| else 1;
    assert pc.last == s.queue[n - 1];
    PopsPrefix(s.queue, n);
  }

  lemma QueueDistinct(s: State)
    requires OrderOk(s)
    ensures Distinct(s.queue)
  {
    var c := |s.completions|;
    forall i, j | 0 <= i < j < |s.queue| ensures s.queue[i] != s.queue[j] {
      assert s.queue[i] == s.arrivals[c + i] && s.queue[j] == s.arrivals[c + j];
    }
  }

  function Completed(popped: seq<Id>, leader: Id, outcome: Status): seq<Completion> {
    seq(|popped|, i requires 0 <= i < |popped| => Completion(popped[i], leader, outcome))
  }

  /** The state after a finishing step, spelled out for a group of `n`. */
  ghost predicate IsFinish(s: State, x: Id, n: nat, t: State) {
    && Finishes(s, x) && 0 < n <= |s.queue| && s.queue[0] == x
    && t.queue == s.queue[n..] && t.arrivals == s.arrivals && t.base == s.base && t.log == s.log && t.synced == s.synced && t.mem == s.mem
    && t.completions == s.completions + Completed(s.queue[..n], x, s.writers[x].pc.outcome)
    && (forall y :: y in t.writers <==> y in s.writers)
    && (forall y :: y in s.writers ==>
          t.writers[y] == AfterFinish(s.writers[y], y, x, s.writers[x].pc.outcome, s.queue[..n], s.queue[n..]))
  }

  lemma FinishIs(s: State, x: Id, n: nat)
    requires Finishes(s, x) && 0 < n <= |s.queue| && s.queue[0] == x && PopUntil(s.queue, s.writers[x].pc.last) == s.queue[..n]
    ensures IsFinish(s, x, n, FinishGroup(s, x))
  {
  }

  lemma FinishOrder(s: State, x: Id, n: nat, t: State)
    requires OrderOk(s) && IsFinish(s, x, n, t)
    ensures OrderOk(t)
  {
    hide AfterFinish, Distinct;
    CompletedIds(s.completions, s.queue[..n], x, s.writers[x].pc.outcome);
    RestOfQueue(Ids(s.completions), s.queue, n);
  }

  lemma CompletedIds(cs: seq<Completion>, popped: seq<Id>, leader: Id, outcome: Status)
    ensures Ids(cs + Completed(popped, leader, outcome)) == Ids(cs) + popped
  {
  }

  lemma RestOfQueue(done: seq<Id>, queue: seq<Id>, n: nat)
    requires n <= |queue|
    ensures done + queue == (done + queue[..n]) + queue[n..]
  {
  }

  lemma SplitQueue(q: seq<Id>, n: nat, x: Id)
    requires n <= |q| && Distinct(q)
    ensures x in q <==> x in q[..n] || x in q[n..]
    ensures !(x in q[..n] && x in q[n..])
  {
    assert q == q[..n] + q[n..];
    forall i, j | 0 <= i < n && 0 <= j < |q| - n ensures q[..n][i] != q[n..][j] {
      assert q[..n][i] == q[i] && q[n..][j] == q[n + j];
    }
  }

  lemma FinishThreads(s: State, x: Id, n: nat, t: State)
    requires Distinct(s.queue) && ThreadsOk(s) && IsFinish(s, x, n, t)
    ensures ThreadsOk(t)
  {
    forall y | y in t.writers ensures ThreadOk(t.writers[y], y, t.queue) {
      assert ThreadOk(s.writers[y], y, s.queue);
      SplitQueue(s.queue, n, y);
      FinishThread(s.writers[y], y, x, s.writers[x].pc.outcome, s.queue, n);
    }
  }

  lemma FinishThread(w: Writer, y: Id, x: Id, outcome: Status, queue: seq<Id>, n: nat)
    requires ThreadOk(w, y, queue) && 0 < n <= |queue| && queue[0] == x
    requires y in queue <==> y in queue[..n] || y in queue[n..]
    requires !(y in queue[..n] && y in queue[n..])
    ensures ThreadOk(AfterFinish(w, y, x, outcome, queue[..n], queue[n..]), y, queue[n..])
  {
    assert x in queue[..n];
    if n < |queue| { assert queue[n..][0] in queue[n..]; }
  }

  lemma FinishSame(s: State, x: Id, n: nat, t: State)
    requires IsFinish(s, x, n, t)
    ensures SameRequests(s.writers, t.writers)
  {
  }

  lemma FinishLeader(s: State, x: Id, n: nat, t: State)
    requires InQueue(s) && Distinct(s.queue) && ThreadsOk(s) && IsFinish(s, x, n, t)
    ensures LeaderOk(t) && UnderWay(t) == []
  {
    FinishInQueue(s, x, n, t);
    if |t.queue| > 0 {
      var y := t.queue[0];
      NewFront(s, x, n, t);
      NoGroup(t, y, Ready);
    }
  }

  lemma FinishInQueue(s: State, x: Id, n: nat, t: State)
    requires InQueue(s) && IsFinish(s, x, n, t)
    ensures InQueue(t)
  {
    forall k | 0 <= k < |t.queue| ensures t.queue[k] in t.writers {
      assert t.queue[k] == s.queue[n + k];
    }
  }

  /** Whoever comes to the front is awake, and has not begun yet. */
  lemma NewFront(s: State, x: Id, n: nat, t: State)
    requires InQueue(s) && Distinct(s.queue) && ThreadsOk(s) && IsFinish(s, x, n, t) && n < |s.queue|
    ensures t.queue[0] in t.writers && t.writers[t.queue[0]].pc.Ready?
  {
    var y := t.queue[0];
    assert y == s.queue[n] && y != s.queue[0];
    SplitQueue(s.queue, n, y);
    assert ThreadOk(s.writers[y], y, s.queue);
    assert y in s.queue[n..];
  }

  /** The groups after a finishing step. */
  ghost predicate GroupsAfter(s: State, x: Id, t: State) {
    && Finishes(s, x)
    && var pc := s.writers[x].pc;
       if pc.wrote.Some? then
         var g := pc.wrote.value;
         && t.lastSequence == g.previous + |g.updates|
         && t.finished == s.finished + [g]
         && t.applied == s.applied + if pc.outcome == Ok then [g] else []
       else t.lastSequence == s.lastSequence && t.finished == s.finished && t.applied == s.applied
  }

  lemma FinishGroups(s: State, x: Id)
    requires Finishes(s, x)
    ensures GroupsAfter(s, x, FinishGroup(s, x))
  {
  }

  lemma TotalGrows(gs: seq<Group>, g: Group)
    ensures Total(gs + [g]) == Total(gs) + |g.updates|
  {
    assert (gs + [g])[..|gs|] == gs;
  }

  lemma AppliedGrows(gs: seq<Group>, g: Group)
    ensures Applied(gs + [g]) == Applied(gs) + Stamps(g)
  {
    hide Stamps;
    assert (gs + [g])[..|gs|] == gs;
  }

  /** The finished group gets the numbers and the arrivals that follow those of the groups before it. */
  lemma FinishSequences(s: State, x: Id, n: nat, t: State)
    requires InQueue(s) && OrderOk(s) && SequencesOk(s) && IsFinish(s, x, n, t) && GroupsAfter(s, x, t)
    requires s.writers[x].pc.wrote.Some? ==> GroupOk(s, x, s.writers[x].pc.wrote.value) && n == |s.writers[x].pc.wrote.value.members|
    ensures SequencesOk(t)
  {
    FinishCounts(s, x, n, t);
    if s.writers[x].pc.wrote.Some? {
      var g := s.writers[x].pc.wrote.value;
      GroupPrevious(s, x, g);
      GroupIsArrivals(s, x, n, t, g);
    }
    hide OrderOk, IsFinish, GroupOk, Distinct, Total, SequencesOk, IsArrivals, InQueue;
    OldArrivals(s, t);
    if s.writers[x].pc.wrote.Some? {
      TotalGrows(s.finished, s.writers[x].pc.wrote.value);
      FinishedGrow(s, t, s.writers[x].pc.wrote.value);
    } else {
      FinishedSame(s, t);
    }
  }

  lemma OldArrivals(s: State, t: State)
    requires SequencesOk(s) && t.arrivals == s.arrivals && |s.completions| <= |t.completions| <= |t.arrivals|
    ensures forall i :: 0 <= i < |s.finished| ==> IsArrivals(t, s.finished[i])
    ensures s.lastSequence == s.base + Total(s.finished)
  {
    forall i | 0 <= i < |s.finished| ensures IsArrivals(t, s.finished[i]) {
      assert IsArrivals(s, s.finished[i]);
    }
  }

  lemma FinishedSame(s: State, t: State)
    requires SequencesOk(s) && t.finished == s.finished && t.base == s.base && t.lastSequence == s.lastSequence
    requires forall i :: 0 <= i < |s.finished| ==> IsArrivals(t, s.finished[i])
    ensures SequencesOk(t)
  {
    hide Total, IsArrivals;
  }

  lemma FinishCounts(s: State, x: Id, n: nat, t: State)
    requires OrderOk(s) && IsFinish(s, x, n, t)
    ensures |t.completions| == |s.completions| + n <= |t.arrivals| && t.base == s.base && t.arrivals == s.arrivals
  {
    assert |s.arrivals| == |s.completions| + |s.queue|;
  }

  lemma GroupPrevious(s: State, x: Id, g: Group)
    requires InQueue(s) && x in s.writers && GroupOk(s, x, g)
    ensures g.previous == s.lastSequence && g.start == |s.completions|
  {
  }

  lemma GroupIsArrivals(s: State, x: Id, n: nat, t: State, g: Group)
    requires InQueue(s) && x in s.writers && OrderOk(s) && IsFinish(s, x, n, t) && GroupOk(s, x, g) && n == |g.members|
    requires |t.completions| <= |t.arrivals|
    ensures IsArrivals(t, g)
  {
    hide Distinct, Updates, AfterFinish, SameRequests, InQueue;
    var a := Ids(s.completions);
    assert t.arrivals == a + s.queue && |a| == |s.completions|;
    FinishCounts(s, x, n, t);
    SliceOfSecond(a, s.queue, n);
  }

  lemma SliceOfSecond(a: seq<Id>, b: seq<Id>, n: nat)
    requires n <= |b|
    ensures (a + b)[|a|..|a| + n] == b[..n]
  {
  }

  lemma FinishedGrow(s: State, t: State, g: Group)
    requires SequencesOk(s) && t.finished == s.finished + [g] && t.base == s.base && t.lastSequence == t.base + Total(t.finished)
    requires g.previous == s.lastSequence && g.start == |s.completions|
    requires IsArrivals(t, g) && forall i :: 0 <= i < |s.finished| ==> IsArrivals(t, s.finished[i])
    ensures SequencesOk(t)
  {
    hide Total;
    forall i | 0 <= i < |t.finished| ensures t.finished[i].previous == t.base + Total(t.finished[..i]) && IsArrivals(t, t.finished[i]) {
      assert t.finished[..i] == s.finished[..i];
      if i == |s.finished| { assert t.finished[..i] == s.finished; }
    }
    forall i, j | 0 <= i < j < |t.finished| ensures t.finished[i].start + |t.finished[i].members| <= t.finished[j].start {
      assert IsArrivals(s, s.finished[i]);
      assert j < |s.finished| ==> t.finished[j] == s.finished[j];
    }
  }

  lemma FinishMemory(s: State, x: Id, n: nat, t: State)
    requires InQueue(s) && MemoryOk(s) && IsFinish(s, x, n, t) && GroupsAfter(s, x, t) && UnderWay(t) == []
    requires s.writers[x].pc.wrote.Some? ==> s.writers[x].pc.wrote.value.previous == s.lastSequence
    ensures MemoryOk(t)
  {
    hide Applied, Stamps, UnderWay;
    var pc := s.writers[x].pc;
    assert UnderWay(s) == Inserted(pc) by { FrontUnderWay(s, x); }
    if pc.wrote.Some? && pc.outcome == Ok {
      AppliedGrows(s.applied, pc.wrote.value);
      assert t.mem == Applied(t.applied) + [];
    } else {
      assert t.applied == s.applied && Inserted(pc) == [];
    }
  }

  lemma FrontUnderWay(s: State, x: Id)
    requires |s.queue| > 0 && s.queue[0] == x && x in s.writers
    ensures UnderWay(s) == Inserted(s.writers[x].pc)
  {
  }

  lemma FinishCompletions(s: State, x: Id, n: nat, t: State)
    requires InQueue(s) && CompletionsOk(s) && IsFinish(s, x, n, t) && GroupsAfter(s, x, t) && PcOk(s, x, s.writers[x].pc)
    requires s.writers[x].pc.wrote.Some? ==> n == |s.writers[x].pc.wrote.value.members|
    requires s.writers[x].pc.wrote.None? ==> n == 1
    ensures CompletionsOk(t)
  {
    FinishSame(s, x, n, t);
    var outcome := s.writers[x].pc.outcome;
    forall c | c in t.completions ensures CompletionOk(t, c) {
      if c in s.completions {
        assert CompletionOk(s, c);
        OldCompletion(s, t, c);
      } else {
        var k :| 0 <= k < |t.completions| && t.completions[k] == c;
        var i := k - |s.completions|;
        assert c == Completed(s.queue[..n], x, outcome)[i];
        NewCompletion(s, x, n, t, i);
      }
    }
  }

  lemma OldCompletion(s: State, t: State, c: Completion)
    requires CompletionOk(s, c) && SameRequests(s.writers, t.writers) && t.log == s.log && t.synced == s.synced && s.applied <= t.applied
    ensures CompletionOk(t, c)
  {
    if t.writers[c.id].batch.Some? && c.status == Ok {
      var i :| 0 <= i < |s.log| && s.log[i] in s.applied && c.id in s.log[i].members && (s.writers[c.id].sync ==> i < s.synced);
      assert t.log[i] in t.applied;
    }
  }

  lemma NewCompletion(s: State, x: Id, n: nat, t: State, i: nat)
    requires InQueue(s) && Finishes(s, x) && 0 < n <= |s.queue| && s.queue[0] == x && i < n
    requires SameRequests(s.writers, t.writers) && GroupsAfter(s, x, t) && PcOk(s, x, s.writers[x].pc)
    requires t.log == s.log && t.synced == s.synced
    requires s.writers[x].pc.wrote.Some? ==> n == |s.writers[x].pc.wrote.value.members|
    requires s.writers[x].pc.wrote.None? ==> n == 1
    ensures CompletionOk(t, Completion(s.queue[i], x, s.writers[x].pc.outcome))
  {
    hide Updates;
    var pc := s.writers[x].pc;
    var y := s.queue[i];
    assert y in s.writers;
    if pc.wrote.Some? {
      var g := pc.wrote.value;
      assert GroupOk(s, x, g);
      assert g.members[i] == y;
      if pc.outcome == Ok {
        assert t.log[|t.log| - 1] == g && g in t.applied;
      }
    }
  }

  lemma FinishKeeps(s: State, x: Id)
    requires Inv(s) && Finishes(s, x)
    ensures Inv(FinishGroup(s, x))
  {
    var t := FinishGroup(s, x);
    var n := PopsGroup(s, x);
    FinishIs(s, x, n);
    FinishGroups(s, x);
    LeaderFacts(s, x);
    QueueDistinct(s);
    hide IsFinish, GroupsAfter, GroupOk, PcOk, Distinct, UnderWay, OrderOk, ThreadsOk, SequencesOk, MemoryOk,
         CompletionsOk, FinishGroup, InQueue, Completed, SameRequests;
    FinishOrder(s, x, n, t);
    FinishThreads(s, x, n, t);
    FinishLeader(s, x, n, t);
    FinishSequences(s, x, n, t);
    if s.writers[x].pc.wrote.Some? { GroupPrevious(s, x, s.writers[x].pc.wrote.value); }
    FinishMemory(s, x, n, t);
    FinishCompletions(s, x, n, t);
  }

  // ----- every run -----

  lemma RoomKeeps(s: State, a: Action)
    requires Inv(s) && a.Room? && Enabled(s, a) && InBounds(s, a)
    ensures Inv(Do(s, a))
  {
    LeaderFacts(s, a.id);
    hide Inv, BuildGroup, PcOk;
    if a.status == Ok && s.writers[a.id].batch.Some? {
      RoomMadeKeeps(s, a.id);
    } else {
      NoGroupKeeps(s, a.id, a.status);
    }
  }

  lemma WriteStepKeeps(s: State, a: Action)
    requires Inv(s) && (a.Append? || a.Sync? || a.Insert?) && Enabled(s, a) && InBounds(s, a)
    ensures Inv(Do(s, a))
  {
    hide Inv, InBounds;
    var pc := s.writers[a.id].pc;
    if a.Insert? {
      if pc.inserted < |pc.group.updates| { InsertedUpdateKeeps(s, a.id, pc.group, pc.inserted); }
      else { InsertedGroupKeeps(s, a.id, pc.group, pc.inserted); }
    } else if a.status == Failed {
      FailedGroupKeeps(s, a.id, pc.group, a.Sync?);
    } else if a.Append? {
      LoggedGroupKeeps(s, a.id, pc.group);
    } else {
      SyncedGroupKeeps(s, a.id, pc.group);
    }
  }

  /** Every step of every thread keeps the invariant. */
  lemma StepKeeps(s: State, a: Action)
    requires Inv(s) && Enabled(s, a)
    ensures InBounds(s, a) && Inv(Do(s, a))
  {
    InvInBounds(s, a);
    hide Inv, InBounds;
    match a
    case Arrive(_, _, _, _) => ArriveKeeps(s, a);
    case Room(_, _) => RoomKeeps(s, a);
    case Finish(x) => FinishKeeps(s, x);
    case Look(_) => LookKeeps(s, a);
    case WakeSpuriously(_) => LookKeeps(s, a);
    case _ => WriteStepKeeps(s, a);
  }

  /** The state after a schedule; an action that is not enabled does nothing. */
  function Exec(base: nat, schedule: seq<Action>): (s: State)
    ensures Inv(s)
  {
    if schedule == [] then Initial(base)
    else
      var s := Exec(base, schedule[..|schedule| - 1]);
      var a := schedule[|schedule| - 1];
      if Enabled(s, a) then StepKeeps(s, a); Do(s, a) else s
  }

  /** Each writer that has been completed was completed once, and after all that arrived before it. */
  lemma CompletedOnceInOrder(base: nat, schedule: seq<Action>)
    ensures var s := Exec(base, schedule);
            && Ids(s.completions) <= s.arrivals
            && (forall i, j :: 0 <= i < j < |s.completions| ==> s.completions[i].id != s.completions[j].id)
            && forall x :: x in s.writers ==> (s.writers[x].done || s.writers[x].pc.Returned? <==> x in Ids(s.completions))
  {
    hide Exec, SequencesOk, MemoryOk, CompletionsOk, LeaderOk;
    var s := Exec(base, schedule);
    forall i, j | 0 <= i < j < |s.completions| ensures s.completions[i].id != s.completions[j].id {
      assert s.arrivals[i] == Ids(s.completions)[i] && s.arrivals[j] == Ids(s.completions)[j];
    }
    forall x | x in s.writers ensures s.writers[x].done || s.writers[x].pc.Returned? <==> x in Ids(s.completions) {
      assert ThreadOk(s.writers[x], x, s.queue);
      CompletedOrQueued(s, x);
    }
  }

  lemma CompletedOrQueued(s: State, x: Id)
    requires OrderOk(s) && x in s.writers
    ensures x in Ids(s.completions) <==> x !in s.queue
  {
    hide Ids;
    SplitQueue(s.arrivals, |Ids(s.completions)|, x);
    assert s.arrivals[..|Ids(s.completions)|] == Ids(s.completions) && s.arrivals[|Ids(s.completions)|..] == s.queue;
  }

  // ----- every write is completed -----

  /** An action of a thread that has something to do, whatever its outcome. */
  predicate IsWork(a: Action) {
    !a.Arrive? && !a.WakeSpuriously?
  }

  ghost predicate Quiet(s: State) {
    forall a :: IsWork(a) ==> !Enabled(s, a)
  }

  /** When no thread has anything left to do, every writer that ever arrived has been completed, exactly once
      and in the order of arrival. */
  lemma QuietHasCompletedAll(base: nat, schedule: seq<Action>)
    requires Quiet(Exec(base, schedule))
    ensures var s := Exec(base, schedule);
            s.queue == [] && Ids(s.completions) == s.arrivals && forall x :: x in s.writers ==> s.writers[x].pc.Returned?
  {
    hide Exec, SequencesOk, MemoryOk, CompletionsOk, PcOk;
    var s := Exec(base, schedule);
    assert Inv(s);
    forall x | x in s.writers ensures s.writers[x].pc.Returned? || s.writers[x].pc.Waiting? {
      SomethingToDo(s, x);
    }
    FrontIsAwake(s);
    forall x | x in s.writers ensures s.writers[x].pc.Returned? {
      assert ThreadOk(s.writers[x], x, s.queue);
    }
  }

  lemma FrontIsAwake(s: State)
    requires ThreadsOk(s) && LeaderOk(s)
    ensures |s.queue| > 0 ==> s.queue[0] in s.writers && !s.writers[s.queue[0]].pc.Waiting? && !s.writers[s.queue[0]].pc.Returned?
  {
    hide PcOk;
    assert |s.queue| > 0 ==> ThreadOk(s.writers[s.queue[0]], s.queue[0], s.queue);
  }

  lemma SomethingToDo(s: State, x: Id)
    requires Quiet(s) && x in s.writers
    ensures s.writers[x].pc.Returned? || s.writers[x].pc.Waiting?
  {
    assert !Enabled(s, Look(x)) && !Enabled(s, Room(x, Failed)) && !Enabled(s, Append(x, Ok));
    assert !Enabled(s, Sync(x, Ok)) && !Enabled(s, Insert(x)) && !Enabled(s, Finish(x));
  }

  function Awake(s: State): set<Id> {
    set x | x in s.writers && s.writers[x].pc.Ready?
  }

  function Stage(pc: Pc): nat {
    match pc
    case MakingRoom => 4
    case Appending(_) => 3
    case Syncing(_) => 2
    case Inserting(_, _) => 1
    case _ => 0
  }

  /** How far the writer at the front still has to go, and how many updates it has left to insert. */
  function FrontStage(s: State): nat {
    if |s.queue| > 0 && s.queue[0] in s.writers then Stage(s.writers[s.queue[0]].pc) else 0
  }

  function FrontInserts(s: State): nat {
    if |s.queue| > 0 && s.queue[0] in s.writers then Inserts(s.writers[s.queue[0]].pc) else 0
  }

  function Inserts(pc: Pc): nat {
    if pc.Inserting? && pc.inserted <= |pc.group.updates| then |pc.group.updates| - pc.inserted else 0
  }

  /** Less is left to do: writers in the queue, then threads awake, then steps of the front, then its updates. */
  predicate Closer(t: State, s: State) {
    || |t.queue| < |s.queue|
    || (|t.queue| == |s.queue| && |Awake(t)| < |Awake(s)|)
    || (|t.queue| == |s.queue| && |Awake(t)| == |Awake(s)|
        && (FrontStage(t) < FrontStage(s) || (FrontStage(t) == FrontStage(s) && FrontInserts(t) < FrontInserts(s))))
  }

  lemma LookIsCloser(s: State, x: Id)
    requires Inv(s) && Enabled(s, Look(x)) && InBounds(s, Look(x))
    ensures Closer(Do(s, Look(x)), s)
  {
    hide Inv;
    var t := Do(s, Look(x));
    assert Awake(t) == Awake(s) - {x} && x in Awake(s);
  }

  lemma MoveIsCloser(s: State, t: State, x: Id, pc: Pc)
    requires x in s.writers && |s.queue| > 0 && x == s.queue[0] && IsLeading(s.writers[x].pc) && IsLeading(pc)
    requires t.queue == s.queue && t.writers == s.writers[x := s.writers[x].(pc := pc)]
    requires Stage(pc) < Stage(s.writers[x].pc) || (Stage(pc) == Stage(s.writers[x].pc) && Inserts(pc) < Inserts(s.writers[x].pc))
    ensures Closer(t, s)
  {
    assert Awake(t) == Awake(s);
  }

  lemma FrontMoves(s: State, a: Action)
    requires Inv(s) && (a.Room? || a.Append? || a.Sync? || a.Insert?) && Enabled(s, a) && InBounds(s, a)
    ensures Closer(Do(s, a), s)
  {
    hide OrderOk, SequencesOk, MemoryOk, CompletionsOk, LeaderOk, BuildGroup, Closer;
    assert ThreadOk(s.writers[a.id], a.id, s.queue);
    MoveIsCloser(s, Do(s, a), a.id, Do(s, a).writers[a.id].pc);
  }

  lemma FinishIsCloser(s: State, x: Id)
    requires Inv(s) && Finishes(s, x)
    ensures Closer(FinishGroup(s, x), s)
  {
    hide Inv, GroupOk;
    var n := PopsGroup(s, x);
  }

  lemma WorkIsCloser(s: State, a: Action)
    requires Inv(s) && IsWork(a) && Enabled(s, a)
    ensures InBounds(s, a) && Closer(Do(s, a), s)
  {
    InvInBounds(s, a);
    hide Inv, InBounds, Closer;
    match a
    case Look(x) => LookIsCloser(s, x);
    case Finish(x) => FinishIsCloser(s, x);
    case _ => FrontMoves(s, a);
  }

  /** The state goes from `i` to `i + 1` by work of some thread. */
  ghost predicate Works(states: nat -> State, actions: nat -> Action, i: nat) {
    && IsWork(actions(i)) && Enabled(states(i), actions(i)) && InBounds(states(i), actions(i))
    && states(i + 1) == Do(states(i), actions(i))
  }

  /** The threads cannot work for ever: from a reachable state, an endless schedule has arrivals, spurious wake-ups
      or idle steps again and again. */
  lemma {:induction false} WorkEnds(states: nat -> State, actions: nat -> Action, from: nat)
    requires Inv(states(from))
    ensures exists i :: i >= from && !Works(states, actions, i)
    decreases |states(from).queue|, |Awake(states(from))|, FrontStage(states(from)), FrontInserts(states(from))
  {
    hide Inv, Enabled, InBounds;
    if Works(states, actions, from) {
      StepKeeps(states(from), actions(from));
      WorkIsCloser(states(from), actions(from));
      WorkEnds(states, actions, from + 1);
    }
  }

  /** Only the front of the queue is ever in the log or the memtable, and as long as writers queue the
      front one is not asleep; a completed writer is not asleep either. */
  lemma FrontWorksAndIsAwake(base: nat, schedule: seq<Action>, x: Id)
    requires x in Exec(base, schedule).writers
    ensures var s := Exec(base, schedule);
            && (IsLeading(s.writers[x].pc) ==> |s.queue| > 0 && s.queue[0] == x)
            && (s.writers[x].pc.Waiting? ==> x in s.queue && x != s.queue[0])
  {
    hide Exec, OrderOk, SequencesOk, MemoryOk, CompletionsOk, LeaderOk;
    var s := Exec(base, schedule);
    assert ThreadOk(s.writers[x], x, s.queue);
  }

  /** The groups get consecutive intervals of sequence numbers, in the order of their arrivals. */
  lemma GroupsAreConsecutive(base: nat, schedule: seq<Action>, i: nat)
    requires i + 1 < |Exec(base, schedule).finished|
    ensures var gs := Exec(base, schedule).finished;
            gs[i + 1].previous == gs[i].previous + |gs[i].updates| && gs[i].start + |gs[i].members| <= gs[i + 1].start
  {
    hide Exec, OrderOk, ThreadsOk, MemoryOk, CompletionsOk, LeaderOk, IsArrivals;
    var gs := Exec(base, schedule).finished;
    assert gs[..i + 1][..i] == gs[..i];
  }

  lemma {:induction false} AppliedBelow(gs: seq<Group>, last: nat)
    requires forall g :: g in gs ==> g.previous + |g.updates| <= last
    ensures forall st :: st in Applied(gs) ==> st.sequence <= last
  {
    if gs != [] {
      var init := gs[..|gs| - 1];
      forall g | g in init ensures g.previous + |g.updates| <= last { assert g in gs; }
      AppliedBelow(init, last);
      assert gs[|gs| - 1] in gs;
    }
  }

  /** Half-done groups cannot be read: what a reader at the last sequence number finds in the memtable are
      the updates of the groups that were completed with success, all of them. */
  lemma ReadersSeeWholeGroups(base: nat, schedule: seq<Action>, st: Stamped)
    ensures var s := Exec(base, schedule);
            st in s.mem && st.sequence <= s.lastSequence <==> st in Applied(s.applied)
  {
    hide Exec, OrderOk, ThreadsOk, SequencesOk, CompletionsOk, Applied;
    var s := Exec(base, schedule);
    AppliedBelow(s.applied, s.lastSequence);
    UnderWayAbove(s);
  }

  lemma UnderWayAbove(s: State)
    requires LeaderOk(s)
    ensures forall st :: st in UnderWay(s) ==> st.sequence > s.lastSequence
  {
    hide Updates;
    if |s.queue| > 0 {
      var pc := s.writers[s.queue[0]].pc;
      if GroupOf(pc).Some? {
        assert GroupOk(s, s.queue[0], GroupOf(pc).value);
      }
    }
  }
}
