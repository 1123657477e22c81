/** The protocol of concurrent writers: they queue up, and the one at the front writes for a group of them.

    Each action is what one thread does while it holds the mutex, or one access to the log or the memtable
    while it does not. */
module WriterQueue {
  import opened InternalKeys
  import opened DbSteps

  type Id = nat

  datatype Status = Ok | Failed

  /** What a leader writes in one go: the batches of the front of the queue up to `last`. Its members are
      the arrivals from number `start` on, and its updates follow the sequence number `previous`. */
  datatype Group = Group(start: nat, members: seq<Id>, last: Id, previous: nat, updates: seq<Update>)

  datatype Pc =
    | Waiting                                   // blocked on its condition variable
    | Ready                                     // about to look at its state
    | MakingRoom                                // at the front, in MakeRoomForWrite
    | Appending(group: Group)                   // mutex released: log record
    | Syncing(group: Group)
    | Inserting(group: Group, inserted: nat)    // memtable
    | Finishing(last: Id, outcome: Status, wrote: Option<Group>, syncFailed: bool)
    | Returned

  /** `batch` is None for a write that only forces a memtable switch; `size` is the byte size of the batch. */
  datatype Writer = Writer(batch: Option<seq<Update>>, size: nat, sync: bool, pc: Pc, done: bool, status: Status)

  datatype Stamped = Stamped(sequence: nat, update: Update)

  datatype Completion = Completion(id: Id, leader: Id, status: Status)

  /** The shared state, and what has happened so far: arrivals, completions and finished groups. */
  datatype State = State(
    writers: map<Id, Writer>,
    queue: seq<Id>,
    base: nat,  // the last sequence number at the start
    lastSequence: nat,
    log: seq<Group>,
    synced: nat,
    mem: seq<Stamped>,
    backgroundError: bool,
    arrivals: seq<Id>,
    completions: seq<Completion>,
    finished: seq<Group>,
    applied: seq<Group>)

  datatype Action =
    | Arrive(id: Id, batch: Option<seq<Update>>, size: nat, sync: bool)
    | Look(id: Id)                   // the loop around the wait
    | Room(id: Id, status: Status)   // MakeRoomForWrite returns, and the group is built
    | Append(id: Id, status: Status)
    | Sync(id: Id, status: Status)
    | Insert(id: Id)
    | Finish(id: Id)
    | WakeSpuriously(id: Id)

  // ----- building a group -----

  const MAX_GROUP: nat := 0x10_0000
  const SMALL: nat := 0x2_0000

  function MaxSize(first: nat): nat {
    if first <= SMALL then first + SMALL else MAX_GROUP
  }

  /** How far a group reaches that has taken in the first `i` of the queue, of `size` bytes together. */
  function GroupEnd(ws: map<Id, Writer>, queue: seq<Id>, i: nat, size: nat, max: nat, sync: bool): (n: nat)
    requires i <= |queue| && forall k :: 0 <= k < |queue| ==> queue[k] in ws
    ensures i <= n <= |queue|
    ensures forall k :: i <= k < n && ws[queue[k]].sync ==> sync
    decreases |queue| - i
  {
    if i == |queue| then i
    else
      var w := ws[queue[i]];
      if w.sync && !sync then i
      else if w.batch.Some? then
        if size + w.size > max then i else GroupEnd(ws, queue, i + 1, size + w.size, max, sync)
      else GroupEnd(ws, queue, i + 1, size, max, sync)
  }

  /** The bytes of the batches of the writers `ids`. */
  function GroupSize(ws: map<Id, Writer>, ids: seq<Id>): nat
    requires forall k :: 0 <= k < |ids| ==> ids[k] in ws
  {
    if ids == [] then 0
    else GroupSize(ws, ids[..|ids| - 1]) + BatchSize(ws[ids[|ids| - 1]])
  }

  function BatchSize(w: Writer): nat {
    if w.batch.Some? then w.size else 0
  }

  /** The writer `k` may not join those before it: it wants a sync the leader does not do, or its batch is too big. */
  predicate Stops(ws: map<Id, Writer>, queue: seq<Id>, k: nat, max: nat, sync: bool)
    requires k < |queue| && forall k :: 0 <= k < |queue| ==> queue[k] in ws
  {
    var w := ws[queue[k]];
    (w.sync && !sync) || (w.batch.Some? && GroupSize(ws, queue[..k]) + w.size > max)
  }

  /** The first `n` of the queue are all that may go with the leader before the first that may not. */
  ghost predicate IsGroup(ws: map<Id, Writer>, queue: seq<Id>, n: nat)
    requires |queue| > 0 && forall k :: 0 <= k < |queue| ==> queue[k] in ws
  {
    var first := ws[queue[0]].size;
    IsLongest(ws, queue, n, if first <= 131072 then first + 131072 else 1048576)
  }

  ghost predicate IsLongest(ws: map<Id, Writer>, queue: seq<Id>, n: nat, limit: nat)
    requires |queue| > 0 && forall k :: 0 <= k < |queue| ==> queue[k] in ws
  {
    && 0 < n <= |queue|
    && (forall k :: 1 <= k < n ==> !Stops(ws, queue, k, limit, ws[queue[0]].sync))
    && (n < |queue| ==> Stops(ws, queue, n, limit, ws[queue[0]].sync))
  }

  lemma GroupSizeGrows(ws: map<Id, Writer>, queue: seq<Id>, i: nat)
    requires i < |queue| && forall k :: 0 <= k < |queue| ==> queue[k] in ws
    ensures GroupSize(ws, queue[..i + 1]) == GroupSize(ws, queue[..i]) + BatchSize(ws[queue[i]])
  {
    assert queue[..i + 1][..i] == queue[..i];
  }

  /** The group is the longest one, within the size limit unless the leader's own batch exceeds it. */
  lemma {:induction false} GroupWithinLimit(ws: map<Id, Writer>, queue: seq<Id>, n: nat)
    requires |queue| > 0 && forall k :: 0 <= k < |queue| ==> queue[k] in ws
    requires IsGroup(ws, queue, n) && ws[queue[0]].batch.Some?
    ensures GroupSize(ws, queue[..n]) <= 1048576 || GroupSize(ws, queue[..n]) == ws[queue[0]].size
    ensures ws[queue[0]].size <= 131072 ==> GroupSize(ws, queue[..n]) <= ws[queue[0]].size + 131072
  {
    hide GroupSize;
    var limit := if ws[queue[0]].size <= 131072 then ws[queue[0]].size + 131072 else 1048576;
    assert IsLongest(ws, queue, n, limit);
    GroupSizeOfNone(ws, queue);
    GroupSizeGrows(ws, queue, 0);
    for i := 1 to n
      invariant GroupSize(ws, queue[..i]) <= limit || GroupSize(ws, queue[..i]) == ws[queue[0]].size
    {
      assert !Stops(ws, queue, i, limit, ws[queue[0]].sync);
      GroupSizeGrows(ws, queue, i);
    }
  }

  lemma GroupSizeOfNone(ws: map<Id, Writer>, queue: seq<Id>)
    ensures GroupSize(ws, queue[..0]) == 0
  {
  }

  lemma {:induction false} GroupEndIsGroup(ws: map<Id, Writer>, queue: seq<Id>, i: nat, size: nat)
    requires 0 < i <= |queue| && forall k :: 0 <= k < |queue| ==> queue[k] in ws
    requires size == GroupSize(ws, queue[..i])
    requires var first := ws[queue[0]]; forall k :: 1 <= k < i ==> !Stops(ws, queue, k, MaxSize(first.size), first.sync)
    ensures var first := ws[queue[0]]; IsGroup(ws, queue, GroupEnd(ws, queue, i, size, MaxSize(first.size), first.sync))
    decreases |queue| - i
  {
    hide GroupSize;
    var first := ws[queue[0]];
    if i < |queue| && !Stops(ws, queue, i, MaxSize(first.size), first.sync) {
      GroupSizeGrows(ws, queue, i);
      GroupEndIsGroup(ws, queue, i + 1, size + BatchSize(ws[queue[i]]));
    }
  }

  function Updates(ws: map<Id, Writer>, ids: seq<Id>): seq<Update>
    requires forall k :: 0 <= k < |ids| ==> ids[k] in ws
  {
    if ids == [] then []
    else Updates(ws, ids[..|ids| - 1]) + BatchOf(ws[ids[|ids| - 1]])
  }

  function BatchOf(w: Writer): seq<Update> {
    if w.batch.Some? then w.batch.value else []
  }

  /** The loop that collects a group from the queue. */
  method BuildBatchGroup(ws: map<Id, Writer>, queue: seq<Id>) returns (result: seq<Update>, last: Id)
    requires |queue| > 0 && (forall k :: 0 <= k < |queue| ==> queue[k] in ws) && ws[queue[0]].batch.Some?
    ensures var first := ws[queue[0]];
            var n := GroupEnd(ws, queue, 1, first.size, MaxSize(first.size), first.sync);
            last == queue[n - 1] && result == Updates(ws, queue[..n]) && IsGroup(ws, queue, n)
  {
    hide Updates, GroupSize, IsGroup;
    LeaderGroup(ws, queue);
    var first := ws[queue[0]];
    result := first.batch.value;
    var size: nat := first.size;
    var max := MaxSize(size);
    last := queue[0];
    var i: nat := 1;
    UpdatesOfNone(ws, queue);
    UpdatesGrow(ws, queue, 0);
    while i < |queue|
      invariant 1 <= i <= |queue| && last == queue[i - 1]
      invariant result == Updates(ws, queue[..i])
      invariant GroupEnd(ws, queue, i, size, max, first.sync) == GroupEnd(ws, queue, 1, first.size, MaxSize(first.size), first.sync)
    {
      var w := ws[queue[i]];
      if w.sync && !first.sync {
        break;
      }
      if w.batch.Some? {
        size := size + w.size;
        if size > max {
          break;
        }
        result := result + w.batch.value;
      }
      UpdatesGrow(ws, queue, i);
      last := queue[i];
      i := i + 1;
    }
  }

  lemma LeaderGroup(ws: map<Id, Writer>, queue: seq<Id>)
    requires |queue| > 0 && (forall k :: 0 <= k < |queue| ==> queue[k] in ws) && ws[queue[0]].batch.Some?
    ensures var first := ws[queue[0]];
            IsGroup(ws, queue, GroupEnd(ws, queue, 1, first.size, MaxSize(first.size), first.sync))
  {
    GroupSizeOfNone(ws, queue);
    GroupSizeGrows(ws, queue, 0);
    GroupEndIsGroup(ws, queue, 1, ws[queue[0]].size);
  }

  lemma UpdatesOfNone(ws: map<Id, Writer>, queue: seq<Id>)
    ensures Updates(ws, queue[..0]) == []
  {
  }

  lemma UpdatesGrow(ws: map<Id, Writer>, queue: seq<Id>, i: nat)
    requires i < |queue| && forall k :: 0 <= k < |queue| ==> queue[k] in ws
    ensures Updates(ws, queue[..i + 1]) == Updates(ws, queue[..i]) + BatchOf(ws[queue[i]])
  {
    assert queue[..i + 1][..i] == queue[..i];
  }

  /** The loop that takes writers off the queue up to `last`. */
  function PopUntil(queue: seq<Id>, last: Id): seq<Id> {
    if queue == [] then [] else [queue[0]] + if queue[0] == last then [] else PopUntil(queue[1..], last)
  }

  ghost predicate Distinct(q: seq<Id>) {
    forall i, j :: 0 <= i < j < |q| ==> q[i] != q[j]
  }

  lemma {:induction false} PopsPrefix(queue: seq<Id>, n: nat)
    requires 0 < n <= |queue| && Distinct(queue)
    ensures PopUntil(queue, queue[n - 1]) == queue[..n]
  {
    if n > 1 {
      assert queue[0] != queue[n - 1];
      PopsPrefix(queue[1..], n - 1);
      assert queue[..n] == [queue[0]] + queue[1..][..n - 1];
    }
  }
}
