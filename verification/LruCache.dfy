/** The reference-counted cache: a hash table, a list of idle entries in the order of their use, and a list
    of entries that clients hold. */
module LruCaches {
  import opened InternalKeys
  import opened HandleTables

  datatype Handle = Handle(key: Key, charge: nat, refs: nat, inCache: bool, deletions: nat)

  /** All handles ever made, and the two lists. */
  datatype Lists = Lists(handles: seq<Handle>, lru: seq<Id>, inUse: seq<Id>, usage: int)

  // ----- lists -----

  function Without(list: seq<Id>, e: Id): seq<Id> {
    if list == [] then []
    else if list[0] == e then Without(list[1..], e)
    else [list[0]] + Without(list[1..], e)
  }

  ghost predicate NoDuplicates(list: seq<Id>) {
    forall i, j :: 0 <= i < j < |list| ==> list[i] != list[j]
  }

  ghost predicate Bounded(list: seq<Id>, n: nat) {
    forall i :: 0 <= i < |list| ==> list[i] < n
  }

  function TotalCharge(hs: seq<Handle>, list: seq<Id>): nat
    requires Bounded(list, |hs|)
  {
    if list == [] then 0 else hs[list[0]].charge + TotalCharge(hs, list[1..])
  }

  lemma {:induction false} WithoutMembers(list: seq<Id>, e: Id)
    ensures forall x :: x in Without(list, e) <==> x in list && x != e
  {
    if list != [] {
      WithoutMembers(list[1..], e);
      assert list == [list[0]] + list[1..];
    }
  }

  lemma {:induction false} WithoutDistinct(list: seq<Id>, e: Id)
    requires NoDuplicates(list)
    ensures NoDuplicates(Without(list, e))
  {
    if list != [] {
      WithoutDistinct(list[1..], e);
      WithoutMembers(list[1..], e);
      HeadNotInTail(list);
    }
  }

  lemma HeadNotInTail(list: seq<Id>)
    requires NoDuplicates(list) && list != []
    ensures list[0] !in list[1..]
  {
  }

  lemma {:induction false} WithoutAbsent(list: seq<Id>, e: Id)
    requires e !in list
    ensures Without(list, e) == list
  {
    if list != [] { WithoutAbsent(list[1..], e); }
  }

  lemma {:induction false} WithoutCharge(hs: seq<Handle>, list: seq<Id>, e: Id)
    requires NoDuplicates(list) && Bounded(list, |hs|)
    ensures Bounded(Without(list, e), |hs|)
    ensures TotalCharge(hs, list) == TotalCharge(hs, Without(list, e)) + if e in list then hs[e].charge else 0
  {
    WithoutMembers(list, e);
    if list != [] {
      HeadNotInTail(list);
      WithoutCharge(hs, list[1..], e);
      assert list == [list[0]] + list[1..];
    }
  }

  lemma {:induction false} ChargeAppended(hs: seq<Handle>, list: seq<Id>, e: Id)
    requires e < |hs| && Bounded(list, |hs|)
    ensures Bounded(list + [e], |hs|) && TotalCharge(hs, list + [e]) == TotalCharge(hs, list) + hs[e].charge
  {
    if list != [] {
      ChargeAppended(hs, list[1..], e);
      assert (list + [e])[1..] == list[1..] + [e];
    }
  }

  lemma {:induction false} SameCharges(hs: seq<Handle>, gs: seq<Handle>, list: seq<Id>)
    requires |hs| <= |gs| && (forall i :: 0 <= i < |hs| ==> gs[i].charge == hs[i].charge)
    requires Bounded(list, |hs|)
    ensures TotalCharge(gs, list) == TotalCharge(hs, list)
  {
    if list != [] { SameCharges(hs, gs, list[1..]); }
  }

  // ----- what holds between operations -----

  /** The references to a handle are those of its clients and, while it is in the cache, one more; it is
      deleted once, when the last one goes. It is idle or in use exactly if it is in the cache. */
  ghost predicate HandleOk(c: Lists, clients: seq<nat>, e: Id)
    requires e < |c.handles| == |clients|
  {
    var h := c.handles[e];
    && h.refs == clients[e] + (if h.inCache then 1 else 0)
    && h.deletions == (if h.refs == 0 then 1 else 0)
    && (e in c.lru <==> h.inCache && h.refs == 1)
    && (e in c.inUse <==> h.inCache && h.refs >= 2)
  }

  ghost predicate InBounds(c: Lists) {
    Bounded(c.lru, |c.handles|) && Bounded(c.inUse, |c.handles|)
  }

  ghost predicate ListsOk(c: Lists, clients: seq<nat>) {
    && |clients| == |c.handles| && InBounds(c)
    && NoDuplicates(c.lru) && NoDuplicates(c.inUse)
    && c.usage == TotalCharge(c.handles, c.lru) + TotalCharge(c.handles, c.inUse)
    && forall e :: 0 <= e < |c.handles| ==> HandleOk(c, clients, e)
  }

  /** The table finds exactly the handles that are in the cache. */
  ghost predicate TableOk(hs: seq<Handle>, contents: map<Key, Id>) {
    && (forall k :: k in contents ==> contents[k] < |hs| && hs[contents[k]].inCache && hs[contents[k]].key == k)
    && forall e :: 0 <= e < |hs| && hs[e].inCache ==> hs[e].key in contents && contents[hs[e].key] == e
  }

  // ----- the steps of the operations -----

  function Ref(c: Lists, e: Id): Lists
    requires e < |c.handles|
  {
    var h := c.handles[e];
    var moves := h.refs == 1 && h.inCache;
    c.(handles := c.handles[e := h.(refs := h.refs + 1)],
       lru := if moves then Without(c.lru, e) else c.lru,
       inUse := if moves then c.inUse + [e] else c.inUse)
  }

  function Unref(c: Lists, e: Id): Lists
    requires e < |c.handles| && c.handles[e].refs > 0
  {
    var h := c.handles[e];
    var refs := h.refs - 1;
    var moves := refs == 1 && h.inCache;
    c.(handles := c.handles[e := h.(refs := refs, deletions := h.deletions + if refs == 0 then 1 else 0)],
       lru := if moves then c.lru + [e] else c.lru,
       inUse := if moves then Without(c.inUse, e) else c.inUse)
  }

  /** Takes a handle that is no longer in the table out of the cache. */
  function FinishErase(c: Lists, e: Id): Lists
    requires e < |c.handles| && c.handles[e].refs > 0
  {
    var h := c.handles[e];
    Unref(c.(handles := c.handles[e := h.(inCache := false)],
             lru := Without(c.lru, e), inUse := Without(c.inUse, e), usage := c.usage - h.charge), e)
  }

  lemma RefKeeps(c: Lists, clients: seq<nat>, e: Id)
    requires ListsOk(c, clients) && e < |c.handles| && c.handles[e].inCache
    ensures ListsOk(Ref(c, e), clients[e := clients[e] + 1])
  {
    var d := Ref(c, e);
    assert HandleOk(c, clients, e);
    WithoutMembers(c.lru, e);
    WithoutDistinct(c.lru, e);
    SameCharges(c.handles, d.handles, c.lru);
    SameCharges(c.handles, d.handles, c.inUse);
    if c.handles[e].refs == 1 {
      WithoutCharge(d.handles, c.lru, e);
      ChargeAppended(d.handles, c.inUse, e);
    }
    var after := clients[e := clients[e] + 1];
    forall x | 0 <= x < |c.handles| ensures HandleOk(d, after, x) {
      assert HandleOk(c, clients, x);
    }
  }

  /** A client gives a reference back. */
  lemma ReleaseKeeps(c: Lists, clients: seq<nat>, e: Id)
    requires ListsOk(c, clients) && e < |c.handles| && clients[e] > 0
    ensures c.handles[e].refs > 0 && ListsOk(Unref(c, e), clients[e := clients[e] - 1])
  {
    assert HandleOk(c, clients, e);
    var d := Unref(c, e);
    WithoutMembers(c.inUse, e);
    WithoutDistinct(c.inUse, e);
    SameCharges(c.handles, d.handles, c.lru);
    SameCharges(c.handles, d.handles, c.inUse);
    if c.handles[e].refs == 2 && c.handles[e].inCache {
      WithoutCharge(d.handles, c.inUse, e);
      ChargeAppended(d.handles, c.lru, e);
    }
    var after := clients[e := clients[e] - 1];
    forall x | 0 <= x < |c.handles| ensures HandleOk(d, after, x) {
      assert HandleOk(c, clients, x);
    }
  }

  lemma EraseKeeps(c: Lists, clients: seq<nat>, e: Id)
    requires ListsOk(c, clients) && e < |c.handles| && c.handles[e].inCache
    ensures c.handles[e].refs > 0 && ListsOk(FinishErase(c, e), clients)
  {
    assert HandleOk(c, clients, e);
    var d := FinishErase(c, e);
    WithoutMembers(c.lru, e);
    WithoutMembers(c.inUse, e);
    WithoutDistinct(c.lru, e);
    WithoutDistinct(c.inUse, e);
    WithoutCharge(c.handles, c.lru, e);
    WithoutCharge(c.handles, c.inUse, e);
    SameCharges(c.handles, d.handles, Without(c.lru, e));
    SameCharges(c.handles, d.handles, Without(c.inUse, e));
    forall x | 0 <= x < |c.handles| ensures HandleOk(d, clients, x) {
      assert HandleOk(c, clients, x);
    }
  }

  /** A new handle: held by its client, and by the cache unless caching is turned off. */
  function Added(c: Lists, key: Key, charge: nat, cached: bool): Lists {
    if cached then
      c.(handles := c.handles + [Handle(key, charge, 2, true, 0)], inUse := c.inUse + [|c.handles|], usage := c.usage + charge)
    else c.(handles := c.handles + [Handle(key, charge, 1, false, 0)])
  }

  lemma AddKeeps(c: Lists, clients: seq<nat>, key: Key, charge: nat, cached: bool)
    requires ListsOk(c, clients)
    ensures ListsOk(Added(c, key, charge, cached), clients + [1])
  {
    var d := Added(c, key, charge, cached);
    SameCharges(c.handles, d.handles, c.lru);
    SameCharges(c.handles, d.handles, c.inUse);
    ChargeAppended(d.handles, c.inUse, |c.handles|);
    var after := clients + [1];
    forall x | 0 <= x < |d.handles| ensures HandleOk(d, after, x) {
      if x < |c.handles| { assert HandleOk(c, clients, x); }
    }
  }

  // ----- recency -----

  /** `released` tells when each handle was last given back by a client. */
  ghost predicate Ascends(list: seq<Id>, released: seq<nat>) {
    && Bounded(list, |released|)
    && forall i, j :: 0 <= i < j < |list| ==> released[list[i]] < released[list[j]]
  }

  /** The idle entries stand in the order of their last release. */
  ghost predicate RecencyOk(c: Lists, released: seq<nat>, clock: nat) {
    && |released| == |c.handles| && Ascends(c.lru, released)
    && forall e :: 0 <= e < |released| ==> released[e] <= clock
  }

  lemma AscendsTail(list: seq<Id>, released: seq<nat>)
    requires Ascends(list, released) && list != []
    ensures Ascends(list[1..], released)
    ensures forall x :: x in list[1..] ==> released[list[0]] < released[x]
  {
    forall i | 0 <= i < |list| - 1 ensures list[1..][i] == list[i + 1] && released[list[0]] < released[list[i + 1]] {
    }
  }

  lemma AscendsPrepend(x: Id, list: seq<Id>, released: seq<nat>)
    requires Ascends(list, released) && x < |released|
    requires forall y :: y in list ==> released[x] < released[y]
    ensures Ascends([x] + list, released)
  {
    var all := [x] + list;
    forall i, j | 0 <= i < j < |all| ensures released[all[i]] < released[all[j]] {
      assert all[j] == list[j - 1] && list[j - 1] in list;
    }
  }

  lemma {:induction false} WithoutAscends(list: seq<Id>, released: seq<nat>, e: Id)
    requires Ascends(list, released)
    ensures Ascends(Without(list, e), released)
  {
    if list != [] {
      var x, rest := list[0], list[1..];
      AscendsTail(list, released);
      WithoutAscends(rest, released, e);
      WithoutMembers(rest, e);
      if x != e {
        AscendsPrepend(x, Without(rest, e), released) by {
          hide Ascends;
          forall y | y in Without(rest, e) ensures released[x] < released[y] {
            assert y in rest;
          }
        }
      }
    }
  }

  /** A client takes a reference: the entry leaves the idle list, and the others keep their order. */
  lemma RefKeepsRecency(c: Lists, clients: seq<nat>, e: Id, released: seq<nat>, clock: nat)
    requires ListsOk(c, clients) && e < |c.handles| && c.handles[e].inCache && RecencyOk(c, released, clock)
    ensures RecencyOk(Ref(c, e), released, clock)
    ensures forall x :: x in Ref(c, e).lru <==> x in c.lru && x != e
  {
    assert HandleOk(c, clients, e);
    WithoutAscends(c.lru, released, e);
    WithoutMembers(c.lru, e);
  }

  /** A client gives a reference back, at a new time: an entry that becomes idle is the one used last. */
  lemma ReleaseKeepsRecency(c: Lists, clients: seq<nat>, e: Id, released: seq<nat>, clock: nat)
    requires ListsOk(c, clients) && e < |c.handles| && clients[e] > 0 && RecencyOk(c, released, clock)
    ensures c.handles[e].refs > 0 && RecencyOk(Unref(c, e), released[e := clock + 1], clock + 1)
    ensures Unref(c, e).lru == c.lru + if c.handles[e].inCache && clients[e] == 1 then [e] else []
  {
    assert HandleOk(c, clients, e);
    assert e !in c.lru;
    var d, after := Unref(c, e), released[e := clock + 1];
    forall i | 0 <= i < |c.lru| ensures c.lru[i] != e && after[c.lru[i]] == released[c.lru[i]] <= clock {
      assert c.lru[i] in c.lru;
    }
  }

  lemma EraseKeepsRecency(c: Lists, e: Id, released: seq<nat>, clock: nat)
    requires e < |c.handles| && c.handles[e].refs > 0 && RecencyOk(c, released, clock)
    ensures RecencyOk(FinishErase(c, e), released, clock)
    ensures forall x :: x in FinishErase(c, e).lru <==> x in c.lru && x != e
  {
    WithoutAscends(c.lru, released, e);
    WithoutMembers(c.lru, e);
  }

  lemma AddKeepsRecency(c: Lists, key: Key, charge: nat, cached: bool, released: seq<nat>, clock: nat)
    requires RecencyOk(c, released, clock)
    ensures RecencyOk(Added(c, key, charge, cached), released + [0], clock)
    ensures Added(c, key, charge, cached).lru == c.lru
  {
  }

  /** Of the idle entries only those at the front are gone. */
  ghost predicate OldestGone(before: seq<Id>, after: seq<Id>, released: seq<nat>) {
    && Bounded(before, |released|)
    && (forall x :: x in after ==> x in before)
    && forall x, y :: x in before && x !in after && y in after ==> x < |released| && y < |released| && released[x] < released[y]
  }

  /** The last one to go went because the charge was still above the limit. */
  ghost predicate LastWasNeeded(before: seq<Id>, after: seq<Id>, hs: seq<Handle>, usage: int, limit: int) {
    (exists x :: x in before && x !in after) ==>
      exists x :: x in before && x !in after && x < |hs| && usage + hs[x].charge > limit
  }

  ghost predicate LastNeeded(before: seq<Id>, gone: nat, hs: seq<Handle>, usage: int, limit: int) {
    0 < gone <= |before| ==> before[gone - 1] < |hs| && usage + hs[before[gone - 1]].charge > limit
  }

  lemma NextNeeded(before: seq<Id>, gone: nat, hs: seq<Handle>, usage: int, limit: int)
    requires 0 < gone <= |before| && before[gone - 1] < |hs| && usage + hs[before[gone - 1]].charge > limit
    ensures LastNeeded(before, gone, hs, usage, limit)
  {
  }

  /** Only handles of `except` have changed. */
  ghost predicate Unchanged(hs: seq<Handle>, gs: seq<Handle>, except: seq<Id>) {
    |gs| == |hs| && forall x :: 0 <= x < |hs| && x !in except ==> gs[x] == hs[x]
  }

  lemma NothingGone(hs: seq<Handle>, list: seq<Id>, usage: int, limit: int)
    ensures Unchanged(hs, hs, list) && LastNeeded(list, 0, hs, usage, limit) && list[0..] == list
  {
  }

  lemma UnchangedOn(hs: seq<Handle>, gs: seq<Handle>, fs: seq<Handle>, except: seq<Id>, e: Id)
    requires Unchanged(hs, gs, except) && |fs| == |gs| && e in except
    requires forall x :: 0 <= x < |gs| && x != e ==> fs[x] == gs[x]
    ensures Unchanged(hs, fs, except)
  {
  }

  lemma SuffixStays(before: seq<Id>, gone: nat, released: seq<nat>, hs: seq<Handle>, usage: int, limit: int)
    requires Ascends(before, released) && NoDuplicates(before) && gone <= |before| && LastNeeded(before, gone, hs, usage, limit)
    ensures OldestGone(before, before[gone..], released) && LastWasNeeded(before, before[gone..], hs, usage, limit)
  {
    var after := before[gone..];
    FrontIsOlder(before, released, gone);
    if gone > 0 {
      forall j | 0 <= j < |after| ensures after[j] != before[gone - 1] {
        assert after[j] == before[gone + j];
      }
      assert before[gone - 1] in before && before[gone - 1] !in after;
    } else {
      assert after == before;
    }
  }

  /** What stands at the front of the idle list was released before what stands behind it. */
  lemma FrontIsOlder(list: seq<Id>, released: seq<nat>, n: nat)
    requires Ascends(list, released) && n <= |list|
    ensures forall x, y :: x in list[..n] && y in list[n..] ==> released[x] < released[y]
    ensures forall x :: x in list <==> x in list[..n] || x in list[n..]
  {
    assert list == list[..n] + list[n..];
    forall x, y | x in list[..n] && y in list[n..] ensures released[x] < released[y] {
      var i :| 0 <= i < n && list[..n][i] == x;
      var j :| 0 <= j < |list| - n && list[n..][j] == y;
      assert list[i] == x && list[n + j] == y;
    }
  }

  // ----- the table beside the lists -----

  ghost predicate SameCached(hs: seq<Handle>, gs: seq<Handle>, except: set<Id>) {
    && |hs| <= |gs|
    && forall x :: 0 <= x < |hs| ==> gs[x].key == hs[x].key && (x !in except ==> gs[x].inCache == hs[x].inCache)
  }

  lemma TableSame(hs: seq<Handle>, gs: seq<Handle>, contents: map<Key, Id>)
    requires TableOk(hs, contents) && SameCached(hs, gs, {})
    requires forall x :: |hs| <= x < |gs| ==> !gs[x].inCache
    ensures TableOk(gs, contents)
  {
  }

  lemma TableErased(hs: seq<Handle>, gs: seq<Handle>, contents: map<Key, Id>, e: Id)
    requires TableOk(hs, contents) && SameCached(hs, gs, {e}) && |gs| == |hs|
    requires e < |hs| && hs[e].inCache && !gs[e].inCache
    ensures TableOk(gs, contents - {hs[e].key})
  {
  }

  lemma TableInserted(hs: seq<Handle>, gs: seq<Handle>, contents: map<Key, Id>, key: Key)
    requires TableOk(hs, contents) && SameCached(hs, gs, if key in contents then {contents[key]} else {}) && |gs| == |hs| + 1
    requires gs[|hs|].inCache && gs[|hs|].key == key
    requires key in contents ==> !gs[contents[key]].inCache
    ensures TableOk(gs, contents[key := |hs|])
  {
  }

  /** A new handle goes into the table, and the one it replaces out of the cache. */
  lemma ReplacedHandle(c: Lists, contents: map<Key, Id>, key: Key, charge: nat)
    requires TableOk(c.handles, contents)
    ensures var d := Added(c, key, charge, true);
            var known := contents[key := |c.handles|];
            && |d.handles| == |c.handles| + 1
            && if key in contents then
                 var e := contents[key];
                 && e < |d.handles| && d.handles[e].inCache
                 && (d.handles[e].refs > 0 ==>
                       TableOk(FinishErase(d, e).handles, known) && |FinishErase(d, e).handles| == |d.handles|
                       && forall k :: k in contents && k != key && contents[k] in c.inUse ==> contents[k] in FinishErase(d, e).inUse)
               else
                 TableOk(d.handles, known) && forall k :: k in contents && contents[k] in c.inUse ==> contents[k] in d.inUse
  {
    var d := Added(c, key, charge, true);
    if key in contents {
      WithoutMembers(d.inUse, contents[key]);
      if d.handles[contents[key]].refs > 0 {
        TableInserted(c.handles, FinishErase(d, contents[key]).handles, contents, key);
      }
    } else {
      TableInserted(c.handles, d.handles, contents, key);
    }
  }

  lemma FoundIsCached(hs: seq<Handle>, contents: map<Key, Id>, key: Key)
    requires TableOk(hs, contents) && key in contents
    ensures contents[key] < |hs| && hs[contents[key]].inCache
  {
  }

  lemma UncachedHandle(c: Lists, contents: map<Key, Id>, key: Key, charge: nat)
    requires TableOk(c.handles, contents)
    ensures var d := Added(c, key, charge, false);
            && TableOk(d.handles, contents) && d.inUse == c.inUse
            && |d.handles| == |c.handles| + 1 && !d.handles[|c.handles|].inCache
  {
    TableSame(c.handles, Added(c, key, charge, false).handles, contents);
  }

  // ----- the cache -----

  /** `idle` are the idle entries but for the one that an insertion under the key takes out. */
  ghost predicate NotReplaced(idle: seq<Id>, lru: seq<Id>, contents: map<Key, Id>, capacity: nat, key: Key) {
    forall x :: x in idle <==> x in lru && !(capacity > 0 && key in contents && contents[key] == x)
  }

  class LRUCache {
    const capacity: nat
    const table: HandleTable
    var handles: seq<Handle>
    var lru: seq<Id>    // the one released first comes first
    var inUse: seq<Id>
    var usage: int
    ghost var clients: seq<nat>   // references that clients hold, by handle
    ghost var clock: nat          // counts releases
    ghost var released: seq<nat>  // when each handle was last released

    function View(): Lists reads this {
      Lists(handles, lru, inUse, usage)
    }

    ghost predicate Ok() reads this, table {
      && ListsOk(View(), clients) && table.Valid() && TableOk(handles, table.contents)
      && RecencyOk(View(), released, clock)
    }

    constructor (capacity: nat, hash: HashFunction)
      ensures Ok() && fresh(table) && this.capacity == capacity && handles == []
    {
      this.capacity := capacity;
      table := new HandleTable(hash);
      handles, lru, inUse, usage, clients := [], [], [], 0, [];
      clock, released := 0, [];
    }

    method SetLists(c: Lists)
      modifies this`handles, this`lru, this`inUse, this`usage
      ensures View() == c
    {
      handles, lru, inUse, usage := c.handles, c.lru, c.inUse, c.usage;
    }

    /** Takes on a state that is right for the table as it is. */
    method Become(c: Lists, ghost cs: seq<nat>, ghost times: seq<nat>, ghost now: nat)
      requires table.Valid() && ListsOk(c, cs) && TableOk(c.handles, table.contents) && RecencyOk(c, times, now)
      modifies this
      ensures Ok() && View() == c && clients == cs && released == times && clock == now
    {
      hide ListsOk, TableOk, RecencyOk;
      SetLists(c);
      clients, released, clock := cs, times, now;
    }

    lemma OkTable()
      requires Ok()
      ensures table.Valid() && |clients| == |handles| == |released|
      ensures forall k :: k in table.contents ==> table.contents[k] < |handles|
    {
    }

    /** A hit gives the client one more reference and makes the entry in use. */
    method Lookup(key: Key) returns (r: Option<Id>)
      requires Ok()
      modifies this
      ensures Ok()
      ensures r == if key in table.contents then Some(table.contents[key]) else None
      ensures r.Some? ==> r.value < |old(clients)| && clients == old(clients)[r.value := old(clients)[r.value] + 1]
      ensures r.None? ==> clients == old(clients) && View() == old(View())
      ensures released == old(released) && clock == old(clock)
      ensures r.Some? ==> forall x :: x in lru <==> x in old(lru) && x != r.value
    {
      hide Ok, ListsOk, TableOk, RecencyOk, Ref;
      OkTable();
      r := table.Lookup(key);
      if r.Some? {
        var e := r.value;
        RefResult(key);
        Become(Ref(View(), e), clients[e := clients[e] + 1], released, clock);
      }
    }

    lemma RefResult(key: Key)
      requires Ok() && key in table.contents && |clients| == |handles| && table.contents[key] < |handles|
      ensures var e := table.contents[key];
              var c := Ref(View(), e);
              && ListsOk(c, clients[e := clients[e] + 1]) && TableOk(c.handles, table.contents) && RecencyOk(c, released, clock)
              && forall x :: x in c.lru <==> x in lru && x != e
    {
      var e := table.contents[key];
      FoundIsCached(handles, table.contents, key);
      RefKeeps(View(), clients, e);
      RefKeepsRecency(View(), clients, e, released, clock);
      hide ListsOk, RecencyOk, Without;
      TableSame(handles, Ref(View(), e).handles, table.contents);
    }

    lemma KnownHandle(e: Id)
      requires ListsOk(View(), clients) && e < |handles|
      ensures |clients| == |handles| && handles[e].refs == clients[e] + if handles[e].inCache then 1 else 0
      ensures usage >= 0
    {
      assert HandleOk(View(), clients, e);
    }

    /** A client gives its reference back. An entry that nobody holds any more becomes the idle one used last. */
    method Release(e: Id)
      requires Ok() && e < |clients| && clients[e] > 0
      modifies this
      ensures Ok() && clients == old(clients)[e := old(clients)[e] - 1]
      ensures clock == old(clock) + 1 && released == old(released)[e := clock]
      ensures lru == old(lru) + if old(handles)[e].inCache && clients[e] == 0 then [e] else []
    {
      hide Ok, ListsOk, RecencyOk, TableOk, Unref;
      OkTable();
      UnrefResult(e);
      Become(Unref(View(), e), clients[e := clients[e] - 1], released[e := clock + 1], clock + 1);
    }

    lemma UnrefResult(e: Id)
      requires Ok() && |clients| == |handles| == |released| && e < |clients| && clients[e] > 0
      ensures handles[e].refs > 0
      ensures var c := Unref(View(), e);
              && ListsOk(c, clients[e := clients[e] - 1]) && TableOk(c.handles, table.contents)
              && RecencyOk(c, released[e := clock + 1], clock + 1)
              && c.lru == lru + if handles[e].inCache && clients[e] == 1 then [e] else []
    {
      hide ListsOk, RecencyOk, Without, TableOk;
      ReleaseKeeps(View(), clients, e);
      ReleaseKeepsRecency(View(), clients, e, released, clock);
      TableSame(handles, Unref(View(), e).handles, table.contents);
    }

    method Erase(key: Key)
      requires Ok()
      modifies this, table
      ensures Ok() && clients == old(clients) && table.contents == old(table.contents) - {key}
      ensures released == old(released) && clock == old(clock)
      ensures forall x :: x in lru <==> x in old(lru) && !(key in old(table.contents) && x == old(table.contents)[key])
    {
      hide ListsOk, RecencyOk;
      ghost var contents := table.contents;
      var r := table.Remove(key);
      if r.Some? {
        EraseHandle(r.value, contents);
      } else {
        assert table.contents == contents;
      }
    }

    /** Finishes taking a handle out of the cache that the table has just forgotten. */
    method EraseHandle(e: Id, ghost contents: map<Key, Id>)
      requires ListsOk(View(), clients) && table.Valid() && TableOk(handles, contents) && RecencyOk(View(), released, clock)
      requires e < |handles| && handles[e].inCache && table.contents == contents - {handles[e].key}
      modifies this`handles, this`lru, this`inUse, this`usage
      ensures Ok() && clients == old(clients)
      ensures old(handles[e].refs) > 0 && View() == FinishErase(old(View()), e)
      ensures forall x :: x in lru <==> x in old(lru) && x != e
    {
      KnownHandle(e);
      hide ListsOk, RecencyOk;
      EraseKeeps(View(), clients, e);
      EraseKeepsRecency(View(), e, released, clock);
      ghost var was := handles;
      SetLists(FinishErase(View(), e));
      TableErased(was, handles, contents, e);
    }

    /** Takes out the idle entry that has gone unused the longest. */
    method EvictOldest()
      requires Ok() && lru != []
      modifies this, table
      ensures Ok() && clients == old(clients) && inUse == old(inUse) && lru == old(lru)[1..]
      ensures old(lru[0]) < |handles| == |old(handles)| && handles[old(lru[0])].deletions == 1
      ensures forall x :: 0 <= x < |handles| && x != old(lru[0]) ==> handles[x] == old(handles)[x]
      ensures handles[old(lru[0])].charge == old(handles[lru[0]].charge) && usage == old(usage) - old(handles[lru[0]].charge)
      ensures released == old(released) && clock == old(clock)
    {
      hide ListsOk, TableOk, RecencyOk;
      IdleHandle();
      var e := lru[0];
      EvictedFirst(View(), clients);
      ghost var contents := table.contents;
      var r := table.Remove(handles[e].key);
      EraseHandle(e, contents);
    }

    /** Takes out idle entries as long as the charge is above a limit, and no longer. Each one that goes was released
        before every one that stays. */
    method EvictUntil(limit: int)
      requires Ok()
      modifies this, table
      ensures Ok() && clients == old(clients) && inUse == old(inUse)
      ensures usage <= limit || lru == []
      ensures exists n :: 0 <= n <= |old(lru)| && lru == old(lru)[n..]
      ensures released == old(released) && clock == old(clock)
      ensures OldestGone(old(lru), lru, released) && LastWasNeeded(old(lru), lru, handles, usage, limit)
      ensures Unchanged(old(handles), handles, old(lru))
      ensures forall k :: k in old(table.contents) && old(table.contents)[k] in inUse ==>
                k in table.contents && table.contents[k] == old(table.contents)[k]
    {
      hide Ok, OldestGone, LastWasNeeded, TableOk, View, LastNeeded, Unchanged, NoDuplicates, Ascends;
      InUseNotIdle();
      IdleInOrder();
      ghost var gone := EvictWhile(limit);
      SuffixStays(old(lru), gone, released, handles, usage, limit);
      OkContents();
      StillCached(old(table.contents), old(handles), old(lru));
    }

    /** The loop, and how many entries it has taken out. */
    method EvictWhile(limit: int) returns (ghost gone: nat)
      requires Ok()
      modifies this, table
      ensures Ok() && clients == old(clients) && inUse == old(inUse) && released == old(released) && clock == old(clock)
      ensures usage <= limit || lru == []
      ensures gone <= |old(lru)| && lru == old(lru)[gone..]
      ensures LastNeeded(old(lru), gone, handles, usage, limit) && Unchanged(old(handles), handles, old(lru))
    {
      hide Ok, View, LastNeeded, Unchanged;
      gone := 0;
      NothingGone(handles, lru, usage, limit);
      while usage > limit && lru != []
        invariant Ok() && clients == old(clients) && inUse == old(inUse) && released == old(released) && clock == old(clock)
        invariant gone <= |old(lru)| && lru == old(lru)[gone..]
        invariant LastNeeded(old(lru), gone, handles, usage, limit) && Unchanged(old(handles), handles, old(lru))
        decreases |lru|
      {
        ghost var e, before := lru[0], handles;
        assert e == old(lru)[gone];
        EvictOldest();
        gone := gone + 1;
        UnchangedOn(old(handles), before, handles, old(lru), e);
        NextNeeded(old(lru), gone, handles, usage, limit);
      }
    }

    lemma OkContents()
      requires Ok()
      ensures TableOk(handles, table.contents)
    {
    }

    method Prune()
      requires Ok()
      modifies this, table
      ensures Ok() && clients == old(clients) && inUse == old(inUse) && lru == []
      ensures released == old(released) && clock == old(clock)
    {
      hide TableOk, RecencyOk;
      EvictUntil(-1);
    }

    /** The new handle replaces the one under its key; then idle entries make room, the oldest first. */
    method Insert(key: Key, charge: nat) returns (e: Id)
      requires Ok()
      modifies this, table
      ensures Ok() && e == |old(handles)| && clients == old(clients) + [1]
      ensures usage <= capacity || lru == []
      ensures capacity > 0 ==> key in table.contents && table.contents[key] == e
      ensures capacity == 0 ==> e < |handles| && !handles[e].inCache
      ensures clock == old(clock) && released == old(released) + [0]
      ensures exists idle :: NotReplaced(idle, old(lru), old(table.contents), capacity, key)
                && OldestGone(idle, lru, released) && LastWasNeeded(idle, lru, handles, usage, capacity)
      ensures forall k :: k in old(table.contents) && k != key && old(table.contents)[k] in old(inUse) ==>
                k in table.contents && table.contents[k] == old(table.contents)[k]
    {
      hide Ok, OldestGone, LastWasNeeded, NotReplaced;
      OkTable();
      e := |handles|;
      if capacity > 0 {
        PutInCache(key, charge);
      } else {
        KeepOutside(key, charge);
      }
      HeldHandle(e);
      ghost var idle := lru;
      IsNotReplaced(idle, old(lru), old(table.contents), key);
      EvictUntil(capacity);
    }

    lemma IsNotReplaced(idle: seq<Id>, before: seq<Id>, contents: map<Key, Id>, key: Key)
      requires forall x :: x in idle <==> x in before && !(capacity > 0 && key in contents && x == contents[key])
      ensures NotReplaced(idle, before, contents, capacity, key)
    {
    }

    /** With caching turned off the handle is its client's alone. */
    method KeepOutside(key: Key, charge: nat)
      requires Ok()
      modifies this`handles, this`lru, this`inUse, this`usage, this`clients, this`released
      ensures Ok() && clients == old(clients) + [1] && inUse == old(inUse) && table.contents == old(table.contents)
      ensures |handles| == |old(handles)| + 1 && !handles[|old(handles)|].inCache
      ensures lru == old(lru) && released == old(released) + [0]
    {
      hide ListsOk, TableOk, RecencyOk, Added;
      AddKeeps(View(), clients, key, charge, false);
      AddKeepsRecency(View(), key, charge, false, released, clock);
      released := released + [0];
      UncachedHandle(View(), table.contents, key, charge);
      SetLists(Added(View(), key, charge, false));
      clients := clients + [1];
    }

    /** The new handle goes into the table and the list of those in use; the one it replaces goes out. */
    method PutInCache(key: Key, charge: nat)
      requires Ok()
      modifies this, table
      ensures Ok() && clients == old(clients) + [1] && |handles| == |old(handles)| + 1
      ensures table.contents == old(table.contents)[key := |old(handles)|] && handles[|old(handles)|].inCache
      ensures clock == old(clock) && released == old(released) + [0]
      ensures forall x :: x in lru <==> x in old(lru) && !(key in old(table.contents) && x == old(table.contents)[key])
      ensures forall k :: k in old(table.contents) && k != key && old(table.contents)[k] in old(inUse) ==> old(table.contents)[k] in inUse
    {
      hide ListsOk, TableOk, RecencyOk, Added, FinishErase;
      ghost var c, contents := View(), table.contents;
      AddKeeps(c, clients, key, charge, true);
      AddKeepsRecency(c, key, charge, true, released, clock);
      released := released + [0];
      var e := |handles|;
      SetLists(Added(View(), key, charge, true));
      clients := clients + [1];
      ReplacedHandle(c, contents, key, charge);
      var replaced := table.Insert(key, e);
      if replaced.Some? {
        EraseKeeps(View(), clients, replaced.value);
        EraseKeepsRecency(View(), replaced.value, released, clock);
        SetLists(FinishErase(View(), replaced.value));
      }
      FoundIsCached(handles, table.contents, key);
    }

    lemma IdleInOrder()
      requires Ok()
      ensures NoDuplicates(lru) && Ascends(lru, released) && TableOk(handles, table.contents)
    {
    }

    /** A handle that a client holds is not idle. */
    lemma HeldHandle(e: Id)
      requires Ok() && e < |clients| && clients[e] > 0
      ensures |clients| == |handles| && e !in lru && (handles[e].inCache ==> e in inUse)
    {
      assert HandleOk(View(), clients, e);
    }

    lemma InUseNotIdle()
      requires Ok()
      ensures forall x :: x in inUse ==> x < |handles| && x !in lru
    {
      forall x | x in inUse ensures x < |handles| && x !in lru {
        assert HandleOk(View(), clients, x);
      }
    }

    /** A handle that has not changed is still found. */
    lemma StillCached(contents: map<Key, Id>, hs: seq<Handle>, except: seq<Id>)
      requires TableOk(hs, contents) && TableOk(handles, table.contents) && Unchanged(hs, handles, except)
      ensures forall k :: k in contents && contents[k] !in except ==> k in table.contents && table.contents[k] == contents[k]
    {
    }

    lemma IdleHandle()
      requires Ok() && lru != []
      ensures var e := lru[0]; e < |handles| && handles[e].inCache && handles[e].refs == 1
      ensures handles[lru[0]].key in table.contents && table.contents[handles[lru[0]].key] == lru[0]
    {
      assert HandleOk(View(), clients, lru[0]);
    }
  }

  /** Taking out the oldest idle entry leaves the others as they were; nobody held it, so it is deleted. */
  lemma EvictedFirst(c: Lists, clients: seq<nat>)
    requires ListsOk(c, clients) && c.lru != []
    ensures var e := c.lru[0];
            && e < |c.handles| && c.handles[e].refs == 1
            && var d := FinishErase(c, e);
               d.lru == c.lru[1..] && d.inUse == c.inUse && e !in d.lru && d.handles[e].deletions == 1
  {
    var e := c.lru[0];
    assert HandleOk(c, clients, e);
    HeadNotInTail(c.lru);
    WithoutAbsent(c.lru[1..], e);
    WithoutAbsent(c.inUse, e);
  }
}
