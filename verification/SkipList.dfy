/** The skip list as its writer runs it, statement by statement the steps of the concurrent model. */
module SkipLists {
  import opened InternalKeys
  import opened SkipListMemory
  import opened SkipListSteps

  class SkipList {
    var nodes: seq<Node>
    var maxHeight: nat
    ghost var lists: seq<seq<nat>>

    ghost function With(w: Writer): State reads this {
      State(nodes, maxHeight, w, map[])
    }

    ghost predicate Valid() reads this {
      Inv(With(Idle), lists)
    }

    ghost function KeySet(): set<Key>
      requires Valid()
      reads this
    {
      Contents(With(Idle), lists)
    }

    constructor ()
      ensures Valid() && KeySet() == {}
    {
      nodes := InitialNodes();
      maxHeight := 1;
      lists := NO_LISTS;
      new;
      InitHolds();
      assert With(Idle) == InitialState();
    }

    /** The first node at or after `key`, whether the list has the key or not, and per level the node before it.
        For a key the list does not have, those are the nodes to link a new one after. */
    method FindGreaterOrEqual(key: Key) returns (r: Option<nat>, prev: seq<nat>)
      requires Valid()
      ensures |prev| == MAX_HEIGHT && Brackets(nodes, lists[0], At(key), prev[0], r)
      ensures IsNewKey(nodes, lists, key) ==> Inv(With(Found(key, prev)), lists)
    {
      hide IsNewKey, Brackets, Standing;
      HeadStands(nodes, lists, At(key), maxHeight - 1);
      var x: nat, level: nat := HEAD, maxHeight - 1;
      prev := seq(MAX_HEIGHT, _ => HEAD);
      ghost var isNew := IsNewKey(nodes, lists, key);
      if isNew {
        StartInsertKeeps(With(Idle), lists, StartInsert(key));
      }
      ghost var p: nat := Place(lists[level], HEAD);
      hide Inv, Layered;
      while true
        invariant |lists| == MAX_HEIGHT == |prev| && Layered(nodes, lists) && Standing(nodes, lists, At(key), x, level)
        invariant p < |lists[level]| && lists[level][p] == x
        invariant isNew ==> Inv(With(Finding(key, x, level, prev)), lists)
        decreases level, |lists[level]| - p
      {
        SearchAt(nodes, lists, At(key), x, level, p);
        FindKeeps(With(Finding(key, x, level, prev)), lists);
        var next := nodes[x].next[level];
        if RefIsBefore(nodes, next, At(key)) {
          x := next.value;
          p := p + 1;
        } else {
          prev := prev[level := x];
          if level == 0 {
            return next, prev;
          }
          level := level - 1;
          p := Place(lists[level], x);
        }
      }
    }

    method Contains(key: Key) returns (r: bool)
      requires Valid()
      ensures r <==> key in KeySet()
    {
      hide Brackets;
      var node, prev := FindGreaterOrEqual(key);
      BracketsContains(nodes, lists, key, prev[0], node);
      r := node.Some? && nodes[node.value].key == key;
    }

    /** The node before the target, with the one after it; `End` as target makes it FindLast. */
    method FindLessThan(t: Target) returns (x: nat, ghost next: Option<nat>)
      requires Valid()
      ensures Brackets(nodes, lists[0], t, x, next)
    {
      hide Brackets, WriterOk;
      HeadStands(nodes, lists, t, maxHeight - 1);
      x := HEAD;
      var level: nat := maxHeight - 1;
      ghost var p: nat := Place(lists[level], HEAD);
      while true
        invariant |lists| == MAX_HEIGHT && Layered(nodes, lists) && Standing(nodes, lists, t, x, level)
        invariant p < |lists[level]| && lists[level][p] == x
        decreases level, |lists[level]| - p
      {
        SearchAt(nodes, lists, t, x, level, p);
        var n := nodes[x].next[level];
        if !RefIsBefore(nodes, n, t) {
          if level == 0 {
            return x, n;
          }
          level := level - 1;
          p := Place(lists[level], x);
        } else {
          x := n.value;
          p := p + 1;
        }
      }
    }

    /** One step back from a node: a search for its key, undoing the step forward to it. */
    method Prev(node: nat, ghost p: nat) returns (r: Option<nat>)
      requires Valid() && |lists| > 0 && 0 < p < |lists[0]| && lists[0][p] == node
      ensures r == if p == 1 then None else Some(lists[0][p - 1])
    {
      ghost var _ := LinkOf(nodes, lists, 0, node);
      var x, next := FindLessThan(At(nodes[node].key));
      BracketsNode(nodes, lists, p, x, next);
      r := if x == HEAD then None else Some(x);
    }

    /** Inserts a key that is not in the list, with a height drawn by RandomHeight. */
    method Insert(key: Key, height: nat)
      requires Valid() && IsNewKey(nodes, lists, key) && 1 <= height <= MAX_HEIGHT
      modifies this
      ensures Valid() && KeySet() == old(KeySet()) + {key}
    {
      hide Inv, Contents;
      var next, prev := FindGreaterOrEqual(key);
      ghost var s := With(Found(key, prev));
      WriterIsUnread(With(Idle), s, lists);
      ChooseHeightKeeps(s, lists, ChooseHeight(height));
      if height > maxHeight {
        prev := Heads(prev, maxHeight, height);
        maxHeight := height;
      }
      ghost var links := seq(height, _ => None);
      s := Step(s, ChooseHeight(height));
      assert s == With(Raised(key, height, prev));
      var x := |nodes|;
      nodes := nodes + [Node(key, seq(height, _ => None))];
      s := Step(s, Allocate(links));
      assert s == With(Filling(x, 0, prev));
      var i: nat := 0;
      while i < height
        invariant i <= height && x < |nodes| && |nodes[x].next| == height && nodes[x].key == key
        invariant Inv(With(if i < height then Filling(x, i, prev) else Idle), lists)
        invariant Contents(With(if i < height then Filling(x, i, prev) else Idle), lists)
                  == old(KeySet()) + if i == 0 then {} else {key}
      {
        LinkLevel(x, i, prev);
        i := i + 1;
      }
    }

    /** Links the new node on level `i`: its own link first, then that of its predecessor. */
    method LinkLevel(x: nat, i: nat, prev: seq<nat>)
      requires Inv(With(Filling(x, i, prev)), lists)
      modifies this
      ensures maxHeight == old(maxHeight) && old(x < |nodes| && i < |nodes[x].next|)
      ensures x < |nodes| && |nodes[x].next| == old(|nodes[x].next|) && nodes[x].key == old(nodes[x].key)
      ensures var w := if i + 1 == |nodes[x].next| then Idle else Filling(x, i + 1, prev);
              && Inv(With(w), lists)
              && Contents(With(w), lists) == old(Contents(With(Filling(x, i, prev)), lists)) + if i == 0 then {nodes[x].key} else {}
    {
      hide Inv, Contents;
      ghost var s := With(Filling(x, i, prev));
      LinksInBounds(s, lists);
      s := Step(s, WriterFill);
      nodes := SetNext(nodes, x, i, nodes[prev[i]].next[i]);
      assert s == With(Publishing(x, i, prev));
      ghost var ds := StepKeeps(s, lists, WriterPublish);
      StepContents(s, lists, WriterPublish, ds);
      nodes := SetNext(nodes, prev[i], i, Some(x));
      assert Do(s, WriterPublish, lists) == With(if i + 1 == |nodes[x].next| then Idle else Filling(x, i + 1, prev));
      lists := ds;
    }

    /** Notes the state a step of the insertion must lead to. */
    ghost method Step(s: State, a: Action) returns (t: State)
      requires Inv(s, lists) && Enabled(s, a) && !a.WriterPublish? && !a.StartInsert?
      ensures t == Do(s, a, lists) && Inv(t, lists) && Contents(t, lists) == Contents(s, lists)
    {
      t := Do(s, a, lists);
      var ds := StepKeeps(s, lists, a);
      StepContents(s, lists, a, ds);
    }
  }

  /** The first node not before a key holds that key if the list does. */
  lemma BracketsContains(a: seq<Node>, cs: seq<seq<nat>>, key: Key, x: nat, next: Option<nat>)
    requires Layered(a, cs) && Brackets(a, cs[0], At(key), x, next)
    ensures RefInBounds(a, next)
    ensures (next.Some? && a[next.value].key == key) <==> key in Keys(a, cs[0])
  {
    var c := cs[0];
    assert IsChain(a, 0, c);
    var p: nat :| IsSplit(a, c, At(key), p, x, next);
    forall i | 0 < i < |c| && a[c[i]].key == key ensures i == p + 1 {
      assert !KeyIsBefore(a[c[i]].key, At(key));
      assert p + 1 < |c| ==> !KeyIsBefore(a[c[p + 1]].key, At(key));
    }
    if key in Keys(a, c) {
      var i :| 0 < i < |c| && a[c[i]].key == key;
      assert next == Some(c[i]);
    } else if next.Some? {
      assert a[c[p + 1]].key in Keys(a, c);
    }
  }

  lemma BracketsNode(a: seq<Node>, cs: seq<seq<nat>>, p: nat, x: nat, next: Option<nat>)
    requires Layered(a, cs) && 0 < p < |cs[0]| && cs[0][p] < |a|
    requires Brackets(a, cs[0], At(a[cs[0][p]].key), x, next)
    ensures x == cs[0][p - 1] && (x == HEAD <==> p == 1)
  {
    var c := cs[0];
    assert IsChain(a, 0, c);
    var q :| IsSplit(a, c, At(a[c[p]].key), q, x, next);
    assert q == p - 1;
  }

  lemma LinksInBounds(s: State, cs: seq<seq<nat>>)
    requires Inv(s, cs) && s.writer.Filling?
    ensures var w := s.writer;
            && w.i < |w.prev| && w.prev[w.i] < |s.nodes| && w.i < |s.nodes[w.prev[w.i]].next|
            && w.node < |s.nodes| && w.i < |s.nodes[w.node].next|
            && w.node != w.prev[w.i]
  {
    var w := s.writer;
    PrevInBounds(s, cs, w.node, w.i, w.prev);
  }

  lemma WriterIsUnread(s: State, t: State, cs: seq<seq<nat>>)
    requires Inv(s, cs) && Inv(t, cs) && s.nodes == t.nodes
    ensures Contents(s, cs) == Contents(t, cs)
  {
  }

  /** One load of a search that knows its place in the list it walks. */
  lemma SearchAt(a: seq<Node>, cs: seq<seq<nat>>, t: Target, x: nat, level: nat, p: nat)
    requires Layered(a, cs) && Standing(a, cs, t, x, level) && level < MAX_HEIGHT && p < |cs[level]| && cs[level][p] == x
    ensures x < |a| && level < |a[x].next| && RefInBounds(a, a[x].next[level])
    ensures var next := a[x].next[level];
            if RefIsBefore(a, next, t)
            then p + 1 < |cs[level]| && cs[level][p + 1] == next.value && Standing(a, cs, t, next.value, level)
            else Brackets(a, cs[level], t, x, next) && (level > 0 ==> x in cs[level - 1] && Standing(a, cs, t, x, level - 1))
  {
    hide Brackets, Layered;
    SearchStep(a, cs, t, x, level);
    var q := LinkOf(a, cs, level, x);
    SamePlace(a, cs, level, p, q);
  }

  lemma FindKeeps(s: State, cs: seq<seq<nat>>)
    requires s.writer.Finding? && |s.writer.prev| == MAX_HEIGHT
    requires var w := s.writer;
             w.x < |s.nodes| && w.level < MAX_HEIGHT && w.level < |s.nodes[w.x].next| && RefInBounds(s.nodes, s.nodes[w.x].next[w.level])
    ensures Inv(s, cs) ==>
              var w := s.writer; Inv(s.(writer := FindingStep(s, w.key, w.x, w.level, w.prev)), cs)
  {
    if Inv(s, cs) {
      WriterLoadKeeps(s, cs);
    }
  }

  lemma SamePlace(a: seq<Node>, cs: seq<seq<nat>>, level: nat, p: nat, q: nat)
    requires Layered(a, cs) && level < MAX_HEIGHT && p < |cs[level]| && q < |cs[level]| && cs[level][p] == cs[level][q]
    ensures p == q
  {
    assert IsChain(a, level, cs[level]);
    ChainInjective(a, level, cs[level]);
  }
}
