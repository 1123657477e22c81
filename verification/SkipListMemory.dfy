/** The memory of a skip list: an arena of nodes whose links form one list per level. */
module SkipListMemory {
  import opened InternalKeys

  type Key = int  // rank in the comparator's order

  const MAX_HEIGHT: nat := 12
  const HEAD: nat := 0

  /** A node with one link per level of its height; links are arena indices. */
  datatype Node = Node(key: Key, next: seq<Option<nat>>)

  /** The nodes on level `l`, head first: strictly ascending keys, each linked to the next, the last to nothing. */
  ghost predicate IsChain(a: seq<Node>, l: nat, c: seq<nat>) {
    Placed(a, l, c) && Ascending(a, c) && Linked(a, l, c)
  }

  ghost predicate Placed(a: seq<Node>, l: nat, c: seq<nat>) {
    && |c| > 0 && c[0] == HEAD
    && (forall i :: 0 <= i < |c| ==> c[i] < |a| && l < |a[c[i]].next|)
    && (forall i :: 0 < i < |c| ==> c[i] != HEAD)
  }

  ghost predicate Ascending(a: seq<Node>, c: seq<nat>)
    requires forall i :: 0 <= i < |c| ==> c[i] < |a|
  {
    forall i, j :: 0 < i < j < |c| ==> a[c[i]].key < a[c[j]].key
  }

  ghost predicate Linked(a: seq<Node>, l: nat, c: seq<nat>)
    requires Placed(a, l, c)
  {
    forall i :: 0 <= i < |c| ==> a[c[i]].next[l] == if i + 1 < |c| then Some(c[i + 1]) else None
  }

  ghost predicate Sublist(upper: seq<nat>, lower: seq<nat>) {
    forall i :: 0 <= i < |upper| ==> upper[i] in lower
  }

  /** Every level is a strictly sorted list and holds only nodes of the level below. */
  ghost predicate Layered(a: seq<Node>, cs: seq<seq<nat>>) {
    && |cs| == MAX_HEIGHT
    && (forall l :: 0 <= l < MAX_HEIGHT ==> IsChain(a, l, cs[l]))
    && (forall l :: 0 < l < MAX_HEIGHT ==> Sublist(cs[l], cs[l - 1]))
  }

  /** The keys of a list. */
  ghost function Keys(a: seq<Node>, c: seq<nat>): set<Key>
    requires forall i :: 0 <= i < |c| ==> c[i] < |a|
  {
    set i | 0 < i < |c| :: a[c[i]].key
  }

  // ----- targets of a search -----

  /** What a search looks for; the end of the list for FindLast. */
  datatype Target = At(key: Key) | End

  predicate KeyIsBefore(k: Key, t: Target) {
    t.At? ==> k < t.key
  }

  predicate NodeIsBefore(a: seq<Node>, x: nat, t: Target)
    requires x < |a|
  {
    x == HEAD || KeyIsBefore(a[x].key, t)
  }

  predicate RefInBounds(a: seq<Node>, r: Option<nat>) {
    r.Some? ==> r.value < |a|
  }

  predicate RefIsBefore(a: seq<Node>, r: Option<nat>, t: Target)
    requires RefInBounds(a, r)
  {
    r.Some? && KeyIsBefore(a[r.value].key, t)
  }

  /** `x` is the last node of the list before the target and `next` the first one not before it. */
  ghost predicate Brackets(a: seq<Node>, c: seq<nat>, t: Target, x: nat, next: Option<nat>) {
    && (forall i :: 0 <= i < |c| ==> c[i] < |a|)
    && exists p :: IsSplit(a, c, t, p, x, next)
  }

  ghost predicate IsSplit(a: seq<Node>, c: seq<nat>, t: Target, p: nat, x: nat, next: Option<nat>)
    requires forall i :: 0 <= i < |c| ==> c[i] < |a|
  {
    && p < |c| && c[p] == x
    && next == (if p + 1 < |c| then Some(c[p + 1]) else None)
    && (forall i :: 0 < i <= p ==> KeyIsBefore(a[c[i]].key, t))
    && (forall i :: p < i < |c| ==> !KeyIsBefore(a[c[i]].key, t))
  }

  /** A search stands on a node of its level that is before the target. */
  ghost predicate Standing(a: seq<Node>, cs: seq<seq<nat>>, t: Target, x: nat, level: nat) {
    level < |cs| && x in cs[level] && x < |a| && NodeIsBefore(a, x, t)
  }

  lemma Place(c: seq<nat>, x: nat) returns (p: nat)
    requires x in c
    ensures p < |c| && c[p] == x
  {
    p :| 0 <= p < |c| && c[p] == x;
  }

  lemma LinkOf(a: seq<Node>, cs: seq<seq<nat>>, level: nat, x: nat) returns (p: nat)
    requires Layered(a, cs) && level < MAX_HEIGHT && x in cs[level]
    ensures p < |cs[level]| && cs[level][p] == x && x < |a| && level < |a[x].next|
    ensures a[x].next[level] == if p + 1 < |cs[level]| then Some(cs[level][p + 1]) else None
    ensures p + 1 < |cs[level]| ==> cs[level][p + 1] < |a| && cs[level][p + 1] != HEAD
  {
    p := Place(cs[level], x);
    assert IsChain(a, level, cs[level]);
  }

  lemma SplitAt(a: seq<Node>, cs: seq<seq<nat>>, level: nat, t: Target, p: nat)
    requires Layered(a, cs) && level < MAX_HEIGHT && p < |cs[level]|
    requires NodeIsBefore(a, cs[level][p], t)
    requires RefInBounds(a, a[cs[level][p]].next[level]) && !RefIsBefore(a, a[cs[level][p]].next[level], t)
    ensures Brackets(a, cs[level], t, cs[level][p], a[cs[level][p]].next[level])
  {
    var c := cs[level];
    assert IsChain(a, level, c);
    forall i | 0 < i <= p ensures KeyIsBefore(a[c[i]].key, t) {
      assert c[p] != HEAD && a[c[i]].key <= a[c[p]].key;
    }
    forall i | p < i < |c| ensures !KeyIsBefore(a[c[i]].key, t) {
      assert a[c[p]].next[level] == Some(c[p + 1]);
      assert !KeyIsBefore(a[c[p + 1]].key, t);
      assert a[c[p + 1]].key <= a[c[i]].key;
    }
    assert a[c[p]].next[level] == if p + 1 < |c| then Some(c[p + 1]) else None;
    hide Placed, Linked, Ascending, KeyIsBefore;
    assert IsSplit(a, c, t, p, c[p], a[c[p]].next[level]);
  }

  /** One load of a search: where it leads keeps the search standing, or ends it with the right place. */
  lemma SearchStep(a: seq<Node>, cs: seq<seq<nat>>, t: Target, x: nat, level: nat)
    requires Layered(a, cs) && Standing(a, cs, t, x, level)
    ensures level < |a[x].next| && RefInBounds(a, a[x].next[level])
    ensures var next := a[x].next[level];
            if RefIsBefore(a, next, t) then Standing(a, cs, t, next.value, level)
            else Brackets(a, cs[level], t, x, next) && (level > 0 ==> Standing(a, cs, t, x, level - 1))
  {
    hide IsChain, Brackets, IsSplit;
    var p := LinkOf(a, cs, level, x);
    var next := a[x].next[level];
    if !RefIsBefore(a, next, t) {
      SplitAt(a, cs, level, t, p);
      if level > 0 {
        assert Sublist(cs[level], cs[level - 1]);
        assert cs[level][p] == x;
      }
    }
  }

  // ----- the stores of an insertion -----

  function SetNext(a: seq<Node>, x: nat, l: nat, r: Option<nat>): seq<Node>
    requires x < |a| && l < |a[x].next|
  {
    a[x := a[x].(next := a[x].next[l := r])]
  }

  /** The list with `x` spliced in after position `p`. */
  function Spliced(c: seq<nat>, p: nat, x: nat): seq<nat>
    requires p < |c|
  {
    c[..p + 1] + [x] + c[p + 1..]
  }

  /** A store into a link of a level the node is not on is not seen on any level. */
  lemma StoreUnseen(a: seq<Node>, cs: seq<seq<nat>>, x: nat, l: nat, r: Option<nat>)
    requires Layered(a, cs) && x < |a| && l < |a[x].next|
    requires l < MAX_HEIGHT && x !in cs[l]
    ensures Layered(SetNext(a, x, l, r), cs)
  {
    var b := SetNext(a, x, l, r);
    forall m | 0 <= m < MAX_HEIGHT ensures IsChain(b, m, cs[m]) {
      StoreKeepsChain(a, cs[m], x, l, r, m);
    }
  }

  lemma StoreKeepsChain(a: seq<Node>, c: seq<nat>, x: nat, l: nat, r: Option<nat>, m: nat)
    requires IsChain(a, m, c) && x < |a| && l < |a[x].next|
    requires m != l || x !in c
    ensures IsChain(SetNext(a, x, l, r), m, c)
  {
  }

  /** Allocating a node is not seen on any level. */
  lemma AllocateUnseen(a: seq<Node>, cs: seq<seq<nat>>, n: Node)
    requires Layered(a, cs)
    ensures Layered(a + [n], cs)
    ensures forall l :: 0 <= l < MAX_HEIGHT ==> |a| !in cs[l]
  {
    forall m | 0 <= m < MAX_HEIGHT ensures IsChain(a + [n], m, cs[m]) && |a| !in cs[m] {
      assert IsChain(a, m, cs[m]);
    }
  }

  /** Position `p` is where `key`, which is not in the list, belongs. */
  ghost predicate Splittable(a: seq<Node>, c: seq<nat>, key: Key, p: nat) {
    && p < |c|
    && (forall i :: 0 <= i < |c| ==> c[i] < |a|)
    && (forall i :: 0 < i <= p ==> a[c[i]].key < key)
    && (forall i :: p < i < |c| ==> a[c[i]].key > key)
  }

  lemma SplicedIsChain(a: seq<Node>, l: nat, c: seq<nat>, p: nat, x: nat)
    requires IsChain(a, l, c) && p < |c|
    requires x < |a| && x !in c && l < |a[x].next| && a[x].next[l] == a[c[p]].next[l]
    requires Splittable(a, c, a[x].key, p)
    ensures IsChain(SetNext(a, c[p], l, Some(x)), l, Spliced(c, p, x))
  {
    hide Linked, Ascending;
    var b := SetNext(a, c[p], l, Some(x));
    SplicedItems(c, p, x);
    assert x != HEAD by { assert c[0] == HEAD; }
    assert Placed(b, l, Spliced(c, p, x));
    SplicedAscends(a, c, p, x);
    SameKeysAscend(a, b, Spliced(c, p, x));
    SplicedLinks(a, l, c, p, x);
  }

  lemma SplicedItems(c: seq<nat>, p: nat, x: nat)
    requires p < |c|
    ensures |Spliced(c, p, x)| == |c| + 1
    ensures forall i :: 0 <= i <= |c| ==> Spliced(c, p, x)[i] == if i <= p then c[i] else if i == p + 1 then x else c[i - 1]
  {
  }

  lemma SplicedAscends(a: seq<Node>, c: seq<nat>, p: nat, x: nat)
    requires (forall i :: 0 <= i < |c| ==> c[i] < |a|) && Ascending(a, c) && p < |c| && x < |a|
    requires forall i :: 0 < i <= p ==> a[c[i]].key < a[x].key
    requires forall i :: p < i < |c| ==> a[x].key < a[c[i]].key
    ensures forall i :: 0 <= i <= |c| ==> Spliced(c, p, x)[i] < |a|
    ensures Ascending(a, Spliced(c, p, x))
  {
    SplicedItems(c, p, x);
  }

  lemma SameKeysAscend(a: seq<Node>, b: seq<Node>, c: seq<nat>)
    requires |a| <= |b| && (forall i :: 0 <= i < |a| ==> b[i].key == a[i].key)
    requires (forall i :: 0 <= i < |c| ==> c[i] < |a|) && Ascending(a, c)
    ensures Ascending(b, c)
  {
  }

  lemma SplicedLinks(a: seq<Node>, l: nat, c: seq<nat>, p: nat, x: nat)
    requires Placed(a, l, c) && Linked(a, l, c) && Ascending(a, c) && p < |c|
    requires x < |a| && x !in c && l < |a[x].next| && a[x].next[l] == a[c[p]].next[l]
    requires Placed(SetNext(a, c[p], l, Some(x)), l, Spliced(c, p, x))
    ensures Linked(SetNext(a, c[p], l, Some(x)), l, Spliced(c, p, x))
  {
    ChainInjective(a, l, c);
    SplicedItems(c, p, x);
    var b := SetNext(a, c[p], l, Some(x));
    var d := Spliced(c, p, x);
    assert x != c[p] && b[x].next[l] == a[x].next[l] by { assert c[p] in c; }
    assert b[c[p]].next[l] == Some(x);
    forall i | 0 <= i < |d| ensures b[d[i]].next[l] == if i + 1 < |d| then Some(d[i + 1]) else None {
      if i < p {
        assert c[i] != c[p] && d[i] == c[i] && d[i + 1] == c[i + 1];
        assert b[c[i]] == a[c[i]];
      } else if i == p {
        assert d[i] == c[p] && d[i + 1] == x;
      } else if i == p + 1 {
        assert d[i] == x && (i + 1 < |d| ==> d[i + 1] == c[p + 1]);
      } else {
        assert c[p] != c[i - 1] && d[i] == c[i - 1] && (i + 1 < |d| ==> d[i + 1] == c[i]);
        assert b[c[i - 1]] == a[c[i - 1]];
      }
    }
  }

  lemma ChainInjective(a: seq<Node>, l: nat, c: seq<nat>)
    requires Placed(a, l, c) && Ascending(a, c)
    ensures forall i, j :: 0 <= i < j < |c| ==> c[i] != c[j]
  {
  }

  /** Publishing a filled-in node on its next level splices it into that level's list and no other. */
  lemma PublishSplices(a: seq<Node>, cs: seq<seq<nat>>, l: nat, p: nat, x: nat)
    requires Layered(a, cs) && l < MAX_HEIGHT && p < |cs[l]| && cs[l][p] < |a|
    requires x < |a| && x !in cs[l] && l < |a[x].next| && l < |a[cs[l][p]].next| && a[x].next[l] == a[cs[l][p]].next[l]
    requires Splittable(a, cs[l], a[x].key, p)
    requires l > 0 ==> x in cs[l - 1]
    ensures Layered(SetNext(a, cs[l][p], l, Some(x)), cs[l := Spliced(cs[l], p, x)])
  {
    var b := SetNext(a, cs[l][p], l, Some(x));
    var ds := cs[l := Spliced(cs[l], p, x)];
    assert IsChain(b, l, ds[l]) by { SplicedIsChain(a, l, cs[l], p, x); }
    hide IsChain, Splittable;
    forall m | 0 <= m < MAX_HEIGHT ensures IsChain(b, m, ds[m]) {
      if m != l {
        StoreKeepsChain(a, cs[m], cs[l][p], l, Some(x), m);
      }
    }
    forall m | 0 < m < MAX_HEIGHT ensures Sublist(ds[m], ds[m - 1]) {
      SpliceKeepsSublist(cs, l, p, x, m);
    }
  }

  lemma SpliceKeepsSublist(cs: seq<seq<nat>>, l: nat, p: nat, x: nat, m: nat)
    requires l < |cs| && p < |cs[l]| && 0 < m < |cs| && Sublist(cs[m], cs[m - 1])
    requires l > 0 ==> x in cs[l - 1]
    ensures var ds := cs[l := Spliced(cs[l], p, x)]; Sublist(ds[m], ds[m - 1])
  {
    SplicedItems(cs[l], p, x);
    SplicedKeeps(cs[l], p, x);
  }

  lemma SplicedKeeps(c: seq<nat>, p: nat, x: nat)
    requires p < |c|
    ensures forall y :: y in Spliced(c, p, x) <==> y in c || y == x
  {
    assert c == c[..p + 1] + c[p + 1..];
  }

  /** The only key a splice adds is that of the spliced node. */
  lemma SplicedKeys(a: seq<Node>, c: seq<nat>, p: nat, x: nat)
    requires (forall i :: 0 <= i < |c| ==> c[i] < |a|) && p < |c| && x < |a|
    ensures forall i :: 0 <= i <= |c| ==> Spliced(c, p, x)[i] < |a|
    ensures Keys(a, Spliced(c, p, x)) == Keys(a, c) + {a[x].key}
  {
    SplicedItems(c, p, x);
    var d := Spliced(c, p, x);
    forall k | k in Keys(a, c) + {a[x].key} ensures k in Keys(a, d) {
      if k in Keys(a, c) {
        var i :| 0 < i < |c| && a[c[i]].key == k;
        var j := if i <= p then i else i + 1;
        assert d[j] == c[i];
      } else {
        assert d[p + 1] == x;
      }
    }
  }
}
