/** The merging iterator: many sorted children seen as one sorted run, in both directions. */
module MergingIterators {
  import opened InternalKeys
  import opened Cursors

  datatype Direction = Forward | Reverse

  /** `merged` is the sorted union of the runs, which share no entry. */
  ghost predicate IsUnion(merged: seq<Entry>, runs: seq<seq<Entry>>) {
    && Sorted(merged)
    && (forall i :: 0 <= i < |runs| ==> Sorted(runs[i]))
    && (forall e :: e in merged <==> exists i :: 0 <= i < |runs| && e in runs[i])
    && (forall i, j, e :: 0 <= i < |runs| && 0 <= j < |runs| && i != j && e in runs[i] ==> e !in runs[j])
  }

  // A cut splits the union before its q-th entry, and with it every run.

  ghost predicate AtCut(es: seq<Entry>, p: nat, merged: seq<Entry>, q: nat)
    requires q <= |merged|
  {
    && p <= |es|
    && (forall j :: 0 <= j < p ==> es[j] in merged[..q])
    && (forall j :: p <= j < |es| ==> es[j] in merged[q..])
  }

  /** At the last entry before the cut, or off the end if there is none. */
  ghost predicate BelowCut(es: seq<Entry>, p: nat, merged: seq<Entry>, q: nat)
    requires q <= |merged|
  {
    exists c: nat :: AtCut(es, c, merged, q) && p == PrevPos(|es|, c)
  }

  lemma SidesOfCut(merged: seq<Entry>, q: nat, a: Entry, b: Entry)
    requires Sorted(merged) && q <= |merged| && a in merged[..q] && b in merged[q..]
    ensures Before(a, b)
  {
    var i :| 0 <= i < q && merged[..q][i] == a;
    var j :| 0 <= j < |merged| - q && merged[q..][j] == b;
    assert Before(merged[i], merged[q + j]);
  }

  /** The union's entry at the cut is at or past the position of the run that has it. */
  lemma EntryPastCut(merged: seq<Entry>, es: seq<Entry>, q: nat, p: nat)
    requires Sorted(merged) && Sorted(es) && q < |merged| && AtCut(es, p, merged, q) && merged[q] in es
    ensures p < |es| && AtMost(es[p].key, merged[q].key)
  {
    var o := merged[q];
    assert merged[q..][0] == o;
    var j :| 0 <= j < |es| && es[j] == o;
    if j < p {
      SidesOfCut(merged, q, o, o);
    } else {
      assert j > p ==> Before(es[p], es[j]);
    }
  }

  lemma EntryBelowCut(merged: seq<Entry>, es: seq<Entry>, q: nat, p: nat)
    requires Sorted(merged) && Sorted(es) && 0 < q <= |merged| && BelowCut(es, p, merged, q) && merged[q - 1] in es
    ensures p < |es| && AtMost(merged[q - 1].key, es[p].key)
  {
    var o := merged[q - 1];
    assert merged[..q][q - 1] == o;
    var c: nat :| AtCut(es, c, merged, q) && p == PrevPos(|es|, c);
    var j :| 0 <= j < |es| && es[j] == o;
    if c <= j {
      SidesOfCut(merged, q, o, o);
    } else {
      assert j < c - 1 ==> Before(es[j], es[c - 1]);
    }
  }

  lemma FirstAfterCut(merged: seq<Entry>, q: nat, e: Entry)
    requires Sorted(merged) && q <= |merged| && e in merged[q..]
    ensures q < |merged| && (e == merged[q] || Before(merged[q], e))
  {
    var m :| 0 <= m < |merged[q..]| && merged[q..][m] == e;
    assert merged[q + m] == e;
  }

  lemma LastBeforeCut(merged: seq<Entry>, q: nat, e: Entry)
    requires Sorted(merged) && q <= |merged| && e in merged[..q]
    ensures q > 0 && (e == merged[q - 1] || Before(e, merged[q - 1]))
  {
    var m :| 0 <= m < q && merged[m] == e;
  }

  /** Over runs standing at a cut, the smallest current entry is the union's entry there. */
  lemma SmallestAtCut(merged: seq<Entry>, runs: seq<seq<Entry>>, q: nat, at: seq<nat>, k: nat)
    requires IsUnion(merged, runs) && |at| == |runs| && q <= |merged| && k < |runs|
    requires forall i :: 0 <= i < |runs| ==> AtCut(runs[i], at[i], merged, q)
    requires at[k] < |runs[k]|
    requires forall i :: 0 <= i < |runs| && at[i] < |runs[i]| ==> AtMost(runs[k][at[k]].key, runs[i][at[i]].key)
    ensures q < |merged| && merged[q] == runs[k][at[k]]
  {
    FirstAfterCut(merged, q, runs[k][at[k]]);
    assert merged[q] in merged;
    var i :| 0 <= i < |runs| && merged[q] in runs[i];
    EntryPastCut(merged, runs[i], q, at[i]);
  }

  lemma SomeAtCut(merged: seq<Entry>, runs: seq<seq<Entry>>, q: nat, at: seq<nat>) returns (i: nat)
    requires IsUnion(merged, runs) && |at| == |runs| && q < |merged|
    requires forall i :: 0 <= i < |runs| ==> AtCut(runs[i], at[i], merged, q)
    ensures i < |runs| && at[i] < |runs[i]|
  {
    assert merged[q] in merged;
    i :| 0 <= i < |runs| && merged[q] in runs[i];
    EntryPastCut(merged, runs[i], q, at[i]);
  }

  /** Over runs standing just below a cut, the largest current entry is the union's entry before it. */
  lemma LargestBelowCut(merged: seq<Entry>, runs: seq<seq<Entry>>, q: nat, at: seq<nat>, k: nat)
    requires IsUnion(merged, runs) && |at| == |runs| && q <= |merged| && k < |runs|
    requires forall i :: 0 <= i < |runs| ==> BelowCut(runs[i], at[i], merged, q)
    requires at[k] < |runs[k]|
    requires forall i :: 0 <= i < |runs| && at[i] < |runs[i]| ==> AtMost(runs[i][at[i]].key, runs[k][at[k]].key)
    ensures q > 0 && merged[q - 1] == runs[k][at[k]]
  {
    LastBeforeCut(merged, q, runs[k][at[k]]);
    assert merged[q - 1] in merged;
    var i :| 0 <= i < |runs| && merged[q - 1] in runs[i];
    EntryBelowCut(merged, runs[i], q, at[i]);
  }

  lemma SomeBelowCut(merged: seq<Entry>, runs: seq<seq<Entry>>, q: nat, at: seq<nat>) returns (i: nat)
    requires IsUnion(merged, runs) && |at| == |runs| && 0 < q <= |merged|
    requires forall i :: 0 <= i < |runs| ==> BelowCut(runs[i], at[i], merged, q)
    ensures i < |runs| && at[i] < |runs[i]|
  {
    assert merged[q - 1] in merged;
    i :| 0 <= i < |runs| && merged[q - 1] in runs[i];
    EntryBelowCut(merged, runs[i], q, at[i]);
  }

  // ----- moving a run across the next cut -----

  lemma CutAdvances(es: seq<Entry>, p: nat, merged: seq<Entry>, q: nat)
    requires Sorted(es) && q < |merged| && AtCut(es, p, merged, q)
    ensures p < |es| && es[p] == merged[q] ==> AtCut(es, p + 1, merged, q + 1)
    ensures merged[q] !in es ==> AtCut(es, p, merged, q + 1)
  {
    assert merged[..q + 1] == merged[..q] + [merged[q]];
    assert merged[q..] == [merged[q]] + merged[q + 1..];
    if p < |es| && es[p] == merged[q] {
      forall j | p + 1 <= j < |es| ensures es[j] in merged[q + 1..] {
        assert Before(es[p], es[j]);
      }
    }
  }

  lemma CutRetreats(es: seq<Entry>, p: nat, merged: seq<Entry>, q: nat)
    requires 0 < q <= |merged| && merged[q - 1] !in es && AtCut(es, p, merged, q)
    ensures AtCut(es, p, merged, q - 1)
  {
    assert merged[..q] == merged[..q - 1] + [merged[q - 1]];
    assert merged[q - 1..] == [merged[q - 1]] + merged[q..];
  }

  /** A run at the union's q-th entry stands at the cut before it. */
  lemma EntryIsAtCut(es: seq<Entry>, p: nat, merged: seq<Entry>, q: nat)
    requires Sorted(es) && Sorted(merged) && (forall e :: e in es ==> e in merged)
    requires q < |merged| && p < |es| && es[p] == merged[q]
    ensures AtCut(es, p, merged, q)
  {
    forall j | 0 <= j < p ensures es[j] in merged[..q] {
      CutSide(es[j], merged, q);
      assert Before(es[j], es[p]);
    }
    forall j | p <= j < |es| ensures es[j] in merged[q..] {
      CutSide(es[j], merged, q);
      assert p < j ==> Before(es[p], es[j]);
    }
  }

  lemma CutSide(e: Entry, merged: seq<Entry>, q: nat)
    requires Sorted(merged) && q < |merged| && e in merged
    ensures Before(e, merged[q]) ==> e in merged[..q]
    ensures e == merged[q] || Before(merged[q], e) ==> e in merged[q..]
  {
    var m :| 0 <= m < |merged| && merged[m] == e;
    if m < q {
      assert merged[..q][m] == e;
    } else {
      assert merged[q..][m - q] == e;
      assert m > q ==> Before(merged[q], merged[m]);
    }
    assert m < q ==> Before(merged[m], merged[q]);
  }

  /** Seeking every run to one key leaves all of them at the cut the union seeks to. */
  lemma SeekIsAtCut(es: seq<Entry>, p: nat, merged: seq<Entry>, q: nat, key: InternalKey)
    requires (forall e :: e in es ==> e in merged)
    requires IsSeek(es, key, p) && IsSeek(merged, key, q)
    ensures AtCut(es, p, merged, q)
  {
    forall j | 0 <= j < |es| ensures es[j] in if j < p then merged[..q] else merged[q..] {
      assert es[j] in merged;
      var m :| 0 <= m < |merged| && merged[m] == es[j];
      if m < q {
        assert merged[..q][m] == es[j];
      } else {
        assert merged[q..][m - q] == es[j];
      }
    }
  }

  lemma {:induction false} SeekExists(es: seq<Entry>, key: InternalKey) returns (p: nat)
    requires Sorted(es)
    ensures IsSeek(es, key, p)
  {
    p := 0;
    while p < |es| && Less(es[p].key, key)
      invariant p <= |es|
      invariant forall j :: 0 <= j < p ==> Less(es[j].key, key)
    {
      p := p + 1;
    }
    forall j | p <= j < |es| ensures AtMost(key, es[j].key) {
      assert p < j ==> Before(es[p], es[j]);
    }
  }

  // ----- the iterator -----

  class MergingIterator {
    const children: seq<Cursor>
    ghost const merged: seq<Entry>
    ghost var pos: nat  // position in the union; its length when not valid
    var current: Option<nat>
    var direction: Direction

    ghost function Runs(): seq<seq<Entry>> {
      seq(|children|, i requires 0 <= i < |children| => children[i].entries)
    }

    ghost predicate ChildrenOk() reads this, children {
      && (forall i, j :: 0 <= i < j < |children| ==> children[i] != children[j])
      && (forall i :: 0 <= i < |children| ==> children[i].Ok())
      && IsUnion(merged, Runs())
    }

    /** Forward, every child stands at the cut before the current entry; in reverse the current child does
        and the others stand just below it. */
    ghost predicate Ok() reads this, children {
      && ChildrenOk()
      && pos <= |merged|
      && (current.Some? <==> pos < |merged|)
      && (current.Some? ==>
            && current.value < |children|
            && children[current.value].Valid()
            && children[current.value].Current() == merged[pos]
            && (direction == Forward ==> forall i :: 0 <= i < |children| ==> AtCut(children[i].entries, children[i].pos, merged, pos))
            && (direction == Reverse ==> forall i :: 0 <= i < |children| && i != current.value
                                           ==> BelowCut(children[i].entries, children[i].pos, merged, pos)))
    }

    predicate Valid() reads this {
      current.Some?
    }

    function Current(): Entry
      requires Ok() && Valid()
      reads this, children
      ensures Current() == merged[pos]
    {
      children[current.value].Current()
    }

    constructor (children: seq<Cursor>, ghost merged: seq<Entry>)
      requires forall i, j :: 0 <= i < j < |children| ==> children[i] != children[j]
      requires forall i :: 0 <= i < |children| ==> children[i].Ok()
      requires IsUnion(merged, seq(|children|, i requires 0 <= i < |children| => children[i].entries))
      ensures Ok() && !Valid() && this.children == children && this.merged == merged
    {
      this.children, this.merged := children, merged;
      current, direction, pos := None, Forward, |merged|;
    }

    /** With every child at the cut before position `q`, the smallest child is the union's `q`-th entry. */
    method FindSmallest(ghost q: nat)
      requires ChildrenOk() && q <= |merged|
      requires forall i :: 0 <= i < |children| ==> AtCut(children[i].entries, children[i].pos, merged, q)
      modifies this`current, this`pos, this`direction
      ensures Ok() && pos == q && direction == Forward
    {
      hide IsUnion, AtCut;
      var smallest: Option<nat> := None;
      for i := 0 to |children|
        invariant smallest.Some? ==> smallest.value < i && children[smallest.value].Valid()
        invariant smallest.None? ==> forall j :: 0 <= j < i ==> !children[j].Valid()
        invariant smallest.Some? ==> forall j :: 0 <= j < i && children[j].Valid() ==>
          AtMost(children[smallest.value].Current().key, children[j].Current().key)
      {
        var child := children[i];
        if child.Valid() {
          if smallest.None? {
            smallest := Some(i);
          } else if Compare(child.Current().key, children[smallest.value].Current().key) < 0 {
            smallest := Some(i);
          }
        }
      }
      current := smallest;
      direction := Forward;
      pos := q;
      ghost var at := seq(|children|, i requires 0 <= i < |children| reads children => children[i].pos);
      if smallest.Some? {
        SmallestAtCut(merged, Runs(), q, at, smallest.value);
      } else if q < |merged| {
        var i := SomeAtCut(merged, Runs(), q, at);
      }
    }

    /** With every child just below the cut before position `q`, the largest child is the entry before it. */
    method FindLargest(ghost q: nat)
      requires ChildrenOk() && q <= |merged|
      requires forall i :: 0 <= i < |children| ==> BelowCut(children[i].entries, children[i].pos, merged, q)
      modifies this`current, this`pos, this`direction
      ensures Ok() && pos == PrevPos(|merged|, q) && direction == Reverse
    {
      hide IsUnion, BelowCut;
      var largest: Option<nat> := None;
      var i := |children|;
      while i > 0
        invariant 0 <= i <= |children|
        invariant largest.Some? ==> i <= largest.value < |children| && children[largest.value].Valid()
        invariant largest.None? ==> forall j :: i <= j < |children| ==> !children[j].Valid()
        invariant largest.Some? ==> forall j :: i <= j < |children| && children[j].Valid() ==>
          AtMost(children[j].Current().key, children[largest.value].Current().key)
      {
        i := i - 1;
        var child := children[i];
        if child.Valid() {
          if largest.None? {
            largest := Some(i);
          } else if Compare(child.Current().key, children[largest.value].Current().key) > 0 {
            largest := Some(i);
          }
        }
      }
      current := largest;
      direction := Reverse;
      pos := PrevPos(|merged|, q);
      ghost var at := seq(|children|, i requires 0 <= i < |children| reads children => children[i].pos);
      if largest.Some? {
        LargestBelowCut(merged, Runs(), q, at, largest.value);
        BelowPrevious(q, largest.value);
      } else if q > 0 {
        var i := SomeBelowCut(merged, Runs(), q, at);
      }
    }

    lemma BelowPrevious(q: nat, k: nat)
      requires ChildrenOk() && 0 < q <= |merged| && k < |children| && children[k].Valid() && children[k].Current() == merged[q - 1]
      requires forall i :: 0 <= i < |children| ==> BelowCut(children[i].entries, children[i].pos, merged, q)
      ensures forall i :: 0 <= i < |children| && i != k ==> BelowCut(children[i].entries, children[i].pos, merged, q - 1)
    {
      forall i | 0 <= i < |children| && i != k ensures BelowCut(children[i].entries, children[i].pos, merged, q - 1) {
        var c: nat :| AtCut(children[i].entries, c, merged, q) && children[i].pos == PrevPos(|children[i].entries|, c);
        assert Runs()[k] == children[k].entries && Runs()[i] == children[i].entries;
        assert merged[q - 1] in Runs()[k];
        CutRetreats(children[i].entries, c, merged, q);
      }
    }

    lemma ChildInUnion(i: nat)
      requires ChildrenOk() && i < |children|
      ensures Sorted(children[i].entries) && forall e :: e in children[i].entries ==> e in merged
    {
      assert Runs()[i] == children[i].entries;
    }

    method SeekToFirst()
      requires Ok()
      modifies this, children
      ensures Ok() && pos == 0
    {
      for i := 0 to |children|
        invariant ChildrenOk()
        invariant forall j :: 0 <= j < i ==> AtCut(children[j].entries, children[j].pos, merged, 0)
      {
        children[i].SeekToFirst();
        ChildInUnion(i);
      }
      FindSmallest(0);
    }

    method SeekToLast()
      requires Ok()
      modifies this, children
      ensures Ok() && pos == PrevPos(|merged|, |merged|)
    {
      for i := 0 to |children|
        invariant ChildrenOk()
        invariant forall j :: 0 <= j < i ==> BelowCut(children[j].entries, children[j].pos, merged, |merged|)
      {
        children[i].SeekToLast();
        ChildInUnion(i);
        assert merged[..|merged|] == merged;
        assert AtCut(children[i].entries, |children[i].entries|, merged, |merged|);
      }
      FindLargest(|merged|);
    }

    method Seek(target: InternalKey)
      requires Ok()
      modifies this, children
      ensures Ok() && IsSeek(merged, target, pos)
    {
      ghost var q := SeekExists(merged, target);
      for i := 0 to |children|
        invariant ChildrenOk()
        invariant forall j :: 0 <= j < i ==> AtCut(children[j].entries, children[j].pos, merged, q)
      {
        children[i].Seek(target);
        ChildInUnion(i);
        SeekIsAtCut(children[i].entries, children[i].pos, merged, q, target);
      }
      FindSmallest(q);
    }

    /** The lookup of an entry's own key leads to the cut before it. */
    lemma OwnKeySeek(p: nat)
      requires ChildrenOk() && p < |merged|
      ensures IsSeek(merged, merged[p].key, p)
    {
      assert forall j :: 0 <= j < p ==> Before(merged[j], merged[p]);
      assert forall j :: p < j < |merged| ==> Before(merged[p], merged[j]);
    }

    method Next()
      requires Ok() && Valid()
      modifies this, children
      ensures Ok() && pos == old(pos) + 1
    {
      var k := current.value;
      var key := Current().key;
      ghost var p := pos;
      hide IsUnion, AtCut, BelowCut, IsSeek;
      OwnKeySeek(p);
      CurrentAtCut();
      if direction != Forward {
        for i := 0 to |children|
          invariant ChildrenOk() && children[k].pos == old(children[k].pos)
          invariant current == old(current) && pos == p
          invariant forall j :: 0 <= j < i ==> AtCut(children[j].entries, children[j].pos, merged, p)
        {
          var child := children[i];
          if i != k {
            child.Seek(key);
            ChildInUnion(i);
            SeekIsAtCut(child.entries, child.pos, merged, p, key);
            if child.Valid() && Compare(key, child.Current().key) == 0 {
              child.Next();
            }
            NotCurrent(k, i, p);
          }
        }
        direction := Forward;
      }
      children[k].Next();
      forall i | 0 <= i < |children| ensures AtCut(children[i].entries, children[i].pos, merged, p + 1) {
        ChildInUnion(i);
        if i != k {
          NotCurrent(k, i, p);
        }
        CutAdvances(children[i].entries, if i == k then children[i].pos - 1 else children[i].pos, merged, p);
      }
      FindSmallest(p + 1);
    }

    /** The current child stands at the cut before its entry. */
    lemma CurrentAtCut()
      requires Ok() && Valid()
      ensures AtCut(children[current.value].entries, children[current.value].pos, merged, pos)
    {
      ChildInUnion(current.value);
      EntryIsAtCut(children[current.value].entries, children[current.value].pos, merged, pos);
    }

    /** No other child has the current entry. */
    lemma NotCurrent(k: nat, i: nat, p: nat)
      requires ChildrenOk() && p < |merged| && k < |children| && i < |children| && i != k
      requires merged[p] in children[k].entries
      ensures merged[p] !in children[i].entries
      ensures forall e :: e in children[i].entries ==> e.key != merged[p].key
    {
      assert Runs()[k] == children[k].entries && Runs()[i] == children[i].entries;
      forall e | e in children[i].entries ensures e.key != merged[p].key {
        assert e in Runs()[i] && e in merged;
        var m :| 0 <= m < |merged| && merged[m] == e;
        assert m < p ==> Before(merged[m], merged[p]);
        assert p < m ==> Before(merged[p], merged[m]);
      }
    }

    method Prev()
      requires Ok() && Valid()
      modifies this, children
      ensures Ok() && pos == PrevPos(|merged|, old(pos))
    {
      var k := current.value;
      var key := Current().key;
      ghost var p := pos;
      hide IsUnion, AtCut, BelowCut, IsSeek;
      OwnKeySeek(p);
      CurrentAtCut();
      if direction != Reverse {
        for i := 0 to |children|
          invariant ChildrenOk() && children[k].pos == old(children[k].pos)
          invariant current == old(current) && pos == p
          invariant forall j :: 0 <= j < i && j != k ==> BelowCut(children[j].entries, children[j].pos, merged, p)
        {
          var child := children[i];
          if i != k {
            child.Seek(key);
            ChildInUnion(i);
            SeekIsAtCut(child.entries, child.pos, merged, p, key);
            if child.Valid() {
              child.Prev();
            } else {
              child.SeekToLast();
            }
          }
        }
        direction := Reverse;
      }
      children[k].Prev();
      FindLargest(p);
    }
  }
}
