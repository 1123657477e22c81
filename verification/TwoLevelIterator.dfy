/** The cursor that walks an index and, inside each of its entries, a block. */
module TwoLevelIterators {
  import opened InternalKeys
  import opened Cursors

  function Concat(blocks: seq<seq<Entry>>): seq<Entry> {
    if blocks == [] then [] else Concat(blocks[..|blocks| - 1]) + blocks[|blocks| - 1]
  }

  /** Where block `i` starts among all entries. */
  function Start(blocks: seq<seq<Entry>>, i: nat): nat
    requires i <= |blocks|
  {
    |Concat(blocks[..i])|
  }

  lemma StartOfNext(blocks: seq<seq<Entry>>, i: nat)
    requires i < |blocks|
    ensures Start(blocks, i + 1) == Start(blocks, i) + |blocks[i]|
    ensures Concat(blocks[..i + 1]) == Concat(blocks[..i]) + blocks[i]
  {
    assert blocks[..i + 1][..i] == blocks[..i];
  }

  lemma {:induction false} ConcatPrefix(blocks: seq<seq<Entry>>, i: nat)
    requires i <= |blocks|
    ensures Concat(blocks[..i]) <= Concat(blocks)
    decreases |blocks| - i
  {
    if i < |blocks| {
      StartOfNext(blocks, i);
      ConcatPrefix(blocks, i + 1);
    } else {
      assert blocks[..i] == blocks;
    }
  }

  lemma EntryAt(blocks: seq<seq<Entry>>, i: nat, q: nat)
    requires i < |blocks| && q < |blocks[i]|
    ensures Start(blocks, i) + q < |Concat(blocks)| && Concat(blocks)[Start(blocks, i) + q] == blocks[i][q]
  {
    StartOfNext(blocks, i);
    ConcatPrefix(blocks, i + 1);
    assert Concat(blocks)[Start(blocks, i) + q] == Concat(blocks[..i + 1])[Start(blocks, i) + q];
  }

  lemma {:induction false} WhereEntryIs(blocks: seq<seq<Entry>>, p: nat) returns (i: nat, q: nat)
    requires p < |Concat(blocks)|
    ensures i < |blocks| && q < |blocks[i]| && p == Start(blocks, i) + q && Concat(blocks)[p] == blocks[i][q]
  {
    var n := |blocks| - 1;
    if p < Start(blocks, n) {
      i, q := WhereEntryIs(blocks[..n], p);
      assert blocks[..n][..i] == blocks[..i];
    } else {
      i, q := n, p - Start(blocks, n);
    }
  }

  /** Separators are at or after their block and before all later blocks. */
  ghost predicate SeparatorsOk(blocks: seq<seq<Entry>>, separators: seq<InternalKey>) {
    && |separators| == |blocks|
    && (forall i, q :: 0 <= i < |blocks| && 0 <= q < |blocks[i]| ==> AtMost(blocks[i][q].key, separators[i]))
    && (forall i, j, q :: 0 <= i < j < |blocks| && 0 <= q < |blocks[j]| ==> Less(separators[i], blocks[j][q].key))
    && KeysAscend(separators)
  }

  class TwoLevelIterator {
    const blocks: seq<seq<Entry>>
    const separators: seq<InternalKey>
    var index: nat          // the number of blocks when the index cursor is not valid
    var data: Option<nat>   // the place in the block, its length when not valid; None without a block

    ghost predicate Ok() reads this {
      && SeparatorsOk(blocks, separators) && Sorted(Concat(blocks))
      && index <= |blocks|
      && (data.Some? ==> index < |blocks| && data.value < |blocks[index]|)
      && (data.None? ==> index == |blocks|)
    }

    predicate Valid() reads this {
      data.Some?
    }

    ghost function Position(): nat
      requires Ok()
      reads this
    {
      if data.Some? then Start(blocks, index) + data.value else |Concat(blocks)|
    }

    function Current(): (e: Entry)
      requires Ok() && Valid()
      reads this
      ensures Position() < |Concat(blocks)| && e == Concat(blocks)[Position()]
    {
      EntryAt(blocks, index, data.value);
      blocks[index][data.value]
    }

    constructor (blocks: seq<seq<Entry>>, separators: seq<InternalKey>)
      requires SeparatorsOk(blocks, separators) && Sorted(Concat(blocks))
      ensures Ok() && !Valid() && this.blocks == blocks && this.separators == separators
    {
      this.blocks, this.separators := blocks, separators;
      index, data := |blocks|, None;
    }

    /** Goes on to the first entry of later blocks while the block is used up. */
    method SkipEmptyDataBlocksForward()
      requires SeparatorsOk(blocks, separators) && Sorted(Concat(blocks)) && index <= |blocks|
      requires data.Some? <==> index < |blocks|
      requires data.Some? ==> data.value <= |blocks[index]|
      modifies this
      ensures Ok()
      ensures Position() == Start(blocks, old(index)) + if old(data).Some? then old(data).value else 0
    {
      ghost var p := Start(blocks, index) + if data.Some? then data.value else 0;
      WholeLength(blocks);
      while data.None? || data.value == |blocks[index]|
        invariant index <= |blocks| && (data.Some? <==> index < |blocks|)
        invariant data.Some? ==> data.value <= |blocks[index]|
        invariant p == Start(blocks, index) + if data.Some? then data.value else 0
        decreases |blocks| - index, if data.Some? then 1 else 0
      {
        if index == |blocks| {
          data := None;
          return;
        }
        StartOfNext(blocks, index);
        index := index + 1;
        data := if index < |blocks| then Some(0) else None;
      }
    }

    /** Goes back to the last entry of earlier blocks while there is nothing before in the block. */
    method SkipEmptyDataBlocksBackward()
      requires SeparatorsOk(blocks, separators) && Sorted(Concat(blocks)) && index <= |blocks|
      requires data.Some? <==> index < |blocks|
      requires data.Some? ==> data.value <= |blocks[index]|
      modifies this
      ensures Ok()
      ensures old(data).Some? && old(data).value < |blocks[old(index)]| ==> Position() == Start(blocks, old(index)) + old(data).value
      ensures old(data).Some? && old(data).value == |blocks[old(index)]| ==> Position() == PrevPos(|Concat(blocks)|, Start(blocks, old(index)))
      ensures old(data).None? ==> Position() == |Concat(blocks)|
    {
      ghost var start := Start(blocks, index);
      ghost var moved := data.Some? && data.value == |blocks[index]|;
      while data.None? || data.value == |blocks[index]|
        invariant index <= |blocks| && (data.Some? <==> index < |blocks|)
        invariant data.Some? ==> data.value <= |blocks[index]|
        invariant !moved ==> index == old(index) && data == old(data)
        invariant moved && data.Some? && data.value == |blocks[index]| ==> Start(blocks, index) == start
        invariant moved && data.Some? && data.value < |blocks[index]| ==> Start(blocks, index) + data.value + 1 == start
        invariant moved && data.None? ==> start == 0
        decreases if data.Some? then index + 1 else 0
      {
        if index == |blocks| {
          data := None;
          return;
        }
        if index == 0 {
          index := |blocks|;
          data := None;
        } else {
          StartOfNext(blocks, index - 1);
          index := index - 1;
          var n := |blocks[index]|;
          data := Some(if n == 0 then 0 else n - 1);
        }
      }
    }

    method SeekToFirst()
      requires Ok()
      modifies this
      ensures Ok() && Position() == 0
    {
      index := 0;
      data := if index < |blocks| then Some(0) else None;
      SkipEmptyDataBlocksForward();
    }

    method SeekToLast()
      requires Ok()
      modifies this
      ensures Ok() && Position() == PrevPos(|Concat(blocks)|, |Concat(blocks)|)
    {
      WholeLength(blocks);
      if |blocks| == 0 {
        index, data := 0, None;
      } else {
        index := |blocks| - 1;
        StartOfNext(blocks, index);
        var n := |blocks[index]|;
        data := Some(if n == 0 then 0 else n - 1);
      }
      SkipEmptyDataBlocksBackward();
    }

    method Next()
      requires Ok() && Valid()
      modifies this
      ensures Ok() && Position() == old(Position()) + 1
    {
      data := Some(data.value + 1);
      SkipEmptyDataBlocksForward();
    }

    method Prev()
      requires Ok() && Valid()
      modifies this
      ensures Ok() && Position() == PrevPos(|Concat(blocks)|, old(Position()))
    {
      EntryAt(blocks, index, data.value);
      data := Some(if data.value == 0 then |blocks[index]| else data.value - 1);
      SkipEmptyDataBlocksBackward();
    }

    method Seek(target: InternalKey)
      requires Ok()
      modifies this
      ensures Ok() && IsSeek(Concat(blocks), target, Position())
    {
      index := SeekIn(separators, target);
      data := None;
      if index < |blocks| {
        BlockAscends(blocks, index);
        var q := SeekIn(Keys(blocks[index]), target);
        data := Some(q);
        SeekFound(blocks, separators, target, index, q);
      } else {
        SeekPassed(blocks, separators, target);
      }
      WholeLength(blocks);
      SkipEmptyDataBlocksForward();
    }
  }

  lemma WholeLength(blocks: seq<seq<Entry>>)
    ensures Start(blocks, |blocks|) == |Concat(blocks)|
  {
    assert blocks[..|blocks|] == blocks;
  }

  lemma BlockAscends(blocks: seq<seq<Entry>>, i: nat)
    requires Sorted(Concat(blocks)) && i < |blocks|
    ensures KeysAscend(Keys(blocks[i]))
  {
    forall q, r | 0 <= q < r < |blocks[i]| ensures AtMost(blocks[i][q].key, blocks[i][r].key) {
      EntryAt(blocks, i, q);
      EntryAt(blocks, i, r);
      assert Before(blocks[i][q], blocks[i][r]);
    }
  }

  /** Seeking the index and then the block finds the place among all entries. */
  lemma SeekFound(blocks: seq<seq<Entry>>, separators: seq<InternalKey>, target: InternalKey, i: nat, q: nat)
    requires SeparatorsOk(blocks, separators) && Sorted(Concat(blocks))
    requires IsKeySeek(separators, target, i) && i < |blocks| && IsKeySeek(Keys(blocks[i]), target, q)
    ensures IsSeek(Concat(blocks), target, Start(blocks, i) + q)
  {
    var all := Concat(blocks);
    var p := Start(blocks, i) + q;
    StartOfNext(blocks, i);
    ConcatPrefix(blocks, i + 1);
    forall j | 0 <= j < |all| ensures if j < p then Less(all[j].key, target) else AtMost(target, all[j].key) {
      var b, m := WhereEntryIs(blocks, j);
      PlacesAscend(blocks, i, q, b, m);
      if b < i {
        assert AtMost(blocks[b][m].key, separators[b]) && Less(separators[b], target);
      } else if b == i {
        assert Keys(blocks[i])[m] == blocks[i][m].key;
      } else {
        assert AtMost(target, separators[i]) && Less(separators[i], blocks[b][m].key);
      }
    }
  }

  /** The order of places is that of positions. */
  lemma {:induction false} PlacesAscend(blocks: seq<seq<Entry>>, i: nat, q: nat, b: nat, m: nat)
    requires i < |blocks| && q <= |blocks[i]| && b < |blocks| && m < |blocks[b]|
    ensures Start(blocks, b) + m < Start(blocks, i) + q <==> b < i || (b == i && m < q)
  {
    if b < i {
      StartsAscend(blocks, b + 1, i);
      StartOfNext(blocks, b);
    } else if i < b {
      StartsAscend(blocks, i + 1, b);
      StartOfNext(blocks, i);
    }
  }

  lemma {:induction false} StartsAscend(blocks: seq<seq<Entry>>, i: nat, j: nat)
    requires i <= j <= |blocks|
    ensures Start(blocks, i) <= Start(blocks, j)
    decreases j
  {
    if i < j {
      StartOfNext(blocks, j - 1);
      StartsAscend(blocks, i, j - 1);
    }
  }

  lemma SeekPassed(blocks: seq<seq<Entry>>, separators: seq<InternalKey>, target: InternalKey)
    requires SeparatorsOk(blocks, separators) && IsKeySeek(separators, target, |blocks|)
    ensures IsSeek(Concat(blocks), target, |Concat(blocks)|)
  {
    var all := Concat(blocks);
    forall j | 0 <= j < |all| ensures Less(all[j].key, target) {
      var b, m := WhereEntryIs(blocks, j);
      assert AtMost(blocks[b][m].key, separators[b]) && Less(separators[b], target);
    }
  }
}
