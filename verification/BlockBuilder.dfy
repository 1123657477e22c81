/** Building a block entry by entry. */
module BlockBuilders {
  import opened Coding
  import opened BlockFormat

  class BlockBuilder {
    const interval: nat
    var buffer: seq<Byte>
    var restarts: seq<nat>
    var counter: nat
    var lastKey: seq<Byte>
    var finished: bool
    ghost var es: seq<KV>

    ghost predicate Valid() reads this {
      && interval > 0 && Encodable(es)
      && IsRestarts(es, interval, restarts)
      && (if es == [] then counter == 0 && lastKey == []
          else counter == (|es| - 1) % interval + 1 && lastKey == es[|es| - 1].key)
      && (!finished ==> buffer == Data(es, interval, |es|))
    }

    constructor (interval: nat)
      requires interval >= 1
      ensures Valid() && !finished && es == [] && this.interval == interval && CurrentSizeEstimate() == 8
    {
      this.interval := interval;
      buffer, restarts, counter, lastKey, finished, es := [], [0], 0, [], false, [];
    }

    method Reset()
      requires interval >= 1
      modifies this
      ensures Valid() && !finished && es == [] && CurrentSizeEstimate() == 8
    {
      buffer, restarts, counter, lastKey, finished, es := [], [0], 0, [], false, [];
    }

    /** The size of the block if it were finished now. */
    function CurrentSizeEstimate(): nat reads this {
      |buffer| + 4 * |restarts| + 4
    }

    predicate Empty()
      reads this
    {
      buffer == []
    }

    /** The buffer is empty before the first entry only. */
    lemma EmptyTells()
      requires Valid() && !finished
      ensures Empty() <==> es == []
    {
      hide EncodeEntry, Shared;
      if es != [] { OffsetsAscend(es, interval, 0, |es|); }
    }

    /** The counter is at the interval exactly where a restart is due. */
    lemma CounterTells(e: KV)
      requires Valid() && Encodable(es + [e])
      ensures counter < interval <==> es == [] || |es| % interval != 0
      ensures Shared(es + [e], interval, |es|) == if counter < interval then CommonPrefix(lastKey, e.key) else 0
    {
      hide CommonPrefix, IsRestarts;
      if es == [] {
        NothingInCommon(e.key);
      } else {
        CountUp(|es|, interval);
      }
    }

    lemma NothingInCommon(key: seq<Byte>)
      ensures CommonPrefix([], key) == 0
    {
    }

    method Add(key: seq<Byte>, value: seq<Byte>)
      requires Valid() && !finished && |key| < 0x1_0000_0000 && |value| < 0x1_0000_0000
      modifies this
      ensures Valid() && !finished && es == old(es) + [KV(key, value)]
      ensures CurrentSizeEstimate() <= old(CurrentSizeEstimate()) + |key| + |value| + 19
    {
      hide EncodeEntry, CommonPrefix, IsRestarts, EncodeVarint32;
      ghost var e := KV(key, value);
      ghost var was, before := es, buffer;
      CounterTells(e);
      RestartsGrow(es, e, interval, restarts);
      NextCounter(|es|);
      var shared: nat := 0;
      if counter < interval {
        shared := SharedLength(lastKey, key);
      } else {
        restarts := restarts + [|buffer|];
        counter := 0;
      }
      var nonShared := |key| - shared;
      Varint32Length(shared);
      Varint32Length(nonShared);
      Varint32Length(|value|);
      buffer := buffer + EncodeVarint32(shared) + EncodeVarint32(nonShared) + EncodeVarint32(|value|);
      buffer := buffer + key[shared..];
      buffer := buffer + value;
      lastKey := lastKey[..shared] + key[shared..];
      counter := counter + 1;
      es := es + [e];
      assert lastKey == key;
      EntryAppended(before, shared, e);
      DataOfPrefix(was, e, interval, |was|);
    }

    lemma Varint32Length(v: Word)
      ensures |EncodeVarint32(v)| <= 5
    {
    }

    lemma NextCounter(n: nat)
      requires interval > 0
      ensures n > 0 && n % interval != 0 ==> n % interval + 1 == (n - 1) % interval + 2
    {
      if n > 0 { CountUp(n, interval); }
    }

    lemma EntryAppended(before: seq<Byte>, shared: nat, e: KV)
      requires shared <= |e.key| < 0x1_0000_0000 && |e.value| < 0x1_0000_0000
      ensures before + EncodeVarint32(shared) + EncodeVarint32(|e.key| - shared) + EncodeVarint32(|e.value|) + e.key[shared..] + e.value
           == before + EncodeEntry(shared, e)
    {
      hide EncodeVarint32;
    }

    /** Appends the restart points and their number. */
    method Finish() returns (block: seq<Byte>)
      requires Valid() && !finished && CurrentSizeEstimate() < 0x1_0000_0000
      modifies this
      ensures finished && es == old(es) && IsBlock(es, interval, block) && |block| == old(CurrentSizeEstimate())
    {
      hide Data, EncodeFixed32;
      ghost var data := buffer;
      RestartsInData();
      assert restarts[..0] == [];
      for i := 0 to |restarts|
        invariant restarts == old(restarts) && es == old(es)
        invariant buffer == data + EncodeRestarts(restarts[..i])
      {
        assert restarts[..i + 1][..i] == restarts[..i];
        buffer := buffer + EncodeFixed32(restarts[i]);
      }
      assert restarts[..|restarts|] == restarts;
      buffer := buffer + EncodeFixed32(|restarts|);
      finished := true;
      block := buffer;
      assert IsBlockWith(es, interval, block, restarts);
    }

    lemma RestartsInData()
      requires Valid() && !finished
      ensures forall k :: 0 <= k < |restarts| ==> restarts[k] <= |buffer|
    {
      forall k | 0 <= k < |restarts| ensures restarts[k] <= |buffer| {
        var i := RestartEntry(k, interval);
        OffsetsAscend(es, interval, i, |es|);
      }
    }

    method SharedLength(last: seq<Byte>, key: seq<Byte>) returns (shared: nat)
      ensures shared == CommonPrefix(last, key)
    {
      var minLength := if |last| < |key| then |last| else |key|;
      shared := 0;
      while shared < minLength && last[shared] == key[shared]
        invariant shared <= minLength && last[..shared] == key[..shared]
      {
        shared := shared + 1;
      }
      CommonPrefixUnique(last, key, shared);
    }
  }
}
