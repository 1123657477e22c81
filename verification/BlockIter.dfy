/** The cursor over a block. */
module BlockIterators {
  import opened Coding
  import opened BlockFormat
  import opened BlockEntries

  /** Where the restart points start and how many there are. */
  datatype Layout = Layout(restarts: nat, numRestarts: nat) | BadBlock

  function Open(data: seq<Byte>): (l: Layout)
    ensures l.Layout? ==> l.restarts + 4 * l.numRestarts + 4 == |data|
  {
    if |data| < 4 then BadBlock
    else
      var n: nat := DecodeFixed32(data[|data| - 4..]);
      if n > (|data| - 4) / 4 then BadBlock else Layout(|data| - (1 + n) * 4, n)
  }

  function RestartAt(data: seq<Byte>, restarts: nat, k: nat): nat
    requires restarts + 4 * k + 4 <= |data|
  {
    DecodeFixed32(data[restarts + 4 * k..])
  }

  /** The data, the restart points and their number are those of a block of `es`. */
  ghost predicate Represents(data: seq<Byte>, restarts: nat, numRestarts: nat, es: seq<KV>, interval: nat)
    requires restarts + 4 * numRestarts <= |data|
  {
    && interval > 0 && Encodable(es)
    && restarts == Offset(es, interval, |es|)
    && Data(es, interval, |es|) <= data
    && numRestarts == RestartCount(|es|, interval)
    && forall k :: 0 <= k < numRestarts ==>
         RestartEntry(k, interval) <= |es| && RestartAt(data, restarts, k) == Offset(es, interval, RestartEntry(k, interval))
  }

  lemma SuffixFixed(data: seq<Byte>, p: nat, w: Word)
    requires p + 4 <= |data| && data[p..p + 4] == EncodeFixed32(w)
    ensures DecodeFixed32(data[p..]) == w
  {
    FixedRoundTrip(w);
    var f := EncodeFixed32(w);
    assert forall i :: 0 <= i < 4 ==> data[p..][i] == data[p..p + 4][i];
  }

  /** What the builder wrote is opened as what it was built from. */
  lemma BlockOpens(es: seq<KV>, interval: nat, block: seq<Byte>)
    requires IsBlock(es, interval, block)
    ensures var l := Open(block);
            l.Layout? && l.numRestarts > 0 && Represents(block, l.restarts, l.numRestarts, es, interval)
  {
    hide Data, EncodeRestarts, EncodeFixed32, DecodeFixed32;
    var restarts :| IsBlockWith(es, interval, block, restarts);
    var d, r := |Data(es, interval, |es|)|, EncodeRestarts(restarts);
    assert block[d + |r|..d + |r| + 4] == EncodeFixed32(|restarts|);
    SuffixFixed(block, d + |r|, |restarts|);
    forall k | 0 <= k < |restarts| ensures RestartAt(block, d, k) == restarts[k] {
      RestartStands(restarts, k);
      assert block[d + 4 * k..d + 4 * k + 4] == r[4 * k..4 * k + 4];
      var w: nat := restarts[k];
      SuffixFixed(block, d + 4 * k, w);
    }
  }

  class Iter {
    const less: Order
    const data: seq<Byte>
    const restarts: nat
    const numRestarts: nat
    var current: nat
    var restartIndex: nat
    var key: seq<Byte>
    var valueStart: nat
    var valueLength: nat
    var corrupt: bool
    ghost const es: seq<KV>
    ghost const interval: nat
    ghost var pos: nat

    ghost predicate Shape() {
      restarts + 4 * numRestarts <= |data| && numRestarts > 0
    }

    /** The bytes are those of a block of `es`, whose keys ascend. */
    ghost predicate IsGood()
      requires Shape()
    {
      Represents(data, restarts, numRestarts, es, interval) && Ascending(less, es)
    }

    predicate Valid() reads this {
      current < restarts
    }

    function NextEntryOffset(): nat reads this {
      valueStart + valueLength
    }

    function GetRestartPoint(k: nat): nat
      requires Shape() && k < numRestarts
    {
      RestartAt(data, restarts, k)
    }

    /** The cursor shows entry `pos`, or is not valid where that is their number. */
    ghost predicate Ok() reads this {
      && Shape() && IsGood() && pos <= |es|
      && (pos == |es| ==> current == restarts)
      && (pos < |es| ==>
            && current == Offset(es, interval, pos)
            && key == es[pos].key
            && NextEntryOffset() == Offset(es, interval, pos + 1) <= |data|
            && data[valueStart..valueStart + valueLength] == es[pos].value
            && restartIndex < numRestarts && GetRestartPoint(restartIndex) <= current
            && (restartIndex + 1 < numRestarts ==> current <= GetRestartPoint(restartIndex + 1)))
    }

    /** Parsing will go on at entry `q`, and enough of its key is at hand. */
    ghost predicate Before(q: nat) reads this {
      && Shape() && IsGood() && q <= |es|
      && NextEntryOffset() == Offset(es, interval, q)
      && restartIndex < numRestarts && GetRestartPoint(restartIndex) <= Offset(es, interval, q)
      && (q < |es| ==> var n := Shared(es, interval, q); n <= |key| && key[..n] == es[q].key[..n])
    }

    constructor (less: Order, data: seq<Byte>, restarts: nat, numRestarts: nat, ghost es: seq<KV>, ghost interval: nat)
      requires restarts + 4 * numRestarts <= |data| && numRestarts > 0
      ensures this.less == less && this.data == data && this.restarts == restarts && this.numRestarts == numRestarts
      ensures this.es == es && this.interval == interval
      ensures Shape() && !Valid() && !corrupt && (IsGood() ==> Ok() && pos == |es|)
    {
      this.less, this.data, this.restarts, this.numRestarts, this.es, this.interval := less, data, restarts, numRestarts, es, interval;
      current, restartIndex, key, valueStart, valueLength, corrupt := restarts, numRestarts, [], 0, 0, false;
      pos := |es|;
    }

    method CorruptionError()
      modifies this
      ensures current == restarts && corrupt && pos == old(pos)
    {
      current, restartIndex, key, valueStart, valueLength, corrupt := restarts, numRestarts, [], 0, 0, true;
    }

    /** Entry `q` has its bytes at its offset. */
    lemma EntryAt(q: nat)
      requires Shape() && IsGood() && q < |es|
      ensures Offset(es, interval, q) < Offset(es, interval, q + 1) <= restarts
      ensures var n := Shared(es, interval, q);
              var h := DecodeEntry(data, Offset(es, interval, q), restarts);
              && h.Header? && h.shared == n && h.nonShared == |es[q].key| - n && h.valueLength == |es[q].value|
              && h.next + h.nonShared + h.valueLength == Offset(es, interval, q + 1)
              && data[h.next..h.next + h.nonShared] == es[q].key[n..]
              && data[h.next + h.nonShared..h.next + h.nonShared + h.valueLength] == es[q].value
    {
      hide DecodeEntry, EncodeEntry, Shared, Data;
      EntryStands(es, interval, q, data);
      OffsetsAscend(es, interval, q, q + 1);
      OffsetsAscend(es, interval, q + 1, |es|);
      EntryDecodes(data, Offset(es, interval, q), restarts, Shared(es, interval, q), es[q]);
    }

    lemma WhereAt(q: nat)
      requires Shape() && IsGood() && q <= |es|
      ensures q < |es| <==> Offset(es, interval, q) < restarts
      ensures Offset(es, interval, q) <= restarts
      ensures q < |es| ==>
                var n := Shared(es, interval, q);
                var h := DecodeEntry(data, Offset(es, interval, q), restarts);
                && h.Header? && h.shared == n && h.nonShared == |es[q].key| - n && h.valueLength == |es[q].value|
                && h.next + h.nonShared + h.valueLength == Offset(es, interval, q + 1)
                && data[h.next..h.next + h.nonShared] == es[q].key[n..]
                && data[h.next + h.nonShared..h.next + h.nonShared + h.valueLength] == es[q].value
    {
      if q < |es| { EntryAt(q); }
    }

    /** Moves to the next entry; false where there is none. */
    method ParseNextKey(ghost q: nat) returns (ok: bool)
      requires Shape() && restartIndex < numRestarts
      modifies this
      ensures ok ==> Valid() && old(NextEntryOffset()) == current < NextEntryOffset() <= restarts && restartIndex < numRestarts
      ensures !ok ==> !Valid()
      ensures old(Before(q)) ==> Ok() && pos == q && ok == (q < |es|) && corrupt == old(corrupt)
    {
      hide DecodeEntry, Data, Shared, Represents, Ascending;
      ghost var expected := Before(q);
      if expected { WhereAt(q); }
      current := NextEntryOffset();
      if current >= restarts {
        current := restarts;
        restartIndex := numRestarts;
        pos := q;
        return false;
      }
      var h := DecodeEntry(data, current, restarts);
      if h.BadHeader? || |key| < h.shared {
        CorruptionError();
        return false;
      }
      if expected { assert es[q].key[..h.shared] + es[q].key[h.shared..] == es[q].key; }
      TakeEntry(h);
      pos := q;
      ok := true;
    }

    method TakeEntry(h: Header)
      requires Shape() && restartIndex < numRestarts
      requires h.Header? && h.shared <= |key| && h.next + h.nonShared + h.valueLength <= |data|
      modifies this`key, this`valueStart, this`valueLength, this`restartIndex
      ensures key == old(key)[..h.shared] + data[h.next..h.next + h.nonShared]
      ensures valueStart == h.next + h.nonShared && valueLength == h.valueLength
      ensures restartIndex < numRestarts
      ensures GetRestartPoint(old(restartIndex)) <= current ==> GetRestartPoint(restartIndex) <= current
      ensures restartIndex + 1 < numRestarts ==> current <= GetRestartPoint(restartIndex + 1)
    {
      key := key[..h.shared] + data[h.next..h.next + h.nonShared];
      valueStart := h.next + h.nonShared;
      valueLength := h.valueLength;
      AdvanceRestartIndex();
    }

    method AdvanceRestartIndex()
      requires Shape() && restartIndex < numRestarts
      modifies this`restartIndex
      ensures restartIndex < numRestarts
      ensures GetRestartPoint(old(restartIndex)) <= current ==> GetRestartPoint(restartIndex) <= current
      ensures restartIndex + 1 < numRestarts ==> current <= GetRestartPoint(restartIndex + 1)
    {
      while restartIndex + 1 < numRestarts && GetRestartPoint(restartIndex + 1) < current
        invariant restartIndex < numRestarts
        invariant GetRestartPoint(old(restartIndex)) <= current ==> GetRestartPoint(restartIndex) <= current
      {
        restartIndex := restartIndex + 1;
      }
    }

    method SeekToRestartPoint(k: nat)
      requires Shape() && k < numRestarts
      modifies this
      ensures restartIndex == k && current == old(current) && pos == old(pos) && corrupt == old(corrupt)
      ensures IsGood() ==> Before(RestartEntry(k, interval)) && NextEntryOffset() == GetRestartPoint(k)
    {
      hide Data, DecodeFixed32;
      if IsGood() { DivUnique(RestartEntry(k, interval), interval, k, 0); }
      key := [];
      restartIndex := k;
      valueStart, valueLength := GetRestartPoint(k), 0;
    }

    /** From a shown entry, parsing goes on at the one after it. */
    lemma OkBeforeNext()
      requires Ok() && Valid()
      ensures pos < |es| && Before(pos + 1)
    {
      hide Data;
      OffsetsAscend(es, interval, pos, pos + 1);
    }

    method Next()
      requires Shape() && Valid() && restartIndex < numRestarts
      modifies this
      ensures Valid() ==> restartIndex < numRestarts
      ensures old(Ok()) ==> Ok() && pos == old(pos) + 1 && corrupt == old(corrupt)
    {
      hide Before, Data, Ok;
      if Ok() { OkBeforeNext(); }
      var _ := ParseNextKey(pos + 1);
    }

    method SeekToFirst()
      requires Shape()
      modifies this
      ensures Valid() ==> restartIndex < numRestarts
      ensures IsGood() ==> Ok() && pos == 0 && corrupt == old(corrupt)
    {
      SeekToRestartPoint(0);
      assert RestartEntry(0, interval) == 0;
      var _ := ParseNextKey(0);
    }

    lemma ShownEnd()
      requires Ok()
      ensures Valid() <==> pos < |es|
      ensures pos < |es| ==> (NextEntryOffset() < restarts <==> pos + 1 < |es|)
    {
      hide Data, Shared, DecodeEntry;
      if pos < |es| {
        WhereAt(pos);
        WhereAt(pos + 1);
      }
    }

    lemma RestartsInside(k: nat)
      requires Shape() && IsGood() && k < numRestarts
      ensures RestartEntry(k, interval) <= |es| && (|es| > 0 ==> RestartEntry(k, interval) < |es|)
    {
      hide Data, DecodeFixed32, Encodable;
      if |es| > 0 {
        TimesMonotone(k, (|es| - 1) / interval, interval);
      }
    }

    method SeekToLast()
      requires Shape()
      modifies this
      ensures Valid() ==> restartIndex < numRestarts
      ensures IsGood() ==> Ok() && pos == (if |es| == 0 then 0 else |es| - 1) && corrupt == old(corrupt)
    {
      hide Before, Ok, IsGood, RestartEntry;
      if IsGood() { RestartsInside(numRestarts - 1); }
      SeekToRestartPoint(numRestarts - 1);
      var ok := ParseNextKey(RestartEntry(numRestarts - 1, interval));
      while ok && NextEntryOffset() < restarts
        invariant ok ==> Valid() && restartIndex < numRestarts && NextEntryOffset() <= restarts
        invariant !ok ==> !Valid()
        invariant IsGood() ==> Ok() && pos <= |es| && ok == (pos < |es|) && corrupt == old(corrupt) && (!ok ==> |es| == 0)
        decreases if ok then restarts - NextEntryOffset() + 1 else 0
      {
        if IsGood() {
          OkBeforeNext();
          ShownEnd();
        }
        ok := ParseNextKey(pos + 1);
      }
      if IsGood() { ShownEnd(); }
    }

    lemma ShownStart()
      requires Ok() && Valid()
      ensures StartsAt(pos, current)
    {
    }

    ghost predicate StartsAt(i: nat, offset: nat) {
      Shape() && IsGood() && i < |es| && offset == Offset(es, interval, i)
    }

    /** Nothing is before the first restart point. */
    lemma NothingBefore(was: nat, offset: nat)
      requires Shape() && StartsAt(was, offset) && offset <= GetRestartPoint(0)
      requires pos == |es| && current == restarts
      ensures was == 0 && Ok()
    {
      hide Data, DecodeFixed32;
      assert RestartEntry(0, interval) == 0;
      OffsetsAscend(es, interval, 0, was);
    }

    lemma RestartBefore(k: nat, was: nat, offset: nat)
      requires Shape() && StartsAt(was, offset) && k < numRestarts && GetRestartPoint(k) < offset
      ensures IsGood() && RestartEntry(k, interval) < was < |es|
    {
      hide Data, DecodeFixed32;
      var q := RestartEntry(k, interval);
      OffsetsAscend(es, interval, if was <= q then was else q, if was <= q then q else was);
    }

    lemma ShownBefore(was: nat, offset: nat)
      requires Ok() && pos < was && StartsAt(was, offset)
      ensures NextEntryOffset() < offset <==> pos + 1 < was
    {
      hide Data, DecodeFixed32;
      OffsetsAscend(es, interval, pos + 1, was);
    }

    /** Goes back to a restart point before the entry and forward again to the one before it. */
    method Prev()
      requires Shape() && Valid() && restartIndex < numRestarts
      modifies this
      ensures Valid() ==> restartIndex < numRestarts
      ensures old(Ok()) ==> Ok() && pos == (if old(pos) == 0 then |es| else old(pos) - 1) && corrupt == old(corrupt)
    {
      hide Before, Ok, IsGood, RestartEntry, Offset, RestartAt;
      ghost var good, was := Ok(), pos;
      var original := current;
      if good { ShownStart(); }
      hide StartsAt;
      while GetRestartPoint(restartIndex) >= original
        invariant restartIndex < numRestarts
        invariant current == original && pos == was && corrupt == old(corrupt)
        decreases restartIndex
      {
        if restartIndex == 0 {
          current := restarts;
          restartIndex := numRestarts;
          pos := |es|;
          if good { NothingBefore(was, original); }
          return;
        }
        restartIndex := restartIndex - 1;
      }
      ghost var q := RestartEntry(restartIndex, interval);
      if good { RestartBefore(restartIndex, was, original); }
      SeekToRestartPoint(restartIndex);
      var ok := ParseNextKey(q);
      while ok && NextEntryOffset() < original
        invariant ok ==> Valid() && restartIndex < numRestarts && NextEntryOffset() <= restarts
        invariant !ok ==> !Valid()
        invariant good ==> Ok() && ok && pos < was && corrupt == old(corrupt)
        decreases if ok then restarts - NextEntryOffset() + 1 else 0
      {
        if good {
          OkBeforeNext();
          ShownBefore(was, original);
        }
        ok := ParseNextKey(pos + 1);
      }
      if good { ShownBefore(was, original); }
    }
  
    // ----- seeking -----

    ghost predicate AllLess(n: nat, target: seq<Byte>) {
      forall j :: 0 <= j < n && j < |es| ==> less(es[j].key, target)
    }

    /** Position `p` is the first whose key is not before the target. */
    ghost predicate IsSeek(target: seq<Byte>, p: nat) {
      && p <= |es| && AllLess(p, target)
      && forall j :: p <= j < |es| ==> !less(es[j].key, target)
    }

    /** The key of a restart point is stored whole. */
    lemma RestartKey(k: nat)
      requires Shape() && IsGood() && k < numRestarts && |es| > 0
      ensures var q := RestartEntry(k, interval);
              && q < |es|
              && var h := DecodeEntry(data, GetRestartPoint(k), restarts);
                 h.Header? && h.shared == 0 && data[h.next..h.next + h.nonShared] == es[q].key
    {
      hide Data, DecodeFixed32, DecodeEntry, CommonPrefix;
      RestartsInside(k);
      var q := RestartEntry(k, interval);
      DivUnique(q, interval, k, 0);
      EntryAt(q);
    }

    lemma LessBefore(q: nat, target: seq<Byte>)
      requires Shape() && IsGood() && q < |es| && less(es[q].key, target)
      ensures AllLess(q + 1, target)
    {
      hide Represents;
    }

    lemma RestExceeds(p: nat, target: seq<Byte>)
      requires Shape() && IsGood() && p <= |es| && AllLess(p, target) && (p < |es| ==> !less(es[p].key, target))
      ensures IsSeek(target, p)
    {
      hide Represents;
    }

    /** Finds the last restart point with a key before the target, or else the first restart point. */
    method FindRestart(target: seq<Byte>) returns (ok: bool, left: nat)
      requires Shape()
      modifies this
      ensures ok ==> left < numRestarts
      ensures !ok ==> !Valid()
      ensures IsGood() ==> ok && pos == old(pos) && corrupt == old(corrupt) && AllLess(RestartEntry(left, interval), target)
    {
      hide IsGood, RestartEntry, RestartAt, DecodeEntry;
      left := 0;
      var right: nat := numRestarts - 1;
      FirstEntryFirst(target);
      while left < right
        invariant left <= right < numRestarts
        invariant pos == old(pos) && corrupt == old(corrupt)
        invariant IsGood() ==> AllLess(RestartEntry(left, interval), target)
      {
        var mid: nat := (left + right + 1) / 2;
        var h := DecodeEntry(data, GetRestartPoint(mid), restarts);
        if IsGood() {
          SeveralRestarts();
          RestartKey(mid);
        }
        if h.BadHeader? || h.shared != 0 {
          CorruptionError();
          return false, 0;
        }
        var midKey := data[h.next..h.next + h.nonShared];
        if less(midKey, target) {
          left := mid;
          if IsGood() { LessBefore(RestartEntry(mid, interval), target); }
        } else {
          right := mid - 1;
        }
      }
      ok := true;
    }

    lemma SeveralRestarts()
      requires Shape() && IsGood() && numRestarts > 1
      ensures |es| > 0
    {
    }

    lemma FirstEntryFirst(target: seq<Byte>)
      ensures AllLess(RestartEntry(0, interval), target)
    {
      assert RestartEntry(0, interval) == 0;
    }

    method Seek(target: seq<Byte>)
      requires Shape()
      modifies this
      ensures Valid() ==> restartIndex < numRestarts && NextEntryOffset() <= restarts
      ensures IsGood() ==> Ok() && IsSeek(target, pos) && corrupt == old(corrupt)
    {
      hide IsGood, RestartEntry, Ok, Before, AllLess, IsSeek;
      var found, left := FindRestart(target);
      if !found {
        return;
      }
      SeekToRestartPoint(left);
      var ok := ParseNextKey(RestartEntry(left, interval));
      while ok && less(key, target)
        invariant ok ==> Valid() && restartIndex < numRestarts && NextEntryOffset() <= restarts
        invariant !ok ==> !Valid()
        invariant IsGood() ==> Ok() && ok == (pos < |es|) && corrupt == old(corrupt) && AllLess(pos, target)
        decreases if ok then restarts - NextEntryOffset() + 1 else 0
      {
        if IsGood() {
          OkBeforeNext();
          ShownKey();
          LessBefore(pos, target);
        }
        ok := ParseNextKey(pos + 1);
      }
      if IsGood() {
        ShownKey();
        RestExceeds(pos, target);
      }
    }

    lemma ShownKey()
      requires Ok()
      ensures pos <= |es| && (pos < |es| ==> key == es[pos].key)
    {
    }
  }
}
