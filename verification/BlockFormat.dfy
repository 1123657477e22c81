/** The bytes of a block: prefix-compressed entries, then the offsets of the entries that are not compressed. */
module BlockFormat {
  import opened Coding

  datatype KV = KV(key: seq<Byte>, value: seq<Byte>)

  type Order = (seq<Byte>, seq<Byte>) -> bool  // strictly before

  ghost predicate Ascending(less: Order, es: seq<KV>) {
    && (forall a, b, c :: less(a, b) && less(b, c) ==> less(a, c))
    && forall i, j :: 0 <= i < j < |es| ==> less(es[i].key, es[j].key)
  }

  /** Lengths and offsets are stored in 32 bits. */
  ghost predicate Encodable(es: seq<KV>) {
    forall i :: 0 <= i < |es| ==> |es[i].key| < 0x1_0000_0000 && |es[i].value| < 0x1_0000_0000
  }

  // ----- entries -----

  /** `n` bytes are all that the keys have in common at the front. */
  predicate IsCommonPrefix(a: seq<Byte>, b: seq<Byte>, n: nat) {
    && n <= |a| && n <= |b|
    && a[..n] == b[..n]
    && (n < |a| && n < |b| ==> a[n] != b[n])
  }

  function CommonPrefix(a: seq<Byte>, b: seq<Byte>): (n: nat)
    ensures IsCommonPrefix(a, b, n)
  {
    if a == [] || b == [] || a[0] != b[0] then 0
    else
      var n := CommonPrefix(a[1..], b[1..]);
      assert a[..n + 1] == [a[0]] + a[1..][..n] && b[..n + 1] == [b[0]] + b[1..][..n];
      n + 1
  }

  lemma CommonPrefixUnique(a: seq<Byte>, b: seq<Byte>, n: nat)
    requires IsCommonPrefix(a, b, n)
    ensures n == CommonPrefix(a, b)
  {
    PrefixElements(a, b, n);
    PrefixElements(a, b, CommonPrefix(a, b));
  }

  lemma PrefixElements(a: seq<Byte>, b: seq<Byte>, n: nat)
    requires IsCommonPrefix(a, b, n)
    ensures forall i :: 0 <= i < n ==> a[i] == b[i]
  {
    forall i | 0 <= i < n ensures a[i] == b[i] {
      assert a[..n][i] == b[..n][i];
    }
  }

  /** What entry `i` shares with the one before it; every `interval`-th entry is stored whole. */
  function Shared(es: seq<KV>, interval: nat, i: nat): (n: nat)
    requires interval > 0 && i < |es|
    ensures n <= |es[i].key|
    ensures i % interval != 0 ==> i > 0 && n <= |es[i - 1].key| && es[i - 1].key[..n] == es[i].key[..n]
    ensures i % interval == 0 ==> n == 0
  {
    if i % interval == 0 then 0 else CommonPrefix(es[i - 1].key, es[i].key)
  }

  function EncodeHeader(shared: Word, nonShared: Word, valueLength: Word): (s: seq<Byte>)
    ensures |s| >= 3
  {
    EncodeVarint32(shared) + (EncodeVarint32(nonShared) + EncodeVarint32(valueLength))
  }

  function EncodeEntry(shared: nat, e: KV): (s: seq<Byte>)
    requires shared <= |e.key| < 0x1_0000_0000 && |e.value| < 0x1_0000_0000
    ensures |s| >= 3
  {
    EncodeHeader(shared, |e.key| - shared, |e.value|) + (e.key[shared..] + e.value)
  }

  /** The bytes of the first `n` entries. */
  function Data(es: seq<KV>, interval: nat, n: nat): seq<Byte>
    requires interval > 0 && Encodable(es) && n <= |es|
  {
    if n == 0 then [] else Data(es, interval, n - 1) + EncodeEntry(Shared(es, interval, n - 1), es[n - 1])
  }

  function Offset(es: seq<KV>, interval: nat, n: nat): nat
    requires interval > 0 && Encodable(es) && n <= |es|
  {
    |Data(es, interval, n)|
  }

  lemma {:induction false} OffsetsAscend(es: seq<KV>, interval: nat, i: nat, j: nat)
    requires interval > 0 && Encodable(es) && i <= j <= |es|
    ensures Data(es, interval, i) <= Data(es, interval, j)
    ensures i < j ==> Offset(es, interval, i) + 3 <= Offset(es, interval, j)
    decreases j
  {
    hide EncodeEntry;
    if i < j {
      OffsetsAscend(es, interval, i, j - 1);
    }
  }

  /** Adding an entry does not disturb the ones before it. */
  lemma {:induction false} DataOfPrefix(es: seq<KV>, e: KV, interval: nat, n: nat)
    requires interval > 0 && Encodable(es) && Encodable(es + [e]) && n <= |es|
    ensures Data(es + [e], interval, n) == Data(es, interval, n)
  {
    hide EncodeEntry, CommonPrefix;
    if n > 0 {
      DataOfPrefix(es, e, interval, n - 1);
      assert (es + [e])[n - 1] == es[n - 1];
    }
  }

  // ----- restart points -----

  /** There is a restart point even in an empty block. */
  function RestartCount(n: nat, interval: nat): (c: nat)
    requires interval > 0
    ensures c > 0
  {
    if n == 0 then 1 else (n - 1) / interval + 1
  }

  /** The `k`-th restart point is the offset of entry `k * interval`. */
  ghost predicate IsRestarts(es: seq<KV>, interval: nat, restarts: seq<nat>)
    requires interval > 0 && Encodable(es)
  {
    && |restarts| == RestartCount(|es|, interval)
    && forall k :: 0 <= k < |restarts| ==>
         var i := RestartEntry(k, interval); i <= |es| && restarts[k] == Offset(es, interval, i)
  }

  function RestartEntry(k: nat, interval: nat): nat {
    k * interval
  }

  lemma DivUnique(n: nat, d: nat, q: nat, r: nat)
    requires d > 0 && n == q * d + r && r < d
    ensures n / d == q && n % d == r
  {
    var p := n / d;
    assert n == p * d + n % d;
    TimesMonotone(p + 1, q, d);
    TimesMonotone(q + 1, p, d);
  }

  lemma TimesMonotone(a: nat, b: nat, d: nat)
    ensures a <= b ==> a * d <= b * d
    ensures a * d + d == (a + 1) * d
    ensures a > 0 ==> a * d == (a - 1) * d + d
  {
  }

  /** Counting up to a multiple of the interval, and past one. */
  lemma CountUp(n: nat, interval: nat)
    requires interval > 0 && n > 0
    ensures n % interval == 0 <==> (n - 1) % interval + 1 == interval
    ensures n % interval == 0 ==> n / interval == (n - 1) / interval + 1 && n / interval * interval == n
    ensures n % interval != 0 ==> n / interval == (n - 1) / interval && n % interval == (n - 1) % interval + 1
  {
    var q, r := (n - 1) / interval, (n - 1) % interval;
    assert n - 1 == q * interval + r;
    if r + 1 == interval {
      assert n == (q + 1) * interval + 0;
      DivUnique(n, interval, q + 1, 0);
    } else {
      DivUnique(n, interval, q, r + 1);
    }
  }

  /** What one more entry does to the restart points. */
  lemma RestartsGrow(es: seq<KV>, e: KV, interval: nat, restarts: seq<nat>)
    requires interval > 0 && Encodable(es) && Encodable(es + [e]) && IsRestarts(es, interval, restarts)
    ensures IsRestarts(es + [e], interval,
                       if |es| > 0 && |es| % interval == 0 then restarts + [Offset(es, interval, |es|)] else restarts)
  {
    hide Data;
    var n := |es|;
    if n > 0 { CountUp(n, interval); }
    var grown := if n > 0 && n % interval == 0 then restarts + [Offset(es, interval, n)] else restarts;
    assert |grown| == RestartCount(n + 1, interval);
    forall k | 0 <= k < |grown| ensures var i := RestartEntry(k, interval); i <= n + 1 && grown[k] == Offset(es + [e], interval, i) {
      var i := RestartEntry(k, interval);
      DataOfPrefix(es, e, interval, if i <= n then i else n);
    }
  }

  function EncodeRestarts(restarts: seq<nat>): (s: seq<Byte>)
    requires forall k :: 0 <= k < |restarts| ==> restarts[k] < 0x1_0000_0000
    ensures |s| == 4 * |restarts|
  {
    if restarts == [] then []
    else EncodeRestarts(restarts[..|restarts| - 1]) + EncodeFixed32(restarts[|restarts| - 1])
  }

  lemma {:induction false} RestartStands(restarts: seq<nat>, k: nat)
    requires (forall k :: 0 <= k < |restarts| ==> restarts[k] < 0x1_0000_0000) && k < |restarts|
    ensures EncodeRestarts(restarts)[4 * k..4 * k + 4] == EncodeFixed32(restarts[k])
  {
    hide EncodeFixed32;
    var n := |restarts|;
    if k < n - 1 {
      RestartStands(restarts[..n - 1], k);
      var init := EncodeRestarts(restarts[..n - 1]);
      assert EncodeRestarts(restarts)[4 * k..4 * k + 4] == init[4 * k..4 * k + 4];
    }
  }

  /** The whole block. */
  ghost predicate IsBlock(es: seq<KV>, interval: nat, block: seq<Byte>) {
    && interval > 0 && Encodable(es)
    && exists restarts :: IsBlockWith(es, interval, block, restarts)
  }

  ghost predicate IsBlockWith(es: seq<KV>, interval: nat, block: seq<Byte>, restarts: seq<nat>)
    requires interval > 0 && Encodable(es)
  {
    && |block| < 0x1_0000_0000
    && IsRestarts(es, interval, restarts)
    && (forall k :: 0 <= k < |restarts| ==> restarts[k] < 0x1_0000_0000) && |restarts| < 0x1_0000_0000
    && block == Data(es, interval, |es|) + EncodeRestarts(restarts) + EncodeFixed32(|restarts|)
  }
}
