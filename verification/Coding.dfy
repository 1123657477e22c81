/** Fixed-width and variable-width integers as bytes. */
module Coding {

  type Byte = b: nat | b < 256
  type Word = w: nat | w < 0x1_0000_0000

  // ----- fixed width -----

  function EncodeFixed32(w: Word): (s: seq<Byte>)
    ensures |s| == 4
  {
    var q1: nat := w / 256;
    var q2: nat := q1 / 256;
    var q3: nat := q2 / 256;
    var b0: nat, b1: nat, b2: nat := w % 256, q1 % 256, q2 % 256;
    [b0, b1, b2, q3]
  }

  function DecodeFixed32(s: seq<Byte>): Word
    requires |s| >= 4
  {
    var b0: nat, b1: nat, b2: nat, b3: nat := s[0], s[1], s[2], s[3];
    b0 + 256 * (b1 + 256 * (b2 + 256 * b3))
  }

  lemma FixedRoundTrip(w: Word)
    ensures DecodeFixed32(EncodeFixed32(w)) == w
  {
  }

  type Word64 = w: nat | w < 0x1_0000_0000_0000_0000

  function EncodeFixed64(w: Word64): (s: seq<Byte>)
    ensures |s| == 8
  {
    EncodeFixed32(w % 0x1_0000_0000) + EncodeFixed32(w / 0x1_0000_0000)
  }

  function DecodeFixed64(s: seq<Byte>): Word64
    requires |s| >= 8
  {
    DecodeFixed32(s) + DecodeFixed32(s[4..]) * 0x1_0000_0000
  }

  lemma Fixed64RoundTrip(w: Word64)
    ensures DecodeFixed64(EncodeFixed64(w)) == w
  {
    hide EncodeFixed32, DecodeFixed32;
    var low, high := EncodeFixed32(w % 0x1_0000_0000), EncodeFixed32(w / 0x1_0000_0000);
    assert (low + high)[4..] == high;
    FixedPrefix(low, high);
    FixedRoundTrip(w % 0x1_0000_0000);
    FixedRoundTrip(w / 0x1_0000_0000);
  }

  /** Only the first four bytes count. */
  lemma FixedPrefix(s: seq<Byte>, more: seq<Byte>)
    requires |s| >= 4
    ensures DecodeFixed32(s + more) == DecodeFixed32(s)
  {
  }

  // ----- variable width -----

  /** Seven bits to a byte, least significant first; the top bit says that more follow. */
  function EncodeVarint(v: nat): (s: seq<Byte>)
    ensures |s| > 0
  {
    if v < 128 then [v]
    else
      var low: nat := v % 128 + 128;
      [low] + EncodeVarint(v / 128)
  }

  /** The five cases of a 32-bit value. */
  function EncodeVarint32(v: Word): (s: seq<Byte>)
    ensures |s| > 0
  {
    var q1: nat := v / 128;
    var q2: nat := q1 / 128;
    var q3: nat := q2 / 128;
    var q4: nat := q3 / 128;
    var b0: nat, b1: nat, b2: nat, b3: nat := v % 128 + 128, q1 % 128 + 128, q2 % 128 + 128, q3 % 128 + 128;
    if q1 == 0 then [v]
    else if q2 == 0 then [b0, q1]
    else if q3 == 0 then [b0, b1, q2]
    else if q4 == 0 then [b0, b1, b2, q3]
    else [b0, b1, b2, b3, q4]
  }

  lemma Varint32IsVarint(v: Word)
    ensures EncodeVarint32(v) == EncodeVarint(v)
  {
    var q1: nat := v / 128;
    var q2: nat := q1 / 128;
    var q3: nat := q2 / 128;
    var q4: nat := q3 / 128;
    assert q3 > 0 ==> EncodeVarint(q3) == if q4 == 0 then [q3] else [q3 % 128 + 128, q4];
    assert q2 > 0 ==> EncodeVarint(q2) == if q3 == 0 then [q2] else [q2 % 128 + 128] + EncodeVarint(q3);
    assert q1 > 0 ==> EncodeVarint(q1) == if q2 == 0 then [q1] else [q1 % 128 + 128] + EncodeVarint(q2);
  }

  /** A value read from bytes and the position after it. */
  datatype Parsed<+T> = Parsed(value: T, next: nat) | Bad

  /** Reads at most `room` bytes from position `p` on. */
  function DecodeVarint(s: seq<Byte>, p: nat, limit: nat, room: nat): (d: Parsed<nat>)
    requires limit <= |s|
    ensures d.Parsed? ==> p < d.next <= limit
    decreases room
  {
    if room == 0 || p >= limit then Bad
    else
      var b: nat := s[p];
      if b < 128 then Parsed(b, p + 1)
      else
        var rest := DecodeVarint(s, p + 1, limit, room - 1);
        if rest.Parsed? then Parsed(b - 128 + 128 * rest.value, rest.next) else Bad
  }

  /** A 32-bit value takes at most five bytes, and bits that do not fit are lost. */
  function GetVarint32(s: seq<Byte>, p: nat, limit: nat): (d: Parsed<nat>)
    requires limit <= |s|
    ensures d.Parsed? ==> p < d.next <= limit && d.value < 0x1_0000_0000
  {
    var d := DecodeVarint(s, p, limit, 5);
    if d.Parsed? then Parsed(d.value % 0x1_0000_0000, d.next) else Bad
  }

  function GetVarint64(s: seq<Byte>, p: nat, limit: nat): (d: Parsed<Word64>)
    requires limit <= |s|
    ensures d.Parsed? ==> p < d.next <= limit
  {
    var d := DecodeVarint(s, p, limit, 10);
    if d.Parsed? then Parsed(d.value % 0x1_0000_0000_0000_0000, d.next) else Bad
  }

  function Limit(room: nat): nat {
    if room == 0 then 0 else if room == 1 then 128 else 128 * Limit(room - 1)
  }

  lemma {:induction false} VarintRoundTrip(v: nat, s: seq<Byte>, p: nat, limit: nat, room: nat)
    requires p + |EncodeVarint(v)| <= limit <= |s| && s[p..p + |EncodeVarint(v)|] == EncodeVarint(v)
    requires v < Limit(room)
    ensures DecodeVarint(s, p, limit, room) == Parsed(v, p + |EncodeVarint(v)|)
    decreases room
  {
    var e := EncodeVarint(v);
    assert s[p] == s[p..p + |e|][0];
    if v >= 128 {
      var low: nat := v % 128 + 128;
      assert e == [low] + EncodeVarint(v / 128) && s[p] == low;
      assert e[1..] == EncodeVarint(v / 128);
      assert v / 128 < Limit(room - 1) && low - 128 + 128 * (v / 128) == v;
      assert s[p + 1..p + |e|] == s[p..p + |e|][1..];
      VarintRoundTrip(v / 128, s, p + 1, limit, room - 1);
    }
  }

  lemma {:induction false} VarintLength(v: nat, room: nat)
    requires v < Limit(room)
    ensures |EncodeVarint(v)| <= room
    decreases room
  {
    if v >= 128 {
      VarintLength(v / 128, room - 1);
    }
  }

  lemma Varint32RoundTrip(v: Word, s: seq<Byte>, p: nat, limit: nat)
    requires p + |EncodeVarint32(v)| <= limit <= |s| && s[p..p + |EncodeVarint32(v)|] == EncodeVarint32(v)
    ensures GetVarint32(s, p, limit) == Parsed(v, p + |EncodeVarint32(v)|)
  {
    Varint32IsVarint(v);
    assert Limit(5) == 128 * Limit(4) && Limit(4) == 128 * Limit(3) && Limit(3) == 128 * Limit(2) && Limit(2) == 128 * 128;
    VarintRoundTrip(v, s, p, limit, 5);
  }

  lemma LimitOfTen()
    ensures Limit(10) >= 0x1_0000_0000_0000_0000
  {
    assert Limit(5) == 128 * Limit(4) && Limit(4) == 128 * Limit(3) && Limit(3) == 128 * Limit(2) && Limit(2) == 128 * 128;
    assert Limit(10) == 128 * Limit(9) && Limit(9) == 128 * Limit(8) && Limit(8) == 128 * Limit(7);
    assert Limit(7) == 128 * Limit(6) && Limit(6) == 128 * Limit(5);
  }

  lemma Varint64RoundTrip(n: Word64, s: seq<Byte>, p: nat, limit: nat)
    requires p + |EncodeVarint(n)| <= limit <= |s| && s[p..p + |EncodeVarint(n)|] == EncodeVarint(n)
    ensures GetVarint64(s, p, limit) == Parsed(n, p + |EncodeVarint(n)|)
  {
    LimitOfTen();
    VarintRoundTrip(n, s, p, limit, 10);
  }

  // ----- bytes in place -----

  /** The bytes `part` stand at position `p`. */
  predicate Stands(s: seq<Byte>, p: nat, part: seq<Byte>) {
    p + |part| <= |s| && s[p..p + |part|] == part
  }

  lemma StandsSplit(s: seq<Byte>, p: nat, a: seq<Byte>, b: seq<Byte>)
    requires Stands(s, p, a + b)
    ensures Stands(s, p, a) && Stands(s, p + |a|, b)
  {
    assert (a + b)[..|a|] == a && (a + b)[|a|..] == b;
    assert s[p..p + |a|] == s[p..p + |a + b|][..|a|];
    assert s[p + |a|..p + |a + b|] == s[p..p + |a + b|][|a|..];
  }
}
