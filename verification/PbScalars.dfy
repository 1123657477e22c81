/** Reading the numbers of a message back. */
module PbScalars {
  import opened Coding
  import opened PbMessages
  import opened PbWire

  /** The bytes stand at `p` and end at or before `limit`. */
  predicate Within(s: seq<Byte>, p: nat, limit: nat, part: seq<Byte>) {
    p + |part| <= limit <= |s| && s[p..p + |part|] == part
  }

  lemma WithinSplit(s: seq<Byte>, p: nat, limit: nat, a: seq<Byte>, b: seq<Byte>)
    requires Within(s, p, limit, a + b)
    ensures Within(s, p, limit, a) && Within(s, p + |a|, limit, b)
  {
    StandsSplit(s, p, a, b);
  }

  // ----- varints -----

  function Unit(k: nat): nat {
    if k == 0 then 1 else if k == 1 then 0x80 else if k == 2 then 0x4000 else if k == 3 then 0x20_0000 else 0x1000_0000
  }

  /** The byte that continues a negative number past 32 bits. */
  function SignExtension(k: nat): Byte {
    if k * 7 < 63 then 0xFF else 0x01
  }

  /** Goes on with byte `k` of a 32-bit varint. What does not fit must be zero or a sign extension. */
  function Varint32From(s: seq<Byte>, p: nat, limit: nat, k: nat, result: nat): (d: Parsed<nat>)
    requires limit <= |s| && result < 0x1_0000_0000
    ensures d.Parsed? ==> p < d.next <= limit && d.value < 0x1_0000_0000
    decreases if p < limit then limit - p else 0
  {
    if p >= limit then Bad
    else
      var byte: nat := s[p];
      var payload := byte % 128;
      if k > 4 && payload != 0 && (result < 0x8000_0000 || byte != SignExtension(k)) then Bad
      else
        var sum := if k > 4 then result else (result + payload * Unit(k)) % 0x1_0000_0000;
        if byte >= 128 then Varint32From(s, p + 1, limit, k + 1, sum)
        else if k == 4 && byte / 16 % 8 != 0 then Bad
        else Parsed(sum, p + 1)
  }

  function PbVarint32(s: seq<Byte>, p: nat, limit: nat): (d: Parsed<nat>)
    requires limit <= |s|
    ensures d.Parsed? ==> p < d.next <= limit && d.value < 0x1_0000_0000
  {
    Varint32From(s, p, limit, 0, 0)
  }

  /** A varint goes byte by byte. */
  lemma VarintBytes(s: seq<Byte>, p: nat, limit: nat, v: nat)
    requires Within(s, p, limit, EncodeVarint(v))
    ensures p < limit <= |s|
    ensures v < 128 ==> s[p] == v && |EncodeVarint(v)| == 1
    ensures v >= 128 ==> s[p] == v % 128 + 128 && Within(s, p + 1, limit, EncodeVarint(v / 128))
                         && |EncodeVarint(v)| == 1 + |EncodeVarint(v / 128)|
  {
    var e := EncodeVarint(v);
    assert s[p] == s[p..p + |e|][0];
    if v >= 128 {
      assert e[1..] == EncodeVarint(v / 128);
      assert s[p + 1..p + |e|] == s[p..p + |e|][1..];
    }
  }

  /** The value of the next seven bits and of those after them, as long as everything fits 32 bits. */
  lemma UnitStep(k: nat, v: nat, result: nat)
    requires k <= 4 && result + v * Unit(k) < 0x1_0000_0000
    ensures v >= 128 ==> k < 4
    ensures k < 4 ==> result + v % 128 * Unit(k) + v / 128 * Unit(k + 1) == result + v * Unit(k)
    ensures k == 4 && v < 128 ==> v / 16 % 8 == 0
    ensures v % 128 * Unit(k) <= v * Unit(k)
  {
  }

  /** One byte of a varint that fits. */
  lemma {:induction false} Varint32Step(s: seq<Byte>, p: nat, limit: nat, k: nat, result: nat, v: nat)
    requires p < limit <= |s| && k <= 4 && result + v % 128 * Unit(k) < 0x1_0000_0000
    requires s[p] == if v < 128 then v else v % 128 + 128
    requires (v >= 128 ==> k < 4) && (k == 4 ==> v / 16 % 8 == 0)
    ensures Varint32From(s, p, limit, k, result)
         == if v < 128 then Parsed(result + v * Unit(k), p + 1)
            else Varint32From(s, p + 1, limit, k + 1, result + v % 128 * Unit(k))
  {
    hide Unit;
    var byte: nat := s[p];
    assert byte % 128 == v % 128;
    assert result < 0x1_0000_0000;
    assert (result + byte % 128 * Unit(k)) % 0x1_0000_0000 == result + v % 128 * Unit(k);
  }

  lemma {:induction false} Varint32Reads(s: seq<Byte>, p: nat, limit: nat, k: nat, result: nat, v: nat)
    requires k <= 4 && result + v * Unit(k) < 0x1_0000_0000
    requires Within(s, p, limit, EncodeVarint(v))
    ensures Varint32From(s, p, limit, k, result) == Parsed(result + v * Unit(k), p + |EncodeVarint(v)|)
    decreases v
  {
    hide Within, EncodeVarint, Unit, Varint32From;
    VarintBytes(s, p, limit, v);
    UnitStep(k, v, result);
    Varint32Step(s, p, limit, k, result, v);
    if v >= 128 {
      Varint32Reads(s, p + 1, limit, k + 1, result + v % 128 * Unit(k), v / 128);
    }
  }

  lemma ReadsVarint32(s: seq<Byte>, p: nat, limit: nat, v: nat)
    requires v < 0x1_0000_0000 && Within(s, p, limit, EncodeVarint(v))
    ensures PbVarint32(s, p, limit) == Parsed(v, p + |EncodeVarint(v)|)
  {
    Varint32Reads(s, p, limit, 0, 0, v);
  }

  lemma ReadsVarint64(s: seq<Byte>, p: nat, limit: nat, v: nat)
    requires v < 0x1_0000_0000_0000_0000 && Within(s, p, limit, EncodeVarint(v))
    ensures GetVarint64(s, p, limit) == Parsed(v, p + |EncodeVarint(v)|)
  {
    Varint64RoundTrip(v, s, p, limit);
  }

  // ----- fixed width -----

  function FromLittleEndian(s: seq<Byte>): nat {
    if s == [] then 0
    else
      var low: nat := s[0];
      low + 256 * FromLittleEndian(s[1..])
  }

  function Room(bytes: nat): nat {
    if bytes == 0 then 1 else 256 * Room(bytes - 1)
  }

  lemma {:induction false} LittleEndianRoundTrip(n: nat, bytes: nat)
    requires n < Room(bytes)
    ensures FromLittleEndian(LittleEndian(n, bytes)) == n
  {
    if bytes > 0 { LittleEndianRoundTrip(n / 256, bytes - 1); }
  }

  lemma RoomForWords()
    ensures Room(4) == 0x1_0000_0000 && Room(8) == 0x1_0000_0000_0000_0000
  {
    assert Room(2) == 256 * 256 && Room(4) == 256 * 256 * Room(2);
    assert Room(8) == 256 * Room(7) && Room(7) == 256 * Room(6) && Room(6) == 256 * Room(5) && Room(5) == 256 * Room(4);
  }

  // ----- scalars -----

  /** A number of so many bytes as a signed one. */
  function Signed(n: nat, bytes: nat): int {
    var m := n % Power(bytes);
    if m >= Power(bytes) / 2 then m - Power(bytes) else m
  }

  /** A cast to a signed type of so many bytes. */
  function Clamp(i: int, bytes: nat): int {
    Signed(i % Power(bytes), bytes)
  }

  /** A varint of a type no wider than 32 bits is first cast to 32 bits, whatever its upper half. */
  function SignedVarint(n: nat, bytes: nat): int {
    if bytes == 8 then Signed(n, 8) else Signed(n, 4)
  }

  function DecodeScalar(t: LType, s: seq<Byte>, p: nat, limit: nat): (r: Parsed<Value>)
    requires Packable(t) && limit <= |s|
    ensures r.Parsed? ==> p < r.next <= limit
  {
    match t
    case Bool =>
      var d := PbVarint32(s, p, limit);
      if d.Bad? then Bad else Parsed(VBool(d.value != 0), d.next)
    case Varint(n) =>
      var d := GetVarint64(s, p, limit);
      if d.Bad? || Clamp(SignedVarint(d.value, n), n) != SignedVarint(d.value, n) then Bad
      else Parsed(VInt(SignedVarint(d.value, n)), d.next)
    case UVarint(n) =>
      var d := GetVarint64(s, p, limit);
      if d.Bad? || d.value % Power(n) != d.value then Bad else Parsed(VInt(d.value), d.next)
    case SVarint(n) =>
      var d := GetVarint64(s, p, limit);
      if d.Bad? || Clamp(Unzigzag(d.value), n) != Unzigzag(d.value) then Bad else Parsed(VInt(Unzigzag(d.value)), d.next)
    case Fixed32 => if p + 4 > limit then Bad else Parsed(VInt(FromLittleEndian(s[p..p + 4])), p + 4)
    case Fixed64 => if p + 8 > limit then Bad else Parsed(VInt(FromLittleEndian(s[p..p + 8])), p + 8)
  }

  lemma ClampFits(i: int, bytes: nat)
    requires IntSize(bytes) && -(Power(bytes) / 2) <= i < Power(bytes) / 2
    ensures Clamp(i, bytes) == i
  {
    if bytes == 1 {
      assert i % 0x100 == if i >= 0 then i else i + 0x100;
    } else if bytes == 2 {
      assert i % 0x1_0000 == if i >= 0 then i else i + 0x1_0000;
    } else if bytes == 4 {
      assert i % 0x1_0000_0000 == if i >= 0 then i else i + 0x1_0000_0000;
    } else {
      assert i % 0x1_0000_0000_0000_0000 == if i >= 0 then i else i + 0x1_0000_0000_0000_0000;
    }
  }

  lemma SignedFits(i: int)
    requires -0x8000_0000 <= i < 0x8000_0000
    ensures Signed(Unsigned64(i), 4) == i
  {
    assert Unsigned64(i) % 0x1_0000_0000 == if i >= 0 then i else i + 0x1_0000_0000;
  }

  lemma SignedRoundTrip(i: int, bytes: nat)
    requires IntSize(bytes) && -(Power(bytes) / 2) <= i < Power(bytes) / 2
    ensures -0x8000_0000_0000_0000 <= i < 0x8000_0000_0000_0000
    ensures SignedVarint(Unsigned64(i), bytes) == i
  {
    hide Signed;
    if bytes == 8 { SignedWide(i); } else { SignedFits(i); }
  }

  lemma SignedWide(i: int)
    requires -0x8000_0000_0000_0000 <= i < 0x8000_0000_0000_0000
    ensures Signed(Unsigned64(i), 8) == i
  {
  }

  /** Every scalar is read back as it was written, negative numbers included. */
  lemma ScalarReads(t: LType, v: Value, s: seq<Byte>, p: nat, limit: nat)
    requires Packable(t) && TypeOk(t) && Fits(t, v) && Within(s, p, limit, EncodeScalar(t, v))
    ensures DecodeScalar(t, s, p, limit) == Parsed(v, p + |EncodeScalar(t, v)|)
  {
    hide EncodeVarint, LittleEndian, FromLittleEndian, PbVarint32, GetVarint64, Clamp, SignedVarint, Unsigned64, Zigzag, Unzigzag;
    match t
    case Bool => ReadsVarint32(s, p, limit, if v.b then 1 else 0);
    case Varint(n) =>
      SignedRoundTrip(v.i, n);
      ReadsVarint64(s, p, limit, Unsigned64(v.i));
      ClampFits(v.i, n);
    case UVarint(n) => UnsignedReads(n, v, s, p, limit);
    case SVarint(n) =>
      SignedRoundTrip(v.i, n);
      ReadsVarint64(s, p, limit, Zigzag(v.i));
      ZigzagRoundTrip(v.i);
      ClampFits(v.i, n);
    case Fixed32 =>
      RoomForWords();
      LittleEndianRoundTrip(v.i, 4);
    case Fixed64 =>
      RoomForWords();
      LittleEndianRoundTrip(v.i, 8);
  }

  lemma UnsignedReads(n: nat, v: Value, s: seq<Byte>, p: nat, limit: nat)
    requires IntSize(n) && Fits(UVarint(n), v) && Within(s, p, limit, EncodeVarint(v.i))
    ensures DecodeScalar(UVarint(n), s, p, limit) == Parsed(v, p + |EncodeVarint(v.i)|)
  {
    hide EncodeVarint, GetVarint64;
    ReadsVarint64(s, p, limit, v.i);
  }
}
