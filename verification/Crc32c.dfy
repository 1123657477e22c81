/** CRC32C: the polynomial division of section 12.1 of RFC 3720, the byte-at-a-time form and the
    four-lane strided form.

    Exclusive or and the byte shifts are named functions, so that the algebra below can be carried out
    without looking at bits. */
module Crc32c {

  const POLYNOMIAL: bv32 := 0x82f6_3b78  // bit-reversed
  const CRC32_XOR: bv32 := 0xffff_ffff

  function Xor(x: bv32, y: bv32): bv32 { x ^ y }

  function Wide(b: bv8): bv32 { b as bv32 }

  function LowByte(x: bv32): bv32 { x & 0xff }

  function ShiftByte(x: bv32): bv32 { x >> 8 }

  // ----- the definition: one bit at a time -----

  function BitStep(x: bv32): bv32 {
    if x & 1 == 1 then (x >> 1) ^ POLYNOMIAL else x >> 1
  }

  function TwoBits(x: bv32): bv32 { BitStep(BitStep(x)) }

  function FourBits(x: bv32): bv32 { TwoBits(TwoBits(x)) }

  /** Advances a remainder over one zero byte: eight bit steps. */
  function ZeroByte(x: bv32): bv32 { FourBits(FourBits(x)) }

  /** The remainder after `data`, from the remainder `l`. */
  function State(l: bv32, data: seq<bv8>): bv32 {
    if data == [] then l else ZeroByte(Xor(State(l, data[..|data| - 1]), Wide(data[|data| - 1])))
  }

  function Crc(crc: bv32, data: seq<bv8>): bv32 {
    Xor(State(Xor(crc, CRC32_XOR), data), CRC32_XOR)
  }

  // ----- exclusive or -----

  lemma XorCommutes(x: bv32, y: bv32)
    ensures Xor(x, y) == Xor(y, x)
  {
  }

  lemma XorAssociates(x: bv32, y: bv32, z: bv32)
    ensures Xor(Xor(x, y), z) == Xor(x, Xor(y, z))
  {
  }

  lemma XorCancels(x: bv32, y: bv32)
    ensures Xor(Xor(x, y), y) == x
  {
  }

  lemma XorZero(x: bv32)
    ensures Xor(0, x) == x
  {
  }

  // ----- advancing is linear -----

  lemma XorBits(x: bv32, y: bv32)
    ensures (x ^ y) & 1 == (x & 1) ^ (y & 1) && (x ^ y) >> 1 == (x >> 1) ^ (y >> 1)
    ensures x & 1 == 0 || x & 1 == 1
    ensures x ^ y == y ^ x
  {
  }

  lemma XorPolynomials(x: bv32, y: bv32, p: bv32)
    ensures (x ^ p) ^ (y ^ p) == x ^ y && (x ^ p) ^ y == (x ^ y) ^ p
  {
  }

  lemma OddStep(x: bv32)
    requires x & 1 == 1
    ensures BitStep(x) == (x >> 1) ^ POLYNOMIAL
  {
  }

  lemma EvenStep(x: bv32)
    requires x & 1 == 0
    ensures BitStep(x) == x >> 1
  {
  }

  lemma BothOdd(x: bv32, y: bv32)
    requires x & 1 == 1 && y & 1 == 1
    ensures BitStep(x ^ y) == BitStep(x) ^ BitStep(y)
  {
    hide BitStep;
    XorBits(x, y);
    OddStep(x);
    OddStep(y);
    EvenStep(x ^ y);
    XorPolynomials(x >> 1, y >> 1, POLYNOMIAL);
  }

  lemma OneOdd(x: bv32, y: bv32)
    requires x & 1 == 1 && y & 1 == 0
    ensures BitStep(x ^ y) == BitStep(x) ^ BitStep(y)
  {
    hide BitStep;
    XorBits(x, y);
    OddStep(x);
    EvenStep(y);
    OddStep(x ^ y);
    XorPolynomials(x >> 1, y >> 1, POLYNOMIAL);
  }

  lemma BothEven(x: bv32, y: bv32)
    requires x & 1 == 0 && y & 1 == 0
    ensures BitStep(x ^ y) == BitStep(x) ^ BitStep(y)
  {
    hide BitStep;
    XorBits(x, y);
    EvenStep(x);
    EvenStep(y);
    EvenStep(x ^ y);
  }

  lemma BitStepLinear(x: bv32, y: bv32)
    ensures BitStep(Xor(x, y)) == Xor(BitStep(x), BitStep(y))
  {
    hide BitStep;
    XorBits(x, y);
    XorBits(y, x);
    XorBits(BitStep(x), BitStep(y));
    if x & 1 == 1 {
      if y & 1 == 1 { BothOdd(x, y); } else { OneOdd(x, y); }
    } else {
      if y & 1 == 1 { OneOdd(y, x); } else { BothEven(x, y); }
    }
  }

  lemma TwoBitsLinear(x: bv32, y: bv32)
    ensures TwoBits(Xor(x, y)) == Xor(TwoBits(x), TwoBits(y))
  {
    hide BitStep, Xor;
    BitStepLinear(x, y);
    BitStepLinear(BitStep(x), BitStep(y));
  }

  lemma FourBitsLinear(x: bv32, y: bv32)
    ensures FourBits(Xor(x, y)) == Xor(FourBits(x), FourBits(y))
  {
    hide TwoBits, Xor;
    TwoBitsLinear(x, y);
    TwoBitsLinear(TwoBits(x), TwoBits(y));
  }

  lemma ZeroByteLinear(x: bv32, y: bv32)
    ensures ZeroByte(Xor(x, y)) == Xor(ZeroByte(x), ZeroByte(y))
  {
    hide FourBits, Xor;
    FourBitsLinear(x, y);
    FourBitsLinear(FourBits(x), FourBits(y));
  }

  // ----- the byte table -----

  /** What the table holds for a byte. */
  function ByteExtension(b: bv32): bv32 {
    ZeroByte(b)
  }

  /** The entries for the single bits are those of the table in the source; by linearity they fix the rest. */
  lemma ByteTableBasis()
    ensures ByteExtension(0x01) == 0xf26b_8303 && ByteExtension(0x02) == 0xe13b_70f7
    ensures ByteExtension(0x04) == 0xc79a_971f && ByteExtension(0x08) == 0x8ad9_58cf
    ensures ByteExtension(0x10) == 0x105e_c76f && ByteExtension(0x20) == 0x20bd_8ede
    ensures ByteExtension(0x40) == 0x417b_1dbc && ByteExtension(0x80) == 0x82f6_3b78
  {
  }

  lemma ShiftTwo(x: bv32)
    requires x & 3 == 0
    ensures TwoBits(x) == x >> 2
  {
    hide BitStep;
    assert x & 1 == 0 && (x >> 1) & 1 == 0 && x >> 1 >> 1 == x >> 2;
    EvenStep(x);
    EvenStep(x >> 1);
  }

  lemma ShiftFour(x: bv32)
    requires x & 0xf == 0
    ensures FourBits(x) == x >> 4
  {
    hide TwoBits;
    assert x & 3 == 0 && (x >> 2) & 3 == 0 && x >> 2 >> 2 == x >> 4;
    ShiftTwo(x);
    ShiftTwo(x >> 2);
  }

  /** Zeros in the low byte are shifted out without a remainder. */
  lemma ShiftEight(x: bv32)
    requires LowByte(x) == 0
    ensures ZeroByte(x) == ShiftByte(x)
  {
    hide FourBits;
    assert x & 0xf == 0 && (x >> 4) & 0xf == 0 && x >> 4 >> 4 == x >> 8;
    ShiftFour(x);
    ShiftFour(x >> 4);
  }

  lemma SplitLowByte(x: bv32) returns (high: bv32)
    ensures x == Xor(LowByte(x), high) && LowByte(high) == 0 && ShiftByte(high) == ShiftByte(x)
  {
    high := x & 0xffff_ff00;
  }

  lemma TableAdvances(x: bv32)
    ensures Xor(ByteExtension(LowByte(x)), ShiftByte(x)) == ZeroByte(x)
  {
    hide ZeroByte, Xor, LowByte, ShiftByte;
    var high := SplitLowByte(x);
    ZeroByteLinear(LowByte(x), high);
    ShiftEight(high);
  }

  lemma LowByteOfXor(l: bv32, b: bv32)
    requires LowByte(b) == b
    ensures LowByte(Xor(l, b)) == Xor(LowByte(l), b) && ShiftByte(Xor(l, b)) == ShiftByte(l)
  {
  }

  /** One table step takes in one byte. */
  lemma TableStep(l: bv32, b: bv32)
    requires LowByte(b) == b
    ensures Xor(ByteExtension(Xor(LowByte(l), b)), ShiftByte(l)) == ZeroByte(Xor(l, b))
  {
    hide *;
    LowByteOfXor(l, b);
    TableAdvances(Xor(l, b));
  }

  // ----- a known value -----

  /** "TestCRCBuffer" */
  const TEST_BUFFER: seq<bv8> := [0x54, 0x65, 0x73, 0x74, 0x43, 0x52, 0x43, 0x42, 0x75, 0x66, 0x66, 0x65, 0x72]

  function TakeByte(l: bv32, b: bv8): bv32 {
    ZeroByte(Xor(l, Wide(b)))
  }

  lemma StateGrows(l: bv32, data: seq<bv8>, i: nat)
    requires i < |data|
    ensures State(l, data[..i + 1]) == TakeByte(State(l, data[..i]), data[i])
  {
    hide ZeroByte, Xor, Wide;
    assert data[..i + 1][..i] == data[..i];
  }

  lemma BufferSteps1()
    ensures TakeByte(0xffff_ffff, 0x54) == 0x3b3d_e162
    ensures TakeByte(0x3b3d_e162, 0x65) == 0xd4f1_590a
    ensures TakeByte(0xd4f1_590a, 0x73) == 0x09fe_7e98
    ensures TakeByte(0x09fe_7e98, 0x74) == 0xae7a_99b4
    ensures TakeByte(0xae7a_99b4, 0x43) == 0x270a_7107
    ensures TakeByte(0x270a_7107, 0x52) == 0x64f3_c4be
  {
  }

  lemma BufferSteps2()
    ensures TakeByte(0x64f3_c4be, 0x43) == 0x4c22_d062
    ensures TakeByte(0x4c22_d062, 0x42) == 0x20f1_ac0e
    ensures TakeByte(0x20f1_ac0e, 0x75) == 0xe831_0e9a
    ensures TakeByte(0xe831_0e9a, 0x66) == 0xbec5_91ab
    ensures TakeByte(0xbec5_91ab, 0x66) == 0x7c1b_af86
    ensures TakeByte(0x7c1b_af86, 0x65) == 0xf01c_4041
    ensures TakeByte(0xf01c_4041, 0x72) == 0x2343_a605
  {
  }

  lemma BufferState1(data: seq<bv8>)
    requires |data| == 13 && State(0xffff_ffff, data[..0]) == 0xffff_ffff
    requires data[0] == 0x54 && data[1] == 0x65 && data[2] == 0x73 && data[3] == 0x74 && data[4] == 0x43 && data[5] == 0x52
    ensures State(0xffff_ffff, data[..6]) == 0x64f3_c4be
  {
    hide TakeByte, State;
    BufferSteps1();
    StateGrows(0xffff_ffff, data, 0);
    StateGrows(0xffff_ffff, data, 1);
    StateGrows(0xffff_ffff, data, 2);
    StateGrows(0xffff_ffff, data, 3);
    StateGrows(0xffff_ffff, data, 4);
    StateGrows(0xffff_ffff, data, 5);
  }

  lemma BufferState2(data: seq<bv8>)
    requires |data| == 13 && State(0xffff_ffff, data[..6]) == 0x64f3_c4be
    requires data[6] == 0x43 && data[7] == 0x42 && data[8] == 0x75 && data[9] == 0x66 && data[10] == 0x66 && data[11] == 0x65 && data[12] == 0x72
    ensures State(0xffff_ffff, data[..13]) == 0x2343_a605
  {
    hide TakeByte, State;
    BufferSteps2();
    StateGrows(0xffff_ffff, data, 6);
    StateGrows(0xffff_ffff, data, 7);
    StateGrows(0xffff_ffff, data, 8);
    StateGrows(0xffff_ffff, data, 9);
    StateGrows(0xffff_ffff, data, 10);
    StateGrows(0xffff_ffff, data, 11);
    StateGrows(0xffff_ffff, data, 12);
  }

  lemma StartState(l: bv32, data: seq<bv8>)
    ensures State(l, data[..0]) == l
  {
  }

  lemma Conditioned(crc: bv32, data: seq<bv8>)
    ensures Crc(crc, data) == State(crc ^ 0xffff_ffff, data) ^ 0xffff_ffff
  {
    hide State;
  }

  /** The value by which the source tells whether an accelerated computation is right. */
  lemma KnownValue()
    ensures Crc(0, TEST_BUFFER) == 0xdcbc_59fa
  {
    hide State, Crc;
    Conditioned(0, TEST_BUFFER);
    StartState(0xffff_ffff, TEST_BUFFER);
    BufferState1(TEST_BUFFER);
    BufferState2(TEST_BUFFER);
    assert TEST_BUFFER[..13] == TEST_BUFFER;
  }

  // ----- words -----

  function Zero2(x: bv32): bv32 { ZeroByte(ZeroByte(x)) }

  function Zero4(x: bv32): bv32 { Zero2(Zero2(x)) }

  function Zero8(x: bv32): bv32 { Zero4(Zero4(x)) }

  /** Advances over the sixteen bytes of a swath. */
  function Zero16(x: bv32): bv32 { Zero8(Zero8(x)) }

  lemma Zero4Linear(x: bv32, y: bv32)
    ensures Zero4(Xor(x, y)) == Xor(Zero4(x), Zero4(y))
  {
    hide ZeroByte, Xor;
    ZeroByteLinear(x, y);
    ZeroByteLinear(ZeroByte(x), ZeroByte(y));
    ZeroByteLinear(Zero2(x), Zero2(y));
    ZeroByteLinear(ZeroByte(Zero2(x)), ZeroByte(Zero2(y)));
  }

  lemma Zero16Linear(x: bv32, y: bv32)
    ensures Zero16(Xor(x, y)) == Xor(Zero16(x), Zero16(y))
  {
    hide Zero4, Xor;
    Zero4Linear(x, y);
    Zero4Linear(Zero4(x), Zero4(y));
    Zero4Linear(Zero8(x), Zero8(y));
    Zero4Linear(Zero4(Zero8(x)), Zero4(Zero8(y)));
  }

  /** A little-endian word. */
  function Word(b0: bv32, b1: bv32, b2: bv32, b3: bv32): bv32 {
    b0 | (b1 << 8) | (b2 << 16) | (b3 << 24)
  }

  function ReadUint32LE(data: seq<bv8>, i: nat): bv32
    requires i + 4 <= |data|
  {
    Word(Wide(data[i]), Wide(data[i + 1]), Wide(data[i + 2]), Wide(data[i + 3]))
  }

  predicate IsByte(b: bv32) {
    LowByte(b) == b
  }

  lemma WordShifts(b0: bv32, b1: bv32, b2: bv32, b3: bv32) returns (rest: bv32)
    requires IsByte(b0) && IsByte(b1) && IsByte(b2) && IsByte(b3)
    ensures Word(b0, b1, b2, b3) == Xor(b0, rest)
    ensures LowByte(rest) == 0 && ShiftByte(rest) == Word(b1, b2, b3, 0)
  {
    rest := Rest(b1, b2, b3);
    hide Rest, Word;
    RestShifts(b1, b2, b3);
    RestIsHigh(b1, b2, b3);
    WordIsOr(b0, b1, b2, b3);
    DisjointOr(b0, rest);
  }

  function Rest(b1: bv32, b2: bv32, b3: bv32): bv32 {
    (b1 << 8) | (b2 << 16) | (b3 << 24)
  }

  lemma RestIsHigh(b1: bv32, b2: bv32, b3: bv32)
    ensures Rest(b1, b2, b3) & 0xff == 0
  {
  }

  lemma ShiftBack(b: bv32)
    requires b & 0xff == b
    ensures (b << 8) >> 8 == b && (b << 16) >> 8 == b << 8 && (b << 24) >> 8 == b << 16
  {
  }

  lemma ShiftOr(x: bv32, y: bv32, z: bv32)
    ensures (x | y | z) >> 8 == (x >> 8) | (y >> 8) | (z >> 8)
  {
  }

  lemma RestShifts(b1: bv32, b2: bv32, b3: bv32)
    requires IsByte(b1) && IsByte(b2) && IsByte(b3)
    ensures ShiftByte(Rest(b1, b2, b3)) == Word(b1, b2, b3, 0)
  {
    ShiftBack(b1);
    ShiftBack(b2);
    ShiftBack(b3);
    ShiftOr(b1 << 8, b2 << 16, b3 << 24);
    OrZero(b1 | (b2 << 8) | (b3 << 16));
  }

  lemma OrZero(x: bv32)
    ensures x | (0 << 24) == x
  {
  }

  lemma WordIsOr(b0: bv32, b1: bv32, b2: bv32, b3: bv32)
    ensures Word(b0, b1, b2, b3) == b0 | Rest(b1, b2, b3)
  {
  }

  lemma DisjointOr(low: bv32, high: bv32)
    requires low & 0xff == low && high & 0xff == 0
    ensures low | high == low ^ high
  {
  }

  /** Taking in the low byte of a word leaves the rest of it to be taken in. */
  lemma WordStep(l: bv32, b0: bv32, b1: bv32, b2: bv32, b3: bv32)
    requires IsByte(b0) && IsByte(b1) && IsByte(b2) && IsByte(b3)
    ensures ZeroByte(Xor(l, Word(b0, b1, b2, b3))) == Xor(ZeroByte(Xor(l, b0)), Word(b1, b2, b3, 0))
  {
    hide *;
    var rest := WordShifts(b0, b1, b2, b3);
    XorAssociates(l, b0, rest);
    ZeroByteLinear(Xor(l, b0), rest);
    ShiftEight(rest);
  }

  lemma ZeroIsByte(b: bv32)
    ensures IsByte(0) && Word(b, 0, 0, 0) == b
  {
  }

  /** Four bytes at once. */
  lemma WordAdvances(l: bv32, b0: bv32, b1: bv32, b2: bv32, b3: bv32)
    requires IsByte(b0) && IsByte(b1) && IsByte(b2) && IsByte(b3)
    ensures Zero4(Xor(l, Word(b0, b1, b2, b3)))
         == ZeroByte(Xor(ZeroByte(Xor(ZeroByte(Xor(ZeroByte(Xor(l, b0)), b1)), b2)), b3))
  {
    hide ZeroByte, Word, IsByte, Xor;
    ZeroIsByte(b3);
    WordStep(l, b0, b1, b2, b3);
    var l1 := ZeroByte(Xor(l, b0));
    WordStep(l1, b1, b2, b3, 0);
    var l2 := ZeroByte(Xor(l1, b1));
    WordStep(l2, b2, b3, 0, 0);
  }

  // ----- strides -----

  /** Byte `j` of a word, in its place. */
  function ByteInPlace(x: bv32, j: nat): bv32
    requires j < 4
  {
    if j == 0 then x & 0xff
    else if j == 1 then ((x >> 8) & 0xff) << 8
    else if j == 2 then ((x >> 16) & 0xff) << 16
    else (x >> 24) << 24
  }

  /** The entry of the stride tables for byte `j` of a word: that byte advanced over a swath. */
  function StrideExtension(j: nat, b: bv32): bv32
    requires j < 4
  {
    Zero16(if j == 0 then b else if j == 1 then b << 8 else if j == 2 then b << 16 else b << 24)
  }

  /** Takes a word into a lane, by table. */
  function Step4(lane: bv32, w: bv32): bv32 {
    Xor(Xor(Xor(Xor(w, StrideExtension(0, lane & 0xff)),
                StrideExtension(1, (lane >> 8) & 0xff)),
            StrideExtension(2, (lane >> 16) & 0xff)),
        StrideExtension(3, lane >> 24))
  }

  lemma StrideIsInPlace(x: bv32)
    ensures StrideExtension(0, x & 0xff) == Zero16(ByteInPlace(x, 0))
    ensures StrideExtension(1, (x >> 8) & 0xff) == Zero16(ByteInPlace(x, 1))
    ensures StrideExtension(2, (x >> 16) & 0xff) == Zero16(ByteInPlace(x, 2))
    ensures StrideExtension(3, x >> 24) == Zero16(ByteInPlace(x, 3))
  {
    hide Zero16;
  }

  lemma BytesMakeWord(x: bv32)
    ensures x == Xor(Xor(Xor(ByteInPlace(x, 0), ByteInPlace(x, 1)), ByteInPlace(x, 2)), ByteInPlace(x, 3))
  {
  }

  /** The stride tables advance a whole lane over a swath. */
  lemma StrideAdvances(lane: bv32, w: bv32)
    ensures Step4(lane, w) == Xor(w, Zero16(lane))
  {
    hide Zero16, Xor, ByteInPlace, StrideExtension;
    StrideIsInPlace(lane);
    BytesMakeWord(lane);
    var p0, p1, p2, p3 := ByteInPlace(lane, 0), ByteInPlace(lane, 1), ByteInPlace(lane, 2), ByteInPlace(lane, 3);
    Zero16Linear(p0, p1);
    Zero16Linear(Xor(p0, p1), p2);
    Zero16Linear(Xor(Xor(p0, p1), p2), p3);
    XorAssociates(w, Zero16(p0), Zero16(p1));
    XorAssociates(w, Xor(Zero16(p0), Zero16(p1)), Zero16(p2));
    XorAssociates(w, Xor(Xor(Zero16(p0), Zero16(p1)), Zero16(p2)), Zero16(p3));
  }

  /** The remainder four lanes stand for. */
  function Combine(c0: bv32, c1: bv32, c2: bv32, c3: bv32): bv32 {
    Zero4(Xor(c3, Zero4(Xor(c2, Zero4(Xor(c1, Zero4(c0)))))))
  }

  /** A word that goes into the first lane, which thereby becomes the last, goes into the remainder. */
  lemma LaneAdvances(c0: bv32, c1: bv32, c2: bv32, c3: bv32, w: bv32)
    ensures Combine(c1, c2, c3, Xor(w, Zero16(c0))) == Zero4(Xor(w, Combine(c0, c1, c2, c3)))
  {
    hide Zero4, Xor;
    var z1 := Zero4(c0);
    var z2, z3 := Zero4(z1), Zero4(Zero4(z1));
    assert Zero16(c0) == Zero4(z3);
    var d1 := Zero4(c1);
    var d2 := Zero4(Xor(c2, d1));
    Zero4Linear(c1, z1);
    XorAssociates(c2, d1, z2);
    Zero4Linear(Xor(c2, d1), z2);
    XorAssociates(c3, d2, z3);
    Zero4Linear(Xor(c3, d2), z3);
    var d3 := Zero4(Xor(c3, d2));
    XorAssociates(w, Zero4(z3), d3);
    XorCommutes(Zero4(z3), d3);
  }

  // ----- remainders of data -----

  lemma ByteIsByte(b: bv8)
    ensures IsByte(Wide(b))
  {
  }

  lemma StateByte(l: bv32, data: seq<bv8>, i: nat)
    requires i < |data|
    ensures State(l, data[..i + 1]) == ZeroByte(Xor(State(l, data[..i]), Wide(data[i])))
  {
    hide ZeroByte, Xor;
    assert data[..i + 1][..i] == data[..i];
  }

  lemma StateWord(l: bv32, data: seq<bv8>, i: nat)
    requires i + 4 <= |data|
    ensures State(l, data[..i + 4]) == Zero4(Xor(ReadUint32LE(data, i), State(l, data[..i])))
  {
    hide ZeroByte, Xor, State, Word, Zero4, IsByte, Wide;
    StateByte(l, data, i);
    StateByte(l, data, i + 1);
    StateByte(l, data, i + 2);
    StateByte(l, data, i + 3);
    ByteIsByte(data[i]);
    ByteIsByte(data[i + 1]);
    ByteIsByte(data[i + 2]);
    ByteIsByte(data[i + 3]);
    WordAdvances(State(l, data[..i]), Wide(data[i]), Wide(data[i + 1]), Wide(data[i + 2]), Wide(data[i + 3]));
    XorCommutes(State(l, data[..i]), ReadUint32LE(data, i));
  }

  lemma {:induction false} StateConcat(l: bv32, a: seq<bv8>, b: seq<bv8>)
    ensures State(l, a + b) == State(State(l, a), b)
    decreases |b|
  {
    hide ZeroByte, Xor;
    if b == [] {
      assert a + b == a;
    } else {
      var init := b[..|b| - 1];
      StateConcat(l, a, init);
      assert (a + b)[..|a + b| - 1] == a + init;
    }
  }

  /** Extending by `a` and then by `b` is extending by both at once. */
  lemma CrcConcat(crc: bv32, a: seq<bv8>, b: seq<bv8>)
    ensures Crc(Crc(crc, a), b) == Crc(crc, a + b)
  {
    hide State, Xor;
    var l := Xor(crc, CRC32_XOR);
    StateConcat(l, a, b);
    XorCancels(State(l, a), CRC32_XOR);
  }

  // ----- the strided form -----

  function Step1(l: bv32, b: bv8): bv32 {
    Xor(ByteExtension(Xor(LowByte(l), Wide(b))), ShiftByte(l))
  }

  function TableByte(w: bv32): bv32 {
    Xor(ShiftByte(w), ByteExtension(LowByte(w)))
  }

  function Step4W(w: bv32, l: bv32): bv32 {
    TableByte(TableByte(TableByte(TableByte(Xor(w, l)))))
  }

  lemma Step1Advances(l: bv32, data: seq<bv8>, i: nat)
    requires i < |data|
    ensures Step1(State(l, data[..i]), data[i]) == State(l, data[..i + 1])
  {
    hide ZeroByte, Xor, State, ByteExtension, LowByte, ShiftByte;
    ByteIsByte(data[i]);
    TableStep(State(l, data[..i]), Wide(data[i]));
    StateByte(l, data, i);
  }

  lemma TableByteAdvances(w: bv32)
    ensures TableByte(w) == ZeroByte(w)
  {
    hide ZeroByte, Xor, ByteExtension, LowByte, ShiftByte;
    TableAdvances(w);
    XorCommutes(ShiftByte(w), ByteExtension(LowByte(w)));
  }

  lemma Step4WAdvances(w: bv32, l: bv32)
    ensures Step4W(w, l) == Zero4(Xor(w, l))
  {
    hide ZeroByte, Xor, TableByte;
    var v := Xor(w, l);
    TableByteAdvances(v);
    TableByteAdvances(ZeroByte(v));
    TableByteAdvances(ZeroByte(ZeroByte(v)));
    TableByteAdvances(ZeroByte(ZeroByte(ZeroByte(v))));
  }

  /** A remainder and four words make four lanes. */
  lemma LanesLoaded(l: bv32, data: seq<bv8>, i: nat)
    requires i + 16 <= |data|
    ensures State(l, data[..i + 16])
         == Combine(Xor(ReadUint32LE(data, i), State(l, data[..i])), ReadUint32LE(data, i + 4),
                    ReadUint32LE(data, i + 8), ReadUint32LE(data, i + 12))
  {
    hide Zero4, Xor, State, ReadUint32LE;
    StateWord(l, data, i);
    StateWord(l, data, i + 4);
    StateWord(l, data, i + 8);
    StateWord(l, data, i + 12);
  }

  lemma LaneTakesWord(l: bv32, data: seq<bv8>, i: nat, c0: bv32, c1: bv32, c2: bv32, c3: bv32)
    requires i + 4 <= |data| && State(l, data[..i]) == Combine(c0, c1, c2, c3)
    ensures State(l, data[..i + 4]) == Combine(c1, c2, c3, Step4(c0, ReadUint32LE(data, i)))
  {
    hide Zero4, Xor, State, ReadUint32LE, Combine, Step4, Zero16;
    StateWord(l, data, i);
    var w := ReadUint32LE(data, i);
    LaneAdvances(c0, c1, c2, c3, w);
    StrideAdvances(c0, w);
  }

  /** A swath goes into the four lanes, each in its place. */
  lemma LanesTakeSwath(l: bv32, data: seq<bv8>, i: nat, c0: bv32, c1: bv32, c2: bv32, c3: bv32)
    requires i + 16 <= |data| && State(l, data[..i]) == Combine(c0, c1, c2, c3)
    ensures State(l, data[..i + 16])
         == Combine(Step4(c0, ReadUint32LE(data, i)), Step4(c1, ReadUint32LE(data, i + 4)),
                    Step4(c2, ReadUint32LE(data, i + 8)), Step4(c3, ReadUint32LE(data, i + 12)))
  {
    hide *;
    var d0, d1 := Step4(c0, ReadUint32LE(data, i)), Step4(c1, ReadUint32LE(data, i + 4));
    var d2 := Step4(c2, ReadUint32LE(data, i + 8));
    LaneTakesWord(l, data, i, c0, c1, c2, c3);
    LaneTakesWord(l, data, i + 4, c1, c2, c3, d0);
    LaneTakesWord(l, data, i + 8, c2, c3, d0, d1);
    LaneTakesWord(l, data, i + 12, c3, d0, d1, d2);
  }

  lemma LanesCombined(c0: bv32, c1: bv32, c2: bv32, c3: bv32)
    ensures Step4W(c3, Step4W(c2, Step4W(c1, Step4W(c0, 0)))) == Combine(c0, c1, c2, c3)
  {
    hide Zero4, Xor, Step4W;
    XorZero(c0);
    XorCommutes(c0, 0);
    Step4WAdvances(c0, 0);
    var l1 := Zero4(c0);
    Step4WAdvances(c1, l1);
    var l2 := Zero4(Xor(c1, l1));
    Step4WAdvances(c2, l2);
    Step4WAdvances(c3, Zero4(Xor(c2, l2)));
  }

  /** The strided computation, for data of any length at any address. */
  method Extend(crc: bv32, data: seq<bv8>, address: nat) returns (r: bv32)
    ensures r == Crc(crc, data)
  {
    hide *;
    var l := Xor(crc, CRC32_XOR);
    ghost var l0 := l;
    var p, e := 0, |data|;
    var x := (address + 3) / 4 * 4 - address;  // the first aligned byte
    EmptyState(l0, data);
    if x <= e {
      while p != x
        invariant 0 <= p <= x && l == State(l0, data[..p])
      {
        Step1Advances(l0, data, p);
        l := Step1(l, data[p]);
        p := p + 1;
      }
    }
    if e - p >= 16 {
      LanesLoaded(l0, data, p);
      var crc0 := Xor(ReadUint32LE(data, p), l);
      var crc1, crc2, crc3 := ReadUint32LE(data, p + 4), ReadUint32LE(data, p + 8), ReadUint32LE(data, p + 12);
      p := p + 16;
      while e - p >= 16
        invariant 0 <= p <= e && State(l0, data[..p]) == Combine(crc0, crc1, crc2, crc3)
      {
        LanesTakeSwath(l0, data, p, crc0, crc1, crc2, crc3);
        crc0 := Step4(crc0, ReadUint32LE(data, p));
        crc1 := Step4(crc1, ReadUint32LE(data, p + 4));
        crc2 := Step4(crc2, ReadUint32LE(data, p + 8));
        crc3 := Step4(crc3, ReadUint32LE(data, p + 12));
        p := p + 16;
      }
      while e - p >= 4
        invariant 0 <= p <= e && State(l0, data[..p]) == Combine(crc0, crc1, crc2, crc3)
      {
        LaneTakesWord(l0, data, p, crc0, crc1, crc2, crc3);
        crc0 := Step4(crc0, ReadUint32LE(data, p));
        var tmp := crc0;
        crc0 := crc1;
        crc1 := crc2;
        crc2 := crc3;
        crc3 := tmp;
        p := p + 4;
      }
      LanesCombined(crc0, crc1, crc2, crc3);
      l := 0;
      l := Step4W(crc0, l);
      l := Step4W(crc1, l);
      l := Step4W(crc2, l);
      l := Step4W(crc3, l);
    }
    while p != e
      invariant 0 <= p <= e && l == State(l0, data[..p])
    {
      Step1Advances(l0, data, p);
      l := Step1(l, data[p]);
      p := p + 1;
    }
    WholeState(crc, data);
    r := Xor(l, CRC32_XOR);
  }

  lemma EmptyState(l: bv32, data: seq<bv8>)
    ensures State(l, data[..0]) == l
  {
  }

  lemma WholeState(crc: bv32, data: seq<bv8>)
    ensures Crc(crc, data) == Xor(State(Xor(crc, CRC32_XOR), data[..|data|]), CRC32_XOR)
  {
    hide State, Xor;
    assert data[..|data|] == data;
  }
}
