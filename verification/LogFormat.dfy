/** The bytes of a log file: records cut into fragments that never cross a block boundary. */
module LogFormat {
  import opened Coding

  type Checksum = seq<Byte> -> Word

  const BLOCK_SIZE: nat := 32768
  const HEADER_SIZE: nat := 7

  const ZERO_TYPE: Byte := 0
  const FULL_TYPE: Byte := 1
  const FIRST_TYPE: Byte := 2
  const MIDDLE_TYPE: Byte := 3
  const LAST_TYPE: Byte := 4

  const MASK_DELTA: Word := 0xa282ead8

  // ----- stored checksums -----

  /** Rotates right by 15 bits and adds a constant, modulo 2^32. */
  function Mask(crc: Word): Word {
    (crc / 0x8000 + crc % 0x8000 * 0x2_0000 + MASK_DELTA) % 0x1_0000_0000
  }

  function Unmask(masked: Word): Word {
    var rot := (masked - MASK_DELTA + 0x1_0000_0000) % 0x1_0000_0000;
    rot / 0x2_0000 + rot % 0x2_0000 * 0x8000
  }

  /** Adding the constant and taking it away again changes no word. */
  lemma Unshift(rot: nat)
    requires rot < 0x1_0000_0000
    ensures ((rot + MASK_DELTA) % 0x1_0000_0000 - MASK_DELTA + 0x1_0000_0000) % 0x1_0000_0000 == rot
  {
  }

  lemma MaskRoundTrip(crc: Word)
    ensures Unmask(Mask(crc)) == crc
  {
    var hi, lo := crc / 0x8000, crc % 0x8000;
    var rot := hi + lo * 0x2_0000;
    assert hi < 0x2_0000 && rot < 0x1_0000_0000;
    assert (Mask(crc) - MASK_DELTA + 0x1_0000_0000) % 0x1_0000_0000 == rot by {
      Unshift(rot);
    }
    assert rot / 0x2_0000 == lo && rot % 0x2_0000 == hi;
    assert crc == hi * 0x8000 + lo;
  }

  lemma UnmaskRoundTrip(masked: Word)
    ensures Unmask(masked) < 0x1_0000_0000 && Mask(Unmask(masked)) == masked
  {
    var rot := (masked - MASK_DELTA + 0x1_0000_0000) % 0x1_0000_0000;
    var hi, lo := rot / 0x2_0000, rot % 0x2_0000;
    assert Unmask(masked) == hi + lo * 0x8000 && hi < 0x8000 && lo < 0x2_0000;
    assert Unmask(masked) / 0x8000 == lo && Unmask(masked) % 0x8000 == hi;
    assert lo + hi * 0x2_0000 == rot;
  }

  // ----- fragments -----

  /** The zeros that fill a block in which no header fits any more. */
  function Trailer(offset: nat): seq<Byte> {
    var leftover := BLOCK_SIZE - offset % BLOCK_SIZE;
    if leftover < HEADER_SIZE then seq(leftover, _ => 0) else []
  }

  /** Room for payload in the block where the next header goes. */
  function Available(offset: nat): nat {
    var leftover := BLOCK_SIZE - offset % BLOCK_SIZE;
    if leftover < HEADER_SIZE then BLOCK_SIZE - HEADER_SIZE else leftover - HEADER_SIZE
  }

  function FragmentLength(offset: nat, left: nat): nat {
    if left < Available(offset) then left else Available(offset)
  }

  function FragmentType(begin: bool, end: bool): (kind: Byte)
    ensures kind != ZERO_TYPE && kind <= LAST_TYPE
  {
    if begin && end then FULL_TYPE else if begin then FIRST_TYPE else if end then LAST_TYPE else MIDDLE_TYPE
  }

  /** One physical record: masked checksum of type and payload, length, type, payload. */
  function Frame(crc: Checksum, kind: Byte, payload: seq<Byte>): (s: seq<Byte>)
    requires |payload| < BLOCK_SIZE
    ensures |s| == HEADER_SIZE + |payload|
  {
    var low: nat, high: nat := |payload| % 256, |payload| / 256;
    EncodeFixed32(Mask(crc([kind] + payload))) + [low, high, kind] + payload
  }

  /** The first fragment of `data` as it goes to `offset`, with the trailer before it. */
  function FirstFragment(crc: Checksum, offset: nat, data: seq<Byte>, begin: bool): (s: seq<Byte>)
    ensures |s| == |Trailer(offset)| + HEADER_SIZE + FragmentLength(offset, |data|)
  {
    var n := FragmentLength(offset, |data|);
    Trailer(offset) + Frame(crc, FragmentType(begin, n == |data|), data[..n])
  }

  /** A fragment without payload is followed by one with. */
  lemma FragmentsProgress(offset: nat, left: nat)
    ensures var n := FragmentLength(offset, left);
            n <= left && (n == 0 && left > 0 ==> Available(offset) == 0 && Available(offset + |Trailer(offset)| + HEADER_SIZE + n) > 0)
  {
  }

  /** What a record, or the rest of one, becomes at `offset`. */
  function RecordBytes(crc: Checksum, offset: nat, data: seq<Byte>, begin: bool): (s: seq<Byte>)
    ensures |s| >= HEADER_SIZE
    decreases |data|, if Available(offset) == 0 then 1 else 0
  {
    var n := FragmentLength(offset, |data|);
    var first := FirstFragment(crc, offset, data, begin);
    FragmentsProgress(offset, |data|);
    if n == |data| then first else first + RecordBytes(crc, offset + |first|, data[n..], false)
  }

  function LogBytes(crc: Checksum, offset: nat, records: seq<seq<Byte>>): seq<Byte>
    decreases |records|
  {
    if records == [] then []
    else
      var bytes := RecordBytes(crc, offset, records[0], true);
      bytes + LogBytes(crc, offset + |bytes|, records[1..])
  }

  lemma LogUnfold(crc: Checksum, offset: nat, first: seq<Byte>, rest: seq<seq<Byte>>)
    ensures var bytes := RecordBytes(crc, offset, first, true);
            LogBytes(crc, offset, [first] + rest) == bytes + LogBytes(crc, offset + |bytes|, rest)
  {
    hide RecordBytes;
    assert ([first] + rest)[1..] == rest;
  }

  lemma {:induction false} LogAppend(crc: Checksum, offset: nat, records: seq<seq<Byte>>, data: seq<Byte>)
    ensures var log := LogBytes(crc, offset, records);
            LogBytes(crc, offset, records + [data]) == log + RecordBytes(crc, offset + |log|, data, true)
    decreases |records|
  {
    if records == [] {
      hide RecordBytes;
      LogUnfold(crc, offset, data, []);
      assert records + [data] == [data] + [];
    } else {
      hide RecordBytes, LogBytes;
      var bytes := RecordBytes(crc, offset, records[0], true);
      LogAppend(crc, offset + |bytes|, records[1..], data);
      LogUnfold(crc, offset, records[0], records[1..]);
      LogUnfold(crc, offset, records[0], records[1..] + [data]);
      assert records == [records[0]] + records[1..];
      assert records + [data] == [records[0]] + (records[1..] + [data]);
      var rest := LogBytes(crc, offset + |bytes|, records[1..]);
      assert offset + |bytes| + |rest| == offset + |bytes + rest|;
    }
  }

  // ----- parsing one header -----

  /** The first fragment ends in the block it starts in. */
  lemma FragmentFits(offset: nat, left: nat)
    ensures var start := offset + |Trailer(offset)|;
            start % BLOCK_SIZE + HEADER_SIZE + FragmentLength(offset, left) <= BLOCK_SIZE
  {
  }

  function HeaderLength(s: seq<Byte>): nat
    requires |s| >= HEADER_SIZE
  {
    var a: nat, b: nat := s[4], s[5];
    a + b * 256
  }

  lemma FrameParses(crc: Checksum, kind: Byte, payload: seq<Byte>, s: seq<Byte>)
    requires |payload| < BLOCK_SIZE && HEADER_SIZE + |payload| <= |s|
    requires s[..HEADER_SIZE + |payload|] == Frame(crc, kind, payload)
    ensures HeaderLength(s) == |payload| && s[6] == kind
    ensures s[HEADER_SIZE..HEADER_SIZE + |payload|] == payload
    ensures Unmask(DecodeFixed32(s)) == crc(s[6..HEADER_SIZE + |payload|])
  {
    var f := Frame(crc, kind, payload);
    var w := Mask(crc([kind] + payload));
    HeaderPrefix(crc, kind, payload, s);
    assert f[HEADER_SIZE..] == payload;
    assert s[6..HEADER_SIZE + |payload|] == [kind] + payload;
    FixedRoundTrip(w);
    MaskRoundTrip(crc([kind] + payload));
  }

  lemma FixedInverse(s: seq<Byte>)
    requires |s| >= 4
    ensures EncodeFixed32(DecodeFixed32(s)) == [s[0], s[1], s[2], s[3]]
  {
  }

  /** Only a frame has a checksum that matches. */
  lemma FrameMatches(crc: Checksum, s: seq<Byte>)
    requires |s| >= HEADER_SIZE && HeaderLength(s) < BLOCK_SIZE && HEADER_SIZE + HeaderLength(s) <= |s|
    requires Unmask(DecodeFixed32(s)) == crc(s[6..HEADER_SIZE + HeaderLength(s)])
    ensures s[..HEADER_SIZE + HeaderLength(s)] == Frame(crc, s[6], s[HEADER_SIZE..HEADER_SIZE + HeaderLength(s)])
  {
    hide Mask, Unmask, EncodeFixed32, DecodeFixed32;
    var n := HEADER_SIZE + HeaderLength(s);
    var payload := s[HEADER_SIZE..n];
    assert s[6..n] == [s[6]] + payload;
    UnmaskRoundTrip(DecodeFixed32(s));
    FixedInverse(s);
    assert |payload| % 256 == s[4] && |payload| / 256 == s[5];
    assert s[..n] == [s[0], s[1], s[2], s[3]] + [s[4], s[5], s[6]] + payload;
  }

  /** The header alone already tells the length, even where the payload is cut off. */
  lemma HeaderPrefix(crc: Checksum, kind: Byte, payload: seq<Byte>, s: seq<Byte>)
    requires |payload| < BLOCK_SIZE && |s| >= HEADER_SIZE
    requires s[..HEADER_SIZE] == Frame(crc, kind, payload)[..HEADER_SIZE]
    ensures HeaderLength(s) == |payload| && s[6] == kind
    ensures DecodeFixed32(s) == DecodeFixed32(EncodeFixed32(Mask(crc([kind] + payload))))
  {
    var f := Frame(crc, kind, payload);
    assert s[0] == f[0] && s[1] == f[1] && s[2] == f[2] && s[3] == f[3] && s[4] == f[4] && s[5] == f[5] && s[6] == f[6];
  }
}
