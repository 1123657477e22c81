/** The bytes of a table file around its blocks. */
module TableFormat {
  import opened Coding
  import opened InternalKeys
  import LogFormat

  // ----- block handles -----

  /** Where a block starts and how long it is. */
  datatype BlockHandle = BlockHandle(offset: Word64, size: Word64)

  function EncodeHandle(h: BlockHandle): (s: seq<Byte>)
    ensures |s| <= 20
  {
    LimitOfTen();
    VarintLength(h.offset, 10);
    VarintLength(h.size, 10);
    EncodeVarint(h.offset) + EncodeVarint(h.size)
  }

  function DecodeHandle(s: seq<Byte>, p: nat): Parsed<BlockHandle> {
    var offset := GetVarint64(s, p, |s|);
    if offset.Bad? then Bad
    else
      var size := GetVarint64(s, offset.next, |s|);
      if size.Bad? then Bad else Parsed(BlockHandle(offset.value, size.value), size.next)
  }

  lemma HandleRoundTrip(s: seq<Byte>, p: nat, h: BlockHandle)
    requires Stands(s, p, EncodeHandle(h))
    ensures DecodeHandle(s, p) == Parsed(h, p + |EncodeHandle(h)|)
  {
    hide EncodeVarint, GetVarint64;
    StandsSplit(s, p, EncodeVarint(h.offset), EncodeVarint(h.size));
    Varint64RoundTrip(h.offset, s, p, |s|);
    Varint64RoundTrip(h.size, s, p + |EncodeVarint(h.offset)|, |s|);
  }

  // ----- blocks in a file -----

  const BLOCK_TRAILER_SIZE: nat := 5
  const NO_COMPRESSION: Byte := 0

  /** The compression type and a masked checksum of contents and type. */
  function BlockTrailer(crc: LogFormat.Checksum, contents: seq<Byte>): (s: seq<Byte>)
    ensures |s| == BLOCK_TRAILER_SIZE
  {
    [NO_COMPRESSION] + EncodeFixed32(LogFormat.Mask(crc(contents + [NO_COMPRESSION])))
  }

  /** The block stands at its place in the file, with its trailer. */
  predicate BlockAt(crc: LogFormat.Checksum, file: seq<Byte>, h: BlockHandle, contents: seq<Byte>) {
    h.size == |contents| && Stands(file, h.offset, contents + BlockTrailer(crc, contents))
  }

  /** Reads a block and, if asked to, checks it. */
  function ReadBlock(crc: LogFormat.Checksum, verify: bool, file: seq<Byte>, h: BlockHandle): Option<seq<Byte>> {
    var n := h.offset + h.size;
    if n + BLOCK_TRAILER_SIZE > |file| then None
    else if verify && crc(file[h.offset..n + 1]) != LogFormat.Unmask(DecodeFixed32(file[n + 1..n + BLOCK_TRAILER_SIZE])) then None
    else if file[n] != NO_COMPRESSION then None
    else Some(file[h.offset..n])
  }

  lemma ReadsBlock(crc: LogFormat.Checksum, verify: bool, file: seq<Byte>, h: BlockHandle, contents: seq<Byte>)
    requires BlockAt(crc, file, h, contents)
    ensures ReadBlock(crc, verify, file, h) == Some(contents)
  {
    hide EncodeFixed32, DecodeFixed32, LogFormat.Mask, LogFormat.Unmask;
    var n := h.offset + h.size;
    var masked := LogFormat.Mask(crc(contents + [NO_COMPRESSION]));
    StandsSplit(file, h.offset, contents, BlockTrailer(crc, contents));
    StandsSplit(file, n, [NO_COMPRESSION], EncodeFixed32(masked));
    assert file[n..n + 1][0] == file[n];
    assert file[h.offset..n + 1] == contents + [NO_COMPRESSION];
    FixedRoundTrip(masked);
    LogFormat.MaskRoundTrip(crc(contents + [NO_COMPRESSION]));
  }

  /** A block that is read with verification stands in the file with its trailer, whatever the file. */
  lemma VerifiedBlockStands(crc: LogFormat.Checksum, file: seq<Byte>, h: BlockHandle)
    requires ReadBlock(crc, true, file, h).Some?
    ensures BlockAt(crc, file, h, ReadBlock(crc, true, file, h).value)
  {
    hide LogFormat.Mask, LogFormat.Unmask, EncodeFixed32, DecodeFixed32;
    var n := h.offset + h.size;
    var contents, stored := file[h.offset..n], file[n + 1..n + BLOCK_TRAILER_SIZE];
    assert file[h.offset..n + 1] == contents + [file[n]];
    LogFormat.UnmaskRoundTrip(DecodeFixed32(stored));
    LogFormat.FixedInverse(stored);
    assert stored == [stored[0], stored[1], stored[2], stored[3]];
    assert file[h.offset..n + BLOCK_TRAILER_SIZE] == contents + ([file[n]] + stored);
  }

  lemma StandsGrows(file: seq<Byte>, p: nat, part: seq<Byte>, more: seq<Byte>)
    requires Stands(file, p, part)
    ensures Stands(file + more, p, part)
  {
    assert (file + more)[p..p + |part|] == file[p..p + |part|];
  }

  lemma BlockAppended(crc: LogFormat.Checksum, file: seq<Byte>, contents: seq<Byte>)
    requires |file| < 0x1_0000_0000_0000_0000 && |contents| < 0x1_0000_0000_0000_0000
    ensures BlockAt(crc, file + (contents + BlockTrailer(crc, contents)), BlockHandle(|file|, |contents|), contents)
  {
  }

  // ----- the end of the file -----

  const FOOTER_LENGTH: nat := 48
  const TABLE_MAGIC_LOW: Word := 0x8b80fb57
  const TABLE_MAGIC_HIGH: Word := 0xdb477524

  function EncodeFooter(metaindex: BlockHandle, index: BlockHandle): (s: seq<Byte>)
    ensures |s| == FOOTER_LENGTH
  {
    var handles := EncodeHandle(metaindex) + EncodeHandle(index);
    handles + Zeros(40 - |handles|) + (EncodeFixed32(TABLE_MAGIC_LOW) + EncodeFixed32(TABLE_MAGIC_HIGH))
  }

  function Zeros(n: nat): (s: seq<Byte>)
    ensures |s| == n
  {
    seq(n, _ => 0)
  }

  /** The index handle from the footer of a file. */
  function IndexHandle(file: seq<Byte>): Option<BlockHandle> {
    if |file| < FOOTER_LENGTH then None
    else
      var footer := file[|file| - FOOTER_LENGTH..];
      if DecodeFixed32(footer[40..]) != TABLE_MAGIC_LOW || DecodeFixed32(footer[44..]) != TABLE_MAGIC_HIGH then None
      else
        var metaindex := DecodeHandle(footer, 0);
        if metaindex.Bad? || metaindex.next > |footer| then None
        else
          var index := DecodeHandle(footer, metaindex.next);
          if index.Bad? then None else Some(index.value)
  }

  lemma FooterRoundTrip(before: seq<Byte>, metaindex: BlockHandle, index: BlockHandle)
    ensures IndexHandle(before + EncodeFooter(metaindex, index)) == Some(index)
  {
    hide EncodeHandle, DecodeHandle, EncodeFixed32, DecodeFixed32;
    var file, footer := before + EncodeFooter(metaindex, index), EncodeFooter(metaindex, index);
    assert file[|before|..] == footer;
    var low, high := EncodeFixed32(TABLE_MAGIC_LOW), EncodeFixed32(TABLE_MAGIC_HIGH);
    assert footer[40..] == low + high && footer[44..] == high;
    FixedPrefix(low, high);
    FixedRoundTrip(TABLE_MAGIC_LOW);
    FixedRoundTrip(TABLE_MAGIC_HIGH);
    var a, b := EncodeHandle(metaindex), EncodeHandle(index);
    assert footer[..|a| + |b|] == a + b;
    assert Stands(footer, 0, a + b);
    StandsSplit(footer, 0, a, b);
    HandleRoundTrip(footer, 0, metaindex);
    HandleRoundTrip(footer, |a|, index);
  }
}
