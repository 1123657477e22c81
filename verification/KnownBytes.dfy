/** One known byte string for each format: what another program would write or read. */
module KnownBytes {
  import opened Coding
  import opened InternalKeys
  import ByteKeys
  import BlockFormat
  import LogFormat
  import TableFormat
  import VersionEditCoding
  import FilterBlocks
  import opened PbMessages
  import opened PbWire

  // ----- integers and internal keys -----

  lemma Words()
    ensures EncodeFixed32(0x0403_0201) == [1, 2, 3, 4] && EncodeFixed32(0x0807_0605) == [5, 6, 7, 8]
  {
  }

  lemma DoubleWord()
    ensures EncodeFixed64(0x0807_0605_0403_0201) == [1, 2, 3, 4, 5, 6, 7, 8]
  {
    hide EncodeFixed32;
    Words();
  }

  lemma Varints()
    ensures EncodeVarint32(300) == [0xac, 0x02] && EncodeVarint(300) == [0xac, 0x02] && EncodeVarint(127) == [0x7f]
  {
    assert EncodeVarint(300) == [0xac] + EncodeVarint(2);
  }

  /** User key "a", sequence number 5, once a value and once a deletion. */
  lemma InternalKeyBytes()
    ensures ByteKeys.EncodeKey(ByteKeys.BKey([0x61], 5, TypeValue)) == [0x61, 0x01, 0x05, 0, 0, 0, 0, 0, 0]
    ensures ByteKeys.EncodeKey(ByteKeys.BKey([0x61], 5, TypeDeletion)) == [0x61, 0x00, 0x05, 0, 0, 0, 0, 0, 0]
  {
    assert EncodeFixed32(0x501) == [1, 5, 0, 0] && EncodeFixed32(0x500) == [0, 5, 0, 0] && EncodeFixed32(0) == [0, 0, 0, 0];
  }

  // ----- the log -----

  lemma LogConstants()
    ensures LogFormat.Mask(0) == 0xa282_ead8 && LogFormat.Mask(1) == 0xa284_ead8 && LogFormat.Mask(0x8000) == 0xa282_ead9
    ensures LogFormat.FragmentType(true, true) == 1 && LogFormat.FragmentType(true, false) == 2
    ensures LogFormat.FragmentType(false, false) == 3 && LogFormat.FragmentType(false, true) == 4
    ensures LogFormat.FragmentLength(0, 40000) == 32761 && LogFormat.Trailer(32762) == [0, 0, 0, 0, 0, 0] && LogFormat.Trailer(32761) == []
  {
    assert LogFormat.Trailer(32762) == seq(6, _ => 0);
  }

  /** The record "a" at the start of a log. */
  lemma LogRecordBytes(crc: LogFormat.Checksum)
    ensures LogFormat.RecordBytes(crc, 0, [0x61], true) == EncodeFixed32(LogFormat.Mask(crc([1, 0x61]))) + [1, 0, 1, 0x61]
  {
    hide EncodeFixed32, LogFormat.Mask;
    assert LogFormat.FragmentLength(0, 1) == 1 && LogFormat.Trailer(0) == [] && [0x61][..1] == [0x61];
    assert LogFormat.FragmentType(true, true) == 1;
    assert [1] + [0x61] == [1, 0x61];
    assert LogFormat.Frame(crc, 1, [0x61]) == EncodeFixed32(LogFormat.Mask(crc([1] + [0x61]))) + [1, 0, 1] + [0x61];
  }

  // ----- tables -----

  /** Offset 300, size 5; and the end of a footer. */
  lemma TableBytes(metaindex: TableFormat.BlockHandle, index: TableFormat.BlockHandle)
    ensures TableFormat.EncodeHandle(TableFormat.BlockHandle(300, 5)) == [0xac, 0x02, 0x05]
    ensures TableFormat.EncodeFooter(metaindex, index)[40..] == [0x57, 0xfb, 0x80, 0x8b, 0x24, 0x75, 0x47, 0xdb]
    ensures |TableFormat.EncodeFooter(metaindex, index)| == 48
  {
    Varints();
    assert EncodeVarint(5) == [5];
    assert EncodeFixed32(0x8b80_fb57) == [0x57, 0xfb, 0x80, 0x8b] && EncodeFixed32(0xdb47_7524) == [0x24, 0x75, 0x47, 0xdb];
    hide EncodeFixed32;
  }

  lemma BlockTrailerBytes(crc: LogFormat.Checksum)
    ensures TableFormat.BlockTrailer(crc, [0x61]) == [0] + EncodeFixed32(LogFormat.Mask(crc([0x61, 0])))
  {
    hide EncodeFixed32, LogFormat.Mask;
    assert [0x61] + [0] == [0x61, 0];
  }

  /** The entries "ab" -> "x" and "ac" -> "y". */
  lemma BlockBytes()
    ensures BlockFormat.EncodeEntry(0, BlockFormat.KV([0x61, 0x62], [0x78])) == [0, 2, 1, 0x61, 0x62, 0x78]
    ensures BlockFormat.EncodeEntry(1, BlockFormat.KV([0x61, 0x63], [0x79])) == [1, 1, 1, 0x63, 0x79]
    ensures BlockFormat.EncodeRestarts([0]) == [0, 0, 0, 0]
  {
    assert [0x61, 0x63][1..] == [0x63] && [0x61, 0x62][0..] == [0x61, 0x62];
    assert EncodeFixed32(0) == [0, 0, 0, 0] && BlockFormat.EncodeRestarts([0][..0]) == [];
  }

  /** The second hash of a filter turns the first by 17 bits; a probe goes on by it modulo 2^32. */
  lemma FilterProbes(hash: FilterBlocks.Hash, key: seq<Byte>)
    requires hash(key) == 0xffff_8001
    ensures FilterBlocks.Delta(0x0002_0000) == 1 && FilterBlocks.Delta(1) == 0x8000 && FilterBlocks.Delta(0xffff_8001) == 0xc000_ffff
    ensures FilterBlocks.Probe(hash, key, 0, 64) == 1 && FilterBlocks.Probe(hash, key, 1, 64) == 0
    ensures FilterBlocks.FilterBits(10, 10) == 104 && FilterBlocks.FilterBits(3, 10) == 64
  {
    var h: Word := 0xffff_8001;
    assert FilterBlocks.ProbeHash(h, 0) == 0xffff_8001;
    assert FilterBlocks.ProbeHash(h, 1) == (0xffff_8001 + 0xc000_ffff) % 0x1_0000_0000;
  }

  // ----- version edits -----

  /** Every kind of field. */
  lemma EditNumberBytes()
    ensures VersionEditCoding.EncodeField(VersionEditCoding.Comparator([0x78])) == [1, 1, 0x78]
    ensures VersionEditCoding.EncodeField(VersionEditCoding.LogNumber(7)) == [2, 7]
    ensures VersionEditCoding.EncodeField(VersionEditCoding.NextFileNumber(300)) == [3, 0xac, 0x02]
    ensures VersionEditCoding.EncodeField(VersionEditCoding.LastSequence(8)) == [4, 8]
    ensures VersionEditCoding.EncodeField(VersionEditCoding.PrevLogNumber(0)) == [9, 0]
  {
    Varints();
    assert EncodeVarint(7) == [7] && EncodeVarint(8) == [8] && EncodeVarint(0) == [0];
    hide EncodeVarint;
  }

  lemma EditFileBytes()
    ensures VersionEditCoding.EncodeField(VersionEditCoding.CompactPointer(2, [0x61])) == [5, 2, 1, 0x61]
    ensures VersionEditCoding.EncodeField(VersionEditCoding.DeletedFile(3, 9)) == [6, 3, 9]
    ensures VersionEditCoding.EncodeField(VersionEditCoding.AddedFile(VersionEditCoding.NewFile(1, 9, 100, [0x61], [0x62])))
         == [7, 1, 9, 100, 1, 0x61, 1, 0x62]
  {
    assert EncodeVarint(9) == [9] && EncodeVarint(100) == [100];
    hide EncodeVarint;
  }

  // ----- messages -----

  /** The values of the Protocol Buffers encoding specification, under tag 1 where it does not say otherwise. */
  lemma FieldBytes()
    ensures EncodePlain(Field(1, Implicit, Varint(4)), VInt(150)) == [0x08, 0x96, 0x01]
    ensures EncodePlain(Field(2, Implicit, String(16)), VBytes([0x74, 0x65, 0x73, 0x74])) == [0x12, 0x04, 0x74, 0x65, 0x73, 0x74]
    ensures EncodePlain(Field(1, Implicit, Fixed32), VInt(0x0403_0201)) == [0x0d, 1, 2, 3, 4]
    ensures EncodePlain(Field(1, Implicit, Fixed64), VInt(0x0201)) == [0x09, 1, 2, 0, 0, 0, 0, 0, 0]
    ensures EncodePlain(Field(1, Implicit, Bool), VBool(true)) == [0x08, 0x01]
    ensures EncodePacked(Field(4, Repeated(3), Varint(4)), [VInt(3), VInt(270), VInt(5)]) == [0x22, 0x04, 0x03, 0x8e, 0x02, 0x05]
  {
    VarintsOfFields();
    LittleEndians();
    PackedBytes();
    hide EncodeVarint, LittleEndian, EncodeScalars;
  }

  /** A field with its default, an absent one and an empty array take no bytes; a required one does. */
  lemma MessageBytes()
    ensures EncodeMessage([Field(1, Implicit, UVarint(4)), Field(2, Optional, Bool), Field(3, Repeated(2), Fixed32)],
                          [One(VInt(0)), Absent, Many([])]) == []
    ensures EncodeMessage([Field(1, Required, UVarint(4)), Field(2, Implicit, UVarint(4))], [One(VInt(0)), One(VInt(5))])
         == [0x08, 0x00, 0x10, 0x05]
  {
    var m := [Field(1, Implicit, UVarint(4)), Field(2, Optional, Bool), Field(3, Repeated(2), Fixed32)];
    var vs := [One(VInt(0)), Absent, Many([])];
    assert MessageFits(m, vs);
    assert Records(m, vs, 0) == [] && Records(m, vs, 1) == [] && Records(m, vs, 2) == [] && Records(m, vs, 3) == [];
    RequiredBytes();
  }

  lemma RequiredBytes()
    ensures EncodeMessage([Field(1, Required, UVarint(4)), Field(2, Implicit, UVarint(4))], [One(VInt(0)), One(VInt(5))])
         == [0x08, 0x00, 0x10, 0x05]
  {
    var m := [Field(1, Required, UVarint(4)), Field(2, Implicit, UVarint(4))];
    var vs := [One(VInt(0)), One(VInt(5))];
    assert MessageFits(m, vs);
    assert Records(m, vs, 0) == [];
    assert Records(m, vs, 1) == [Plain(0, VInt(0))] && Records(m, vs, 2) == [Plain(0, VInt(0)), Plain(1, VInt(5))];
    var rs := [Plain(0, VInt(0)), Plain(1, VInt(5))];
    assert rs[1..] == [Plain(1, VInt(5))] && rs[1..][1..] == [];
    assert EncodeVarint(8) == [8] && EncodeVarint(0) == [0] && EncodeVarint(16) == [16] && EncodeVarint(5) == [5];
    assert EncodeRecord(m, rs[0]) == [8, 0] && EncodeRecord(m, rs[1]) == [16, 5];
    assert EncodeRecords(m, rs[1..]) == [16, 5] + EncodeRecords(m, []);
  }

  lemma VarintsOfFields()
    ensures EncodeVarint(150) == [0x96, 0x01] && EncodeVarint(270) == [0x8e, 0x02]
    ensures EncodeVarint(8) == [0x08] && EncodeVarint(18) == [0x12] && EncodeVarint(13) == [0x0d] && EncodeVarint(9) == [0x09]
    ensures EncodeVarint(34) == [0x22] && EncodeVarint(4) == [4] && EncodeVarint(1) == [1] && EncodeVarint(3) == [3] && EncodeVarint(5) == [5]
  {
    assert EncodeVarint(2) == [2];
  }

  lemma LittleEndians()
    ensures LittleEndian(0x0403_0201, 4) == [1, 2, 3, 4]
    ensures LittleEndian(0x0201, 8) == [1, 2, 0, 0, 0, 0, 0, 0]
  {
    assert LittleEndian(4, 1) == [4] && LittleEndian(0x0403, 2) == [3, 4] && LittleEndian(0x04_0302, 3) == [2, 3, 4];
    assert LittleEndian(0, 2) == [0, 0] && LittleEndian(0, 4) == [0, 0] + LittleEndian(0, 2) && LittleEndian(0, 6) == [0, 0] + LittleEndian(0, 4);
    assert LittleEndian(2, 7) == [2] + LittleEndian(0, 6);
  }

  lemma PackedBytes()
    ensures EncodeScalars(Varint(4), [VInt(3), VInt(270), VInt(5)]) == [0x03, 0x8e, 0x02, 0x05]
  {
    VarintsOfFields();
    hide EncodeVarint;
    var vs := [VInt(3), VInt(270), VInt(5)];
    assert vs[..2] == [VInt(3), VInt(270)] && vs[..2][..1] == [VInt(3)] && vs[..2][..1][..0] == [];
    assert EncodeScalars(Varint(4), [VInt(3)]) == [3];
    assert EncodeScalars(Varint(4), [VInt(3), VInt(270)]) == [3] + [0x8e, 0x02];
  }

  /** Negative numbers, plain and in zigzag form. */
  lemma Negatives()
    ensures Zigzag(0) == 0 && Zigzag(-1) == 1 && Zigzag(1) == 2 && Zigzag(-2) == 3 && Zigzag(0x7fff_ffff) == 0xffff_fffe
    ensures Unsigned64(-1) == 0xffff_ffff_ffff_ffff && Unsigned64(-2) == 0xffff_ffff_ffff_fffe && Unsigned64(5) == 5
  {
  }
}
