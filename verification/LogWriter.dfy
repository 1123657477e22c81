/** Appending records to a log file. */
module LogWriters {
  import opened Coding
  import opened LogFormat

  class Writer {
    const crc: Checksum
    var dest: seq<Byte>
    var blockOffset: nat
    ghost var records: seq<seq<Byte>>

    ghost predicate Valid() reads this {
      blockOffset <= BLOCK_SIZE && blockOffset % BLOCK_SIZE == |dest| % BLOCK_SIZE
    }

    /** The file holds exactly the records added so far. */
    ghost predicate HoldsRecords() reads this {
      dest == LogBytes(crc, 0, records)
    }

    constructor (crc: Checksum)
      ensures Valid() && HoldsRecords() && this.crc == crc && dest == [] && records == []
    {
      this.crc := crc;
      dest, blockOffset, records := [], 0, [];
    }

    /** A writer that goes on where a file of `dest` ends. */
    constructor Append(crc: Checksum, dest: seq<Byte>, ghost records: seq<seq<Byte>>)
      requires dest == LogBytes(crc, 0, records)
      ensures Valid() && HoldsRecords() && this.crc == crc && this.dest == dest && this.records == records
    {
      hide LogBytes;
      this.crc := crc;
      this.dest, blockOffset, this.records := dest, |dest| % BLOCK_SIZE, records;
    }

    method AddRecord(data: seq<Byte>)
      requires Valid()
      modifies this
      ensures Valid()
      ensures dest == old(dest) + RecordBytes(crc, old(|dest|), data, true)
      ensures records == old(records) + [data]
      ensures old(HoldsRecords()) ==> HoldsRecords()
    {
      hide RecordBytes, LogBytes, FirstFragment, FragmentLength;
      ghost var target := dest + RecordBytes(crc, |dest|, data, true);
      var left := data;
      var begin := true;
      while begin || |left| > 0
        invariant Valid() && records == old(records)
        invariant if begin || |left| > 0 then dest + RecordBytes(crc, |dest|, left, begin) == target else dest == target
        decreases if begin then 1 else 0, |left|, if Available(|dest|) == 0 then 1 else 0
      {
        RecordUnfolds(crc, |dest|, left, begin);
        AppendAssociates(dest, FirstFragment(crc, |dest|, left, begin), RecordBytes(crc, |dest|, left, begin));
        var n := EmitFragment(left, begin);
        left := left[n..];
        begin := false;
      }
      records := records + [data];
      LogAppend(crc, 0, old(records), data);
    }

    /** Emits as much of `left` as the block takes. */
    method EmitFragment(left: seq<Byte>, begin: bool) returns (n: nat)
      requires Valid()
      modifies this
      ensures Valid() && records == old(records)
      ensures n == FragmentLength(old(|dest|), |left|) && n <= |left|
      ensures dest == old(dest) + FirstFragment(crc, old(|dest|), left, begin)
    {
      hide Frame, FragmentType;
      ghost var before := dest;
      var leftover: nat := BLOCK_SIZE - blockOffset;
      if leftover < HEADER_SIZE {
        if leftover > 0 {
          dest := dest + seq(leftover, _ => 0);
        }
        blockOffset := 0;
      }
      var avail: nat := BLOCK_SIZE - blockOffset - HEADER_SIZE;
      n := if |left| < avail then |left| else avail;
      SameFragment(before, leftover, |left|, n);
      assert dest == before + Trailer(|before|);
      var kind := FragmentType(begin, |left| == n);
      ghost var f := Frame(crc, kind, left[..n]);
      assert before + Trailer(|before|) + f == before + (Trailer(|before|) + f);
      EmitPhysicalRecord(kind, left[..n]);
    }

    method EmitPhysicalRecord(kind: Byte, payload: seq<Byte>)
      requires Valid() && blockOffset + HEADER_SIZE + |payload| <= BLOCK_SIZE
      modifies this
      ensures Valid() && records == old(records)
      ensures dest == old(dest) + Frame(crc, kind, payload)
    {
      hide EncodeFixed32, Mask;
      ghost var before := dest;
      var low: nat, high: nat := |payload| % 256, |payload| / 256;
      var header: seq<Byte> := EncodeFixed32(Mask(crc([kind] + payload))) + [low, high, kind];
      dest := dest + header;
      dest := dest + payload;
      assert (before + header) + payload == before + (header + payload);
      Advance(blockOffset, |before|, HEADER_SIZE + |payload|);
      blockOffset := blockOffset + HEADER_SIZE + |payload|;
    }
  }

  lemma Advance(blockOffset: nat, length: nat, n: nat)
    requires blockOffset % BLOCK_SIZE == length % BLOCK_SIZE && blockOffset + n <= BLOCK_SIZE
    ensures (blockOffset + n) % BLOCK_SIZE == (length + n) % BLOCK_SIZE
  {
  }

  /** A record is its first fragment and what is left of it. */
  lemma RecordUnfolds(crc: Checksum, offset: nat, data: seq<Byte>, begin: bool)
    ensures var n := FragmentLength(offset, |data|);
            var first := FirstFragment(crc, offset, data, begin);
            && n <= |data|
            && (n == 0 && |data| > 0 ==> Available(offset) == 0 && Available(offset + |first|) > 0)
            && RecordBytes(crc, offset, data, begin)
               == first + if n == |data| then [] else RecordBytes(crc, offset + |first|, data[n..], false)
  {
    hide FirstFragment, FragmentLength, Available, Trailer;
    FragmentsProgress(offset, |data|);
  }

  lemma AppendAssociates(dest: seq<Byte>, first: seq<Byte>, whole: seq<Byte>)
    requires first <= whole
    ensures (dest + first) + whole[|first|..] == dest + whole
  {
  }

  /** The writer's block offset, which may also be that of a full block, gives the fragment of the format. */
  lemma SameFragment(before: seq<Byte>, leftover: nat, left: nat, n: nat)
    requires leftover <= BLOCK_SIZE && (BLOCK_SIZE - leftover) % BLOCK_SIZE == |before| % BLOCK_SIZE
    requires var avail := if leftover < HEADER_SIZE then BLOCK_SIZE - HEADER_SIZE else leftover - HEADER_SIZE;
             n == if left < avail then left else avail
    ensures n == FragmentLength(|before|, left)
    ensures Trailer(|before|) == if leftover < HEADER_SIZE then seq(leftover, _ => 0) else []
  {
  }
}
