/** Reading records back from a log file, which a crash may have cut short anywhere. */
module LogReaders {
  import opened Coding
  import opened LogFormat
  import opened LogWriters

  const END_OF_FILE: nat := 5
  const BAD_RECORD: nat := 6

  /** `bytes` stand in `file` at `offset`. */
  ghost predicate StandsAt(file: seq<Byte>, offset: nat, bytes: seq<Byte>) {
    offset + |bytes| <= |file| && file[offset..offset + |bytes|] == bytes
  }

  function NextBoundary(offset: nat): nat {
    offset - offset % BLOCK_SIZE + BLOCK_SIZE
  }

  /** The buffer is the unread rest of a block, which ends at a boundary or with the file. */
  ghost predicate BufferOk(file: seq<Byte>, pos: nat, buffer: seq<Byte>, eof: bool) {
    && |buffer| <= pos <= |file|
    && buffer == file[pos - |buffer|..pos]
    && if |buffer| > 0 then
         && eof == (NextBoundary(pos - |buffer|) > |file|)
         && pos == if eof then |file| else NextBoundary(pos - |buffer|)
       else if eof then pos == |file| else pos % BLOCK_SIZE == 0
  }

  /** Behind a trailer comes the next block, or what the file has of it. */
  lemma NextBlock(file: seq<Byte>, pos: nat, buffer: seq<Byte>, n: nat)
    requires BufferOk(file, pos, buffer, false) && |buffer| < HEADER_SIZE
    requires pos <= |file| && n == if BLOCK_SIZE <= |file| - pos then BLOCK_SIZE else |file| - pos
    ensures BufferOk(file, pos + n, file[pos..pos + n], n < BLOCK_SIZE)
    ensures |buffer| <= pos && pos == pos - |buffer| + |Trailer(pos - |buffer|)|
  {
    BoundaryFollows(pos - |buffer|);
    BoundaryFollows(pos);
    hide Trailer, NextBoundary;
    TrailerIsRest(pos - |buffer|, |buffer|);
  }

  lemma InFile(file: seq<Byte>, pos: nat, buffer: seq<Byte>, eof: bool)
    requires BufferOk(file, pos, buffer, eof)
    ensures |buffer| <= pos <= |file|
  {
  }

  class Reader {
    const file: seq<Byte>
    const crc: Checksum
    var pos: nat              // how far the file has been read
    var buffer: seq<Byte>     // the unparsed rest of the current block
    var eof: bool
    var drops: seq<nat>       // sizes reported as corrupt

    /** The unread part of the log starts here. */
    function Offset(): int reads this {
      pos - |buffer|
    }

    ghost predicate Valid() reads this {
      BufferOk(file, pos, buffer, eof)
    }

    constructor (file: seq<Byte>, crc: Checksum)
      ensures Valid() && Offset() == 0 && drops == [] && this.file == file && this.crc == crc
    {
      this.file, this.crc := file, crc;
      pos, buffer, eof, drops := 0, [], false, [];
    }

    method ReportCorruption(bytes: nat)
      requires Valid()
      modifies this`drops
      ensures Valid() && drops == old(drops) + [bytes]
    {
      drops := drops + [bytes];
    }

    /** Makes a whole header available, skipping the trailer of a block. */
    method FillBuffer() returns (ok: bool)
      requires Valid()
      modifies this`pos, this`buffer, this`eof
      ensures Valid()
      ensures ok <==> old(Offset()) + |Trailer(old(Offset()))| + HEADER_SIZE <= |file|
      ensures ok ==> |buffer| >= HEADER_SIZE && Offset() == old(Offset()) + |Trailer(old(Offset()))|
      ensures Offset() >= old(Offset())
    {
      while |buffer| < HEADER_SIZE
        invariant Valid()
        invariant Offset() == old(Offset()) || (Offset() == old(Offset()) + |Trailer(old(Offset()))| && (eof || |buffer| >= HEADER_SIZE))
        decreases if eof then 0 else 1, if |buffer| < HEADER_SIZE then 1 else 0
      {
        if eof {
          buffer := [];
          return false;
        }
        ReadBlock();
      }
      return true;
    }

    /** Drops what is left of the block, which is only a trailer, and reads the next one. */
    method ReadBlock()
      requires Valid() && !eof && |buffer| < HEADER_SIZE
      modifies this`pos, this`buffer, this`eof
      ensures Valid() && (eof || |buffer| >= HEADER_SIZE)
      ensures Offset() == old(Offset()) + |Trailer(old(Offset()))|
    {
      hide Trailer, BufferOk;
      InFile(file, pos, buffer, eof);
      var n := if BLOCK_SIZE <= |file| - pos then BLOCK_SIZE else |file| - pos;
      NextBlock(file, pos, buffer, n);
      buffer := file[pos..pos + n];
      pos := pos + n;
      if n < BLOCK_SIZE {
        eof := true;
      }
    }

    /** The file is a beginning of `full`, in which a fragment of `data` comes next. */
    ghost predicate Expects(full: seq<Byte>, data: seq<Byte>, begin: bool)
      requires Valid()
      reads this
    {
      && file <= full
      && (Offset() < |file| ==> StandsAt(full, Offset(), FirstFragment(crc, Offset(), data, begin)))
    }

    /** The next physical record, or why there is none. Where a fragment is expected of which only a part
        may have reached the file, it is that fragment if it is whole and the end of the file if it is not;
        either way nothing is reported as corrupt. */
    method ReadPhysicalRecord(ghost full: seq<Byte>, ghost data: seq<Byte>, ghost begin: bool) returns (kind: nat, fragment: seq<Byte>)
      requires Valid()
      modifies this
      ensures Valid() && (kind != END_OF_FILE ==> Offset() > old(Offset()))
      ensures old(Expects(full, data, begin)) ==>
                var n := FragmentLength(old(Offset()), |data|);
                var end := old(Offset()) + |FirstFragment(crc, old(Offset()), data, begin)|;
                && drops == old(drops)
                && if old(Offset()) < |file| && end <= |file| then
                     kind == FragmentType(begin, n == |data|) && fragment == data[..n] && Offset() == end
                   else kind == END_OF_FILE
      ensures kind <= 4 ==> exists offset :: offset >= old(Offset()) && IsFrameAt(offset, kind, fragment)
    {
      hide Frame, FragmentType, Trailer, FirstFragment, StandsAt, ExpectsFrame, IsFrameAt;
      ghost var start, n := Offset(), FragmentLength(Offset(), |data|);
      ghost var frameKind := FragmentType(begin, n == |data|);
      ghost var expected := Expects(full, data, begin);
      var ok := FillBuffer();
      if !ok {
        FragmentSize(crc, start, data, begin);
        return END_OF_FILE, [];
      }
      if expected {
        FragmentFrame(full, start, data, begin);
      }
      kind, fragment := ParseFrame(full, frameKind, data[..n]);
    }

    lemma FragmentFrame(full: seq<Byte>, start: nat, data: seq<Byte>, begin: bool)
      requires Valid() && Offset() == start + |Trailer(start)|
      requires file <= full && StandsAt(full, start, FirstFragment(crc, start, data, begin))
      ensures var n := FragmentLength(start, |data|);
              && ExpectsFrame(full, FragmentType(begin, n == |data|), data[..n])
              && |FirstFragment(crc, start, data, begin)| == |Trailer(start)| + HEADER_SIZE + n
    {
      hide Frame, StandsAt, FragmentType;
      FrameStands(crc, full, start, data, begin);
      FragmentFits(start, |data|);
    }

    ghost predicate ExpectsFrame(full: seq<Byte>, kind: Byte, payload: seq<Byte>)
      requires Valid()
      reads this
    {
      && |payload| < BLOCK_SIZE && Offset() % BLOCK_SIZE + HEADER_SIZE + |payload| <= BLOCK_SIZE
      && file <= full && StandsAt(full, Offset(), Frame(crc, kind, payload)) && kind != ZERO_TYPE
    }

    /** Whatever the bytes, a fragment of a known kind is the payload of a frame whose checksum matches. */
    method ParseFrame(ghost full: seq<Byte>, ghost frameKind: Byte, ghost payload: seq<Byte>) returns (kind: nat, fragment: seq<Byte>)
      requires Valid() && |buffer| >= HEADER_SIZE
      modifies this
      ensures Valid() && Offset() > old(Offset())
      ensures old(ExpectsFrame(full, frameKind, payload)) ==>
                var end := old(Offset()) + HEADER_SIZE + |payload|;
                && drops == old(drops)
                && if end <= |file| then kind == frameKind && fragment == payload && Offset() == end else kind == END_OF_FILE
      ensures kind <= 4 ==> IsFrameAt(old(Offset()), kind, fragment)
    {
      hide StandsAt, Frame, HeaderLength, DecodeFixed32, Unmask;
      if ExpectsFrame(full, frameKind, payload) {
        BufferHoldsFrame(full, frameKind, payload);
      }
      var length := HeaderLength(buffer);
      kind := buffer[6];
      if HEADER_SIZE + length > |buffer| {
        var dropSize := |buffer|;
        buffer := [];
        if !eof {
          ReportCorruption(dropSize);
          return BAD_RECORD, [];
        }
        return END_OF_FILE, [];
      }
      if kind == ZERO_TYPE && length == 0 {
        buffer := [];
        return BAD_RECORD, [];
      }
      if Unmask(DecodeFixed32(buffer)) != crc(buffer[6..HEADER_SIZE + length]) {
        var dropSize := |buffer|;
        buffer := [];
        ReportCorruption(dropSize);
        return BAD_RECORD, [];
      }
      fragment := buffer[HEADER_SIZE..HEADER_SIZE + length];
      FrameFound(length);
      Consume(HEADER_SIZE + length);
    }

    /** A frame with its checksum stands at the offset, and has been read. */
    ghost predicate IsFrameAt(offset: int, kind: nat, payload: seq<Byte>) reads this {
      && 0 <= offset && kind < 256 && |payload| < BLOCK_SIZE
      && StandsAt(file, offset, Frame(crc, kind, payload)) && Offset() == offset + HEADER_SIZE + |payload|
    }

    lemma FrameFound(length: nat)
      requires Valid() && |buffer| >= HEADER_SIZE + length && length == HeaderLength(buffer)
      requires Unmask(DecodeFixed32(buffer)) == crc(buffer[6..HEADER_SIZE + length])
      ensures length < BLOCK_SIZE
      ensures StandsAt(file, Offset(), Frame(crc, buffer[6], buffer[HEADER_SIZE..HEADER_SIZE + length]))
    {
      hide Frame, HeaderLength, DecodeFixed32, Unmask;
      BufferSize();
      FrameMatches(crc, buffer);
      var n := HEADER_SIZE + length;
      assert buffer[..n] == file[Offset()..Offset() + n];
    }

    lemma BufferSize()
      requires Valid()
      ensures |buffer| <= BLOCK_SIZE
    {
    }

    method Consume(n: nat)
      requires Valid() && 0 < n <= |buffer|
      modifies this`buffer
      ensures Valid() && Offset() == old(Offset()) + n
    {
      SameBlock(Offset(), n);
      buffer := buffer[n..];
    }

    lemma OffsetInFile()
      requires Valid()
      ensures 0 <= Offset() <= |file|
    {
    }

    lemma ExpectFragment(full: seq<Byte>, start: nat, record: seq<Byte>, scratch: seq<Byte>, rest: seq<Byte>, begin: bool)
      requires Valid() && file <= full && Offset() >= 0
      requires Gathered(crc, file, full, start, record, Offset(), scratch, rest, begin)
      ensures Expects(full, rest, begin)
    {
      hide Valid, FirstFragment, RecordBytes;
      if Offset() < |file| {
        RecordUnfolds(crc, Offset(), rest, begin);
        PrefixStands(full, Offset(), FirstFragment(crc, Offset(), rest, begin), RecordBytes(crc, Offset(), rest, begin));
      }
    }

    /** What the physical record just read adds to the parts read before. */
    lemma PartRead(parts: seq<Part>, from: int, before: int, kind: nat, fragment: seq<Byte>, scratch: seq<Byte>, begun: bool)
      returns (p: Part)
      requires kind <= 4 && from <= before && exists offset :: offset >= before && IsFrameAt(offset, kind, fragment)
      requires begun ==> IsBegun(crc, file, parts, from, before, scratch)
      ensures kind == 1 ==> IsWhole(crc, file, [p], from, Offset(), fragment)
      ensures kind == 2 ==> IsBegun(crc, file, [p], from, Offset(), fragment)
      ensures begun && kind == 3 ==> IsBegun(crc, file, parts + [p], from, Offset(), scratch + fragment)
      ensures begun && kind == 4 ==> IsWhole(crc, file, parts + [p], from, Offset(), scratch + fragment)
    {
      hide StandsAt, Frame;
      var offset :| offset >= before && IsFrameAt(offset, kind, fragment);
      p := Part(offset, kind, fragment);
      assert PartStands(crc, file, p);
      OnePart(crc, file, p, from);
      if begun { NextPart(crc, file, parts, from, before, scratch, p); }
    }

    /** The next logical record. Whatever the bytes, it is put together from physical records whose checksums match.
        Where a record is expected, it is returned if the file holds all its bytes;
        otherwise the end of the file is reached, and nothing is reported as corrupt. */
    method ReadRecord(ghost full: seq<Byte>, ghost expected: seq<Byte>) returns (ok: bool, record: seq<Byte>)
      requires Valid()
      modifies this
      ensures Valid() && (ok ==> Offset() > old(Offset()))
      ensures file <= full && old(ComesNext(crc, file, full, Offset(), expected, true)) ==>
                var end := old(Offset()) + |RecordBytes(crc, old(Offset()), expected, true)|;
                && drops == old(drops)
                && if old(Offset()) < |file| && end <= |file| then ok && record == expected && Offset() == end else !ok
      ensures ok ==> exists parts :: IsWhole(crc, file, parts, old(Offset()), Offset(), record)
    {
      hide IsWhole, IsBegun, IsFrameAt, Valid, RecordBytes, FirstFragment, StandsAt, ComesNext, Gathered, FragmentLength;
      OffsetInFile();
      ghost var start: nat, rest, begin := Offset(), expected, true;
      ghost var good := file <= full && ComesNext(crc, file, full, start, expected, true);
      if good { GatherStart(crc, file, full, start, expected); }
      var scratch: seq<Byte> := [];
      var inFragmentedRecord := false;
      ghost var parts: seq<Part> := [];
      while true
        invariant Valid() && Offset() >= start
        invariant good ==> drops == old(drops) && inFragmentedRecord == !begin
                           && Gathered(crc, file, full, start, expected, Offset(), scratch, rest, begin)
        invariant inFragmentedRecord ==> IsBegun(crc, file, parts, start, Offset(), scratch)
        decreases |file| - Offset()
      {
        OffsetInFile();
        ghost var before: nat := Offset();
        if good { ExpectFragment(full, start, expected, scratch, rest, begin); }
        var kind, fragment := ReadPhysicalRecord(full, rest, begin);
        OffsetInFile();
        ghost var part: Part := Part(0, 0, []);
        if kind <= 4 { part := PartRead(parts, start, before, kind, fragment, scratch, inFragmentedRecord); }
        if good {
          GatherStep(crc, file, full, start, expected, before, scratch, rest, begin);
          rest, begin := rest[FragmentLength(before, |rest|)..], false;
        }
        if kind == FULL_TYPE {
          if inFragmentedRecord && |scratch| > 0 {
            ReportCorruption(|scratch|);
          }
          return true, fragment;
        } else if kind == FIRST_TYPE {
          if inFragmentedRecord && |scratch| > 0 {
            ReportCorruption(|scratch|);
          }
          scratch := fragment;
          inFragmentedRecord := true;
          parts := [part];
        } else if kind == MIDDLE_TYPE {
          if !inFragmentedRecord {
            ReportCorruption(|fragment|);
          } else {
            scratch := scratch + fragment;
            parts := parts + [part];
          }
        } else if kind == LAST_TYPE {
          if !inFragmentedRecord {
            ReportCorruption(|fragment|);
          } else {
            return true, scratch + fragment;
          }
        } else if kind == END_OF_FILE {
          return false, [];
        } else if kind == BAD_RECORD {
          if inFragmentedRecord {
            ReportCorruption(|scratch|);
            inFragmentedRecord := false;
            scratch := [];
          }
        } else {
          ReportCorruption(|fragment| + if inFragmentedRecord then |scratch| else 0);
          inFragmentedRecord := false;
          scratch := [];
        }
      }
    }

    /** The buffer starts with the frame, or with as much of it as the file has. */
    lemma BufferHoldsFrame(full: seq<Byte>, kind: Byte, payload: seq<Byte>)
      requires Valid() && |buffer| >= HEADER_SIZE
      requires |payload| < BLOCK_SIZE && Offset() % BLOCK_SIZE + HEADER_SIZE + |payload| <= BLOCK_SIZE
      requires file <= full && StandsAt(full, Offset(), Frame(crc, kind, payload))
      ensures HeaderLength(buffer) == |payload| && buffer[6] == kind
      ensures var n := HEADER_SIZE + |payload|;
              if Offset() + n <= |file| then
                && n <= |buffer| && buffer[HEADER_SIZE..n] == payload
                && Unmask(DecodeFixed32(buffer)) == crc(buffer[6..n])
              else n > |buffer| && eof
    {
      hide Frame, HeaderLength, DecodeFixed32, Unmask;
      var f := Frame(crc, kind, payload);
      var n := HEADER_SIZE + |payload|;
      forall i | 0 <= i < |buffer| && i < n ensures buffer[i] == f[i] {
        assert buffer[i] == file[Offset() + i] == full[Offset() + i];
      }
      assert buffer[..HEADER_SIZE] == f[..HEADER_SIZE];
      HeaderPrefix(crc, kind, payload, buffer);
      if n <= |buffer| {
        assert buffer[..n] == f;
        FrameParses(crc, kind, payload, buffer);
      }
    }
  }

  lemma BoundaryFollows(pos: nat)
    ensures pos % BLOCK_SIZE == 0 ==> NextBoundary(pos) == pos + BLOCK_SIZE
    ensures (pos + BLOCK_SIZE) % BLOCK_SIZE == pos % BLOCK_SIZE
    ensures NextBoundary(pos) % BLOCK_SIZE == 0
  {
  }

  lemma SameBlock(offset: nat, n: nat)
    ensures n < NextBoundary(offset) - offset ==> NextBoundary(offset + n) == NextBoundary(offset)
    ensures NextBoundary(offset) % BLOCK_SIZE == 0
  {
  }

  lemma FragmentSize(crc: Checksum, offset: nat, data: seq<Byte>, begin: bool)
    ensures |FirstFragment(crc, offset, data, begin)| == |Trailer(offset)| + HEADER_SIZE + FragmentLength(offset, |data|)
  {
  }

  lemma FrameStands(crc: Checksum, full: seq<Byte>, offset: nat, data: seq<Byte>, begin: bool)
    requires StandsAt(full, offset, FirstFragment(crc, offset, data, begin))
    ensures var n := FragmentLength(offset, |data|);
            StandsAt(full, offset + |Trailer(offset)|, Frame(crc, FragmentType(begin, n == |data|), data[..n]))
  {
    hide Frame, FragmentType;
    var n := FragmentLength(offset, |data|);
    var t := Trailer(offset);
    var f := Frame(crc, FragmentType(begin, n == |data|), data[..n]);
    var all := full[offset..offset + |t + f|];
    assert all[|t|..] == f;
    assert all[|t|..] == full[offset + |t|..offset + |t| + |f|];
  }

  // ----- what a returned record is made of -----

  /** A physical record in the file. */
  datatype Part = Part(offset: nat, kind: nat, payload: seq<Byte>)

  ghost predicate PartStands(crc: Checksum, file: seq<Byte>, p: Part) {
    p.kind < 256 && |p.payload| < BLOCK_SIZE && StandsAt(file, p.offset, Frame(crc, p.kind, p.payload))
  }

  function EndOfPart(p: Part): nat {
    p.offset + HEADER_SIZE + |p.payload|
  }

  /** Physical records with their checksums, one behind the other, between two offsets. */
  ghost predicate PartsStand(crc: Checksum, file: seq<Byte>, parts: seq<Part>, from: int, to: int) {
    && (forall i :: 0 <= i < |parts| ==> PartStands(crc, file, parts[i]) && from <= parts[i].offset && EndOfPart(parts[i]) <= to)
    && forall i, j :: 0 <= i < j < |parts| ==> EndOfPart(parts[i]) <= parts[j].offset
  }

  function Payloads(parts: seq<Part>): seq<Byte> {
    if parts == [] then [] else Payloads(parts[..|parts| - 1]) + parts[|parts| - 1].payload
  }

  /** A first part and perhaps middle ones: types 2 and 3. */
  ghost predicate IsBegun(crc: Checksum, file: seq<Byte>, parts: seq<Part>, from: int, to: int, scratch: seq<Byte>) {
    && PartsStand(crc, file, parts, from, to) && scratch == Payloads(parts)
    && |parts| > 0 && parts[0].kind == 2 && forall i :: 0 < i < |parts| ==> parts[i].kind == 3
  }

  /** A full part, or a first one, middle ones and a last one: types 1, 2, 3 and 4. */
  ghost predicate IsWhole(crc: Checksum, file: seq<Byte>, parts: seq<Part>, from: int, to: int, record: seq<Byte>) {
    && PartsStand(crc, file, parts, from, to) && record == Payloads(parts) && |parts| > 0
    && if |parts| == 1 then parts[0].kind == 1
       else parts[0].kind == 2 && parts[|parts| - 1].kind == 4 && forall i :: 0 < i < |parts| - 1 ==> parts[i].kind == 3
  }

  lemma OnePart(crc: Checksum, file: seq<Byte>, p: Part, from: int)
    requires PartStands(crc, file, p) && from <= p.offset
    ensures p.kind == 1 ==> IsWhole(crc, file, [p], from, EndOfPart(p), p.payload)
    ensures p.kind == 2 ==> IsBegun(crc, file, [p], from, EndOfPart(p), p.payload)
  {
    hide PartStands;
    assert [p][..0] == [] && Payloads([]) + p.payload == p.payload;
  }

  lemma NextPart(crc: Checksum, file: seq<Byte>, parts: seq<Part>, from: int, to: int, scratch: seq<Byte>, p: Part)
    requires IsBegun(crc, file, parts, from, to, scratch) && PartStands(crc, file, p) && to <= p.offset
    ensures p.kind == 3 ==> IsBegun(crc, file, parts + [p], from, EndOfPart(p), scratch + p.payload)
    ensures p.kind == 4 ==> IsWhole(crc, file, parts + [p], from, EndOfPart(p), scratch + p.payload)
  {
    hide PartStands;
    assert (parts + [p])[..|parts|] == parts;
    assert from <= parts[0].offset;
  }

  // ----- putting fragments together -----

  /** A record, or the rest of one, comes next in `full`, as far as `file` goes. */
  ghost predicate ComesNext(crc: Checksum, file: seq<Byte>, full: seq<Byte>, offset: int, data: seq<Byte>, begin: bool) {
    0 <= offset < |file| ==> StandsAt(full, offset, RecordBytes(crc, offset, data, begin))
  }

  /** How far a read has got with the record that starts at `start`: `scratch` is read, `rest` is to come. */
  ghost predicate Gathered(crc: Checksum, file: seq<Byte>, full: seq<Byte>, start: nat, record: seq<Byte>,
                           offset: int, scratch: seq<Byte>, rest: seq<Byte>, begin: bool) {
    && 0 <= start <= offset
    && ComesNext(crc, file, full, offset, rest, begin)
    && scratch + rest == record
    && (if begin then offset == start && scratch == [] else offset > start)
    && offset + |RecordBytes(crc, offset, rest, begin)| == start + |RecordBytes(crc, start, record, true)|
  }

  lemma GatherStart(crc: Checksum, file: seq<Byte>, full: seq<Byte>, start: nat, record: seq<Byte>)
    requires ComesNext(crc, file, full, start, record, true)
    ensures Gathered(crc, file, full, start, record, start, [], record, true)
  {
  }

  /** One more fragment completes the record or leaves the rest of it to come. */
  lemma GatherStep(crc: Checksum, file: seq<Byte>, full: seq<Byte>, start: nat, record: seq<Byte>,
                   offset: nat, scratch: seq<Byte>, rest: seq<Byte>, begin: bool)
    requires file <= full && offset <= |file| && Gathered(crc, file, full, start, record, offset, scratch, rest, begin)
    ensures var n := FragmentLength(offset, |rest|);
            var next := offset + |FirstFragment(crc, offset, rest, begin)|;
            var end := start + |RecordBytes(crc, start, record, true)|;
            && n <= |rest|
            && (begin ==> scratch == [] && offset == start && scratch + rest[..n] == rest[..n])
            && next <= end
            && if n == |rest| then scratch + rest[..n] == record && next == end
               else next <= |file| && offset < |file| ==> Gathered(crc, file, full, start, record, next, scratch + rest[..n], rest[n..], false)
  {
    hide FirstFragment, RecordBytes, FragmentLength, Available, Trailer, StandsAt;
    RecordUnfolds(crc, offset, rest, begin);
    var n := FragmentLength(offset, |rest|);
    var first := FirstFragment(crc, offset, rest, begin);
    assert rest[..n] + rest[n..] == rest;
    if n == |rest| {
      assert scratch + rest[..n] == scratch + rest;
    } else if offset < |file| && offset + |first| <= |file| {
      SuffixStands(full, offset, first, RecordBytes(crc, offset + |first|, rest[n..], false));
      assert scratch + rest[..n] + rest[n..] == scratch + (rest[..n] + rest[n..]);
    }
  }

  lemma PrefixStands(full: seq<Byte>, offset: nat, first: seq<Byte>, whole: seq<Byte>)
    requires first <= whole && StandsAt(full, offset, whole)
    ensures StandsAt(full, offset, first)
  {
    assert full[offset..offset + |first|] == full[offset..offset + |whole|][..|first|];
  }

  lemma SuffixStands(full: seq<Byte>, offset: nat, first: seq<Byte>, rest: seq<Byte>)
    requires StandsAt(full, offset, first + rest)
    ensures StandsAt(full, offset + |first|, rest)
  {
    assert (first + rest)[|first|..] == rest;
    assert full[offset + |first|..offset + |first + rest|] == full[offset..offset + |first + rest|][|first|..];
  }

  lemma TrailerIsRest(offset: nat, n: nat)
    requires n < HEADER_SIZE && (offset + n) % BLOCK_SIZE == 0
    ensures |Trailer(offset)| == n
  {
    assert n > 0 ==> offset % BLOCK_SIZE == BLOCK_SIZE - n;
  }
}
