/** A log read from the start, after the writer died at any byte. */
module LogRecovery {
  import opened Coding
  import opened LogFormat
  import opened LogWriters
  import opened LogReaders

  /** Where the first `k` records end. */
  ghost function EndOf(crc: Checksum, records: seq<seq<Byte>>, k: nat): nat
    requires k <= |records|
  {
    |LogBytes(crc, 0, records[..k])|
  }

  lemma {:induction false} LogPrefix(crc: Checksum, records: seq<seq<Byte>>, k: nat)
    requires k <= |records|
    ensures LogBytes(crc, 0, records[..k]) <= LogBytes(crc, 0, records)
    decreases |records| - k
  {
    hide LogBytes, RecordBytes;
    if k < |records| {
      LogPrefix(crc, records, k + 1);
      NextRecordEnds(crc, records, k);
    } else {
      assert records[..k] == records;
    }
  }

  lemma NextRecordEnds(crc: Checksum, records: seq<seq<Byte>>, k: nat)
    requires k < |records|
    ensures LogBytes(crc, 0, records[..k + 1])
         == LogBytes(crc, 0, records[..k]) + RecordBytes(crc, EndOf(crc, records, k), records[k], true)
  {
    hide RecordBytes;
    assert records[..k + 1] == records[..k] + [records[k]];
    LogAppend(crc, 0, records[..k], records[k]);
  }

  /** In the whole log the next record stands where the ones before it end. */
  lemma RecordStands(crc: Checksum, records: seq<seq<Byte>>, k: nat)
    requires k < |records|
    ensures StandsAt(LogBytes(crc, 0, records), EndOf(crc, records, k), RecordBytes(crc, EndOf(crc, records, k), records[k], true))
    ensures EndOf(crc, records, k + 1)
         == EndOf(crc, records, k) + |RecordBytes(crc, EndOf(crc, records, k), records[k], true)|
  {
    hide LogBytes, RecordBytes;
    NextRecordEnds(crc, records, k);
    LogPrefix(crc, records, k + 1);
    var log := LogBytes(crc, 0, records);
    var bytes := RecordBytes(crc, EndOf(crc, records, k), records[k], true);
    assert log[..EndOf(crc, records, k + 1)] == LogBytes(crc, 0, records[..k]) + bytes;
    assert log[EndOf(crc, records, k)..EndOf(crc, records, k + 1)] == log[..EndOf(crc, records, k + 1)][EndOf(crc, records, k)..];
  }

  /** Reads every record of a log of which only a beginning is in the file: exactly the records that
      lie wholly in the file come back, in order, and nothing is reported as corrupt. */
  method ReadLog(file: seq<Byte>, crc: Checksum, ghost records: seq<seq<Byte>>) returns (got: seq<seq<Byte>>, drops: seq<nat>)
    requires file <= LogBytes(crc, 0, records)
    ensures |got| <= |records| && got == records[..|got|]
    ensures forall k :: 0 <= k <= |records| ==> (k <= |got| <==> EndOf(crc, records, k) <= |file|)
    ensures drops == []
  {
    hide LogBytes, RecordBytes, StandsAt;
    var reader := new Reader(file, crc);
    got := [];
    EmptyLog(crc, records);
    while true
      invariant reader.Valid() && reader.file == file && reader.crc == crc
      invariant reader.drops == [] && |got| <= |records| && got == records[..|got|]
      invariant reader.Offset() == EndOf(crc, records, |got|)
      decreases |file| - reader.Offset()
    {
      ghost var expected := if |got| < |records| then records[|got|] else [];
      ghost var k := |got|;
      reader.OffsetInFile();
      if k < |records| {
        RecordStands(crc, records, k);
      } else {
        assert records[..k] == records;
      }
      var ok, record := reader.ReadRecord(LogBytes(crc, 0, records), expected);
      reader.OffsetInFile();
      if !ok {
        forall j | 0 <= j <= |records| ensures j <= |got| <==> EndOf(crc, records, j) <= |file| {
          EndsAscend(crc, records, if j < k then j else k, if j < k then k else j);
          if j > k { EndsAscend(crc, records, k + 1, j); }
        }
        drops := reader.drops;
        return;
      }
      got := got + [record];
    }
  }

  lemma EmptyLog(crc: Checksum, records: seq<seq<Byte>>)
    ensures EndOf(crc, records, 0) == 0
  {
  }

  lemma {:induction false} EndsAscend(crc: Checksum, records: seq<seq<Byte>>, i: nat, j: nat)
    requires i <= j <= |records|
    ensures EndOf(crc, records, i) <= EndOf(crc, records, j)
    ensures i < j ==> EndOf(crc, records, i) < EndOf(crc, records, j)
  {
    hide LogBytes, RecordBytes;
    if i < j {
      EndsAscend(crc, records, i, j - 1);
      NextRecordEnds(crc, records, j - 1);
    }
  }
}
