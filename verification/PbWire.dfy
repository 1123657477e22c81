/** The wire format of a message as a sequence of records, in the order of its descriptor. */
module PbWire {
  import opened Coding
  import opened PbMessages

  const WT_VARINT: nat := 0
  const WT_64BIT: nat := 1
  const WT_STRING: nat := 2
  const WT_32BIT: nat := 5

  function WireType(t: LType): (w: nat)
    ensures w < 8
  {
    match t
    case Bool => WT_VARINT
    case Varint(_) => WT_VARINT
    case UVarint(_) => WT_VARINT
    case SVarint(_) => WT_VARINT
    case Fixed32 => WT_32BIT
    case Fixed64 => WT_64BIT
    case _ => WT_STRING
  }

  /** A value of the field, or all values of a packed one. */
  datatype Record = Plain(field: nat, value: Value) | Packed(field: nat, values: seq<Value>)

  predicate RecordOk(m: Message, r: Record) {
    && r.field < |m|
    && match r
       case Plain(i, v) => Fits(m[i].ltype, v)
       case Packed(i, vs) => Packable(m[i].ltype) && forall j :: 0 <= j < |vs| ==> Fits(m[i].ltype, vs[j])
  }

  // ----- numbers -----

  /** Two's complement in 64 bits. */
  function Unsigned64(i: int): (n: nat)
    requires -0x8000_0000_0000_0000 <= i < 0x1_0000_0000_0000_0000
    ensures n < 0x1_0000_0000_0000_0000
  {
    if i < 0 then i + 0x1_0000_0000_0000_0000 else i
  }

  function Zigzag(i: int): (n: nat)
    requires -0x8000_0000_0000_0000 <= i < 0x8000_0000_0000_0000
    ensures n < 0x1_0000_0000_0000_0000
  {
    if i < 0 then -2 * i - 1 else 2 * i
  }

  function Unzigzag(n: nat): int {
    if n % 2 == 1 then -(n / 2) - 1 else n / 2
  }

  lemma ZigzagRoundTrip(i: int)
    requires -0x8000_0000_0000_0000 <= i < 0x8000_0000_0000_0000
    ensures Unzigzag(Zigzag(i)) == i
  {
  }

  function LittleEndian(n: nat, bytes: nat): (s: seq<Byte>)
    ensures |s| == bytes
  {
    if bytes == 0 then []
    else
      var low: nat := n % 256;
      [low] + LittleEndian(n / 256, bytes - 1)
  }

  // ----- values and records -----

  function EncodeScalar(t: LType, v: Value): seq<Byte>
    requires Packable(t) && Fits(t, v)
  {
    match t
    case Bool => EncodeVarint(if v.b then 1 else 0)
    case Varint(_) => EncodeVarint(Unsigned64(v.i))
    case UVarint(_) => EncodeVarint(v.i)
    case SVarint(_) => EncodeVarint(Zigzag(v.i))
    case Fixed32 => LittleEndian(v.i, 4)
    case Fixed64 => LittleEndian(v.i, 8)
  }

  function EncodeScalars(t: LType, vs: seq<Value>): seq<Byte>
    requires Packable(t) && forall j :: 0 <= j < |vs| ==> Fits(t, vs[j])
  {
    if vs == [] then [] else EncodeScalars(t, vs[..|vs| - 1]) + EncodeScalar(t, vs[|vs| - 1])
  }

  function Delimited(s: seq<Byte>): seq<Byte> {
    EncodeVarint(|s|) + s
  }

  function EncodeValue(t: LType, v: Value): seq<Byte>
    requires Fits(t, v)
    decreases t
  {
    if Packable(t) then EncodeScalar(t, v)
    else if t.Submessage? then Delimited(EncodeMessage(t.fields, v.fields))
    else Delimited(v.bytes)
  }

  function EncodeTag(wireType: nat, tag: nat): seq<Byte> {
    EncodeVarint(tag * 8 + wireType)
  }

  function EncodePlain(f: Field, v: Value): seq<Byte>
    requires Fits(f.ltype, v)
    decreases f
  {
    EncodeTag(WireType(f.ltype), f.tag) + EncodeValue(f.ltype, v)
  }

  function EncodePacked(f: Field, vs: seq<Value>): seq<Byte>
    requires Packable(f.ltype) && forall j :: 0 <= j < |vs| ==> Fits(f.ltype, vs[j])
  {
    EncodeTag(WT_STRING, f.tag) + Delimited(EncodeScalars(f.ltype, vs))
  }

  function EncodeRecord(m: Message, r: Record): seq<Byte>
    requires RecordOk(m, r)
    decreases m, 0, 0
  {
    match r
    case Plain(i, v) => EncodePlain(m[i], v)
    case Packed(i, vs) => EncodePacked(m[i], vs)
  }

  function EncodeRecords(m: Message, rs: seq<Record>): seq<Byte>
    requires forall i :: 0 <= i < |rs| ==> RecordOk(m, rs[i])
    decreases m, 1, |rs|
  {
    if rs == [] then [] else EncodeRecord(m, rs[0]) + EncodeRecords(m, rs[1..])
  }

  function EncodeMessage(m: Message, vs: seq<FieldValue>): seq<Byte>
    requires MessageFits(m, vs)
    decreases m, 2, 0
  {
    EncodeRecords(m, Records(m, vs, |m|))
  }

  // ----- which records a message has -----

  function PlainRecords(i: nat, vs: seq<Value>): seq<Record> {
    seq(|vs|, j requires 0 <= j < |vs| => Plain(i, vs[j]))
  }

  function FieldRecords(i: nat, f: Field, fv: FieldValue): seq<Record>
    requires FieldFits(f, fv)
  {
    match f.htype
    case Required => [Plain(i, fv.value)]
    case Optional => if fv.One? then [Plain(i, fv.value)] else []
    case Implicit => if IsDefault(f, fv) then [] else [Plain(i, fv.value)]
    case Repeated(_) =>
      if !Packable(f.ltype) then PlainRecords(i, fv.values)
      else if fv.values == [] then [] else [Packed(i, fv.values)]
  }

  /** The records of the first `n` fields. */
  function Records(m: Message, vs: seq<FieldValue>, n: nat): (rs: seq<Record>)
    requires MessageFits(m, vs) && n <= |m|
    ensures forall i :: 0 <= i < |rs| ==> RecordOk(m, rs[i])
  {
    if n == 0 then [] else Records(m, vs, n - 1) + FieldRecords(n - 1, m[n - 1], vs[n - 1])
  }

  lemma {:induction false} EncodeConcat(m: Message, rs: seq<Record>, qs: seq<Record>)
    requires forall i :: 0 <= i < |rs| ==> RecordOk(m, rs[i])
    requires forall i :: 0 <= i < |qs| ==> RecordOk(m, qs[i])
    ensures EncodeRecords(m, rs + qs) == EncodeRecords(m, rs) + EncodeRecords(m, qs)
  {
    hide EncodeRecord, RecordOk;
    if rs == [] {
      assert rs + qs == qs;
    } else {
      EncodeConcat(m, rs[1..], qs);
      assert (rs + qs)[1..] == rs[1..] + qs;
    }
  }

  lemma FieldGrows(m: Message, vs: seq<FieldValue>, n: nat)
    requires MessageFits(m, vs) && n < |m|
    ensures Records(m, vs, n + 1) == Records(m, vs, n) + FieldRecords(n, m[n], vs[n])
    ensures forall i :: 0 <= i < |FieldRecords(n, m[n], vs[n])| ==> RecordOk(m, FieldRecords(n, m[n], vs[n])[i])
  {
    hide RecordOk, FieldRecords;
    var qs := FieldRecords(n, m[n], vs[n]);
    forall i | 0 <= i < |qs| ensures RecordOk(m, qs[i]) {
      assert Records(m, vs, n + 1)[|Records(m, vs, n)| + i] == qs[i];
    }
  }

  /** A message is its fields one after the other. */
  lemma EncodeGrows(m: Message, vs: seq<FieldValue>, n: nat)
    requires MessageFits(m, vs) && n < |m|
    ensures forall i :: 0 <= i < |FieldRecords(n, m[n], vs[n])| ==> RecordOk(m, FieldRecords(n, m[n], vs[n])[i])
    ensures EncodeRecords(m, Records(m, vs, n + 1))
         == EncodeRecords(m, Records(m, vs, n)) + EncodeRecords(m, FieldRecords(n, m[n], vs[n]))
  {
    hide EncodeRecords, RecordOk, FieldRecords, Records;
    FieldGrows(m, vs, n);
    EncodeConcat(m, Records(m, vs, n), FieldRecords(n, m[n], vs[n]));
  }

  // ----- the bytes of a field -----

  function EncodePlains(f: Field, vs: seq<Value>): seq<Byte>
    requires forall j :: 0 <= j < |vs| ==> Fits(f.ltype, vs[j])
  {
    if vs == [] then [] else EncodePlains(f, vs[..|vs| - 1]) + EncodePlain(f, vs[|vs| - 1])
  }

  function EncodeField(f: Field, fv: FieldValue): seq<Byte>
    requires FieldFits(f, fv)
  {
    match f.htype
    case Required => EncodePlain(f, fv.value)
    case Optional => if fv.One? then EncodePlain(f, fv.value) else []
    case Implicit => if IsDefault(f, fv) then [] else EncodePlain(f, fv.value)
    case Repeated(_) =>
      if !Packable(f.ltype) then EncodePlains(f, fv.values)
      else if fv.values == [] then [] else EncodePacked(f, fv.values)
  }

  lemma OneRecord(m: Message, r: Record)
    requires RecordOk(m, r)
    ensures EncodeRecords(m, [r]) == EncodeRecord(m, r)
  {
    hide EncodeRecord;
    assert [r][1..] == [];
    assert EncodeRecord(m, r) + [] == EncodeRecord(m, r);
  }

  lemma {:induction false} PlainRecordsBytes(m: Message, i: nat, vs: seq<Value>)
    requires i < |m| && forall j :: 0 <= j < |vs| ==> Fits(m[i].ltype, vs[j])
    ensures EncodeRecords(m, PlainRecords(i, vs)) == EncodePlains(m[i], vs)
    decreases |vs|
  {
    hide EncodePlain, Fits, EncodeRecords;
    if vs == [] {
      assert PlainRecords(i, vs) == [];
      NoRecords(m);
    } else {
      var init := vs[..|vs| - 1];
      PlainRecordsBytes(m, i, init);
      assert PlainRecords(i, vs) == PlainRecords(i, init) + [Plain(i, vs[|vs| - 1])];
      EncodeConcat(m, PlainRecords(i, init), [Plain(i, vs[|vs| - 1])]);
      OneRecord(m, Plain(i, vs[|vs| - 1]));
    }
  }

  lemma NoRecords(m: Message)
    ensures EncodeRecords(m, []) == []
  {
  }

  /** The records of a field are encoded as the field is. */
  lemma FieldBytes(m: Message, i: nat, fv: FieldValue)
    requires i < |m| && FieldFits(m[i], fv)
    ensures forall k :: 0 <= k < |FieldRecords(i, m[i], fv)| ==> RecordOk(m, FieldRecords(i, m[i], fv)[k])
    ensures EncodeRecords(m, FieldRecords(i, m[i], fv)) == EncodeField(m[i], fv)
  {
    hide EncodePlain, EncodePacked, EncodeRecords, IsDefault;
    var f := m[i];
    NoRecords(m);
    if f.htype.Repeated? {
      if Packable(f.ltype) {
        if fv.values != [] { OneRecord(m, Packed(i, fv.values)); }
      } else {
        PlainRecordsBytes(m, i, fv.values);
      }
    } else if FieldRecords(i, f, fv) != [] {
      OneRecord(m, Plain(i, fv.value));
    }
  }
}
