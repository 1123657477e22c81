/** The messages a decoder must understand: records in any order, with fields it does not know in between. */
module PbItems {
  import opened Coding
  import opened PbMessages
  import opened PbWire

  // ----- what is on the wire -----

  /** A record of the message and the bytes behind its tag, or a field that the descriptor does not have. */
  datatype Item = Known(record: Record, payload: seq<Byte>) | Unknown(wireType: nat, tag: nat, payload: seq<Byte>)

  function WireTypeOf(m: Message, r: Record): nat
    requires r.field < |m|
  {
    if r.Packed? then WT_STRING else WireType(m[r.field].ltype)
  }

  function TagBytes(m: Message, it: Item): seq<Byte> {
    match it
    case Known(r, _) => if r.field < |m| then EncodeTag(WireTypeOf(m, r), m[r.field].tag) else []
    case Unknown(wireType, tag, _) => EncodeTag(wireType, tag)
  }

  function ItemBytes(m: Message, it: Item): seq<Byte> {
    TagBytes(m, it) + it.payload
  }

  function ItemsBytes(m: Message, items: seq<Item>): seq<Byte> {
    if items == [] then [] else ItemBytes(m, items[0]) + ItemsBytes(m, items[1..])
  }

  /** What the wire format gives a field of a wire type: a varint of any length, eight bytes, a length and so many
      bytes, or four bytes. */
  ghost predicate UnknownPayload(wireType: nat, payload: seq<Byte>) {
    if wireType == 0 then |payload| > 0 && payload[|payload| - 1] < 128 && forall i :: 0 <= i < |payload| - 1 ==> payload[i] >= 128
    else if wireType == 1 then |payload| == 8
    else if wireType == 2 then exists bytes: seq<Byte> :: |bytes| < 0x1_0000_0000 && payload == EncodeVarint(|bytes|) + bytes
    else if wireType == 5 then |payload| == 4
    else false
  }

  /** The bytes are those of the value; of a submessage, those of any arrangement of its fields. */
  ghost predicate ValueBytes(t: LType, v: Value, payload: seq<Byte>)
    requires Fits(t, v)
    decreases t, 0
  {
    if t.Submessage? then
      exists items :: payload == Delimited(ItemsBytes(t.fields, items)) && IsArrangement(t.fields, v.fields, items) && HasRequired(t.fields, items)
    else payload == EncodeValue(t, v)
  }

  ghost predicate PlainBytes(f: Field, v: Value, payload: seq<Byte>)
    requires Fits(f.ltype, v)
    decreases f
  {
    ValueBytes(f.ltype, v, payload)
  }

  ghost predicate ItemOk(m: Message, it: Item)
    decreases m, 1
  {
    match it
    case Known(r, payload) =>
      && RecordOk(m, r)
      && (r.Plain? ==> PlainBytes(m[r.field], r.value, payload))
      && (r.Packed? ==> m[r.field].htype.Repeated? && payload == Delimited(EncodeScalars(m[r.field].ltype, r.values)))
    case Unknown(wireType, tag, payload) =>
      0 < tag < 0x2000_0000 && (forall i :: 0 <= i < |m| ==> m[i].tag != tag) && UnknownPayload(wireType, payload)
  }

  // ----- what it stands for -----

  /** The records of one field, in the order in which they come. */
  function RecordsOf(items: seq<Item>, i: nat): seq<Record> {
    if items == [] then []
    else
      var last := items[|items| - 1];
      RecordsOf(items[..|items| - 1], i) + if last.Known? && last.record.field == i then [last.record] else []
  }

  function RecordValues(r: Record): seq<Value> {
    match r
    case Plain(_, v) => [v]
    case Packed(_, vs) => vs
  }

  function AllValues(rs: seq<Record>): seq<Value> {
    if rs == [] then [] else AllValues(rs[..|rs| - 1]) + RecordValues(rs[|rs| - 1])
  }

  /** The records are those of a field with this value. An array may come in any number of records, packed or not;
      any other field comes at most once, and not only if it has its default. */
  ghost predicate Fills(f: Field, fv: FieldValue, rs: seq<Record>) {
    if f.htype.Repeated? then fv == Many(AllValues(rs))
    else if rs == [] then fv == DefaultOf(f)
    else |rs| == 1 && rs[0].Plain? && fv == One(rs[0].value)
  }

  /** The items are the fields of the message, in any order, with unknown fields anywhere. */
  ghost predicate IsArrangement(m: Message, vs: seq<FieldValue>, items: seq<Item>)
    decreases m, 2
  {
    && |vs| == |m|
    && (forall i :: 0 <= i < |m| && m[i].htype.Repeated? ==> vs[i].Many? && |vs[i].values| <= m[i].htype.maxCount)
    && (forall k :: 0 <= k < |items| ==> ItemOk(m, items[k]))
    && forall i :: 0 <= i < |m| ==> Fills(m[i], vs[i], RecordsOf(items, i))
  }

  /** How many required fields come before field `i`. */
  function RequiredBefore(m: Message, i: nat): nat
    requires i <= |m|
  {
    if i == 0 then 0 else RequiredBefore(m, i - 1) + if m[i - 1].htype.Required? then 1 else 0
  }

  /** The first 64 required fields are there. */
  ghost predicate HasRequired(m: Message, items: seq<Item>) {
    forall i :: 0 <= i < |m| && m[i].htype.Required? && RequiredBefore(m, i) < 64 ==> RecordsOf(items, i) != []
  }

  // ----- taking records in -----

  function ValuesOf(fv: FieldValue): seq<Value> {
    if fv.Many? then fv.values else []
  }

  /** What a field holds after one more record. */
  function TakeInto(f: Field, fv: FieldValue, r: Record): FieldValue {
    match r
    case Plain(_, v) => if f.htype.Repeated? then Many(ValuesOf(fv) + [v]) else One(v)
    case Packed(_, vs) => Many(ValuesOf(fv) + vs)
  }

  function FieldAfter(f: Field, rs: seq<Record>): FieldValue {
    if rs == [] then DefaultOf(f) else TakeInto(f, FieldAfter(f, rs[..|rs| - 1]), rs[|rs| - 1])
  }

  lemma {:induction false} ArrayAfter(f: Field, rs: seq<Record>)
    requires f.htype.Repeated?
    ensures FieldAfter(f, rs) == Many(AllValues(rs))
  {
    if rs != [] { ArrayAfter(f, rs[..|rs| - 1]); }
  }

  /** Taking in the records of a field, from its default, gives its value. */
  lemma FillsRebuild(f: Field, fv: FieldValue, rs: seq<Record>)
    requires Fills(f, fv, rs)
    ensures FieldAfter(f, rs) == fv
  {
    if f.htype.Repeated? {
      ArrayAfter(f, rs);
    } else if rs != [] {
      assert rs[..0] == [];
    }
  }

  lemma OneMoreRecord(items: seq<Item>, k: nat, i: nat)
    requires k < |items|
    ensures RecordsOf(items[..k + 1], i) ==
            RecordsOf(items[..k], i) + if items[k].Known? && items[k].record.field == i then [items[k].record] else []
  {
    assert items[..k + 1][..k] == items[..k];
  }

  lemma {:induction false} RecordsGrow(items: seq<Item>, k: nat, i: nat)
    requires k <= |items|
    ensures RecordsOf(items[..k], i) <= RecordsOf(items, i)
    decreases |items| - k
  {
    if k < |items| {
      OneMoreRecord(items, k, i);
      RecordsGrow(items, k + 1, i);
    } else {
      assert items[..k] == items;
    }
  }

  lemma {:induction false} ValuesGrow(rs: seq<Record>, qs: seq<Record>)
    requires rs <= qs
    ensures |AllValues(rs)| <= |AllValues(qs)|
    decreases |qs|
  {
    if |rs| < |qs| {
      ValuesGrow(rs, qs[..|qs| - 1]);
    } else {
      assert rs == qs;
    }
  }

  /** When a record comes, its field is ready for it: it has its default, or room for more. */
  lemma RoomFor(m: Message, vs: seq<FieldValue>, items: seq<Item>, k: nat)
    requires IsArrangement(m, vs, items) && k < |items| && items[k].Known?
    ensures var r := items[k].record;
            && r.field < |m|
            && var before := FieldAfter(m[r.field], RecordsOf(items[..k], r.field));
               if m[r.field].htype.Repeated? then |ValuesOf(before)| + |RecordValues(r)| <= m[r.field].htype.maxCount
               else before == DefaultOf(m[r.field]) && r.Plain?
  {
    var r := items[k].record;
    assert ItemOk(m, items[k]);
    var i := r.field;
    var before, upTo, all := RecordsOf(items[..k], i), RecordsOf(items[..k + 1], i), RecordsOf(items, i);
    OneMoreRecord(items, k, i);
    RecordsGrow(items, k + 1, i);
    assert Fills(m[i], vs[i], all);
    if m[i].htype.Repeated? {
      ArrayAfter(m[i], before);
      assert upTo[..|upTo| - 1] == before;
      ValuesGrow(upTo, all);
    }
  }

  // ----- what the encoder makes is an arrangement -----

  function PayloadOf(m: Message, r: Record): seq<Byte>
    requires RecordOk(m, r)
  {
    match r
    case Plain(i, v) => EncodeValue(m[i].ltype, v)
    case Packed(i, vs) => Delimited(EncodeScalars(m[i].ltype, vs))
  }

  function ItemsFor(m: Message, rs: seq<Record>): seq<Item>
    requires forall k :: 0 <= k < |rs| ==> RecordOk(m, rs[k])
  {
    seq(|rs|, k requires 0 <= k < |rs| => Known(rs[k], PayloadOf(m, rs[k])))
  }

  lemma RecordIsItem(m: Message, r: Record)
    requires RecordOk(m, r)
    ensures EncodeRecord(m, r) == ItemBytes(m, Known(r, PayloadOf(m, r)))
  {
    hide EncodeTag, EncodeValue, Delimited, Fits, EncodeScalars;
    match r
    case Plain(i, v) => assert EncodePlain(m[i], v) == EncodeTag(WireType(m[i].ltype), m[i].tag) + EncodeValue(m[i].ltype, v);
    case Packed(i, vs) => assert EncodePacked(m[i], vs) == EncodeTag(WT_STRING, m[i].tag) + Delimited(EncodeScalars(m[i].ltype, vs));
  }

  lemma {:induction false} RecordsAreItems(m: Message, rs: seq<Record>)
    requires forall k :: 0 <= k < |rs| ==> RecordOk(m, rs[k])
    ensures EncodeRecords(m, rs) == ItemsBytes(m, ItemsFor(m, rs))
  {
    hide RecordOk, EncodeRecord, PayloadOf, ItemBytes;
    if rs != [] {
      RecordIsItem(m, rs[0]);
      RecordsAreItems(m, rs[1..]);
      assert ItemsFor(m, rs)[1..] == ItemsFor(m, rs[1..]);
    }
  }

  lemma {:induction false} RecordsOfConcat(a: seq<Item>, b: seq<Item>, i: nat)
    ensures RecordsOf(a + b, i) == RecordsOf(a, i) + RecordsOf(b, i)
    decreases |b|
  {
    if b == [] {
      assert a + b == a;
    } else {
      RecordsOfConcat(a, b[..|b| - 1], i);
      assert (a + b)[..|a + b| - 1] == a + b[..|b| - 1];
    }
  }

  /** Records of a single field. */
  lemma {:induction false} RecordsOfOne(m: Message, rs: seq<Record>, j: nat, i: nat)
    requires forall k :: 0 <= k < |rs| ==> RecordOk(m, rs[k]) && rs[k].field == j
    ensures RecordsOf(ItemsFor(m, rs), i) == if i == j then rs else []
    decreases |rs|
  {
    hide RecordOk, PayloadOf;
    if rs != [] {
      RecordsOfOne(m, rs[..|rs| - 1], j, i);
      assert ItemsFor(m, rs)[..|rs| - 1] == ItemsFor(m, rs[..|rs| - 1]);
    }
  }

  lemma FieldRecordsFacts(m: Message, i: nat, fv: FieldValue)
    requires i < |m| && FieldFits(m[i], fv)
    ensures forall k :: 0 <= k < |FieldRecords(i, m[i], fv)| ==>
              RecordOk(m, FieldRecords(i, m[i], fv)[k]) && FieldRecords(i, m[i], fv)[k].field == i
    ensures m[i].htype.Required? ==> FieldRecords(i, m[i], fv) != []
  {
    hide Fits, IsDefault;
  }

  lemma NoItems(m: Message)
    ensures ItemsFor(m, []) == []
  {
  }

  lemma ItemsForConcat(m: Message, rs: seq<Record>, qs: seq<Record>)
    requires forall k :: 0 <= k < |rs| ==> RecordOk(m, rs[k])
    requires forall k :: 0 <= k < |qs| ==> RecordOk(m, qs[k])
    ensures ItemsFor(m, rs + qs) == ItemsFor(m, rs) + ItemsFor(m, qs)
  {
    hide RecordOk, PayloadOf;
  }

  lemma {:induction false} RecordsOfMessage(m: Message, vs: seq<FieldValue>, n: nat, i: nat)
    requires MessageFits(m, vs) && n <= |m| && i < |m|
    ensures RecordsOf(ItemsFor(m, Records(m, vs, n)), i) == if i < n then FieldRecords(i, m[i], vs[i]) else []
  {
    hide FieldFits, FieldRecords, RecordOk, ItemsFor;
    NoItems(m);
    if n > 0 {
      RecordsOfMessage(m, vs, n - 1, i);
      FieldRecordsFacts(m, n - 1, vs[n - 1]);
      var rs, qs := Records(m, vs, n - 1), FieldRecords(n - 1, m[n - 1], vs[n - 1]);
      RecordsOfOne(m, qs, n - 1, i);
      ItemsForConcat(m, rs, qs);
      RecordsOfConcat(ItemsFor(m, rs), ItemsFor(m, qs), i);
    }
  }

  lemma {:induction false} PlainValues(i: nat, vs: seq<Value>)
    ensures AllValues(PlainRecords(i, vs)) == vs
    decreases |vs|
  {
    if vs != [] {
      PlainValues(i, vs[..|vs| - 1]);
      assert PlainRecords(i, vs)[..|vs| - 1] == PlainRecords(i, vs[..|vs| - 1]);
    }
  }

  lemma FieldRecordsFill(f: Field, i: nat, fv: FieldValue)
    requires FieldFits(f, fv)
    ensures Fills(f, fv, FieldRecords(i, f, fv))
  {
    hide Fits, IsDefault;
    match f.htype
    case Repeated(_) =>
      if !Packable(f.ltype) {
        PlainValues(i, fv.values);
      } else if fv.values != [] {
        assert AllValues([Packed(i, fv.values)][..0]) == [];
        assert [] + fv.values == fv.values;
      }
    case Implicit => if IsDefault(f, fv) { LeftOutIsDefault(f, fv); }
    case _ =>
  }

  /** The encoder writes a value as the decoder expects it. */
  lemma {:induction false} EncodedValue(t: LType, v: Value)
    requires Fits(t, v)
    ensures ValueBytes(t, v, EncodeValue(t, v))
    decreases t, 0
  {
    hide ItemOk, IsArrangement, ItemsBytes;
    if t.Submessage? {
      EncodedMessage(t.fields, v.fields);
      var items := ItemsFor(t.fields, Records(t.fields, v.fields, |t.fields|));
      assert EncodeValue(t, v) == Delimited(ItemsBytes(t.fields, items));
    }
  }

  lemma {:induction false} EncodedItem(m: Message, r: Record, vs: seq<FieldValue>)
    requires RecordOk(m, r) && (r.Packed? ==> m[r.field].htype.Repeated?)
    ensures ItemOk(m, Known(r, PayloadOf(m, r)))
    decreases m, 1
  {
    hide PlainBytes, EncodeValue, EncodeScalars, Fits;
    if r.Plain? { EncodedPlain(m[r.field], r.value); }
  }

  lemma {:induction false} EncodedPlain(f: Field, v: Value)
    requires Fits(f.ltype, v)
    ensures PlainBytes(f, v, EncodeValue(f.ltype, v))
    decreases f
  {
    EncodedValue(f.ltype, v);
  }

  lemma {:induction false} PackedAreArrays(m: Message, vs: seq<FieldValue>, n: nat)
    requires MessageFits(m, vs) && n <= |m|
    ensures forall k :: 0 <= k < |Records(m, vs, n)| ==>
              Records(m, vs, n)[k].field < |m| && (Records(m, vs, n)[k].Packed? ==> m[Records(m, vs, n)[k].field].htype.Repeated?)
  {
    hide Fits, RecordOk;
    if n > 0 { PackedAreArrays(m, vs, n - 1); }
  }

  /** What the encoder makes of a message is an arrangement of it: its fields in their order, nothing unknown. */
  lemma {:induction false} EncodedMessage(m: Message, vs: seq<FieldValue>)
    requires MessageFits(m, vs)
    ensures var items := ItemsFor(m, Records(m, vs, |m|));
            && EncodeMessage(m, vs) == ItemsBytes(m, items)
            && IsArrangement(m, vs, items) && HasRequired(m, items)
    decreases m, 2
  {
    hide FieldRecords, ItemOk, Fills, ItemsBytes, RecordOk, PayloadOf, Records;
    var rs := Records(m, vs, |m|);
    var items := ItemsFor(m, rs);
    RecordsAreItems(m, rs);
    PackedAreArrays(m, vs, |m|);
    forall k | 0 <= k < |items| ensures ItemOk(m, items[k]) {
      EncodedItem(m, rs[k], vs);
    }
    forall i | 0 <= i < |m|
      ensures Fills(m[i], vs[i], RecordsOf(items, i))
      ensures m[i].htype.Required? ==> RecordsOf(items, i) != []
    {
      assert FieldFits(m[i], vs[i]);
      RecordsOfMessage(m, vs, |m|, i);
      FieldRecordsFill(m[i], i, vs[i]);
      FieldRecordsFacts(m, i, vs[i]);
    }
    hide Fits;
  }
}
