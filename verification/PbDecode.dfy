/** The decoder: it reads records in whatever order they come into a struct that starts with its defaults, and skips
    fields it does not know. */
module PbDecoders {
  import opened Coding
  import opened PbMessages
  import opened PbWire
  import opened PbScalars
  import opened PbItems

  const MAX_REQUIRED_FIELDS: nat := 64

  // ----- tags -----

  datatype Tag = Tag(wireType: nat, tag: nat, next: nat) | EndOfMessage | BadTag

  /** A zero tag ends a message early. */
  function DecodeTag(s: seq<Byte>, p: nat, limit: nat): (t: Tag)
    requires limit <= |s|
    ensures t.Tag? ==> p < t.next <= limit
  {
    var d := PbVarint32(s, p, limit);
    if d.Bad? then BadTag
    else if d.value == 0 then EndOfMessage
    else Tag(d.value % 8, d.value / 8, d.next)
  }

  lemma TagReads(s: seq<Byte>, p: nat, limit: nat, wireType: nat, tag: nat)
    requires 0 < tag < 0x2000_0000 && wireType < 8 && Within(s, p, limit, EncodeTag(wireType, tag))
    ensures DecodeTag(s, p, limit) == Tag(wireType, tag, p + |EncodeTag(wireType, tag)|)
  {
    hide PbVarint32, EncodeVarint;
    ReadsVarint32(s, p, limit, tag * 8 + wireType);
  }

  /** The field with the tag, if there is one. */
  method FindField(m: Message, tag: nat) returns (i: nat)
    ensures i <= |m| && (i < |m| ==> m[i].tag == tag)
    ensures forall k :: 0 <= k < |m| && m[k].tag == tag ==> i < |m|
    ensures DescriptorOk(m) ==> forall k :: 0 <= k < |m| && m[k].tag == tag ==> i == k
  {
    i := 0;
    while i < |m| && m[i].tag != tag
      invariant i <= |m| && forall k :: 0 <= k < i ==> m[k].tag != tag
    {
      i := i + 1;
    }
  }

  /** Where a field nobody knows ends. */
  function SkipField(wireType: nat, s: seq<Byte>, p: nat, limit: nat): (r: Parsed<()>)
    requires limit <= |s|
    ensures r.Parsed? ==> p < r.next <= limit
  {
    if wireType == WT_VARINT then SkipVarint(s, p, limit)
    else if wireType == WT_64BIT then (if p + 8 <= limit then Parsed((), p + 8) else Bad)
    else if wireType == WT_32BIT then (if p + 4 <= limit then Parsed((), p + 4) else Bad)
    else if wireType == WT_STRING then
      var d := PbVarint32(s, p, limit);
      if d.Bad? || d.next + d.value > limit then Bad else Parsed((), d.next + d.value)
    else Bad
  }

  function SkipVarint(s: seq<Byte>, p: nat, limit: nat): (r: Parsed<()>)
    requires limit <= |s|
    ensures r.Parsed? ==> p < r.next <= limit
    decreases if p < limit then limit - p else 0
  {
    if p >= limit then Bad
    else if s[p] >= 128 then SkipVarint(s, p + 1, limit)
    else Parsed((), p + 1)
  }

  lemma {:induction false} SkipsVarint(s: seq<Byte>, p: nat, limit: nat, payload: seq<Byte>)
    requires UnknownPayload(0, payload) && Within(s, p, limit, payload)
    ensures SkipVarint(s, p, limit) == Parsed((), p + |payload|)
    decreases |payload|
  {
    assert s[p] == s[p..p + |payload|][0];
    if |payload| > 1 {
      assert s[p + 1..p + |payload|] == s[p..p + |payload|][1..];
      SkipsVarint(s, p + 1, limit, payload[1..]);
    }
  }

  /** An unknown field ends where the wire format says. */
  lemma SkipReads(wireType: nat, s: seq<Byte>, p: nat, limit: nat, payload: seq<Byte>)
    requires UnknownPayload(wireType, payload) && Within(s, p, limit, payload)
    ensures SkipField(wireType, s, p, limit) == Parsed((), p + |payload|)
  {
    hide PbVarint32, EncodeVarint, SkipVarint;
    if wireType == 0 {
      SkipsVarint(s, p, limit, payload);
    } else if wireType == 2 {
      var bytes: seq<Byte> :| |bytes| < 0x1_0000_0000 && payload == EncodeVarint(|bytes|) + bytes;
      WithinSplit(s, p, limit, EncodeVarint(|bytes|), bytes);
      ReadsVarint32(s, p, limit, |bytes|);
    }
  }

  // ----- packed arrays -----

  /** The bytes up to the limit are those of the values, for which there is room. */
  ghost predicate ExpectsScalars(t: LType, maxCount: nat, s: seq<Byte>, start: nat, limit: nat, before: seq<Value>, vs: seq<Value>)
    requires Packable(t) && start <= limit <= |s|
  {
    && TypeOk(t) && (forall j :: 0 <= j < |vs| ==> Fits(t, vs[j])) && |before| + |vs| <= maxCount
    && s[start..limit] == EncodeScalars(t, vs)
  }

  /** Reads values up to the limit, behind those that are there. */
  method DecodePacked(t: LType, maxCount: nat, s: seq<Byte>, start: nat, limit: nat, before: seq<Value>, ghost vs: seq<Value>)
    returns (ok: bool, values: seq<Value>)
    requires Packable(t) && start <= limit <= |s|
    ensures ExpectsScalars(t, maxCount, s, start, limit, before, vs) ==> ok && values == before + vs
    ensures |before| <= maxCount ==> |values| <= maxCount
    ensures TypeOk(t) && AllStored(t, before) ==> AllStored(t, values)
  {
    hide Stored, TypeOk, Fits, EncodeScalar, EncodeScalars, DecodeScalar;
    ghost var good := ExpectsScalars(t, maxCount, s, start, limit, before, vs);
    var p := start;
    ghost var k: nat := 0;
    values := before;
    ok := true;
    if good { NoScalars(t, vs); }
    while p < limit && |values| < maxCount && ok
      invariant start <= p <= limit
      invariant |before| <= maxCount ==> |values| <= maxCount
      invariant TypeOk(t) && AllStored(t, before) ==> AllStored(t, values)
      invariant good ==> ok && k <= |vs| && values == before + vs[..k] && p == start + |EncodeScalars(t, vs[..k])|
      decreases limit - p, if ok then 1 else 0
    {
      if good { NextScalar(t, vs, k, s, start, p, limit); }
      var d := DecodeScalar(t, s, p, limit);
      if TypeOk(t) { ScalarIsStored(t, s, p, limit); }
      if d.Bad? {
        ok := false;
      } else {
        values := values + [d.value];
        p := d.next;
        if good { assert before + vs[..k + 1] == (before + vs[..k]) + [vs[k]]; }
        k := k + 1;
      }
    }
    if good { LastScalar(t, vs, k, limit - start); }
    ok := ok && p == limit;
  }

  lemma SliceOfSlice(s: seq<Byte>, start: nat, limit: nat, a: nat, b: nat)
    requires start <= limit <= |s| && a <= b <= limit - start
    ensures s[start..limit][a..b] == s[start + a..start + b]
  {
    assert |s[start..limit][a..b]| == |s[start + a..start + b]|;
    assert forall i :: 0 <= i < b - a ==> s[start..limit][a..b][i] == s[start + a..start + b][i];
  }

  lemma NoScalars(t: LType, vs: seq<Value>)
    requires Packable(t) && forall j :: 0 <= j < |vs| ==> Fits(t, vs[j])
    ensures EncodeScalars(t, vs[..0]) == []
  {
  }

  lemma ScalarGrows(t: LType, vs: seq<Value>, k: nat)
    requires Packable(t) && k < |vs| && forall j :: 0 <= j < |vs| ==> Fits(t, vs[j])
    ensures EncodeScalars(t, vs[..k + 1]) == EncodeScalars(t, vs[..k]) + EncodeScalar(t, vs[k])
  {
    hide Fits, EncodeScalar;
    assert vs[..k + 1][..k] == vs[..k];
  }

  lemma {:induction false} ScalarsPrefix(t: LType, vs: seq<Value>, k: nat)
    requires Packable(t) && k <= |vs| && forall j :: 0 <= j < |vs| ==> Fits(t, vs[j])
    ensures EncodeScalars(t, vs[..k]) <= EncodeScalars(t, vs)
    ensures k < |vs| ==> |EncodeScalars(t, vs[..k])| < |EncodeScalars(t, vs)|
    decreases |vs| - k
  {
    hide Fits, EncodeScalars;
    if k < |vs| {
      ScalarGrows(t, vs, k);
      ScalarNotEmpty(t, vs[k]);
      ScalarsPrefix(t, vs, k + 1);
    } else {
      assert vs[..k] == vs;
    }
  }

  lemma ScalarNotEmpty(t: LType, v: Value)
    requires Packable(t) && Fits(t, v)
    ensures |EncodeScalar(t, v)| > 0
  {
  }

  lemma NextScalar(t: LType, vs: seq<Value>, k: nat, s: seq<Byte>, start: nat, p: nat, limit: nat)
    requires Packable(t) && TypeOk(t) && (forall j :: 0 <= j < |vs| ==> Fits(t, vs[j]))
    requires start <= p < limit <= |s| && s[start..limit] == EncodeScalars(t, vs)
    requires k <= |vs| && p == start + |EncodeScalars(t, vs[..k])|
    ensures k < |vs|
    ensures DecodeScalar(t, s, p, limit) == Parsed(vs[k], start + |EncodeScalars(t, vs[..k + 1])|)
  {
    hide Fits, EncodeScalar, EncodeScalars, DecodeScalar;
    LastScalar(t, vs, k, limit - start);
    ScalarGrows(t, vs, k);
    ScalarsPrefix(t, vs, k + 1);
    var whole, part := EncodeScalars(t, vs), EncodeScalar(t, vs[k]);
    var pre := EncodeScalars(t, vs[..k]);
    assert whole[..|pre + part|] == pre + part;
    assert whole[|pre|..|pre + part|] == whole[..|pre + part|][|pre|..];
    SliceOfSlice(s, start, limit, |pre|, |pre + part|);
    ScalarReads(t, vs[k], s, p, limit);
  }

  lemma LastScalar(t: LType, vs: seq<Value>, k: nat, size: nat)
    requires Packable(t) && (forall j :: 0 <= j < |vs| ==> Fits(t, vs[j])) && k <= |vs| && size == |EncodeScalars(t, vs)|
    ensures k == |vs| <==> |EncodeScalars(t, vs[..k])| == size
  {
    ScalarsPrefix(t, vs, k);
    if k == |vs| { assert vs[..k] == vs; }
  }

  // ----- what storage there is -----

  /** The value fits the storage of its type; a string may be anything shorter than its buffer. */
  predicate Stored(t: LType, v: Value) {
    match t
    case Bytes(n) => v.VBytes? && |v.bytes| <= n
    case String(n) => v.VBytes? && (|v.bytes| < n || v.bytes == [])
    case Submessage(fields) => v.VMessage? && MessageStored(fields, v.fields)
    case _ => Fits(t, v)
  }

  predicate AllStored(t: LType, vs: seq<Value>) {
    forall j :: 0 <= j < |vs| ==> Stored(t, vs[j])
  }

  predicate FieldStored(f: Field, fv: FieldValue) {
    match f.htype
    case Repeated(n) => fv.Many? && |fv.values| <= n && AllStored(f.ltype, fv.values)
    case Optional => fv.Absent? || (fv.One? && Stored(f.ltype, fv.value))
    case _ => fv.One? && Stored(f.ltype, fv.value)
  }

  predicate MessageStored(m: Message, vs: seq<FieldValue>) {
    |vs| == |m| && forall i :: 0 <= i < |m| ==> FieldStored(m[i], vs[i])
  }

  lemma {:induction false} ZeroIsStored(t: LType)
    requires TypeOk(t)
    ensures Stored(t, ZeroValue(t))
    decreases t
  {
    if t.Submessage? {
      DefaultsLength(t.fields);
      forall i | 0 <= i < |t.fields| ensures FieldStored(t.fields[i], Defaults(t.fields)[i]) {
        DefaultsAt(t.fields, i);
        DefaultIsStored(t.fields[i]);
      }
    }
  }

  lemma {:induction false} DefaultIsStored(f: Field)
    requires FieldOk(f)
    ensures FieldStored(f, DefaultOf(f))
    decreases f
  {
    ZeroIsStored(f.ltype);
  }

  lemma DefaultsAreStored(m: Message)
    requires DescriptorOk(m)
    ensures MessageStored(m, Defaults(m))
  {
    DefaultsLength(m);
    forall i | 0 <= i < |m| ensures FieldStored(m[i], Defaults(m)[i]) {
      DefaultsAt(m, i);
      DefaultIsStored(m[i]);
    }
  }

  lemma {:induction false} LittleEndianBound(s: seq<Byte>)
    ensures FromLittleEndian(s) < PbScalars.Room(|s|)
  {
    if s != [] { LittleEndianBound(s[1..]); }
  }

  lemma ClampRange(i: int, bytes: nat)
    requires IntSize(bytes)
    ensures -(Power(bytes) / 2) <= Clamp(i, bytes) < Power(bytes) / 2
  {
    SignedRange(i % Power(bytes), bytes);
  }

  lemma SignedRange(n: nat, bytes: nat)
    requires IntSize(bytes)
    ensures -(Power(bytes) / 2) <= Signed(n, bytes) < Power(bytes) / 2
  {
  }

  /** Whatever the bytes, a number that is accepted fits its type. */
  lemma ScalarIsStored(t: LType, s: seq<Byte>, p: nat, limit: nat)
    requires Packable(t) && TypeOk(t) && limit <= |s|
    ensures DecodeScalar(t, s, p, limit).Parsed? ==> Stored(t, DecodeScalar(t, s, p, limit).value)
  {
    hide PbVarint32, GetVarint64, SignedVarint, Unzigzag, FromLittleEndian, Clamp, Power;
    match t
    case Bool =>
    case Varint(n) =>
      var d := GetVarint64(s, p, limit);
      if d.Parsed? { ClampRange(SignedVarint(d.value, n), n); }
    case UVarint(n) =>
      var d := GetVarint64(s, p, limit);
      if d.Parsed? { RemainderRange(d.value, n); }
    case SVarint(n) =>
      var d := GetVarint64(s, p, limit);
      if d.Parsed? { ClampRange(Unzigzag(d.value), n); }
    case Fixed32 =>
      RoomForWords();
      if p + 4 <= limit { LittleEndianBound(s[p..p + 4]); }
    case Fixed64 =>
      RoomForWords();
      if p + 8 <= limit { LittleEndianBound(s[p..p + 8]); }
  }

  lemma RemainderRange(n: nat, bytes: nat)
    ensures Power(bytes) > 0 && n % Power(bytes) < Power(bytes)
  {
  }

  // ----- values, fields, messages -----

  /** A value of the type comes next; a submessage is read into a struct with its defaults. */
  ghost predicate ExpectsValue(t: LType, s: seq<Byte>, p: nat, limit: nat, start: seq<FieldValue>, v: Value, payload: seq<Byte>) {
    && TypeOk(t) && Fits(t, v) && Within(s, p, limit, payload) && ValueBytes(t, v, payload) && |s| < 0x1_0000_0000
    && (t.Submessage? ==> start == Defaults(t.fields))
  }

  lemma DelimitedReads(s: seq<Byte>, p: nat, limit: nat, bytes: seq<Byte>)
    requires Within(s, p, limit, Delimited(bytes)) && |s| < 0x1_0000_0000
    ensures var d := PbVarint32(s, p, limit);
            && d == Parsed(|bytes|, p + |EncodeVarint(|bytes|)|)
            && d.next + d.value == p + |Delimited(bytes)| <= limit
            && s[d.next..d.next + d.value] == bytes
  {
    hide PbVarint32, EncodeVarint;
    WithinSplit(s, p, limit, EncodeVarint(|bytes|), bytes);
    ReadsVarint32(s, p, limit, |bytes|);
  }

  /** What the bytes of a submessage or a string are. */
  lemma PayloadReads(t: LType, s: seq<Byte>, p: nat, limit: nat, start: seq<FieldValue>, v: Value, payload: seq<Byte>)
    returns (items: seq<Item>)
    requires ExpectsValue(t, s, p, limit, start, v, payload) && !Packable(t)
    ensures var size := PbVarint32(s, p, limit);
            && size.Parsed? && size.next + size.value == p + |payload| <= limit
            && (t.Submessage? ==> ExpectsMessage(t.fields, s, size.next, p + |payload|, start, v.fields, items) && HasRequired(t.fields, items))
            && (!t.Submessage? ==> s[size.next..size.next + size.value] == v.bytes && size.value == |v.bytes|)
  {
    hide PbVarint32, Delimited, ItemsBytes, IsArrangement, HasRequired;
    items := [];
    if t.Submessage? {
      items :| payload == Delimited(ItemsBytes(t.fields, items)) && IsArrangement(t.fields, v.fields, items) && HasRequired(t.fields, items);
      DelimitedReads(s, p, limit, ItemsBytes(t.fields, items));
    } else {
      DelimitedReads(s, p, limit, v.bytes);
    }
  }

  method DecodeValue(t: LType, s: seq<Byte>, p: nat, limit: nat, start: seq<FieldValue>, ghost v: Value, ghost payload: seq<Byte>)
    returns (r: Parsed<Value>)
    requires p <= limit <= |s| && (t.Submessage? ==> |start| == |t.fields|)
    ensures r.Parsed? ==> p < r.next <= limit
    ensures ExpectsValue(t, s, p, limit, start, v, payload) ==> r == Parsed(v, p + |payload|)
    ensures TypeOk(t) && (t.Submessage? ==> MessageStored(t.fields, start)) && r.Parsed? ==> Stored(t, r.value)
    decreases limit - p, 1
  {
    hide DecodeScalar, EncodeScalar, PbVarint32, Delimited, ExpectsMessage, HasRequired, MessageStored;
    ghost var good := ExpectsValue(t, s, p, limit, start, v, payload);
    if Packable(t) {
      if good { ScalarReads(t, v, s, p, limit); }
      if TypeOk(t) { ScalarIsStored(t, s, p, limit); }
      return DecodeScalar(t, s, p, limit);
    }
    ghost var items: seq<Item> := [];
    if good { items := PayloadReads(t, s, p, limit, start, v, payload); }
    var size := PbVarint32(s, p, limit);
    if size.Bad? || size.next + size.value > limit {
      return Bad;
    }
    var next := size.next + size.value;
    match t
    case Submessage(fields) =>
      var ok, dest := DecodeMessage(fields, s, size.next, next, start, if good then v.fields else [], items);
      r := if ok then Parsed(VMessage(dest), next) else Bad;
    case Bytes(n) => r := if size.value > n then Bad else Parsed(VBytes(s[size.next..next]), next);
    case String(n) => r := if size.value + 1 > n then Bad else Parsed(VBytes(s[size.next..next]), next);
  }

  /** The struct a submessage is read into. */
  function StartOf(t: LType, f: Field, cur: FieldValue): (start: seq<FieldValue>)
    ensures t.Submessage? ==> |start| == |t.fields|
  {
    if !t.Submessage? then []
    else
      DefaultsLength(t.fields);
      if !f.htype.Repeated? && cur.One? && cur.value.VMessage? && |cur.value.fields| == |t.fields| then cur.value.fields
      else Defaults(t.fields)
  }

  lemma StartIsStored(f: Field, cur: FieldValue)
    requires FieldOk(f) && FieldStored(f, cur)
    ensures f.ltype.Submessage? ==> MessageStored(f.ltype.fields, StartOf(f.ltype, f, cur))
  {
    if f.ltype.Submessage? { DefaultsAreStored(f.ltype.fields); }
  }

  /** The payload of the record comes next, and the field is ready for it. */
  ghost predicate ExpectsPayload(m: Message, r: Record, payload: seq<Byte>, s: seq<Byte>, p: nat, limit: nat, wireType: nat, cur: FieldValue) {
    && ItemOk(m, Known(r, payload)) && FieldOk(m[r.field]) && |s| < 0x1_0000_0000
    && Within(s, p, limit, payload) && wireType == WireTypeOf(m, r)
    && if m[r.field].htype.Repeated? then |ValuesOf(cur)| + |RecordValues(r)| <= m[r.field].htype.maxCount
       else cur == DefaultOf(m[r.field])
  }

  method DecodeField(f: Field, wireType: nat, s: seq<Byte>, p: nat, limit: nat, cur: FieldValue,
                     ghost m: Message, ghost r: Record, ghost payload: seq<Byte>) returns (d: Parsed<FieldValue>)
    requires p <= limit <= |s|
    ensures d.Parsed? ==> p < d.next <= limit
    ensures ExpectsPayload(m, r, payload, s, p, limit, wireType, cur) && f == m[r.field] ==>
              d == Parsed(TakeInto(f, cur, r), p + |payload|)
    ensures FieldOk(f) && FieldStored(f, cur) && d.Parsed? ==> FieldStored(f, d.value)
    decreases limit - p, 2
  {
    hide EncodeScalars, PbVarint32, Delimited, StartOf, ExpectsValue, ExpectsScalars, PlainBytes, Fits;
    ghost var good := ExpectsPayload(m, r, payload, s, p, limit, wireType, cur) && f == m[r.field];
    StoredBefore(f, cur);
    if f.htype.Repeated? && wireType == WT_STRING && Packable(f.ltype) {
      if good { PackedPayload(m, r, payload, s, p, limit, wireType, cur); }
      var size := PbVarint32(s, p, limit);
      if size.Bad? || size.next + size.value > limit {
        return Bad;
      }
      var ok, values := DecodePacked(f.ltype, f.htype.maxCount, s, size.next, size.next + size.value, ValuesOf(cur), if good then r.values else []);
      StoredAs(f, cur, values, VBool(false));
      return if ok then Parsed(Many(values), size.next + size.value) else Bad;
    }
    if good { PlainPayload(m, r, payload, s, p, limit, wireType, cur); }
    if f.htype.Repeated? && |ValuesOf(cur)| >= f.htype.maxCount {
      return Bad;
    }
    if FieldOk(f) && FieldStored(f, cur) { StartIsStored(f, cur); }
    var v := DecodeValue(f.ltype, s, p, limit, StartOf(f.ltype, f, cur), if good then r.value else VBool(false), payload);
    if v.Bad? {
      return Bad;
    }
    StoredAs(f, cur, ValuesOf(cur) + [v.value], v.value);
    d := Parsed(if f.htype.Repeated? then Many(ValuesOf(cur) + [v.value]) else One(v.value), v.next);
  }

  lemma StoredBefore(f: Field, cur: FieldValue)
    ensures FieldOk(f) ==> TypeOk(f.ltype)
    ensures FieldStored(f, cur) && f.htype.Repeated? ==> |ValuesOf(cur)| <= f.htype.maxCount && AllStored(f.ltype, ValuesOf(cur))
  {
  }

  lemma StoredAs(f: Field, cur: FieldValue, values: seq<Value>, v: Value)
    ensures f.htype.Repeated? && |values| <= f.htype.maxCount && AllStored(f.ltype, values) ==> FieldStored(f, Many(values))
    ensures !f.htype.Repeated? && Stored(f.ltype, v) ==> FieldStored(f, One(v))
  {
  }

  lemma PackedPayload(m: Message, r: Record, payload: seq<Byte>, s: seq<Byte>, p: nat, limit: nat, wireType: nat, cur: FieldValue)
    requires ExpectsPayload(m, r, payload, s, p, limit, wireType, cur)
    requires m[r.field].htype.Repeated? && wireType == WT_STRING && Packable(m[r.field].ltype)
    ensures r.Packed?
    ensures var t := m[r.field].ltype;
            var size := PbVarint32(s, p, limit);
            && size.Parsed? && size.next + size.value == p + |payload| <= limit
            && ExpectsScalars(t, m[r.field].htype.maxCount, s, size.next, size.next + size.value, ValuesOf(cur), r.values)
  {
    hide EncodeScalars, PbVarint32, Delimited;
    DelimitedReads(s, p, limit, EncodeScalars(m[r.field].ltype, r.values));
  }

  lemma PlainPayload(m: Message, r: Record, payload: seq<Byte>, s: seq<Byte>, p: nat, limit: nat, wireType: nat, cur: FieldValue)
    requires ExpectsPayload(m, r, payload, s, p, limit, wireType, cur)
    requires !(m[r.field].htype.Repeated? && wireType == WT_STRING && Packable(m[r.field].ltype))
    ensures r.Plain? && ExpectsValue(m[r.field].ltype, s, p, limit, StartOf(m[r.field].ltype, m[r.field], cur), r.value, payload)
    ensures m[r.field].htype.Repeated? ==> |ValuesOf(cur)| < m[r.field].htype.maxCount
  {
    hide EncodeScalars, Delimited, StartOf;
    var f := m[r.field];
    PlainIsValue(f, r, payload);
    if f.ltype.Submessage? { StartsWithDefaults(f, cur); }
  }

  lemma PlainIsValue(f: Field, r: Record, payload: seq<Byte>)
    requires r.Plain? && Fits(f.ltype, r.value) && PlainBytes(f, r.value, payload)
    ensures ValueBytes(f.ltype, r.value, payload)
  {
  }

  lemma StartsWithDefaults(f: Field, cur: FieldValue)
    requires f.ltype.Submessage? && (f.htype.Repeated? || cur == DefaultOf(f))
    ensures StartOf(f.ltype, f, cur) == Defaults(f.ltype.fields)
  {
    DefaultsLength(f.ltype.fields);
  }

  /** The bytes come next, and behind them is the limit or a zero byte, which ends a message early. */
  predicate Ahead(s: seq<Byte>, p: nat, limit: nat, bytes: seq<Byte>) {
    Within(s, p, limit, bytes) && (p + |bytes| == limit || s[p + |bytes|] == 0)
  }

  /** The bytes up to the limit or to a zero are an arrangement of a message, and the struct has its defaults. */
  ghost predicate ExpectsMessage(m: Message, s: seq<Byte>, p: nat, limit: nat, start: seq<FieldValue>, vs: seq<FieldValue>, items: seq<Item>)
    requires p <= limit <= |s|
  {
    DescriptorOk(m) && IsArrangement(m, vs, items) && start == Defaults(m) && |s| < 0x1_0000_0000 && Ahead(s, p, limit, ItemsBytes(m, items))
  }

  /** The first `k` items have been taken in, and the others come next. */
  ghost predicate Decoding(m: Message, vs: seq<FieldValue>, items: seq<Item>, k: nat, s: seq<Byte>, p: nat, limit: nat,
                           dest: seq<FieldValue>, seen: set<nat>)
    requires p <= limit <= |s|
  {
    && DescriptorOk(m) && IsArrangement(m, vs, items) && |s| < 0x1_0000_0000
    && k <= |items| && Ahead(s, p, limit, ItemsBytes(m, items[k..]))
    && TakenIn(m, items, k, dest, seen)
  }

  /** Each field holds what its records so far make of it, and the required ones that came are noted. */
  ghost predicate TakenIn(m: Message, items: seq<Item>, k: nat, dest: seq<FieldValue>, seen: set<nat>) {
    && k <= |items| && |dest| == |m|
    && (forall i :: 0 <= i < |m| ==> dest[i] == FieldAfter(m[i], RecordsOf(items[..k], i)))
    && forall i :: 0 <= i < |m| && m[i].htype.Required? ==> (i in seen <==> RecordsOf(items[..k], i) != [])
  }

  lemma DecodingStarts(m: Message, s: seq<Byte>, p: nat, limit: nat, start: seq<FieldValue>, vs: seq<FieldValue>, items: seq<Item>)
    requires p <= limit <= |s| && ExpectsMessage(m, s, p, limit, start, vs, items)
    ensures Decoding(m, vs, items, 0, s, p, limit, start, {})
  {
    hide ItemsBytes, IsArrangement;
    DefaultsLength(m);
    assert items[..0] == [] && items[0..] == items;
    forall i | 0 <= i < |m| ensures start[i] == FieldAfter(m[i], RecordsOf([], i)) {
      DefaultsAt(m, i);
    }
  }

  lemma ItemNotEmpty(m: Message, it: Item)
    requires DescriptorOk(m) && ItemOk(m, it)
    ensures |TagBytes(m, it)| > 0
  {
    hide PlainBytes, UnknownPayload;
  }

  lemma ItemsUnfold(m: Message, items: seq<Item>, k: nat)
    requires k <= |items|
    ensures k < |items| ==> ItemsBytes(m, items[k..]) == (TagBytes(m, items[k]) + items[k].payload) + ItemsBytes(m, items[k + 1..])
    ensures k == |items| ==> ItemsBytes(m, items[k..]) == []
  {
    hide TagBytes;
    if k < |items| { assert items[k..][0] == items[k] && items[k..][1..] == items[k + 1..]; }
  }

  /** The next item: its tag is read, and its payload and the items behind it follow. */
  ghost predicate IsNext(m: Message, items: seq<Item>, k: nat, s: seq<Byte>, p: nat, limit: nat)
    requires p <= limit <= |s|
  {
    && k < |items|
    && var it := items[k];
       var tag := p + |TagBytes(m, it)|;
       var next := tag + |it.payload|;
       && Within(s, p, limit, TagBytes(m, it)) && Within(s, tag, limit, it.payload)
       && p < next <= limit && Ahead(s, next, limit, ItemsBytes(m, items[k + 1..]))
  }

  lemma NextItem(m: Message, vs: seq<FieldValue>, items: seq<Item>, k: nat, s: seq<Byte>, p: nat, limit: nat,
                 dest: seq<FieldValue>, seen: set<nat>)
    requires p < limit <= |s| && Decoding(m, vs, items, k, s, p, limit, dest, seen)
    ensures DescriptorOk(m) && IsArrangement(m, vs, items) && |s| < 0x1_0000_0000 && TakenIn(m, items, k, dest, seen)
    ensures k <= |items|
    ensures k < |items| ==> IsNext(m, items, k, s, p, limit) && ItemOk(m, items[k])
    ensures k == |items| ==> DecodeTag(s, p, limit).EndOfMessage?
  {
    hide TagBytes, ItemsBytes, ItemOk, TakenIn, Fills, Ahead, DecodeTag;
    ItemsUnfold(m, items, k);
    if k < |items| {
      var it := items[k];
      ItemNotEmpty(m, it);
      AheadParts(s, p, limit, TagBytes(m, it), it.payload, ItemsBytes(m, items[k + 1..]));
    } else {
      ZeroEnds(s, p, limit);
    }
  }

  lemma ZeroEnds(s: seq<Byte>, p: nat, limit: nat)
    requires p < limit <= |s| && Ahead(s, p, limit, [])
    ensures DecodeTag(s, p, limit).EndOfMessage?
  {
  }

  lemma AheadParts(s: seq<Byte>, p: nat, limit: nat, a: seq<Byte>, b: seq<Byte>, c: seq<Byte>)
    requires Ahead(s, p, limit, (a + b) + c)
    ensures Within(s, p, limit, a) && Within(s, p + |a|, limit, b)
    ensures p + |a| + |b| <= limit && Ahead(s, p + |a| + |b|, limit, c)
  {
    WithinSplit(s, p, limit, a + b, c);
    WithinSplit(s, p, limit, a, b);
  }

  /** The tag of the next item says what it is. */
  lemma TagOfNext(m: Message, items: seq<Item>, k: nat, s: seq<Byte>, p: nat, limit: nat)
    requires p < limit <= |s| && DescriptorOk(m) && IsNext(m, items, k, s, p, limit) && ItemOk(m, items[k])
    ensures var it := items[k];
            var next := p + |TagBytes(m, it)|;
            && (it.Known? ==> it.record.field < |m|
                              && DecodeTag(s, p, limit) == Tag(WireTypeOf(m, it.record), m[it.record.field].tag, next))
            && (it.Unknown? ==> DecodeTag(s, p, limit) == Tag(it.wireType, it.tag, next)
                                && SkipField(it.wireType, s, next, limit) == Parsed((), next + |it.payload|)
                                && forall i :: 0 <= i < |m| ==> m[i].tag != it.tag)
  {
    hide EncodeTag, DecodeTag, Within, PlainBytes, SkipField, ItemsBytes, Fits, Ahead;
    var it := items[k];
    if it.Known? {
      assert FieldOk(m[it.record.field]);
      TagReads(s, p, limit, WireTypeOf(m, it.record), m[it.record.field].tag);
    } else {
      KnownWireType(it.wireType, it.payload);
      TagReads(s, p, limit, it.wireType, it.tag);
      SkipReads(it.wireType, s, p + |TagBytes(m, it)|, limit, it.payload);
    }
  }

  lemma KnownWireType(wireType: nat, payload: seq<Byte>)
    requires UnknownPayload(wireType, payload)
    ensures wireType < 8
  {
  }

  lemma NextIsReady(m: Message, vs: seq<FieldValue>, items: seq<Item>, k: nat, s: seq<Byte>, p: nat, limit: nat,
                    dest: seq<FieldValue>, seen: set<nat>)
    requires p < limit <= |s| && DescriptorOk(m) && IsArrangement(m, vs, items) && |s| < 0x1_0000_0000
    requires TakenIn(m, items, k, dest, seen) && IsNext(m, items, k, s, p, limit) && ItemOk(m, items[k]) && items[k].Known?
    ensures var r := items[k].record;
            r.field < |m| && ExpectsPayload(m, r, items[k].payload, s, p + |TagBytes(m, items[k])|, limit, WireTypeOf(m, r), dest[r.field])
  {
    hide TagBytes, ItemsBytes, Within, Fills, IsArrangement, FieldAfter, Ahead;
    RoomFor(m, vs, items, k);
  }

  lemma DecodingStep(m: Message, vs: seq<FieldValue>, items: seq<Item>, k: nat, s: seq<Byte>, p: nat, limit: nat,
                     dest: seq<FieldValue>, seen: set<nat>, after: seq<FieldValue>, noted: set<nat>)
    requires p < limit <= |s| && Decoding(m, vs, items, k, s, p, limit, dest, seen) && IsNext(m, items, k, s, p, limit)
    requires var it := items[k];
             if it.Unknown? then after == dest && noted == seen
             else
               var i := it.record.field;
               && i < |m| && after == dest[i := TakeInto(m[i], dest[i], it.record)]
               && noted == if m[i].htype.Required? then seen + {i} else seen
    ensures Decoding(m, vs, items, k + 1, s, p + |TagBytes(m, items[k])| + |items[k].payload|, limit, after, noted)
  {
    hide TagBytes, ItemsBytes, IsArrangement, Within, Ahead;
    TakenOne(m, items, k, dest, seen, after, noted);
  }

  lemma TakenOne(m: Message, items: seq<Item>, k: nat, dest: seq<FieldValue>, seen: set<nat>, after: seq<FieldValue>, noted: set<nat>)
    requires TakenIn(m, items, k, dest, seen) && k < |items|
    requires var it := items[k];
             if it.Unknown? then after == dest && noted == seen
             else
               var i := it.record.field;
               && i < |m| && after == dest[i := TakeInto(m[i], dest[i], it.record)]
               && noted == if m[i].htype.Required? then seen + {i} else seen
    ensures TakenIn(m, items, k + 1, after, noted)
  {
    hide TakeInto;
    forall i | 0 <= i < |m|
      ensures after[i] == FieldAfter(m[i], RecordsOf(items[..k + 1], i))
      ensures m[i].htype.Required? ==> (i in noted <==> RecordsOf(items[..k + 1], i) != [])
    {
      OneMoreRecord(items, k, i);
      var before, upTo := RecordsOf(items[..k], i), RecordsOf(items[..k + 1], i);
      if upTo != before { assert upTo[..|upTo| - 1] == before; }
      hide RecordsOf;
    }
  }

  lemma DecodingEnds(m: Message, vs: seq<FieldValue>, items: seq<Item>, k: nat, s: seq<Byte>, p: nat, limit: nat,
                     dest: seq<FieldValue>, seen: set<nat>)
    requires p <= limit <= |s| && Decoding(m, vs, items, k, s, p, limit, dest, seen) && (p == limit || k == |items|)
    ensures dest == vs
    ensures forall i :: 0 <= i < |m| && m[i].htype.Required? ==> (i in seen <==> RecordsOf(items, i) != [])
  {
    hide Fills, FieldAfter, ItemOk, TagBytes;
    ItemsUnfold(m, items, k);
    if k < |items| { ItemNotEmpty(m, items[k]); }
    assert k == |items| && items[..k] == items;
    forall i | 0 <= i < |m| ensures dest[i] == vs[i] {
      assert Fills(m[i], vs[i], RecordsOf(items, i));
      FillsRebuild(m[i], vs[i], RecordsOf(items, i));
    }
  }

  // ----- the message -----

  /** Required fields seen so far; only so many of them are tracked. */
  method MissingRequired(m: Message, seen: set<nat>) returns (missing: bool)
    ensures missing <==> exists i :: 0 <= i < |m| && m[i].htype.Required? && RequiredBefore(m, i) < 64 && i !in seen
  {
    var count: nat := 0;
    for i := 0 to |m|
      invariant count == RequiredBefore(m, i)
      invariant forall j :: 0 <= j < i && m[j].htype.Required? && RequiredBefore(m, j) < 64 ==> j in seen
    {
      if m[i].htype.Required? {
        if count < MAX_REQUIRED_FIELDS && i !in seen {
          return true;
        }
        count := count + 1;
      }
    }
    return false;
  }

  /** Reads the records of a message. From any arrangement of a message it rebuilds the message, and succeeds exactly
      if the required fields it keeps track of are there. Whatever the bytes, every value fits its storage. */
  method DecodeMessage(m: Message, s: seq<Byte>, from: nat, limit: nat, start: seq<FieldValue>,
                       ghost vs: seq<FieldValue>, ghost items: seq<Item>)
    returns (ok: bool, dest: seq<FieldValue>)
    requires from <= limit <= |s| && |start| == |m|
    ensures |dest| == |m|
    ensures ExpectsMessage(m, s, from, limit, start, vs, items) ==> dest == vs && (ok <==> HasRequired(m, items))
    ensures DescriptorOk(m) && MessageStored(m, start) ==> MessageStored(m, dest)
    decreases limit - from, 4
  {
    hide ExpectsMessage, Decoding, HasRequired, DescriptorOk, MessageStored;
    ghost var good := ExpectsMessage(m, s, from, limit, start, vs, items);
    ghost var k: nat := 0;
    dest := start;
    var p := from;
    var seen: set<nat> := {};
    var ended := false;
    if good { DecodingStarts(m, s, from, limit, start, vs, items); }
    while p < limit && !ended
      invariant from <= p <= limit && |dest| == |m|
      invariant good ==> Decoding(m, vs, items, k, s, p, limit, dest, seen) && (ended ==> k == |items|)
      invariant DescriptorOk(m) && MessageStored(m, start) ==> MessageStored(m, dest)
      decreases limit - p, if ended then 0 else 1
    {
      var next: nat;
      ok, ended, next, dest, seen := DecodeRecord(m, s, p, limit, dest, seen, vs, items, k);
      if !ok {
        return false, dest;
      }
      p := next;
      if !ended { k := k + 1; }
    }
    if good { DecodingEnds(m, vs, items, k, s, p, limit, dest, seen); }
    var missing := MissingRequired(m, seen);
    if good { RequiredTold(m, items, seen, missing); }
    ok := !missing;
  }

  lemma RequiredTold(m: Message, items: seq<Item>, seen: set<nat>, missing: bool)
    requires forall i :: 0 <= i < |m| && m[i].htype.Required? ==> (i in seen <==> RecordsOf(items, i) != [])
    requires missing <==> exists i :: 0 <= i < |m| && m[i].htype.Required? && RequiredBefore(m, i) < 64 && i !in seen
    ensures !missing <==> HasRequired(m, items)
  {
  }

  /** Decodes a message into a struct that is first set to its defaults: the bytes that the encoder makes
      of a message are decoded to that message, submessages, arrays and negative numbers included. */
  method PbDecode(m: Message, s: seq<Byte>, ghost vs: seq<FieldValue>) returns (ok: bool, dest: seq<FieldValue>)
    ensures |dest| == |m|
    ensures DescriptorOk(m) && MessageFits(m, vs) && |s| < 0x1_0000_0000 && s == EncodeMessage(m, vs) ==> ok && dest == vs
    ensures DescriptorOk(m) ==> MessageStored(m, dest)
  {
    hide MessageFits, DescriptorOk, MessageStored, IsArrangement, EncodeMessage, HasRequired, ItemsFor, Records;
    DefaultsLength(m);
    assert s[0..|s|] == s;
    ghost var items: seq<Item> := [];
    if MessageFits(m, vs) {
      EncodedMessage(m, vs);
      items := ItemsFor(m, Records(m, vs, |m|));
    }
    if DescriptorOk(m) { DefaultsAreStored(m); }
    ok, dest := DecodeMessage(m, s, 0, |s|, Defaults(m), vs, items);
  }

  /** Reads one record, of a field that may be unknown, or the end of the message. */
  method DecodeRecord(m: Message, s: seq<Byte>, p: nat, limit: nat, before: seq<FieldValue>, seenBefore: set<nat>,
                      ghost vs: seq<FieldValue>, ghost items: seq<Item>, ghost k: nat)
    returns (ok: bool, ended: bool, next: nat, dest: seq<FieldValue>, seen: set<nat>)
    requires p < limit <= |s| && |before| == |m|
    ensures |dest| == |m| && (ok ==> p <= next <= limit && (!ended ==> p < next))
    ensures Decoding(m, vs, items, k, s, p, limit, before, seenBefore) ==>
              ok && Decoding(m, vs, items, if ended then k else k + 1, s, next, limit, dest, seen) && (ended ==> k == |items|)
    ensures DescriptorOk(m) && MessageStored(m, before) ==> MessageStored(m, dest)
    decreases limit - p, 3
  {
    hide Decoding, ExpectsPayload, DecodeTag, ItemOk, FieldOk, ItemsBytes, TagBytes, IsNext, TakeInto, IsArrangement,
         TakenIn, SkipField, MessageStored, DescriptorOk, FieldStored, Ahead;
    ghost var good := Decoding(m, vs, items, k, s, p, limit, before, seenBefore);
    dest, seen, next := before, seenBefore, p;
    if good {
      NextItem(m, vs, items, k, s, p, limit, before, seenBefore);
      if k < |items| {
        NextInBounds(m, items, k, s, p, limit);
        TagOfNext(m, items, k, s, p, limit);
        if items[k].Known? { NextIsReady(m, vs, items, k, s, p, limit, before, seenBefore); }
      }
    }
    var t := DecodeTag(s, p, limit);
    if t.BadTag? {
      return false, false, next, dest, seen;
    }
    if t.EndOfMessage? {
      return true, true, next, dest, seen;
    }
    var i := FindField(m, t.tag);
    if i == |m| {
      var d := SkipField(t.wireType, s, t.next, limit);
      if good { DecodingStep(m, vs, items, k, s, p, limit, before, seenBefore, dest, seen); }
      return d.Parsed?, false, if d.Parsed? then d.next else next, dest, seen;
    }
    if m[i].htype.Required? {
      seen := seen + {i};
    }
    ghost var it := if good then items[k] else Known(Plain(0, VBool(false)), []);
    if good && it.Known? { SameTag(m, i, it.record.field); }
    var d := DecodeField(m[i], t.wireType, s, t.next, limit, dest[i], m, if it.Known? then it.record else Plain(0, VBool(false)), it.payload);
    if d.Bad? {
      return false, false, next, dest, seen;
    }
    StoredField(m, before, i, d.value);
    dest := dest[i := d.value];
    next := d.next;
    if good { DecodingStep(m, vs, items, k, s, p, limit, before, seenBefore, dest, seen); }
    return true, false, next, dest, seen;
  }

  lemma NextInBounds(m: Message, items: seq<Item>, k: nat, s: seq<Byte>, p: nat, limit: nat)
    requires p <= limit <= |s| && IsNext(m, items, k, s, p, limit)
    ensures k < |items| && p < p + |TagBytes(m, items[k])| + |items[k].payload| <= limit
  {
    hide TagBytes, ItemsBytes, Within;
  }

  /** No two fields share a tag. */
  lemma SameTag(m: Message, i: nat, j: nat)
    requires DescriptorOk(m) && i < |m| && j < |m| && m[i].tag == m[j].tag
    ensures i == j
  {
  }

  lemma StoredField(m: Message, vs: seq<FieldValue>, i: nat, fv: FieldValue)
    requires i < |m| == |vs|
    ensures DescriptorOk(m) ==> FieldOk(m[i])
    ensures MessageStored(m, vs) ==> FieldStored(m[i], vs[i])
    ensures MessageStored(m, vs) && FieldStored(m[i], fv) ==> MessageStored(m, vs[i := fv])
  {
  }
}
