/** Messages as nanopb describes them, and the bytes the Protocol Buffers encoding gives them. */
module PbMessages {
  import opened Coding

  // ----- descriptors and values -----

  /** How a field's data is stored; sizes are in bytes, of the storage for strings and byte arrays. */
  datatype LType =
    | Bool
    | Varint(size: nat)     // signed, two's complement on the wire
    | UVarint(size: nat)
    | SVarint(size: nat)    // signed, zigzag on the wire
    | Fixed32
    | Fixed64
    | Bytes(size: nat)
    | String(size: nat)     // with its terminator
    | Submessage(fields: seq<Field>)

  datatype HType =
    | Required
    | Optional          // with a has_ flag
    | Implicit          // proto3: there unless it is zero
    | Repeated(maxCount: nat)

  datatype Field = Field(tag: nat, htype: HType, ltype: LType)

  type Message = seq<Field>

  datatype Value =
    | VBool(b: bool)
    | VInt(i: int)
    | VBytes(bytes: seq<Byte>)
    | VMessage(fields: seq<FieldValue>)

  /** What a struct holds for a field; one whose has_ flag is off is absent. */
  datatype FieldValue = One(value: Value) | Absent | Many(values: seq<Value>)

  predicate IntSize(n: nat) {
    n == 1 || n == 2 || n == 4 || n == 8
  }

  function Power(bytes: nat): nat {
    if bytes == 1 then 0x100 else if bytes == 2 then 0x1_0000 else if bytes == 4 then 0x1_0000_0000 else 0x1_0000_0000_0000_0000
  }

  predicate Packable(t: LType) {
    t.Bool? || t.Varint? || t.UVarint? || t.SVarint? || t.Fixed32? || t.Fixed64?
  }

  /** Tags are positive, fit a varint32 with the wire type, and no two fields share one. */
  predicate DescriptorOk(m: Message) {
    && (forall i :: 0 <= i < |m| ==> FieldOk(m[i]))
    && forall i, j :: 0 <= i < j < |m| ==> m[i].tag != m[j].tag
  }

  predicate FieldOk(f: Field) {
    0 < f.tag < 0x2000_0000 && TypeOk(f.ltype)
  }

  predicate TypeOk(t: LType) {
    match t
    case Varint(n) => IntSize(n)
    case UVarint(n) => IntSize(n)
    case SVarint(n) => IntSize(n)
    case Bytes(n) => n < 0x8000_0000
    case String(n) => n < 0x8000_0000
    case Submessage(fields) => DescriptorOk(fields)
    case _ => true
  }

  /** The value fits the storage of its type. */
  predicate Fits(t: LType, v: Value) {
    match t
    case Bool => v.VBool?
    case Varint(n) => v.VInt? && IntSize(n) && -(Power(n) / 2) <= v.i < Power(n) / 2
    case UVarint(n) => v.VInt? && IntSize(n) && 0 <= v.i < Power(n)
    case SVarint(n) => v.VInt? && IntSize(n) && -(Power(n) / 2) <= v.i < Power(n) / 2
    case Fixed32 => v.VInt? && 0 <= v.i < 0x1_0000_0000
    case Fixed64 => v.VInt? && 0 <= v.i < 0x1_0000_0000_0000_0000
    case Bytes(n) => v.VBytes? && |v.bytes| <= n
    case String(n) => v.VBytes? && |v.bytes| < n && forall i :: 0 <= i < |v.bytes| ==> v.bytes[i] != 0
    case Submessage(fields) => v.VMessage? && MessageFits(fields, v.fields)
  }

  predicate MessageFits(m: Message, vs: seq<FieldValue>) {
    |vs| == |m| && forall i :: 0 <= i < |m| ==> FieldFits(m[i], vs[i])
  }

  predicate FieldFits(f: Field, fv: FieldValue) {
    match f.htype
    case Required => fv.One? && Fits(f.ltype, fv.value)
    case Implicit => fv.One? && Fits(f.ltype, fv.value)
    case Optional => fv.Absent? || (fv.One? && Fits(f.ltype, fv.value))
    case Repeated(n) => fv.Many? && |fv.values| <= n && forall j :: 0 <= j < |fv.values| ==> Fits(f.ltype, fv.values[j])
  }

  // ----- defaults, all zero -----

  function ZeroValue(t: LType): Value {
    match t
    case Bool => VBool(false)
    case Bytes(_) => VBytes([])
    case String(_) => VBytes([])
    case Submessage(fields) => VMessage(Defaults(fields))
    case _ => VInt(0)
  }

  function Defaults(m: Message): seq<FieldValue> {
    if m == [] then [] else Defaults(m[..|m| - 1]) + [DefaultOf(m[|m| - 1])]
  }

  function DefaultOf(f: Field): FieldValue {
    match f.htype
    case Required => One(ZeroValue(f.ltype))
    case Implicit => One(ZeroValue(f.ltype))
    case Optional => Absent
    case Repeated(_) => Many([])
  }

  /** The check whether a proto3 field is left out. */
  predicate IsDefault(f: Field, fv: FieldValue)
    requires FieldFits(f, fv)
  {
    match f.htype
    case Required => false
    case Optional => fv.Absent?
    case Repeated(_) => fv.values == []
    case Implicit => IsZero(f.ltype, fv.value)
  }

  predicate IsZero(t: LType, v: Value)
    requires Fits(t, v)
  {
    match t
    case Bool => !v.b
    case Bytes(_) => v.bytes == []
    case String(_) => v.bytes == []
    case Submessage(fields) => MessageFits(fields, v.fields) && forall i :: 0 <= i < |fields| ==> IsDefault(fields[i], v.fields[i])
    case _ => v.i == 0
  }

  lemma {:induction false} DefaultsAt(m: Message, i: nat)
    requires i < |m|
    ensures |Defaults(m)| == |m| && Defaults(m)[i] == DefaultOf(m[i])
  {
    DefaultsLength(m[..|m| - 1]);
    if i < |m| - 1 {
      DefaultsAt(m[..|m| - 1], i);
    }
  }

  lemma {:induction false} DefaultsLength(m: Message)
    ensures |Defaults(m)| == |m|
  {
    if m != [] { DefaultsLength(m[..|m| - 1]); }
  }

  /** A field that is left out is one that has its default value. */
  lemma {:induction false} LeftOutIsDefault(f: Field, fv: FieldValue)
    requires FieldFits(f, fv) && IsDefault(f, fv)
    ensures fv == DefaultOf(f)
    decreases f
  {
    if f.htype.Implicit? { ZeroIsDefault(f.ltype, fv.value); }
  }

  lemma {:induction false} ZeroIsDefault(t: LType, v: Value)
    requires Fits(t, v) && IsZero(t, v)
    ensures v == ZeroValue(t)
    decreases t
  {
    if t.Submessage? {
      DefaultsLength(t.fields);
      forall i | 0 <= i < |t.fields| ensures v.fields[i] == Defaults(t.fields)[i] {
        DefaultsAt(t.fields, i);
        LeftOutIsDefault(t.fields[i], v.fields[i]);
      }
    }
  }
}
