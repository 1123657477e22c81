/** The encoder: it writes a message in one pass, and runs ahead over every submessage to learn its size. */
module PbEncoders {
  import opened Coding
  import opened PbMessages
  import opened PbWire

  datatype Error = Ok | StreamFull | ArrayTooLarge

  /** What a stream holds and has counted. */
  datatype Output = Output(out: seq<Byte>, written: nat)

  /** Encoding `bytes`: a sizing stream only counts them; a writing one takes them all if there is room. */
  predicate Emits(sizing: bool, maxSize: nat, a: Output, b: Output, bytes: seq<Byte>, e: Error) {
    if sizing then e == Ok && b == Output(a.out, a.written + |bytes|)
    else if a.written + |bytes| <= maxSize then e == Ok && b == Output(a.out + bytes, a.written + |bytes|)
    else e == StreamFull
  }

  lemma EmitsNothing(sizing: bool, maxSize: nat, a: Output)
    requires !sizing ==> a.written <= maxSize
    ensures Emits(sizing, maxSize, a, a, [], Ok)
  {
    assert a.out + [] == a.out;
  }

  /** Two parts one after the other. */
  lemma EmitsBoth(sizing: bool, maxSize: nat, a: Output, b: Output, c: Output, x: seq<Byte>, y: seq<Byte>, e: Error)
    requires Emits(sizing, maxSize, a, b, x, Ok) && Emits(sizing, maxSize, b, c, y, e)
    ensures Emits(sizing, maxSize, a, c, x + y, e)
  {
    assert (a.out + x) + y == a.out + (x + y);
  }

  /** A part that fails to be written makes the whole fail. */
  lemma EmitsPart(sizing: bool, maxSize: nat, a: Output, b: Output, c: Output, x: seq<Byte>, y: seq<Byte>, e: Error)
    requires Emits(sizing, maxSize, a, b, x, e) && e != Ok
    ensures Emits(sizing, maxSize, a, c, x + y, e)
  {
  }

  lemma EmitsPrefix(sizing: bool, maxSize: nat, a: Output, b: Output, c: Output, x: seq<Byte>, whole: seq<Byte>, e: Error)
    requires Emits(sizing, maxSize, a, b, x, e) && e != Ok && x <= whole
    ensures Emits(sizing, maxSize, a, c, whole, e)
  {
  }

  class OStream {
    const sizing: bool
    const maxSize: nat
    var out: seq<Byte>
    var written: nat

    function State(): Output reads this {
      Output(out, written)
    }

    predicate Valid() reads this {
      !sizing ==> written <= maxSize
    }

    constructor (sizing: bool, maxSize: nat, out: seq<Byte>)
      ensures Valid() && State() == Output(out, 0) && this.sizing == sizing && this.maxSize == maxSize
    {
      this.sizing, this.maxSize, this.out, written := sizing, maxSize, out, 0;
    }

    method Write(bytes: seq<Byte>) returns (e: Error)
      requires Valid()
      modifies this
      ensures Valid() && Emits(sizing, maxSize, old(State()), State(), bytes, e)
    {
      if |bytes| > 0 && !sizing {
        if written + |bytes| > maxSize {
          return StreamFull;
        }
        out := out + bytes;
      }
      written := written + |bytes|;
      if |bytes| == 0 { assert out + bytes == out; }
      return Ok;
    }

    /** Counts bytes that are not at hand. */
    method Count(n: nat)
      requires Valid() && sizing
      modifies this
      ensures Valid() && State() == Output(old(out), old(written) + n)
    {
      written := written + n;
    }
  }

  method EncodeUnsigned(stream: OStream, v: nat) returns (e: Error)
    requires stream.Valid()
    modifies stream
    ensures stream.Valid() && Emits(stream.sizing, stream.maxSize, old(stream.State()), stream.State(), EncodeVarint(v), e)
  {
    e := stream.Write(EncodeVarint(v));
  }

  method EncodeScalarField(stream: OStream, t: LType, v: Value) returns (e: Error)
    requires stream.Valid() && Packable(t) && Fits(t, v)
    modifies stream
    ensures stream.Valid() && Emits(stream.sizing, stream.maxSize, old(stream.State()), stream.State(), EncodeScalar(t, v), e)
  {
    match t
    case Bool => e := EncodeUnsigned(stream, if v.b then 1 else 0);
    case Varint(_) => e := EncodeUnsigned(stream, Unsigned64(v.i));
    case UVarint(_) => e := EncodeUnsigned(stream, v.i);
    case SVarint(_) => e := EncodeUnsigned(stream, Zigzag(v.i));
    case Fixed32 => e := stream.Write(LittleEndian(v.i, 4));
    case Fixed64 => e := stream.Write(LittleEndian(v.i, 8));
  }

  method EncodeTagOf(stream: OStream, wireType: nat, tag: nat) returns (e: Error)
    requires stream.Valid()
    modifies stream
    ensures stream.Valid() && Emits(stream.sizing, stream.maxSize, old(stream.State()), stream.State(), EncodeTag(wireType, tag), e)
  {
    e := EncodeUnsigned(stream, tag * 8 + wireType);
  }

  /** Bytes behind their length. */
  method EncodeString(stream: OStream, bytes: seq<Byte>) returns (e: Error)
    requires stream.Valid()
    modifies stream
    ensures stream.Valid() && Emits(stream.sizing, stream.maxSize, old(stream.State()), stream.State(), Delimited(bytes), e)
  {
    hide Emits;
    ghost var a := stream.State();
    e := EncodeUnsigned(stream, |bytes|);
    if e != Ok {
      EmitsPart(stream.sizing, stream.maxSize, a, stream.State(), stream.State(), EncodeVarint(|bytes|), bytes, e);
      return;
    }
    ghost var b := stream.State();
    e := stream.Write(bytes);
    EmitsBoth(stream.sizing, stream.maxSize, a, b, stream.State(), EncodeVarint(|bytes|), bytes, e);
  }

  method EncodeScalarsOf(stream: OStream, t: LType, vs: seq<Value>) returns (e: Error)
    requires stream.Valid() && Packable(t) && forall j :: 0 <= j < |vs| ==> Fits(t, vs[j])
    modifies stream
    ensures stream.Valid() && Emits(stream.sizing, stream.maxSize, old(stream.State()), stream.State(), EncodeScalars(t, vs), e)
  {
    hide Emits, Fits, EncodeScalar;
    ghost var a := stream.State();
    EmitsNothing(stream.sizing, stream.maxSize, a);
    e := Ok;
    for i := 0 to |vs|
      invariant stream.Valid() && e == Ok
      invariant Emits(stream.sizing, stream.maxSize, a, stream.State(), EncodeScalars(t, vs[..i]), Ok)
    {
      ghost var b := stream.State();
      e := EncodeScalarField(stream, t, vs[i]);
      assert vs[..i + 1][..i] == vs[..i];
      EmitsBoth(stream.sizing, stream.maxSize, a, b, stream.State(), EncodeScalars(t, vs[..i]), EncodeScalar(t, vs[i]), e);
      if e != Ok {
        ScalarsSplit(t, vs, i + 1);
        EmitsPrefix(stream.sizing, stream.maxSize, a, stream.State(), stream.State(), EncodeScalars(t, vs[..i + 1]), EncodeScalars(t, vs), e);
        return;
      }
    }
    assert vs[..|vs|] == vs;
  }

  lemma {:induction false} ScalarsSplit(t: LType, vs: seq<Value>, i: nat)
    requires Packable(t) && i <= |vs| && forall j :: 0 <= j < |vs| ==> Fits(t, vs[j])
    ensures EncodeScalars(t, vs[..i]) <= EncodeScalars(t, vs)
    decreases |vs| - i
  {
    hide Fits, EncodeScalar;
    if i < |vs| {
      assert vs[..i + 1][..i] == vs[..i];
      ScalarsSplit(t, vs, i + 1);
    } else {
      assert vs[..i] == vs;
    }
  }

  // ----- values, arrays, fields, messages -----

  method EncodeValueOf(stream: OStream, t: LType, v: Value) returns (e: Error)
    requires stream.Valid() && Fits(t, v)
    modifies stream
    ensures stream.Valid() && Emits(stream.sizing, stream.maxSize, old(stream.State()), stream.State(), EncodeValue(t, v), e)
    decreases t
  {
    hide Emits;
    if Packable(t) {
      e := EncodeScalarField(stream, t, v);
    } else if t.Submessage? {
      e := EncodeSubmessage(stream, t.fields, v.fields);
    } else {
      e := EncodeString(stream, v.bytes);
    }
  }

  /** A submessage is encoded twice: to count its bytes, and to write them behind the count. That the
      second pass might write another number of bytes is checked, and does not happen. */
  method EncodeSubmessage(stream: OStream, m: Message, vs: seq<FieldValue>) returns (e: Error)
    requires stream.Valid() && MessageFits(m, vs)
    modifies stream
    ensures stream.Valid() && Emits(stream.sizing, stream.maxSize, old(stream.State()), stream.State(), Delimited(EncodeMessage(m, vs)), e)
    decreases m, 3
  {
    hide EncodeMessage, MessageFits;
    ghost var a := stream.State();
    ghost var bytes := EncodeMessage(m, vs);
    var substream := new OStream(true, 0, []);
    e := PbEncode(substream, m, vs);
    var size := substream.written;
    e := EncodeUnsigned(stream, size);
    if e != Ok {
      return;
    }
    if stream.sizing {
      stream.Count(size);
      return;
    }
    if stream.written + size > stream.maxSize {
      return StreamFull;
    }
    ghost var b := stream.State();
    var inner := new OStream(false, size, stream.out);
    e := PbEncode(inner, m, vs);
    stream.out := inner.out;
    stream.written := stream.written + inner.written;
    if inner.written != size {
      assert false;  // the error "submsg size changed"
    }
    EmitsBoth(stream.sizing, stream.maxSize, a, b, stream.State(), EncodeVarint(size), bytes, e);
  }

  method EncodeArray(stream: OStream, f: Field, vs: seq<Value>) returns (e: Error)
    requires stream.Valid() && f.htype.Repeated? && forall j :: 0 <= j < |vs| ==> Fits(f.ltype, vs[j])
    modifies stream
    ensures stream.Valid()
    ensures |vs| > f.htype.maxCount ==> e == ArrayTooLarge
    ensures |vs| <= f.htype.maxCount ==>
              Emits(stream.sizing, stream.maxSize, old(stream.State()), stream.State(), EncodeField(f, Many(vs)), e)
    decreases f, 1
  {
    hide Emits, EncodePlains, EncodePacked;
    if |vs| == 0 {
      EmitsNothing(stream.sizing, stream.maxSize, stream.State());
      ArrayOfNone(f);
      return Ok;
    }
    if |vs| > f.htype.maxCount {
      return ArrayTooLarge;
    }
    if Packable(f.ltype) {
      e := EncodePackedArray(stream, f, vs);
    } else {
      e := EncodePlainArray(stream, f, vs);
    }
  }

  lemma ArrayOfNone(f: Field)
    requires f.htype.Repeated?
    ensures EncodeField(f, Many([])) == []
  {
  }

  method EncodePackedArray(stream: OStream, f: Field, vs: seq<Value>) returns (e: Error)
    requires stream.Valid() && Packable(f.ltype) && forall j :: 0 <= j < |vs| ==> Fits(f.ltype, vs[j])
    modifies stream
    ensures stream.Valid() && Emits(stream.sizing, stream.maxSize, old(stream.State()), stream.State(), EncodePacked(f, vs), e)
  {
    hide Emits, EncodeScalars;
    ghost var a, bytes := stream.State(), EncodeScalars(f.ltype, vs);
    e := EncodeTagOf(stream, WT_STRING, f.tag);
    if e != Ok {
      EmitsPart(stream.sizing, stream.maxSize, a, stream.State(), stream.State(), EncodeTag(WT_STRING, f.tag), Delimited(bytes), e);
      return;
    }
    ghost var b := stream.State();
    var size: nat;
    if f.ltype.Fixed32? {
      size := 4 * |vs|;
      FixedSizes(f.ltype, vs);
    } else if f.ltype.Fixed64? {
      size := 8 * |vs|;
      FixedSizes(f.ltype, vs);
    } else {
      size := SizeOfScalars(f.ltype, vs);
    }
    e := PackedPayload(stream, f.ltype, vs, size);
    EmitsBoth(stream.sizing, stream.maxSize, a, b, stream.State(), EncodeTag(WT_STRING, f.tag), Delimited(bytes), e);
  }

  /** The sizing pass over a packed array. */
  method SizeOfScalars(t: LType, vs: seq<Value>) returns (size: nat)
    requires Packable(t) && forall j :: 0 <= j < |vs| ==> Fits(t, vs[j])
    ensures size == |EncodeScalars(t, vs)|
  {
    var substream := new OStream(true, 0, []);
    var _ := EncodeScalarsOf(substream, t, vs);
    size := substream.written;
  }

  method PackedPayload(stream: OStream, t: LType, vs: seq<Value>, size: nat) returns (e: Error)
    requires stream.Valid() && Packable(t) && (forall j :: 0 <= j < |vs| ==> Fits(t, vs[j])) && size == |EncodeScalars(t, vs)|
    modifies stream
    ensures stream.Valid() && Emits(stream.sizing, stream.maxSize, old(stream.State()), stream.State(), Delimited(EncodeScalars(t, vs)), e)
  {
    hide EncodeScalars, Fits;
    ghost var a, bytes := stream.State(), EncodeScalars(t, vs);
    e := EncodeUnsigned(stream, size);
    if e != Ok {
      return;
    }
    if stream.sizing {
      stream.Count(size);
      return;
    }
    ghost var b := stream.State();
    e := EncodeScalarsOf(stream, t, vs);
    EmitsBoth(stream.sizing, stream.maxSize, a, b, stream.State(), EncodeVarint(size), bytes, e);
  }

  lemma {:induction false} FixedSizes(t: LType, vs: seq<Value>)
    requires (t.Fixed32? || t.Fixed64?) && forall j :: 0 <= j < |vs| ==> Fits(t, vs[j])
    ensures |EncodeScalars(t, vs)| == (if t.Fixed32? then 4 else 8) * |vs|
    decreases |vs|
  {
    if vs != [] { FixedSizes(t, vs[..|vs| - 1]); }
  }

  method EncodePlainArray(stream: OStream, f: Field, vs: seq<Value>) returns (e: Error)
    requires stream.Valid() && forall j :: 0 <= j < |vs| ==> Fits(f.ltype, vs[j])
    modifies stream
    ensures stream.Valid() && Emits(stream.sizing, stream.maxSize, old(stream.State()), stream.State(), EncodePlains(f, vs), e)
    decreases f, 0, 1
  {
    hide Emits, Fits, EncodePlain;
    ghost var a := stream.State();
    EmitsNothing(stream.sizing, stream.maxSize, a);
    e := Ok;
    for i := 0 to |vs|
      invariant stream.Valid() && e == Ok
      invariant Emits(stream.sizing, stream.maxSize, a, stream.State(), EncodePlains(f, vs[..i]), Ok)
    {
      ghost var b := stream.State();
      e := EncodePlainOf(stream, f, vs[i]);
      assert vs[..i + 1][..i] == vs[..i];
      EmitsBoth(stream.sizing, stream.maxSize, a, b, stream.State(), EncodePlains(f, vs[..i]), EncodePlain(f, vs[i]), e);
      if e != Ok {
        PlainsSplit(f, vs, i + 1);
        EmitsPrefix(stream.sizing, stream.maxSize, a, stream.State(), stream.State(), EncodePlains(f, vs[..i + 1]), EncodePlains(f, vs), e);
        return;
      }
    }
    assert vs[..|vs|] == vs;
  }

  lemma {:induction false} PlainsSplit(f: Field, vs: seq<Value>, i: nat)
    requires i <= |vs| && forall j :: 0 <= j < |vs| ==> Fits(f.ltype, vs[j])
    ensures EncodePlains(f, vs[..i]) <= EncodePlains(f, vs)
    decreases |vs| - i
  {
    hide Fits, EncodePlain;
    if i < |vs| {
      assert vs[..i + 1][..i] == vs[..i];
      PlainsSplit(f, vs, i + 1);
    } else {
      assert vs[..i] == vs;
    }
  }

  /** A value behind its tag. */
  method EncodePlainOf(stream: OStream, f: Field, v: Value) returns (e: Error)
    requires stream.Valid() && Fits(f.ltype, v)
    modifies stream
    ensures stream.Valid() && Emits(stream.sizing, stream.maxSize, old(stream.State()), stream.State(), EncodePlain(f, v), e)
    decreases f, 0, 0
  {
    hide Emits, Fits, EncodeValue;
    ghost var a, tag := stream.State(), EncodeTag(WireType(f.ltype), f.tag);
    e := EncodeTagOf(stream, WireType(f.ltype), f.tag);
    if e != Ok {
      EmitsPart(stream.sizing, stream.maxSize, a, stream.State(), stream.State(), tag, EncodeValue(f.ltype, v), e);
      return;
    }
    ghost var b := stream.State();
    e := EncodeValueOf(stream, f.ltype, v);
    EmitsBoth(stream.sizing, stream.maxSize, a, b, stream.State(), tag, EncodeValue(f.ltype, v), e);
  }

  method EncodeFieldOf(stream: OStream, f: Field, fv: FieldValue) returns (e: Error)
    requires stream.Valid() && FieldFits(f, fv)
    modifies stream
    ensures stream.Valid() && Emits(stream.sizing, stream.maxSize, old(stream.State()), stream.State(), EncodeField(f, fv), e)
    decreases f, 2
  {
    hide Emits, EncodePlain, EncodePlains, EncodePacked, IsDefault, Fits;
    EmitsNothing(stream.sizing, stream.maxSize, stream.State());
    e := Ok;
    match f.htype
    case Required => e := EncodePlainOf(stream, f, fv.value);
    case Optional =>
      if fv.One? {
        e := EncodePlainOf(stream, f, fv.value);
      }
    case Implicit =>
      if !IsDefault(f, fv) {
        e := EncodePlainOf(stream, f, fv.value);
      }
    case Repeated(_) => e := EncodeArray(stream, f, fv.values);
  }

  /** Encodes a message: exactly its bytes if there is room for them, and a sizing stream counts exactly them. */
  method PbEncode(stream: OStream, m: Message, vs: seq<FieldValue>) returns (e: Error)
    requires stream.Valid() && MessageFits(m, vs)
    modifies stream
    ensures stream.Valid() && Emits(stream.sizing, stream.maxSize, old(stream.State()), stream.State(), EncodeMessage(m, vs), e)
    decreases m, 2
  {
    hide Emits, EncodeRecords, EncodeField, FieldFits, FieldRecords, RecordOk;
    ghost var a := stream.State();
    EmitsNothing(stream.sizing, stream.maxSize, a);
    NoRecords(m);
    e := Ok;
    for i := 0 to |m|
      invariant stream.Valid() && e == Ok
      invariant Emits(stream.sizing, stream.maxSize, a, stream.State(), EncodeRecords(m, Records(m, vs, i)), Ok)
    {
      ghost var b := stream.State();
      e := EncodeFieldOf(stream, m[i], vs[i]);
      EncodeGrows(m, vs, i);
      FieldBytes(m, i, vs[i]);
      EmitsBoth(stream.sizing, stream.maxSize, a, b, stream.State(), EncodeRecords(m, Records(m, vs, i)), EncodeField(m[i], vs[i]), e);
      if e != Ok {
        MessageSplit(m, vs, i + 1);
        EmitsPrefix(stream.sizing, stream.maxSize, a, stream.State(), stream.State(), EncodeRecords(m, Records(m, vs, i + 1)),
                    EncodeMessage(m, vs), e);
        return;
      }
    }
  }

  lemma {:induction false} MessageSplit(m: Message, vs: seq<FieldValue>, i: nat)
    requires MessageFits(m, vs) && i <= |m|
    ensures EncodeRecords(m, Records(m, vs, i)) <= EncodeMessage(m, vs)
    decreases |m| - i
  {
    hide EncodeRecords, FieldRecords, RecordOk;
    if i < |m| {
      EncodeGrows(m, vs, i);
      MessageSplit(m, vs, i + 1);
    }
  }
}
