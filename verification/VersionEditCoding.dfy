/** The bytes of a manifest record. Keys are in their encoded form here. */
module VersionEditCoding {
  import opened Coding
  import opened InternalKeys
  import opened Versions

  type Number = Word64
  type Bytes = s: seq<Byte> | |s| < 0x1_0000_0000

  datatype NewFile = NewFile(level: nat, number: Number, size: Number, smallest: Bytes, largest: Bytes)

  datatype Edit = Edit(
    comparator: Option<Bytes>,
    logNumber: Option<Number>,
    prevLogNumber: Option<Number>,
    nextFileNumber: Option<Number>,
    lastSequence: Option<Number>,
    compactPointers: seq<(nat, Bytes)>,
    deletedFiles: set<(nat, Number)>,
    newFiles: seq<NewFile>)

  const NO_EDIT := Edit(None, None, None, None, None, [], {}, [])

  /** One tagged field of the record. */
  datatype Field =
    | Comparator(name: Bytes)
    | LogNumber(number: Number)
    | PrevLogNumber(number: Number)
    | NextFileNumber(number: Number)
    | LastSequence(number: Number)
    | CompactPointer(level: nat, key: Bytes)
    | DeletedFile(level: nat, number: Number)
    | AddedFile(file: NewFile)

  /** Levels exist, and internal keys are not empty. */
  predicate FieldOk(f: Field) {
    match f
    case CompactPointer(level, key) => level < NUM_LEVELS && key != []
    case DeletedFile(level, _) => level < NUM_LEVELS
    case AddedFile(file) => file.level < NUM_LEVELS && file.smallest != [] && file.largest != []
    case _ => true
  }

  // ----- fields and edits -----

  function Take(e: Edit, f: Field): Edit {
    match f
    case Comparator(name) => e.(comparator := Some(name))
    case LogNumber(n) => e.(logNumber := Some(n))
    case PrevLogNumber(n) => e.(prevLogNumber := Some(n))
    case NextFileNumber(n) => e.(nextFileNumber := Some(n))
    case LastSequence(n) => e.(lastSequence := Some(n))
    case CompactPointer(level, key) => e.(compactPointers := e.compactPointers + [(level, key)])
    case DeletedFile(level, n) => e.(deletedFiles := e.deletedFiles + {(level, n)})
    case AddedFile(file) => e.(newFiles := e.newFiles + [file])
  }

  function TakeAll(e: Edit, fs: seq<Field>): Edit {
    if fs == [] then e else Take(TakeAll(e, fs[..|fs| - 1]), fs[|fs| - 1])
  }

  /** The deleted files in the order in which they are written. */
  ghost predicate Enumerates(order: seq<(nat, Number)>, deleted: set<(nat, Number)>) {
    forall p :: p in order <==> p in deleted
  }

  /** The fields of an edit in the order in which they are written. */
  function Fields(e: Edit, order: seq<(nat, Number)>): seq<Field> {
    Headers(e) + PointerFields(e.compactPointers) + DeletedFields(order) + FileFields(e.newFiles)
  }

  function PointerFields(ps: seq<(nat, Bytes)>): seq<Field> {
    seq(|ps|, i requires 0 <= i < |ps| => CompactPointer(ps[i].0, ps[i].1))
  }

  function DeletedFields(ps: seq<(nat, Number)>): seq<Field> {
    seq(|ps|, i requires 0 <= i < |ps| => DeletedFile(ps[i].0, ps[i].1))
  }

  function FileFields(files: seq<NewFile>): seq<Field> {
    seq(|files|, i requires 0 <= i < |files| => AddedFile(files[i]))
  }

  function Members(ps: seq<(nat, Number)>): (s: set<(nat, Number)>)
    ensures forall p :: p in s <==> p in ps
  {
    if ps == [] then {} else Members(ps[..|ps| - 1]) + {ps[|ps| - 1]}
  }

  function Headers(e: Edit): seq<Field> {
    (if e.comparator.Some? then [Comparator(e.comparator.value)] else [])
    + (if e.logNumber.Some? then [LogNumber(e.logNumber.value)] else [])
    + (if e.prevLogNumber.Some? then [PrevLogNumber(e.prevLogNumber.value)] else [])
    + (if e.nextFileNumber.Some? then [NextFileNumber(e.nextFileNumber.value)] else [])
    + (if e.lastSequence.Some? then [LastSequence(e.lastSequence.value)] else [])
  }

  lemma {:induction false} TakeConcat(e: Edit, fs: seq<Field>, gs: seq<Field>)
    ensures TakeAll(e, fs + gs) == TakeAll(TakeAll(e, fs), gs)
    decreases |gs|
  {
    hide Take;
    if gs == [] {
      assert fs + gs == fs;
    } else {
      var init := gs[..|gs| - 1];
      TakeConcat(e, fs, init);
      assert (fs + gs)[..|fs + gs| - 1] == fs + init;
    }
  }

  lemma TakeOne(e: Edit, f: Field)
    ensures TakeAll(e, [f]) == Take(e, f)
  {
    assert [f][..0] == [];
    assert TakeAll(e, []) == e;
  }

  // ----- the bytes of a field -----

  function EncodeVarint64(n: Number): (s: seq<Byte>)
    ensures |s| > 0
  {
    EncodeVarint(n)
  }

  function EncodeSlice(b: Bytes): seq<Byte> {
    EncodeVarint32(|b|) + b
  }

  function Tag(f: Field): Byte {
    match f
    case Comparator(_) => 1
    case LogNumber(_) => 2
    case NextFileNumber(_) => 3
    case LastSequence(_) => 4
    case CompactPointer(_, _) => 5
    case DeletedFile(_, _) => 6
    case AddedFile(_) => 7
    case PrevLogNumber(_) => 9
  }

  function EncodeBody(f: Field): seq<Byte>
    requires FieldOk(f)
  {
    match f
    case Comparator(name) => EncodeSlice(name)
    case LogNumber(n) => EncodeVarint64(n)
    case PrevLogNumber(n) => EncodeVarint64(n)
    case NextFileNumber(n) => EncodeVarint64(n)
    case LastSequence(n) => EncodeVarint64(n)
    case CompactPointer(level, key) => EncodeVarint32(level) + EncodeSlice(key)
    case DeletedFile(level, n) => EncodeVarint32(level) + EncodeVarint64(n)
    case AddedFile(f) =>
      EncodeVarint32(f.level) + (EncodeVarint64(f.number) + (EncodeVarint64(f.size) + (EncodeSlice(f.smallest) + EncodeSlice(f.largest))))
  }

  function EncodeField(f: Field): seq<Byte>
    requires FieldOk(f)
  {
    EncodeVarint32(Tag(f)) + EncodeBody(f)
  }

  function EncodeFields(fs: seq<Field>): seq<Byte>
    requires forall i :: 0 <= i < |fs| ==> FieldOk(fs[i])
  {
    if fs == [] then [] else EncodeField(fs[0]) + EncodeFields(fs[1..])
  }

  // ----- reading -----

  function GetSlice(s: seq<Byte>, p: nat): (r: Parsed<Bytes>)
    ensures r.Parsed? ==> p < r.next <= |s|
  {
    var d := GetVarint32(s, p, |s|);
    if d.Parsed? && d.next + d.value <= |s| then Parsed(s[d.next..d.next + d.value], d.next + d.value) else Bad
  }

  function GetInternalKey(s: seq<Byte>, p: nat): (r: Parsed<Bytes>)
    ensures r.Parsed? ==> p < r.next <= |s|
  {
    var d := GetSlice(s, p);
    if d.Parsed? && d.value == [] then Bad else d
  }

  function GetLevel(s: seq<Byte>, p: nat): (r: Parsed<nat>)
    ensures r.Parsed? ==> p < r.next <= |s| && r.value < NUM_LEVELS
  {
    var d := GetVarint32(s, p, |s|);
    if d.Parsed? && d.value < NUM_LEVELS then Parsed(d.value, d.next) else Bad
  }

  lemma ReadsVarint64(s: seq<Byte>, p: nat, n: Number)
    requires Stands(s, p, EncodeVarint64(n))
    ensures GetVarint64(s, p, |s|) == Parsed(n, p + |EncodeVarint64(n)|)
  {
    Varint64RoundTrip(n, s, p, |s|);
  }

  lemma ReadsSlice(s: seq<Byte>, p: nat, b: Bytes)
    requires Stands(s, p, EncodeSlice(b))
    ensures GetSlice(s, p) == Parsed(b, p + |EncodeSlice(b)|)
  {
    hide EncodeVarint32, GetVarint32;
    StandsSplit(s, p, EncodeVarint32(|b|), b);
    Varint32RoundTrip(|b|, s, p, |s|);
  }

  lemma ReadsLevel(s: seq<Byte>, p: nat, level: nat)
    requires level < NUM_LEVELS && Stands(s, p, EncodeVarint32(level))
    ensures GetLevel(s, p) == Parsed(level, p + |EncodeVarint32(level)|)
  {
    Varint32RoundTrip(level, s, p, |s|);
  }

  // ----- decoding a field -----

  function DecodeBody(tag: nat, s: seq<Byte>, p: nat): (r: Parsed<Field>)
    ensures r.Parsed? ==> p < r.next <= |s|
  {
    if tag == 1 then (var d := GetSlice(s, p); if d.Bad? then Bad else Parsed(Comparator(d.value), d.next))
    else if tag == 2 then (var d := GetVarint64(s, p, |s|); if d.Bad? then Bad else Parsed(LogNumber(d.value), d.next))
    else if tag == 9 then (var d := GetVarint64(s, p, |s|); if d.Bad? then Bad else Parsed(PrevLogNumber(d.value), d.next))
    else if tag == 3 then (var d := GetVarint64(s, p, |s|); if d.Bad? then Bad else Parsed(NextFileNumber(d.value), d.next))
    else if tag == 4 then (var d := GetVarint64(s, p, |s|); if d.Bad? then Bad else Parsed(LastSequence(d.value), d.next))
    else if tag == 5 then DecodePointer(s, p)
    else if tag == 6 then DecodeDeleted(s, p)
    else if tag == 7 then DecodeAdded(s, p)
    else Bad
  }

  function DecodePointer(s: seq<Byte>, p: nat): (r: Parsed<Field>)
    ensures r.Parsed? ==> p < r.next <= |s|
  {
    var level := GetLevel(s, p);
    if level.Bad? then Bad
    else
      var key := GetInternalKey(s, level.next);
      if key.Bad? then Bad else Parsed(CompactPointer(level.value, key.value), key.next)
  }

  function DecodeDeleted(s: seq<Byte>, p: nat): (r: Parsed<Field>)
    ensures r.Parsed? ==> p < r.next <= |s|
  {
    var level := GetLevel(s, p);
    if level.Bad? then Bad
    else
      var n := GetVarint64(s, level.next, |s|);
      if n.Bad? then Bad else Parsed(DeletedFile(level.value, n.value), n.next)
  }

  function DecodeAdded(s: seq<Byte>, p: nat): (r: Parsed<Field>)
    ensures r.Parsed? ==> p < r.next <= |s|
  {
    var level := GetLevel(s, p);
    if level.Bad? then Bad
    else
      var number := GetVarint64(s, level.next, |s|);
      if number.Bad? then Bad
      else
        var size := GetVarint64(s, number.next, |s|);
        if size.Bad? then Bad
        else
          var smallest := GetInternalKey(s, size.next);
          if smallest.Bad? then Bad
          else
            var largest := GetInternalKey(s, smallest.next);
            if largest.Bad? then Bad
            else Parsed(AddedFile(NewFile(level.value, number.value, size.value, smallest.value, largest.value)), largest.next)
  }

  lemma PointerReads(s: seq<Byte>, p: nat, f: Field)
    requires FieldOk(f) && (f.CompactPointer? || f.DeletedFile?) && Stands(s, p, EncodeBody(f))
    ensures DecodeBody(Tag(f), s, p) == Parsed(f, p + |EncodeBody(f)|)
  {
    hide EncodeVarint32, EncodeVarint64, GetVarint64, GetSlice, GetLevel, EncodeSlice;
    var rest := if f.CompactPointer? then EncodeSlice(f.key) else EncodeVarint64(f.number);
    StandsSplit(s, p, EncodeVarint32(f.level), rest);
    ReadsLevel(s, p, f.level);
    if f.CompactPointer? { ReadsSlice(s, p + |EncodeVarint32(f.level)|, f.key); }
    else { ReadsVarint64(s, p + |EncodeVarint32(f.level)|, f.number); }
  }

  lemma AddedReads(s: seq<Byte>, p: nat, f: NewFile)
    requires FieldOk(AddedFile(f)) && Stands(s, p, EncodeBody(AddedFile(f)))
    ensures DecodeAdded(s, p) == Parsed(AddedFile(f), p + |EncodeBody(AddedFile(f))|)
  {
    hide EncodeVarint32, EncodeVarint64, GetVarint64, GetSlice, GetLevel, EncodeSlice, Stands;
    var a, b, c, d, e := EncodeVarint32(f.level), EncodeVarint64(f.number), EncodeVarint64(f.size), EncodeSlice(f.smallest), EncodeSlice(f.largest);
    StandsSplit(s, p, a, b + (c + (d + e)));
    StandsSplit(s, p + |a|, b, c + (d + e));
    StandsSplit(s, p + |a| + |b|, c, d + e);
    StandsSplit(s, p + |a| + |b| + |c|, d, e);
    ReadsLevel(s, p, f.level);
    ReadsVarint64(s, p + |a|, f.number);
    ReadsVarint64(s, p + |a| + |b|, f.size);
    ReadsSlice(s, p + |a| + |b| + |c|, f.smallest);
    ReadsSlice(s, p + |a| + |b| + |c| + |d|, f.largest);
  }

  /** Every field is read back as it was written. */
  lemma FieldReads(s: seq<Byte>, p: nat, f: Field)
    requires FieldOk(f) && Stands(s, p, EncodeBody(f))
    ensures DecodeBody(Tag(f), s, p) == Parsed(f, p + |EncodeBody(f)|)
  {
    hide EncodeVarint32, EncodeVarint64, GetVarint64, GetSlice, GetLevel, EncodeSlice, DecodeAdded;
    match f
    case Comparator(name) => ReadsSlice(s, p, name);
    case CompactPointer(_, _) => PointerReads(s, p, f);
    case DeletedFile(_, _) => PointerReads(s, p, f);
    case AddedFile(file) => AddedReads(s, p, file);
    case _ => ReadsVarint64(s, p, f.number);
  }

  // ----- the whole record -----

  ghost predicate FieldsOk(fs: seq<Field>) {
    forall i :: 0 <= i < |fs| ==> FieldOk(fs[i])
  }

  lemma {:induction false} TakePointers(e: Edit, ps: seq<(nat, Bytes)>)
    ensures TakeAll(e, PointerFields(ps)) == e.(compactPointers := e.compactPointers + ps)
    decreases |ps|
  {
    if ps != [] {
      var init := ps[..|ps| - 1];
      TakePointers(e, init);
      assert PointerFields(ps)[..|ps| - 1] == PointerFields(init);
      assert e.compactPointers + ps == e.compactPointers + init + [ps[|ps| - 1]];
    } else {
      assert e.compactPointers + ps == e.compactPointers;
    }
  }

  lemma {:induction false} TakeDeleted(e: Edit, ps: seq<(nat, Number)>)
    ensures TakeAll(e, DeletedFields(ps)) == e.(deletedFiles := e.deletedFiles + Members(ps))
    decreases |ps|
  {
    if ps != [] {
      var init := ps[..|ps| - 1];
      TakeDeleted(e, init);
      assert DeletedFields(ps)[..|ps| - 1] == DeletedFields(init);
      assert e.deletedFiles + Members(ps) == e.deletedFiles + Members(init) + {ps[|ps| - 1]};
    } else {
      assert e.deletedFiles + Members(ps) == e.deletedFiles;
    }
  }

  lemma {:induction false} TakeAdded(e: Edit, ps: seq<NewFile>)
    ensures TakeAll(e, FileFields(ps)) == e.(newFiles := e.newFiles + ps)
    decreases |ps|
  {
    if ps != [] {
      var init := ps[..|ps| - 1];
      TakeAdded(e, init);
      assert FileFields(ps)[..|ps| - 1] == FileFields(init);
      assert e.newFiles + ps == e.newFiles + init + [ps[|ps| - 1]];
    } else {
      assert e.newFiles + ps == e.newFiles;
    }
  }

  lemma TakeOptional(e: Edit, some: bool, f: Field)
    ensures TakeAll(e, if some then [f] else []) == if some then Take(e, f) else e
  {
    TakeOne(e, f);
  }

  lemma TakeHeaders(e: Edit)
    ensures TakeAll(NO_EDIT, Headers(e))
         == Edit(e.comparator, e.logNumber, e.prevLogNumber, e.nextFileNumber, e.lastSequence, [], {}, [])
  {
    hide TakeAll;
    var a := if e.comparator.Some? then [Comparator(e.comparator.value)] else [];
    var b := if e.logNumber.Some? then [LogNumber(e.logNumber.value)] else [];
    var c := if e.prevLogNumber.Some? then [PrevLogNumber(e.prevLogNumber.value)] else [];
    var d := if e.nextFileNumber.Some? then [NextFileNumber(e.nextFileNumber.value)] else [];
    var f := if e.lastSequence.Some? then [LastSequence(e.lastSequence.value)] else [];
    TakeConcat(NO_EDIT, a + b + c + d, f);
    TakeConcat(NO_EDIT, a + b + c, d);
    TakeConcat(NO_EDIT, a + b, c);
    TakeConcat(NO_EDIT, a, b);
    TakeOptional(NO_EDIT, e.comparator.Some?, Comparator(if e.comparator.Some? then e.comparator.value else []));
    TakeOptional(TakeAll(NO_EDIT, a), e.logNumber.Some?, LogNumber(if e.logNumber.Some? then e.logNumber.value else 0));
    TakeOptional(TakeAll(NO_EDIT, a + b), e.prevLogNumber.Some?, PrevLogNumber(if e.prevLogNumber.Some? then e.prevLogNumber.value else 0));
    TakeOptional(TakeAll(NO_EDIT, a + b + c), e.nextFileNumber.Some?, NextFileNumber(if e.nextFileNumber.Some? then e.nextFileNumber.value else 0));
    TakeOptional(TakeAll(NO_EDIT, a + b + c + d), e.lastSequence.Some?, LastSequence(if e.lastSequence.Some? then e.lastSequence.value else 0));
  }

  /** Taking in the fields of an edit, in whatever order its set of deleted files is written, gives the edit. */
  lemma FieldsRebuild(e: Edit, order: seq<(nat, Number)>)
    requires Enumerates(order, e.deletedFiles)
    ensures TakeAll(NO_EDIT, Fields(e, order)) == e
  {
    hide TakeAll, Headers, PointerFields, DeletedFields, FileFields;
    var ps, ds, ns := PointerFields(e.compactPointers), DeletedFields(order), FileFields(e.newFiles);
    TakeConcat(NO_EDIT, Headers(e) + ps + ds, ns);
    TakeConcat(NO_EDIT, Headers(e) + ps, ds);
    TakeConcat(NO_EDIT, Headers(e), ps);
    TakeHeaders(e);
    TakePointers(TakeAll(NO_EDIT, Headers(e)), e.compactPointers);
    TakeDeleted(TakeAll(NO_EDIT, Headers(e) + ps), order);
    TakeAdded(TakeAll(NO_EDIT, Headers(e) + ps + ds), e.newFiles);
    assert Members(order) == e.deletedFiles;
  }

  lemma NextFieldStands(s: seq<Byte>, p: nat, fs: seq<Field>, k: nat)
    requires FieldsOk(fs) && k < |fs| && Stands(s, p, EncodeFields(fs[k..])) && p + |EncodeFields(fs[k..])| == |s|
    ensures var q := p + |EncodeVarint32(Tag(fs[k]))|;
            && GetVarint32(s, p, |s|) == Parsed(Tag(fs[k]), q)
            && DecodeBody(Tag(fs[k]), s, q) == Parsed(fs[k], q + |EncodeBody(fs[k])|)
            && var next := q + |EncodeBody(fs[k])|;
               Stands(s, next, EncodeFields(fs[k + 1..])) && next + |EncodeFields(fs[k + 1..])| == |s|
  {
    hide Stands, EncodeBody, DecodeBody, EncodeVarint32, GetVarint32;
    var tag, body, rest := EncodeVarint32(Tag(fs[k])), EncodeBody(fs[k]), EncodeFields(fs[k + 1..]);
    assert fs[k..][1..] == fs[k + 1..];
    assert EncodeFields(fs[k..]) == (tag + body) + rest;
    StandsSplit(s, p, tag + body, rest);
    StandsSplit(s, p, tag, body);
    StandsBounds(s, p, tag);
    StandsBounds(s, p + |tag|, body);
    Varint32RoundTrip(Tag(fs[k]), s, p, |s|) by { StandsMeans(s, p, tag); }
    FieldReads(s, p + |tag|, fs[k]);
  }

  lemma StandsBounds(s: seq<Byte>, p: nat, part: seq<Byte>)
    requires Stands(s, p, part)
    ensures p + |part| <= |s|
  {
  }

  lemma StandsMeans(s: seq<Byte>, p: nat, part: seq<Byte>)
    requires Stands(s, p, part)
    ensures p + |part| <= |s| && s[p..p + |part|] == part
  {
  }

  /** The first `k` fields have been taken in, and the others come next. */
  ghost predicate Decoding(src: seq<Byte>, p: nat, fs: seq<Field>, k: nat, e: Edit) {
    && FieldsOk(fs) && p <= |src| && k <= |fs|
    && e == TakeAll(NO_EDIT, fs[..k])
    && Stands(src, p, EncodeFields(fs[k..])) && p + |EncodeFields(fs[k..])| == |src|
  }

  lemma DecodingStarts(fs: seq<Field>)
    requires FieldsOk(fs)
    ensures Decoding(EncodeFields(fs), 0, fs, 0, NO_EDIT)
  {
    assert fs[0..] == fs && fs[..0] == [];
  }

  lemma DecodingStep(src: seq<Byte>, p: nat, fs: seq<Field>, k: nat, e: Edit)
    requires Decoding(src, p, fs, k, e) && GetVarint32(src, p, |src|).Parsed?
    ensures var tag := GetVarint32(src, p, |src|);
            var d := DecodeBody(tag.value, src, tag.next);
            d.Parsed? && Decoding(src, d.next, fs, k + 1, Take(e, d.value))
  {
    hide DecodeBody, GetVarint32, Take, Stands, EncodeFields;
    MoreFields(src, p, fs, k);
    assert fs[..k + 1][..k] == fs[..k];
  }

  lemma DecodingEnds(src: seq<Byte>, p: nat, fs: seq<Field>, k: nat, e: Edit)
    requires Decoding(src, p, fs, k, e) && !GetVarint32(src, p, |src|).Parsed?
    ensures p == |src| && e == TakeAll(NO_EDIT, fs)
  {
    hide DecodeBody, GetVarint32, Take, Stands, EncodeFields;
    NoMoreFields(src, p, fs, k);
    assert fs[..k] == fs;
  }

  /** The record reader: fields are taken in until no tag can be read, which must be the end. */
  function DecodeRest(src: seq<Byte>, p: nat, e: Edit): Option<Edit>
    requires p <= |src|
    decreases |src| - p
  {
    var tag := GetVarint32(src, p, |src|);
    if tag.Bad? then (if p < |src| then None else Some(e))
    else
      var d := DecodeBody(tag.value, src, tag.next);
      if d.Bad? then None else DecodeRest(src, d.next, Take(e, d.value))
  }

  function DecodeRecord(src: seq<Byte>): Option<Edit> {
    DecodeRest(src, 0, NO_EDIT)
  }

  /** The record an edit is written as, with its deleted files in some order. */
  ghost predicate IsRecordIn(src: seq<Byte>, edit: Edit, order: seq<(nat, Number)>) {
    var fs := Fields(edit, order);
    FieldsOk(fs) && src == EncodeFields(fs) && Enumerates(order, edit.deletedFiles)
  }

  ghost predicate IsRecord(src: seq<Byte>, edit: Edit) {
    exists order :: IsRecordIn(src, edit, order)
  }

  lemma {:induction false} DecodesOn(src: seq<Byte>, p: nat, fs: seq<Field>, k: nat, e: Edit)
    requires Decoding(src, p, fs, k, e)
    ensures p <= |src| && DecodeRest(src, p, e) == Some(TakeAll(NO_EDIT, fs))
    decreases |src| - p
  {
    hide DecodeBody, GetVarint32, Take, TakeAll, Stands, EncodeFields;
    if GetVarint32(src, p, |src|).Parsed? {
      DecodingStep(src, p, fs, k, e);
      var tag := GetVarint32(src, p, |src|);
      var d := DecodeBody(tag.value, src, tag.next);
      DecodesOn(src, d.next, fs, k + 1, Take(e, d.value));
    } else {
      DecodingEnds(src, p, fs, k, e);
    }
  }

  /** A record that was written from an edit is read as that edit. */
  lemma RecordDecodes(src: seq<Byte>, edit: Edit)
    requires IsRecord(src, edit)
    ensures DecodeRecord(src) == Some(edit)
  {
    hide EncodeFields, Fields, Decoding, Enumerates, DecodeRest;
    var order :| IsRecordIn(src, edit, order);
    DecodingStarts(Fields(edit, order));
    DecodesOn(src, 0, Fields(edit, order), 0, NO_EDIT);
    FieldsRebuild(edit, order);
  }

  method DecodeFrom(src: seq<Byte>) returns (r: Option<Edit>)
    ensures r == DecodeRecord(src)
    ensures forall edit :: IsRecord(src, edit) ==> r == Some(edit)
  {
    hide DecodeBody, GetVarint32, Take, IsRecord;
    var e := NO_EDIT;
    var p: nat := 0;
    forall edit | IsRecord(src, edit) ensures DecodeRecord(src) == Some(edit) {
      RecordDecodes(src, edit);
    }
    while GetVarint32(src, p, |src|).Parsed?
      invariant p <= |src| && DecodeRest(src, p, e) == DecodeRecord(src)
      decreases |src| - p
    {
      var tag := GetVarint32(src, p, |src|);
      var d := DecodeBody(tag.value, src, tag.next);
      if d.Bad? {
        return None;
      }
      e := Take(e, d.value);
      p := d.next;
    }
    r := if p < |src| then None else Some(e);
  }

  /** As long as a tag can be read there is a field to come. */
  lemma MoreFields(s: seq<Byte>, p: nat, fs: seq<Field>, k: nat)
    requires FieldsOk(fs) && k <= |fs| && Stands(s, p, EncodeFields(fs[k..])) && p + |EncodeFields(fs[k..])| == |s|
    requires GetVarint32(s, p, |s|).Parsed?
    ensures k < |fs|
    ensures var q := GetVarint32(s, p, |s|).next;
            && GetVarint32(s, p, |s|).value == Tag(fs[k])
            && DecodeBody(Tag(fs[k]), s, q) == Parsed(fs[k], q + |EncodeBody(fs[k])|)
            && var next := q + |EncodeBody(fs[k])|;
               Stands(s, next, EncodeFields(fs[k + 1..])) && next + |EncodeFields(fs[k + 1..])| == |s|
  {
    hide EncodeBody, DecodeBody, Stands, EncodeFields;
    NothingToCome(p, fs, k);
    NextFieldStands(s, p, fs, k);
  }

  lemma NothingToCome(p: nat, fs: seq<Field>, k: nat)
    requires FieldsOk(fs) && k <= |fs|
    ensures k == |fs| ==> EncodeFields(fs[k..]) == []
  {
  }

  lemma NoMoreFields(s: seq<Byte>, p: nat, fs: seq<Field>, k: nat)
    requires FieldsOk(fs) && k <= |fs| && Stands(s, p, EncodeFields(fs[k..])) && p + |EncodeFields(fs[k..])| == |s|
    requires !GetVarint32(s, p, |s|).Parsed?
    ensures k == |fs| && p == |s|
  {
    hide EncodeBody, DecodeBody, Stands, GetVarint32;
    if k < |fs| {
      NextFieldStands(s, p, fs, k);
    } else {
      assert fs[k..] == [];
    }
  }
}
