/** Recovery of a version set from the bytes of its manifest records. */
module Recovery {
  import opened Coding
  import opened InternalKeys
  import opened Versions
  import opened VersionBuilder
  import opened Manifest
  import opened VersionEditCoding
  import opened ByteKeys
  import VersionSets
  import LogFormat
  import LogRecovery

  // ----- what a record means -----

  /** What bytes stand for: the rank of a user key in the comparator's order, and the entries of a table file. */
  datatype Meaning = Meaning(rank: seq<Byte> -> UserKey, entries: nat -> seq<Entry>)

  function KeyMeans(m: Meaning, key: seq<Byte>): InternalKey {
    var k := DecodeKey(key);
    if k.None? then InternalKey(0, 0, TypeDeletion)
    else InternalKey(m.rank(k.value.user), k.value.sequence, k.value.kind)
  }

  function FileMeans(m: Meaning, f: NewFile): (nat, FileMetaData) {
    (f.level, FileMetaData(f.number, f.size, KeyMeans(m, f.smallest), KeyMeans(m, f.largest), m.entries(f.number)))
  }

  /** The edit of the version that a decoded record makes. */
  function EditMeans(m: Meaning, e: Edit): (r: VersionEdit)
    ensures |r.compactPointers| == |e.compactPointers| && |r.newFiles| == |e.newFiles|
  {
    VersionEdit(
      seq(|e.compactPointers|, i requires 0 <= i < |e.compactPointers| => (e.compactPointers[i].0, KeyMeans(m, e.compactPointers[i].1))),
      e.deletedFiles,
      seq(|e.newFiles|, i requires 0 <= i < |e.newFiles| => FileMeans(m, e.newFiles[i])))
  }

  function Means(m: Meaning, edits: seq<Edit>): (r: seq<VersionEdit>)
    ensures |r| == |edits|
  {
    seq(|edits|, i requires 0 <= i < |edits| => EditMeans(m, edits[i]))
  }

  // ----- the numbers in the records -----

  datatype Counters = Counters(log: Option<Number>, prevLog: Option<Number>, nextFile: Option<Number>, lastSequence: Option<Number>)

  const NO_COUNTERS := Counters(None, None, None, None)

  function CountersOf(e: Edit): Counters {
    Counters(e.logNumber, e.prevLogNumber, e.nextFileNumber, e.lastSequence)
  }

  function Later(before: Option<Number>, now: Option<Number>): Option<Number> {
    if now.Some? then now else before
  }

  function Update(c: Counters, d: Counters): Counters {
    Counters(Later(c.log, d.log), Later(c.prevLog, d.prevLog), Later(c.nextFile, d.nextFile), Later(c.lastSequence, d.lastSequence))
  }

  /** Of each number the last that was written. */
  function CountersAfter(edits: seq<Edit>): Counters {
    if edits == [] then NO_COUNTERS
    else Update(CountersAfter(edits[..|edits| - 1]), CountersOf(edits[|edits| - 1]))
  }

  // ----- recovering -----

  /** The record can be decoded and was not written under another comparator. */
  predicate Acceptable(record: seq<Byte>, comparator: seq<Byte>) {
    var edit := DecodeRecord(record);
    edit.Some? && (edit.value.comparator.Some? ==> edit.value.comparator.value == comparator)
  }

  /** The edits of the records before the first that is not acceptable. */
  function ReadEdits(records: seq<seq<Byte>>, comparator: seq<Byte>): seq<Edit> {
    if records == [] || !Acceptable(records[0], comparator) then []
    else [DecodeRecord(records[0]).value] + ReadEdits(records[1..], comparator)
  }

  const NO_POINTERS: seq<Option<InternalKey>> := [None, None, None, None, None, None, None]

  datatype Recovered = Recovered(version: Version, pointers: seq<Option<InternalKey>>, logNumber: Number, prevLogNumber: Number,
                                 nextFileNumber: nat, lastSequence: Number)

  /** What the changes make of nothing, and the last of the numbers. */
  ghost predicate IsRecovery(changes: seq<VersionEdit>, c: Counters, r: Recovered)
    requires forall i :: 0 <= i < |changes| ==> EditOk(changes[i])
  {
    && IsReplay(r.version, EMPTY_VERSION, changes)
    && r.pointers == PointersAfterAll(NO_POINTERS, changes)
    && c.log == Some(r.logNumber) && r.prevLogNumber == (if c.prevLog.Some? then c.prevLog.value else 0)
    && c.nextFile.Some? && r.nextFileNumber == c.nextFile.value + 1 && c.lastSequence == Some(r.lastSequence)
  }

  /** The builder stands for the first `k` changes to nothing. */
  ghost predicate Folded(builder: Builder, changes: seq<VersionEdit>, k: nat)
    requires k <= |changes| && EditsFresh(EMPTY_VERSION, changes)
    reads builder
  {
    && builder.Valid() && builder.base == EMPTY_VERSION
    && (forall l :: 0 <= l < NUM_LEVELS ==> builder.Seen(l) == SeenAfter(EMPTY_VERSION, changes[..k], l))
    && (forall l :: 0 <= l < NUM_LEVELS ==> builder.Level(l) == LevelAfter(EMPTY_VERSION, changes[..k], l))
    && builder.compactPointer == PointersAfterAll(NO_POINTERS, changes[..k])
  }

  method StartBuilder(ghost changes: seq<VersionEdit>) returns (builder: Builder)
    requires EditsFresh(EMPTY_VERSION, changes)
    ensures fresh(builder) && Folded(builder, changes, 0)
  {
    StartsEmpty(changes);
    builder := new Builder(EMPTY_VERSION, NO_POINTERS);
  }

  method ApplyNext(builder: Builder, change: VersionEdit, ghost changes: seq<VersionEdit>, ghost k: nat)
    requires EditsFresh(EMPTY_VERSION, changes) && k < |changes| && changes[k] == change && Folded(builder, changes, k)
    modifies builder
    ensures Folded(builder, changes, k + 1)
  {
    hide AddsFresh, Edited, PointersAfter, LevelAfter, SeenAfter, EditOk;
    NextChange(changes, k);
    builder.Apply(change);
  }

  method SaveAll(builder: Builder, ghost changes: seq<VersionEdit>) returns (v: Version)
    requires EditsFresh(EMPTY_VERSION, changes) && Folded(builder, changes, |changes|)
    ensures IsReplay(v, EMPTY_VERSION, changes) && builder.compactPointer == PointersAfterAll(NO_POINTERS, changes)
  {
    assert changes[..|changes|] == changes;
    StartsEmpty(changes);
    v := builder.SaveTo();
  }

  /** Decodes the records one by one into a single builder, and saves it. */
  method Recover(m: Meaning, records: seq<seq<Byte>>, comparator: seq<Byte>) returns (r: Option<Recovered>)
    requires EditsFresh(EMPTY_VERSION, Means(m, ReadEdits(records, comparator)))
    ensures var edits := ReadEdits(records, comparator);
            var c := CountersAfter(edits);
            && (r.Some? <==> |edits| == |records| && c.nextFile.Some? && c.log.Some? && c.lastSequence.Some?)
            && (r.Some? ==> IsRecovery(Means(m, edits), c, r.value))
  {
    hide EditsFresh, EditOk, Folded, EditMeans, DecodeRecord, IsReplay;
    ghost var all := ReadEdits(records, comparator);
    ghost var changes := Means(m, all);
    var builder := StartBuilder(changes);
    var counters := NO_COUNTERS;
    for k := 0 to |records|
      invariant k <= |all| && all[k..] == ReadEdits(records[k..], comparator)
      invariant counters == CountersAfter(all[..k])
      invariant Folded(builder, changes, k)
    {
      hide ReadEdits, CountersAfter, Means;
      var edit := DecodeFrom(records[k]);
      NextRead(records, comparator, k);
      if edit.None? || (edit.value.comparator.Some? && edit.value.comparator.value != comparator) {
        return None;
      }
      assert all[k] == edit.value && all[k + 1..] == all[k..][1..];
      MeansAt(m, all, k);
      NextCounters(all, k);
      ApplyNext(builder, EditMeans(m, edit.value), changes, k);
      counters := Update(counters, CountersOf(edit.value));
    }
    assert all[..|records|] == all;
    if counters.nextFile.None? || counters.log.None? || counters.lastSequence.None? {
      return None;
    }
    var version := SaveAll(builder, changes);
    r := Some(Recovered(version, builder.compactPointer, counters.log.value,
                        if counters.prevLog.Some? then counters.prevLog.value else 0,
                        counters.nextFile.value + 1, counters.lastSequence.value));
    EditsAreOk(EMPTY_VERSION, changes);
  }

  lemma EditsAreOk(base: Version, changes: seq<VersionEdit>)
    requires EditsFresh(base, changes)
    ensures forall i :: 0 <= i < |changes| ==> EditOk(changes[i])
  {
  }

  lemma MeansAt(m: Meaning, edits: seq<Edit>, k: nat)
    requires k < |edits|
    ensures Means(m, edits)[k] == EditMeans(m, edits[k])
  {
  }

  lemma StartsEmpty(changes: seq<VersionEdit>)
    ensures BaseSorted(EMPTY_VERSION) && changes[..0] == []
    ensures forall l :: 0 <= l < NUM_LEVELS ==>
              LevelAfter(EMPTY_VERSION, [], l) == SeenAfter(EMPTY_VERSION, [], l) == LevelSet(EMPTY_VERSION, l)
  {
  }

  lemma NextRead(records: seq<seq<Byte>>, comparator: seq<Byte>, k: nat)
    requires k < |records|
    ensures ReadEdits(records[k..], comparator) ==
            if Acceptable(records[k], comparator)
            then [DecodeRecord(records[k]).value] + ReadEdits(records[k + 1..], comparator)
            else []
  {
    assert records[k..][1..] == records[k + 1..] && records[k..][0] == records[k];
  }

  /** What one more change does. */
  lemma NextChange(changes: seq<VersionEdit>, k: nat)
    requires k < |changes| && EditsFresh(EMPTY_VERSION, changes)
    ensures EditOk(changes[k])
    ensures forall l :: 0 <= l < NUM_LEVELS ==> AddsFresh(changes[k], l, SeenAfter(EMPTY_VERSION, changes[..k], l))
    ensures forall l :: 0 <= l < NUM_LEVELS ==>
              && SeenAfter(EMPTY_VERSION, changes[..k + 1], l) == SeenAfter(EMPTY_VERSION, changes[..k], l) + AddedAt(changes[k], l)
              && LevelAfter(EMPTY_VERSION, changes[..k + 1], l) == Edited(LevelAfter(EMPTY_VERSION, changes[..k], l), changes[k], l)
    ensures PointersAfterAll(NO_POINTERS, changes[..k + 1]) ==
            PointersAfter(PointersAfterAll(NO_POINTERS, changes[..k]), changes[k].compactPointers)
  {
    hide AddsFresh, Edited, AddedAt, EditOk, PointersAfter;
    assert changes[..k + 1][..k] == changes[..k];
  }

  lemma NextCounters(edits: seq<Edit>, k: nat)
    requires k < |edits|
    ensures CountersAfter(edits[..k + 1]) == Update(CountersAfter(edits[..k]), CountersOf(edits[k]))
  {
    hide Update, CountersOf;
    assert edits[..k + 1][..k] == edits[..k];
  }

  // ----- writing records -----

  /** The key has a name of its own that fits a length in 32 bits. */
  predicate KeyFits(m: Meaning, nameOf: UserKey -> seq<Byte>, k: InternalKey) {
    |nameOf(k.user)| + 8 < 0x1_0000_0000 && m.rank(nameOf(k.user)) == k.user
  }

  predicate FileFits(m: Meaning, nameOf: UserKey -> seq<Byte>, f: FileMetaData) {
    && f.number < 0x1_0000_0000_0000_0000 && f.fileSize < 0x1_0000_0000_0000_0000
    && KeyFits(m, nameOf, f.smallest) && KeyFits(m, nameOf, f.largest)
    && f.entries == m.entries(f.number)
  }

  /** Numbers fit 64 bits, keys have names, and files are known by their numbers. */
  predicate Writable(m: Meaning, nameOf: UserKey -> seq<Byte>, change: VersionEdit) {
    && EditOk(change)
    && (forall i :: 0 <= i < |change.compactPointers| ==> KeyFits(m, nameOf, change.compactPointers[i].1))
    && (forall p :: p in change.deletedFiles ==> p.1 < 0x1_0000_0000_0000_0000)
    && (forall i :: 0 <= i < |change.newFiles| ==> FileFits(m, nameOf, change.newFiles[i].1))
  }

  function KeyBytes(nameOf: UserKey -> seq<Byte>, k: InternalKey): (s: seq<Byte>)
    ensures |s| == |nameOf(k.user)| + 8
  {
    EncodeKey(BKey(nameOf(k.user), k.sequence, k.kind))
  }

  lemma KeyBytesMean(m: Meaning, nameOf: UserKey -> seq<Byte>, k: InternalKey)
    requires KeyFits(m, nameOf, k)
    ensures KeyMeans(m, KeyBytes(nameOf, k)) == k
  {
    hide EncodeKey, DecodeKey;
    KeyRoundTrip(BKey(nameOf(k.user), k.sequence, k.kind));
  }

  function NewFileFor(m: Meaning, nameOf: UserKey -> seq<Byte>, level: nat, f: FileMetaData): NewFile
    requires FileFits(m, nameOf, f)
  {
    NewFile(level, f.number, f.fileSize, KeyBytes(nameOf, f.smallest), KeyBytes(nameOf, f.largest))
  }

  /** The record's fields for a change. */
  function EditFor(m: Meaning, nameOf: UserKey -> seq<Byte>, change: VersionEdit, comparator: Option<Bytes>, c: Counters): (e: Edit)
    requires Writable(m, nameOf, change)
    ensures e.comparator == comparator && CountersOf(e) == c
  {
    Edit(comparator, c.log, c.prevLog, c.nextFile, c.lastSequence,
         seq(|change.compactPointers|, i requires 0 <= i < |change.compactPointers| =>
           (change.compactPointers[i].0, PointerBytes(m, nameOf, change.compactPointers[i].1))),
         change.deletedFiles,
         seq(|change.newFiles|, i requires 0 <= i < |change.newFiles| =>
           NewFileFor(m, nameOf, change.newFiles[i].0, change.newFiles[i].1)))
  }

  function PointerBytes(m: Meaning, nameOf: UserKey -> seq<Byte>, k: InternalKey): Bytes
    requires KeyFits(m, nameOf, k)
  {
    KeyBytes(nameOf, k)
  }

  lemma EditForMeans(m: Meaning, nameOf: UserKey -> seq<Byte>, change: VersionEdit, comparator: Option<Bytes>, c: Counters)
    requires Writable(m, nameOf, change)
    ensures EditMeans(m, EditFor(m, nameOf, change, comparator, c)) == change
  {
    hide KeyMeans, KeyBytes;
    var e := EditFor(m, nameOf, change, comparator, c);
    forall i | 0 <= i < |change.compactPointers|
      ensures KeyMeans(m, e.compactPointers[i].1) == change.compactPointers[i].1
    {
      KeyBytesMean(m, nameOf, change.compactPointers[i].1);
    }
    forall i | 0 <= i < |change.newFiles| ensures FileMeans(m, e.newFiles[i]) == change.newFiles[i] {
      KeyBytesMean(m, nameOf, change.newFiles[i].1.smallest);
      KeyBytesMean(m, nameOf, change.newFiles[i].1.largest);
    }
    assert EditMeans(m, e).compactPointers == change.compactPointers;
    assert EditMeans(m, e).newFiles == change.newFiles;
  }

  lemma EditForFields(m: Meaning, nameOf: UserKey -> seq<Byte>, change: VersionEdit, comparator: Option<Bytes>, c: Counters,
                      order: seq<(nat, Number)>)
    requires Writable(m, nameOf, change) && forall p :: p in order <==> p in change.deletedFiles
    ensures FieldsOk(Fields(EditFor(m, nameOf, change, comparator, c), order))
  {
    hide EncodeKey;
    var e := EditFor(m, nameOf, change, comparator, c);
    forall i | 0 <= i < |order| ensures order[i].0 < NUM_LEVELS {
      assert order[i] in change.deletedFiles;
    }
    assert FieldsOk(Headers(e)) && FieldsOk(PointerFields(e.compactPointers));
    assert FieldsOk(DeletedFields(order)) && FieldsOk(FileFields(e.newFiles));
  }

  /** The record says how the version changes, with this comparator's name and these numbers. */
  ghost predicate IsRecordFor(m: Meaning, record: seq<Byte>, change: VersionEdit, comparator: Option<Bytes>, c: Counters) {
    exists e :: IsRecord(record, e) && EditMeans(m, e) == change && e.comparator == comparator && CountersOf(e) == c
  }

  /** EncodeTo: the deleted files go out in the order of their set. */
  method EncodeEdit(m: Meaning, nameOf: UserKey -> seq<Byte>, change: VersionEdit, comparator: Option<Bytes>, c: Counters)
    returns (record: seq<Byte>)
    requires Writable(m, nameOf, change)
    ensures IsRecordFor(m, record, change, comparator, c)
  {
    hide EncodeFields, Fields, EditMeans, EditFor;
    var order: seq<(nat, Number)> := [];
    var left: set<(nat, nat)> := change.deletedFiles;
    while left != {}
      invariant left <= change.deletedFiles && forall p :: p in order <==> p in change.deletedFiles - left
      decreases left
    {
      var p :| p in left;
      order := order + [p];
      left := left - {p};
    }
    EditForMeans(m, nameOf, change, comparator, c);
    EditForFields(m, nameOf, change, comparator, c, order);
    var e := EditFor(m, nameOf, change, comparator, c);
    record := EncodeFields(Fields(e, order));
    assert IsRecordIn(record, e, order) by { DeletedOfEdit(m, nameOf, change, comparator, c); }
  }

  lemma DeletedOfEdit(m: Meaning, nameOf: UserKey -> seq<Byte>, change: VersionEdit, comparator: Option<Bytes>, c: Counters)
    requires Writable(m, nameOf, change)
    ensures EditFor(m, nameOf, change, comparator, c).deletedFiles == change.deletedFiles
  {
  }

  // ----- a manifest and what it is recovered to -----

  predicate Complete(c: Counters) {
    c.log.Some? && c.prevLog.Some? && c.nextFile.Some? && c.lastSequence.Some?
  }

  /** Record `k` after the snapshot. */
  ghost predicate IsEditRecord(m: Meaning, records: seq<seq<Byte>>, edits: seq<VersionEdit>, counters: seq<Counters>, k: nat)
    requires k < |edits| == |counters| == |records| - 1
  {
    IsRecordFor(m, records[k + 1], edits[k], None, counters[k]) && Complete(counters[k])
  }

  /** The records are those of a manifest: a snapshot of `v`, and the edits made since with all numbers; and those
      edits, installed one by one, have led to `installed`. */
  ghost predicate IsManifest(m: Meaning, comparator: Bytes, records: seq<seq<Byte>>, v: Version, pointers: seq<Option<InternalKey>>,
                             snapshot: VersionEdit, edits: seq<VersionEdit>, counters: seq<Counters>, installed: Version) {
    && VersionOk(v) && |pointers| == NUM_LEVELS && IsSnapshot(snapshot, v, pointers)
    && EditsFresh(v, edits) && IsReplay(installed, v, edits)
    && |edits| == |counters| == |records| - 1
    && IsRecordFor(m, records[0], snapshot, Some(comparator), NO_COUNTERS)
    && forall k :: 0 <= k < |edits| ==> IsEditRecord(m, records, edits, counters, k)
  }

  lemma RecordReads(m: Meaning, record: seq<Byte>, change: VersionEdit, comparator: Option<Bytes>, c: Counters, name: Bytes)
    requires IsRecordFor(m, record, change, comparator, c) && (comparator.Some? ==> comparator.value == name)
    ensures Acceptable(record, name)
    ensures EditMeans(m, DecodeRecord(record).value) == change && CountersOf(DecodeRecord(record).value) == c
  {
    hide EditMeans, DecodeRecord, IsRecord;
    var e :| IsRecord(record, e) && EditMeans(m, e) == change && e.comparator == comparator && CountersOf(e) == c;
    RecordDecodes(record, e);
  }

  lemma {:induction false} ReadsAll(records: seq<seq<Byte>>, comparator: seq<Byte>)
    requires forall k :: 0 <= k < |records| ==> Acceptable(records[k], comparator)
    ensures |ReadEdits(records, comparator)| == |records|
    ensures forall k :: 0 <= k < |records| ==> DecodeRecord(records[k]) == Some(ReadEdits(records, comparator)[k])
  {
    hide DecodeRecord;
    if records != [] {
      ReadsAll(records[1..], comparator);
    }
  }

  /** The changes and numbers read from a manifest. */
  lemma ManifestReads(m: Meaning, comparator: Bytes, records: seq<seq<Byte>>, v: Version, pointers: seq<Option<InternalKey>>,
                      snapshot: VersionEdit, edits: seq<VersionEdit>, counters: seq<Counters>, installed: Version)
    requires IsManifest(m, comparator, records, v, pointers, snapshot, edits, counters, installed)
    ensures var es := ReadEdits(records, comparator);
            && |es| == |records| && Means(m, es) == [snapshot] + edits
            && CountersAfter(es) == if edits == [] then NO_COUNTERS else counters[|edits| - 1]
  {
    hide EditMeans, DecodeRecord, VersionOk, IsSnapshot, EditsFresh, IsReplay, IsRecordFor;
    forall k | 0 <= k < |records|
      ensures Acceptable(records[k], comparator)
      ensures EditMeans(m, DecodeRecord(records[k]).value) == ([snapshot] + edits)[k]
      ensures CountersOf(DecodeRecord(records[k]).value) == ([NO_COUNTERS] + counters)[k]
    {
      if k == 0 {
        RecordReads(m, records[0], snapshot, Some(comparator), NO_COUNTERS, comparator);
      } else {
        assert IsEditRecord(m, records, edits, counters, k - 1);
        RecordReads(m, records[k], edits[k - 1], None, counters[k - 1], comparator);
      }
    }
    ReadsAll(records, comparator);
    var es := ReadEdits(records, comparator);
    assert Means(m, es) == [snapshot] + edits;
    var n := |es| - 1;
    if edits == [] {
      assert es[..n] == [];
    } else {
      assert IsEditRecord(m, records, edits, counters, n - 1);
      assert CountersOf(es[n]) == counters[n - 1];
    }
  }

  /** Recovery is exact: the records written by a snapshot and any number of edits may be replayed, and replaying them
      gives the very version that was installed last, its compaction pointers, and the numbers last written. */
  lemma RecoveryIsExact(m: Meaning, comparator: Bytes, records: seq<seq<Byte>>, v: Version, pointers: seq<Option<InternalKey>>,
                        snapshot: VersionEdit, edits: seq<VersionEdit>, counters: seq<Counters>, installed: Version)
    requires IsManifest(m, comparator, records, v, pointers, snapshot, edits, counters, installed)
    ensures var es := ReadEdits(records, comparator);
            && |es| == |records| && EditsFresh(EMPTY_VERSION, Means(m, es))
            && (edits == [] ==> CountersAfter(es) == NO_COUNTERS)
            && (edits != [] ==>
                  var c := counters[|edits| - 1];
                  && CountersAfter(es) == c && Complete(c)
                  && forall r :: IsRecovery(Means(m, es), c, r) ==>
                       r == Recovered(installed, PointersAfterAll(pointers, edits), c.log.value, c.prevLog.value,
                                      c.nextFile.value + 1, c.lastSequence.value))
  {
    ManifestReads(m, comparator, records, v, pointers, snapshot, edits, counters, installed);
    ManifestFresh(v, pointers, snapshot, edits);
    if edits != [] {
      assert IsEditRecord(m, records, edits, counters, |edits| - 1);
    }
    hide IsRecordFor, CountersAfter, ReadEdits, Means, IsSnapshot;
    forall r: Recovered | IsReplay(r.version, EMPTY_VERSION, [snapshot] + edits) ensures r.version == installed {
      ReplayIsExact(v, pointers, snapshot, edits, r.version, installed);
    }
    PointersRebuild(v, pointers, snapshot, edits);
    assert NO_POINTERS == seq(NUM_LEVELS, _ => None);
  }

  /** A version that LogAndApply has made current extends the replay. */
  lemma InstalledExtends(base: Version, edits: seq<VersionEdit>, v: Version, edit: VersionEdit, w: Version)
    requires IsReplay(v, base, edits) && VersionSets.IsEdited(v, w, edit)
    ensures IsReplay(w, base, edits + [edit])
  {
    hide Edited, SortedBySmallest;
    assert (edits + [edit])[..|edits|] == edits;
  }

  // ----- recovery after a crash -----

  /** A manifest whose edits have led to `installs` one after the other. */
  ghost predicate IsHistory(m: Meaning, comparator: Bytes, records: seq<seq<Byte>>, v: Version, pointers: seq<Option<InternalKey>>,
                            snapshot: VersionEdit, edits: seq<VersionEdit>, counters: seq<Counters>, installs: seq<Version>) {
    && |installs| == |edits| + 1
    && (forall k :: 0 <= k < |installs| ==> IsReplay(installs[k], v, edits[..k]))
    && IsManifest(m, comparator, records, v, pointers, snapshot, edits, counters, installs[|edits|])
  }

  ghost predicate AllOk(edits: seq<VersionEdit>) {
    forall i :: 0 <= i < |edits| ==> EditOk(edits[i])
  }

  /** The compaction pointers after the first `n` edits. */
  ghost function PointersAt(pointers: seq<Option<InternalKey>>, edits: seq<VersionEdit>, n: nat): seq<Option<InternalKey>>
    requires AllOk(edits) && n <= |edits| && |pointers| == NUM_LEVELS
  {
    PointersAfterAll(pointers, edits[..n])
  }

  /** The first records of a manifest are a manifest too. */
  lemma HistoryBefore(m: Meaning, comparator: Bytes, records: seq<seq<Byte>>, v: Version, pointers: seq<Option<InternalKey>>,
                      snapshot: VersionEdit, edits: seq<VersionEdit>, counters: seq<Counters>, installs: seq<Version>, n: nat)
    requires IsHistory(m, comparator, records, v, pointers, snapshot, edits, counters, installs) && n <= |edits|
    ensures IsManifest(m, comparator, records[..n + 1], v, pointers, snapshot, edits[..n], counters[..n], installs[n])
  {
    hide IsRecordFor, IsSnapshot, VersionOk, IsReplay, AddsFresh, SeenAfter;
    var rs, es, cs := records[..n + 1], edits[..n], counters[..n];
    forall k | 0 <= k < n ensures IsEditRecord(m, rs, es, cs, k) {
      assert IsEditRecord(m, records, edits, counters, k);
    }
    FreshBefore(v, edits, n);
  }

  lemma FreshBefore(v: Version, edits: seq<VersionEdit>, n: nat)
    requires EditsFresh(v, edits) && n <= |edits|
    ensures EditsFresh(v, edits[..n])
  {
    hide AddsFresh, SeenAfter, EditOk;
    var before := edits[..n];
    forall k, l | 0 <= k < n && 0 <= l < NUM_LEVELS ensures AddsFresh(before[k], l, SeenAfter(v, before[..k], l)) {
      assert before[..k] == edits[..k];
    }
  }

  /** Exactly the first `n` records lie wholly in the file. */
  ghost predicate WholeRecords(crc: LogFormat.Checksum, records: seq<seq<Byte>>, file: seq<Byte>, n: nat) {
    n <= |records| && forall k :: 0 <= k <= |records| ==> (k <= n <==> LogRecovery.EndOf(crc, records, k) <= |file|)
  }

  /** What comes back from the snapshot and the first edits, `n` records in all. */
  ghost predicate IsReopened(r: Option<Recovered>, pointers: seq<Option<InternalKey>>, edits: seq<VersionEdit>,
                             counters: seq<Counters>, installs: seq<Version>, n: nat) {
    && n <= |edits| + 1 == |counters| + 1 == |installs| && |pointers| == NUM_LEVELS && AllOk(edits)
    && (n < 2 ==> r == None)
    && (n >= 2 ==>
          && Complete(counters[n - 2])
          && var c := counters[n - 2];
             r == Some(Recovered(installs[n - 1], PointersAt(pointers, edits, n - 1), c.log.value, c.prevLog.value,
                                 c.nextFile.value + 1, c.lastSequence.value)))
  }

  /** However much of the manifest's end a crash has lost: the version set comes back as the last edit whose record is
      wholly in the file had left it. Without such an edit, recovery fails for want of the numbers. */
  method Reopen(m: Meaning, crc: LogFormat.Checksum, comparator: Bytes, file: seq<Byte>, ghost records: seq<seq<Byte>>,
                ghost v: Version, ghost pointers: seq<Option<InternalKey>>, ghost snapshot: VersionEdit,
                ghost edits: seq<VersionEdit>, ghost counters: seq<Counters>, ghost installs: seq<Version>)
    returns (r: Option<Recovered>)
    requires IsHistory(m, comparator, records, v, pointers, snapshot, edits, counters, installs)
    requires file <= LogFormat.LogBytes(crc, 0, records)
    ensures exists n :: WholeRecords(crc, records, file, n)
    ensures forall n :: WholeRecords(crc, records, file, n) ==> IsReopened(r, pointers, edits, counters, installs, n)
  {
    hide IsHistory, IsManifest, LogFormat.LogBytes, LogRecovery.EndOf, EditsFresh, EditOk, CountersAfter, Means, IsRecovery, IsReplay;
    HistorySizes(m, comparator, records, v, pointers, snapshot, edits, counters, installs);
    var got, drops := LogRecovery.ReadLog(file, crc, records);
    assert WholeRecords(crc, records, file, |got|);
    EditsAreOk(v, edits);
    if |got| == 0 {
      NothingRead(m, comparator);
    } else {
      ghost var n := |got| - 1;
      HistoryBefore(m, comparator, records, v, pointers, snapshot, edits, counters, installs, n);
      RecoveryIsExact(m, comparator, got, v, pointers, snapshot, edits[..n], counters[..n], installs[n]);
    }
    r := Recover(m, got, comparator);
    assert IsReopened(r, pointers, edits, counters, installs, |got|);
    forall n | WholeRecords(crc, records, file, n) ensures n == |got| {
      WholeIsUnique(crc, records, file, n, |got|);
    }
  }

  lemma WholeIsUnique(crc: LogFormat.Checksum, records: seq<seq<Byte>>, file: seq<Byte>, a: nat, b: nat)
    requires WholeRecords(crc, records, file, a) && WholeRecords(crc, records, file, b)
    ensures a == b
  {
    var endOfA, endOfB := LogRecovery.EndOf(crc, records, a), LogRecovery.EndOf(crc, records, b);
    hide LogRecovery.EndOf;
    assert endOfA <= |file| && endOfB <= |file|;
  }

  lemma HistorySizes(m: Meaning, comparator: Bytes, records: seq<seq<Byte>>, v: Version, pointers: seq<Option<InternalKey>>,
                     snapshot: VersionEdit, edits: seq<VersionEdit>, counters: seq<Counters>, installs: seq<Version>)
    requires IsHistory(m, comparator, records, v, pointers, snapshot, edits, counters, installs)
    ensures |edits| == |counters| == |installs| - 1 == |records| - 1 && |pointers| == NUM_LEVELS
    ensures EditsFresh(v, edits)
  {
  }

  lemma NothingRead(m: Meaning, comparator: Bytes)
    ensures ReadEdits([], comparator) == [] && Means(m, []) == [] && EditsFresh(EMPTY_VERSION, [])
    ensures CountersAfter([]) == NO_COUNTERS
  {
  }
}
