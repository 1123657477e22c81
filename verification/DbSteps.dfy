/** The database as a system of atomic steps: writes, memtable switches and flushes, snapshots, and one
    background compaction that may have flushes, writes and snapshots happen while it runs. */
module DbSteps {
  import opened InternalKeys
  import opened Versions
  import opened FileSearch
  import opened BoundaryFiles
  import opened CompactionInputs
  import opened DropRule
  import opened Compactions
  import opened Installs
  import opened CompactionReads

  /** A compaction under way: what it picked, from which version, the snapshot bound it read at its start,
      and the file numbers it has taken for its outputs. */
  datatype Plan = Plan(level: nat, base: Version, inputs0: seq<FileMetaData>, inputs1: seq<FileMetaData>,
                       grandparents: seq<FileMetaData>, largest: InternalKey, smallestSnapshot: SequenceNumber,
                       taken: seq<nat>)

  /** `history` records every write ever made and `clean` that no compaction has resurrected a value;
      the engine itself keeps neither. */
  datatype DbState = DbState(
    mem: seq<Entry>, imm: Option<seq<Entry>>, version: Version,
    lastSequence: SequenceNumber, nextFileNumber: nat, snapshots: seq<SequenceNumber>,
    running: Option<Plan>, history: set<Entry>, clean: bool)

  ghost function Memory(s: DbState): set<Entry> {
    EntrySet(s.mem) + if s.imm.Some? then EntrySet(s.imm.value) else {}
  }

  /** Every entry the engine still holds. */
  ghost function AllEntries(s: DbState): set<Entry> {
    Memory(s) + Entries(s.version)
  }

  /** The oldest sequence number a reader may still ask for. */
  function OldestReadable(s: DbState): SequenceNumber {
    if s.snapshots == [] then s.lastSequence else s.snapshots[0]
  }

  /** Somebody may still read as of this sequence number: a snapshot is at or below it, or without any snapshot
      it is not below the last write. */
  ghost predicate Readable(s: DbState, sequence: nat) {
    || (s.snapshots == [] && sequence >= s.lastSequence)
    || exists k :: 0 <= k < |s.snapshots| && s.snapshots[k] <= sequence
  }

  /** The code only looks at the first snapshot, which is the oldest. */
  lemma ReadableIff(s: DbState, sequence: nat)
    requires SnapshotsOk(s)
    ensures Readable(s, sequence) <==> sequence >= OldestReadable(s)
  {
    if s.snapshots != [] && sequence >= OldestReadable(s) { assert s.snapshots[0] <= sequence; }
  }

  // ----- the invariant -----

  ghost predicate MemoryOk(s: DbState) {
    && Sorted(s.mem)
    && (s.imm.Some? ==> Sorted(s.imm.value))
    && (s.imm.Some? ==> NewerThan(EntrySet(s.mem), EntrySet(s.imm.value)))
    && NewerThan(Memory(s), Entries(s.version))
  }

  ghost predicate HistoryOk(s: DbState) {
    && Unique(s.history)
    && AllEntries(s) <= s.history
    && (forall e :: e in s.history ==> e.key.sequence <= s.lastSequence)
    && s.lastSequence < MAX_SEQUENCE_NUMBER
  }

  predicate SnapshotsOk(s: DbState) {
    && (forall i, j :: 0 <= i < j < |s.snapshots| ==> s.snapshots[i] <= s.snapshots[j])
    && (forall i :: 0 <= i < |s.snapshots| ==> s.snapshots[i] <= s.lastSequence)
  }

  ghost predicate PlanOk(p: Plan, v: Version) {
    && p.level + 1 < NUM_LEVELS
    && VersionOk(p.base)
    && InputsOk(p.base, p.level, p.inputs0, p.inputs1)
    && GapFree(p.inputs0 + p.inputs1)
    && FlushedSince(p.base, v, p.level, p.inputs0 + p.inputs1)
  }

  /** The numbers taken for outputs are in order, and no file has one of them. */
  ghost predicate TakenOk(taken: seq<nat>, v: Version, next: nat) {
    && (forall i, j :: 0 <= i < j < |taken| ==> taken[i] < taken[j])
    && (forall n :: n in taken ==> n < next)
    && (forall l, f :: Holds(v, l, f) ==> f.number !in taken)
  }

  /** Whatever may still be read is read as if nothing had ever been discarded. */
  ghost predicate ReadsMatch(a: set<Entry>, b: set<Entry>, oldest: nat) {
    forall u, q :: q >= oldest ==> Read(a, u, q) == Read(b, u, q)
  }

  ghost predicate StateOk(s: DbState) {
    && VersionOk(s.version)
    && NumbersBelow(s.version, s.nextFileNumber)
    && MemoryOk(s)
    && HistoryOk(s)
    && SnapshotsOk(s)
    && (s.running.Some? ==> PlanOk(s.running.value, s.version) && s.running.value.smallestSnapshot <= OldestReadable(s))
    && (s.running.Some? ==> TakenOk(s.running.value.taken, s.version, s.nextFileNumber))
    && (s.clean ==> ReadsMatch(AllEntries(s), s.history, OldestReadable(s)))
  }

  // ----- writes -----

  datatype Update = Put(key: UserKey, value: Value) | Delete(key: UserKey)

  /** The entry an update becomes under its sequence number. */
  function UpdateEntry(u: Update, sequence: SequenceNumber): Entry {
    match u
    case Put(key, value) => Entry(InternalKey(key, sequence, TypeValue), value)
    case Delete(key) => Entry(InternalKey(key, sequence, TypeDeletion), "")
  }

  /** The entries of a batch whose first update gets sequence number `first`. */
  ghost function BatchEntries(updates: seq<Update>, first: nat): set<Entry>
    requires first + |updates| <= MAX_SEQUENCE_NUMBER + 1
  {
    set i | 0 <= i < |updates| :: UpdateEntry(updates[i], first + i)
  }

  ghost predicate WriteStep(s: DbState, updates: seq<Update>, t: DbState) {
    && s.lastSequence + |updates| < MAX_SEQUENCE_NUMBER
    && var added := BatchEntries(updates, s.lastSequence + 1);
       && Sorted(t.mem) && EntrySet(t.mem) == EntrySet(s.mem) + added
       && t == s.(mem := t.mem, lastSequence := s.lastSequence + |updates|, history := s.history + added)
  }

  /** Reads that agree keep agreeing when the same newer entries are added on both sides. */
  lemma ReadsMatchGrows(a: set<Entry>, b: set<Entry>, added: set<Entry>, last: nat, oldest: nat, oldest': nat)
    requires ReadsMatch(a, b, oldest) && oldest <= oldest'
    requires a <= b && Unique(b + added)
    requires forall e :: e in b ==> e.key.sequence <= last
    requires forall e :: e in added ==> e.key.sequence > last
    ensures ReadsMatch(a + added, b + added, oldest')
  {
    forall u, q | q >= oldest' ensures Read(a + added, u, q) == Read(b + added, u, q) {
      if e :| e in added && Visible(e, u, q) {
        var n := NewestExists(added, u, q, e);
        assert IsNewest(a + added, u, q, n) && IsNewest(b + added, u, q, n);
        ReadNewest(a + added, u, q, n);
        ReadNewest(b + added, u, q, n);
      } else {
        ReadDependsOnVisible(a + added, a, u, q);
        ReadDependsOnVisible(b + added, b, u, q);
      }
    }
  }

  lemma BatchIsFresh(updates: seq<Update>, first: nat)
    requires first + |updates| <= MAX_SEQUENCE_NUMBER + 1
    ensures Unique(BatchEntries(updates, first))
    ensures forall e :: e in BatchEntries(updates, first) ==> first <= e.key.sequence < first + |updates|
  {
  }

  lemma WriteKeepsMemory(s: DbState, updates: seq<Update>, t: DbState)
    requires MemoryOk(s) && HistoryOk(s) && WriteStep(s, updates, t)
    ensures MemoryOk(t)
  {
    hide Unique, Sorted;
    var first := s.lastSequence + 1;
    BatchIsFresh(updates, first);
    forall x, y | x in Memory(t) && y in Entries(t.version) && x.key.user == y.key.user ensures x.key.sequence > y.key.sequence {
      assert y in AllEntries(s);
    }
    if s.imm.Some? {
      forall x, y | x in EntrySet(t.mem) && y in EntrySet(s.imm.value) && x.key.user == y.key.user
        ensures x.key.sequence > y.key.sequence
      {
        assert y in AllEntries(s);
      }
    }
  }

  lemma WriteKeepsHistory(s: DbState, updates: seq<Update>, t: DbState)
    requires HistoryOk(s) && WriteStep(s, updates, t)
    ensures HistoryOk(t)
    ensures AllEntries(t) == AllEntries(s) + BatchEntries(updates, s.lastSequence + 1)
  {
    hide Sorted, Entries, Unique, BatchEntries;
    BatchIsFresh(updates, s.lastSequence + 1);
    assert AllEntries(t) == AllEntries(s) + BatchEntries(updates, s.lastSequence + 1);
    UniqueUnion(s.history, BatchEntries(updates, s.lastSequence + 1), s.lastSequence);
  }

  lemma UniqueUnion(a: set<Entry>, b: set<Entry>, last: nat)
    requires Unique(a) && Unique(b)
    requires forall e :: e in a ==> e.key.sequence <= last
    requires forall e :: e in b ==> e.key.sequence > last
    ensures Unique(a + b)
  {
  }

  lemma WriteKeeps(s: DbState, updates: seq<Update>, t: DbState)
    requires StateOk(s) && WriteStep(s, updates, t)
    ensures StateOk(t)
  {
    hide VersionOk, NumbersBelow, PlanOk, ReadsMatch, Read, MemoryOk, Sorted, Unique;
    WriteKeepsMemory(s, updates, t);
    WriteKeepsHistory(s, updates, t);
    var added := BatchEntries(updates, s.lastSequence + 1);
    BatchIsFresh(updates, s.lastSequence + 1);
    if s.clean {
      ReadsMatchGrows(AllEntries(s), s.history, added, s.lastSequence, OldestReadable(s), OldestReadable(t));
    }
  }

  // ----- the database is a map -----

  /** A map after the updates of a batch, one by one. */
  function Apply(m: map<UserKey, Value>, updates: seq<Update>): map<UserKey, Value> {
    if updates == [] then m
    else
      var before, last := Apply(m, updates[..|updates| - 1]), updates[|updates| - 1];
      match last
      case Put(key, value) => before[key := value]
      case Delete(key) => before - {key}
  }

  /** As of a sequence number the history reads like the map. */
  ghost predicate ReadsAs(history: set<Entry>, sequence: nat, m: map<UserKey, Value>) {
    forall u :: Read(history, u, sequence) == if u in m then Some(m[u]) else None
  }

  lemma OneUpdateReads(history: set<Entry>, last: nat, m: map<UserKey, Value>, update: Update)
    requires ReadsAs(history, last, m) && Unique(history) && last + 1 <= MAX_SEQUENCE_NUMBER
    requires forall e :: e in history ==> e.key.sequence <= last
    ensures ReadsAs(history + {UpdateEntry(update, last + 1)}, last + 1, Apply(m, [update]))
  {
    hide Read, Unique;
    var e := UpdateEntry(update, last + 1);
    var after := history + {e};
    UniqueUnion(history, {e}, last) by { assert Unique({e}) by { SingleIsUnique(e); } }
    assert [update][..0] == [] && Apply(m, []) == m;
    forall u ensures Read(after, u, last + 1) == if u in Apply(m, [update]) then Some(Apply(m, [update])[u]) else None {
      if u == e.key.user {
        assert IsNewest(after, u, last + 1, e);
        ReadNewest(after, u, last + 1, e);
      } else {
        ReadDependsOnVisible(after, history, u, last + 1);
        NothingLater(history, u, last);
      }
    }
  }

  lemma SingleIsUnique(e: Entry)
    ensures Unique({e})
  {
  }

  lemma NothingLater(history: set<Entry>, u: UserKey, last: nat)
    requires forall e :: e in history ==> e.key.sequence <= last
    requires Unique(history)
    ensures Read(history, u, last + 1) == Read(history, u, last)
  {
    if e :| e in history && Visible(e, u, last) {
      var n := NewestExists(history, u, last, e);
      assert IsNewest(history, u, last + 1, n);
      ReadNewest(history, u, last, n);
      ReadNewest(history, u, last + 1, n);
    } else {
      ReadNothing(history, u, last);
      ReadNothing(history, u, last + 1);
    }
  }

  lemma {:induction false} BatchReads(history: set<Entry>, last: nat, m: map<UserKey, Value>, updates: seq<Update>)
    requires ReadsAs(history, last, m) && Unique(history) && last + |updates| <= MAX_SEQUENCE_NUMBER
    requires forall e :: e in history ==> e.key.sequence <= last
    ensures ReadsAs(history + BatchEntries(updates, last + 1), last + |updates|, Apply(m, updates))
    decreases |updates|
  {
    hide Read, Unique, ReadsAs, BatchEntries, UpdateEntry, Apply;
    var n := |updates| - 1;
    if updates == [] {
      EmptyBatch(history, last, m);
    } else {
      var init := updates[..n];
      BatchReads(history, last, m, init);
      BatchIsFresh(init, last + 1);
      UniqueUnion(history, BatchEntries(init, last + 1), last);
      OneUpdateReads(history + BatchEntries(init, last + 1), last + n, Apply(m, init), updates[n]);
      LastOfBatch(history, updates, last + 1);
      ApplyLast(m, updates);
    }
  }

  lemma EmptyBatch(history: set<Entry>, last: nat, m: map<UserKey, Value>)
    requires last <= MAX_SEQUENCE_NUMBER
    ensures history + BatchEntries([], last + 1) == history && Apply(m, []) == m
  {
  }

  lemma ApplyLast(m: map<UserKey, Value>, updates: seq<Update>)
    requires updates != []
    ensures var n := |updates| - 1; Apply(m, updates) == Apply(Apply(m, updates[..n]), [updates[n]])
  {
    var n := |updates| - 1;
    assert [updates[n]][..0] == [] && Apply(Apply(m, updates[..n]), []) == Apply(m, updates[..n]);
  }

  lemma LastOfBatch(history: set<Entry>, updates: seq<Update>, first: nat)
    requires updates != [] && first + |updates| <= MAX_SEQUENCE_NUMBER + 1
    ensures var n := |updates| - 1;
            history + BatchEntries(updates[..n], first) + {UpdateEntry(updates[n], first + n)} == history + BatchEntries(updates, first)
  {
    var n := |updates| - 1;
    forall e ensures e in BatchEntries(updates, first) <==> e in BatchEntries(updates[..n], first) || e == UpdateEntry(updates[n], first + n) {
      if e in BatchEntries(updates[..n], first) {
        var i :| 0 <= i < n && UpdateEntry(updates[..n][i], first + i) == e;
        assert UpdateEntry(updates[i], first + i) == e;
      }
      if e in BatchEntries(updates, first) {
        var i :| 0 <= i < |updates| && UpdateEntry(updates[i], first + i) == e;
        assert i < n ==> UpdateEntry(updates[..n][i], first + i) == e;
      }
    }
  }

  /** A write does to what is read what its updates do to a map: puts and deletions, the last of a key winning. */
  lemma WriteApplies(s: DbState, updates: seq<Update>, t: DbState, m: map<UserKey, Value>)
    requires HistoryOk(s) && WriteStep(s, updates, t) && ReadsAs(s.history, s.lastSequence, m)
    ensures ReadsAs(t.history, t.lastSequence, Apply(m, updates))
  {
    hide HistoryOk, WriteStep, ReadsAs, BatchEntries, Apply;
    HistoryFacts(s);
    WriteFacts(s, updates, t);
    BatchReads(s.history, s.lastSequence, m, updates);
  }

  lemma HistoryFacts(s: DbState)
    requires HistoryOk(s)
    ensures Unique(s.history) && forall e :: e in s.history ==> e.key.sequence <= s.lastSequence
  {
    hide AllEntries;
  }

  lemma WriteFacts(s: DbState, updates: seq<Update>, t: DbState)
    requires WriteStep(s, updates, t)
    ensures s.lastSequence + |updates| < MAX_SEQUENCE_NUMBER && t.lastSequence == s.lastSequence + |updates|
    ensures t.history == s.history + BatchEntries(updates, s.lastSequence + 1)
  {
    hide BatchEntries, Sorted;
  }

  // ----- memtable switch, flush, snapshots -----

  ghost predicate SwitchStep(s: DbState, t: DbState) {
    s.imm.None? && t == s.(mem := [], imm := Some(s.mem))
  }

  lemma SwitchKeeps(s: DbState, t: DbState)
    requires StateOk(s) && SwitchStep(s, t)
    ensures StateOk(t)
  {
    hide VersionOk, NumbersBelow, PlanOk, ReadsMatch, Read, Unique;
    assert Memory(t) == Memory(s);
  }

  ghost predicate SnapshotStep(s: DbState, t: DbState) {
    t == s.(snapshots := s.snapshots + [s.lastSequence])
  }

  ghost predicate ReleaseStep(s: DbState, i: nat, t: DbState) {
    i < |s.snapshots| && t == s.(snapshots := s.snapshots[..i] + s.snapshots[i + 1..])
  }

  lemma SnapshotKeeps(s: DbState, t: DbState)
    requires StateOk(s) && SnapshotStep(s, t)
    ensures StateOk(t)
  {
    hide VersionOk, NumbersBelow, PlanOk, Unique, Sorted;
    assert AllEntries(t) == AllEntries(s) && OldestReadable(t) == OldestReadable(s);
  }

  lemma ReleaseKeeps(s: DbState, i: nat, t: DbState)
    requires StateOk(s) && ReleaseStep(s, i, t)
    ensures StateOk(t)
  {
    hide VersionOk, NumbersBelow, PlanOk, Unique, Sorted;
    assert AllEntries(t) == AllEntries(s) && OldestReadable(t) >= OldestReadable(s);
  }

  ghost predicate EmptyFlushStep(s: DbState, t: DbState) {
    s.imm == Some([]) && t == s.(imm := None, nextFileNumber := s.nextFileNumber + 1)
  }

  /** The immutable memtable becomes a file at a level past which it overlaps nothing. */
  ghost predicate FlushStep(s: DbState, level: nat, f: FileMetaData, t: DbState) {
    && s.imm.Some? && f.entries == s.imm.value && WellFormed(f) && f.number == s.nextFileNumber
    && level < NUM_LEVELS && FlushLevelOk(s.version, level, f)
    && IsFlush(s.version, t.version, level, f)
    && t == s.(imm := None, version := t.version, nextFileNumber := s.nextFileNumber + 1)
  }

  lemma EmptyFlushKeeps(s: DbState, t: DbState)
    requires StateOk(s) && EmptyFlushStep(s, t)
    ensures StateOk(t)
  {
    hide VersionOk, PlanOk, ReadsMatch, Read, Unique;
    assert Memory(t) == Memory(s);
  }

  lemma FlushedIsNewest(s: DbState, f: FileMetaData)
    requires MemoryOk(s) && s.imm.Some? && f.entries == s.imm.value
    ensures NewerThanAll(f, s.version)
  {
    forall l, g | Holds(s.version, l, g) ensures Newer(f, g) {
      forall a, b | a in f.entries && b in g.entries && a.key.user == b.key.user ensures a.key.sequence > b.key.sequence {
        EntriesHeld(s.version, b);
        assert a in Memory(s) && b in Entries(s.version);
      }
    }
  }

  /** A flush in the middle of a compaction keeps clear of its inputs. */
  lemma FlushKeepsPlan(p: Plan, v: Version, w: Version, level: nat, f: FileMetaData)
    requires PlanOk(p, v) && VersionOk(v)
    requires WellFormed(f) && FlushLevelOk(v, level, f) && IsFlush(v, w, level, f) && NewerThanAll(f, v)
    ensures PlanOk(p, w)
  {
    hide VersionOk, GapFree;
    forall l, g | Holds(p.base, l, g) ensures Newer(f, g) {
      assert Holds(v, l, g);
    }
    forall g | g in p.inputs0 + p.inputs1 && level > p.level ensures !Meet(f, g) {
      InputHeldIn(p, v, g);
      assert !(Holds(v, p.level, g) && Meet(f, g)) && !(Holds(v, p.level + 1, g) && Meet(f, g));
    }
    forall l, g | Holds(w, l, g) && !Holds(p.base, l, g) ensures NewerThanAll(g, p.base) {
      if !Holds(v, l, g) {
        assert g == f;
      }
    }
    forall l, x, g | Holds(w, l, x) && !Holds(p.base, l, x) && l > p.level && g in p.inputs0 + p.inputs1 ensures !Meet(x, g) {
      if !Holds(v, l, x) {
        assert x == f && l == level;
      }
    }
  }

  lemma InputHeldIn(p: Plan, v: Version, g: FileMetaData)
    requires PlanOk(p, v) && g in p.inputs0 + p.inputs1
    ensures Holds(v, p.level, g) || Holds(v, p.level + 1, g)
    ensures g in p.inputs0 ==> Holds(v, p.level, g) && Holds(p.base, p.level, g)
    ensures g in p.inputs1 ==> Holds(v, p.level + 1, g) && Holds(p.base, p.level + 1, g)
  {
    hide GapFree, Layered, NumbersUnique, Unique;
    var lo, hi := HullOf(p.inputs0);
    InputsHeld(p.base, v, p.level, p.inputs0, p.inputs1, lo, hi);
  }

  lemma HullOf(files: seq<FileMetaData>) returns (lo: InternalKey, hi: InternalKey)
    requires files != []
    ensures IsSmallest(files, lo) && IsLargest(files, hi)
  {
    hi := LargestExists(files);
    lo := SmallestExists(files);
  }

  lemma {:induction false} SmallestExists(files: seq<FileMetaData>) returns (key: InternalKey)
    requires files != []
    ensures IsSmallest(files, key)
  {
    var n := |files| - 1;
    var init, last := files[..n], files[n];
    assert files == init + [last];
    if init == [] {
      key := last.smallest;
    } else {
      var k := SmallestExists(init);
      key := if Less(last.smallest, k) then last.smallest else k;
    }
  }

  lemma FlushKeeps(s: DbState, level: nat, f: FileMetaData, t: DbState)
    requires StateOk(s) && FlushStep(s, level, f, t)
    ensures StateOk(t)
  {
    hide ReadsMatch, Read, Unique, NewerThanAll, IsFlush, FlushLevelOk, PlanOk, LevelsOk, NumbersUnique, Layered;
    FlushedIsNewest(s, f);
    FlushEntries(s.version, t.version, level, f);
    assert AllEntries(t) == AllEntries(s);
    assert EntrySet(f.entries) <= Memory(s);
    UniqueSubset(Entries(s.version) + EntrySet(f.entries), s.history);
    FlushKeepsVersion(s.version, t.version, level, f);
    FlushNumbers(s.version, t.version, level, f);
    FlushOpened(s, level, f, t);
    if s.running.Some? {
      FlushKeepsPlan(s.running.value, s.version, t.version, level, f);
    }
  }

  lemma FlushNumbers(v: Version, w: Version, level: nat, f: FileMetaData)
    requires IsFlush(v, w, level, f) && NumbersBelow(v, f.number)
    ensures NumbersBelow(w, f.number + 1)
  {
  }

  lemma FlushOpened(s: DbState, level: nat, f: FileMetaData, t: DbState)
    requires FlushStep(s, level, f, t)
    requires s.running.Some? ==> TakenOk(s.running.value.taken, s.version, s.nextFileNumber)
    ensures s.running.Some? ==> TakenOk(s.running.value.taken, t.version, t.nextFileNumber)
  {
    hide FlushLevelOk, WellFormed, Sorted;
  }

  // ----- compactions -----

  /** The background thread picks a compaction and reads the bound below which nobody looks. */
  ghost predicate BeginStep(s: DbState, p: Plan, t: DbState) {
    && s.running.None?
    && p.base == s.version && p.smallestSnapshot == OldestReadable(s) && p.taken == []
    && p.level + 1 < NUM_LEVELS
    && InputsOk(s.version, p.level, p.inputs0, p.inputs1) && GapFree(p.inputs0 + p.inputs1)
    && t == s.(running := Some(p))
  }

  lemma BeginKeeps(s: DbState, p: Plan, t: DbState)
    requires StateOk(s) && BeginStep(s, p, t)
    ensures StateOk(t)
  {
    hide NumbersBelow, ReadsMatch, Read, Unique, LevelsOk, Layered, NumbersUnique, InputsOk, GapFree;
    assert Memory(t) == Memory(s);
    assert |s.version.files| == NUM_LEVELS by {
      assert LevelsOk(s.version);
      VersionHasLevels(s.version);
    }
    assert FlushedSince(s.version, s.version, p.level, p.inputs0 + p.inputs1);
  }

  function AfterOpen(s: DbState): DbState
    requires s.running.Some?
  {
    s.(nextFileNumber := s.nextFileNumber + 1,
       running := Some(s.running.value.(taken := s.running.value.taken + [s.nextFileNumber])))
  }

  /** The compaction opens its next output file, which takes a file number. */
  ghost predicate OpenStep(s: DbState, t: DbState) {
    s.running.Some? && t == AfterOpen(s)
  }

  lemma OpenKeeps(s: DbState, t: DbState)
    requires StateOk(s) && OpenStep(s, t)
    ensures StateOk(t)
  {
    hide VersionOk, ReadsMatch, Read, Unique, InputsOk, GapFree, FlushedSince, Sorted, TakenOk;
    assert Memory(t) == Memory(s);
    TakesNumber(s.running.value.taken, s.version, s.nextFileNumber);
  }

  lemma TakesNumber(taken: seq<nat>, v: Version, next: nat)
    requires TakenOk(taken, v, next) && NumbersBelow(v, next)
    ensures TakenOk(taken + [next], v, next + 1)
  {
    assert forall i :: 0 <= i < |taken| ==> taken[i] in taken;
  }

  lemma VersionHasLevels(v: Version)
    requires LevelsOk(v)
    ensures |v.files| == NUM_LEVELS
  {
  }

  /** A single input file with nothing to merge it with is moved down as it is. */
  ghost predicate MoveStep(s: DbState, level: nat, f: FileMetaData, t: DbState) {
    && s.running.None?
    && level + 1 < NUM_LEVELS
    && InputsOk(s.version, level, [f], [])
    && IsReplacement(s.version, t.version, level, [f], [], [f])
    && t == s.(version := t.version)
  }

  lemma MoveKeepsVersion(v: Version, w: Version, level: nat, f: FileMetaData)
    requires VersionOk(v) && level + 1 < NUM_LEVELS && InputsOk(v, level, [f], [])
    requires IsReplacement(v, w, level, [f], [], [f])
    ensures VersionOk(w) && Entries(w) == Entries(v)
    ensures forall n :: NumbersBelow(v, n) ==> NumbersBelow(w, n)
  {
    var inputs := [f] + [];
    assert inputs == [f];
    assert f in [f] && Holds(v, level, f);
    assert IsSmallest([f], f.smallest) && IsLargest([f], f.largest);
    assert OutputsFrom(inputs, [f]);
    assert FlushedSince(v, v, level, inputs);
    ReplacementKeepsVersion(v, v, w, level, [f], [], [f], f.smallest, f.largest);
    MoveEntries(v, w, level, f);
  }

  lemma MoveEntries(v: Version, w: Version, level: nat, f: FileMetaData)
    requires level + 1 < NUM_LEVELS && Holds(v, level, f) && IsReplacement(v, w, level, [f], [], [f])
    ensures Entries(w) == Entries(v)
  {
    assert f in [f];
    assert Holds(w, level + 1, f);
    forall e ensures e in Entries(w) <==> e in Entries(v) {
      EntriesHeld(v, e);
      EntriesHeld(w, e);
      if l, g :| Holds(v, l, g) && e in g.entries {
        assert Holds(w, l, g) || g == f;
      }
    }
  }

  lemma MoveKeeps(s: DbState, level: nat, f: FileMetaData, t: DbState)
    requires StateOk(s) && MoveStep(s, level, f, t)
    ensures StateOk(t)
  {
    hide ReadsMatch, Read, Unique, LevelsOk, Layered, NumbersUnique, InputsOk, IsReplacement, NumbersBelow, VersionOk;
    MoveKeepsVersion(s.version, t.version, level, f);
    assert Memory(t) == Memory(s);
  }

  /** At the moment of its install, the running compaction brings back a value for some reader. */
  ghost predicate Resurrecting(s: DbState, p: Plan, es: seq<Entry>) {
    ResurrectsSome(Memory(s), p.base, s.version, p.level, p.inputs0, p.inputs1, es, p.smallestSnapshot, OldestReadable(s))
  }

  predicate HaveNumbers(outputs: seq<FileMetaData>, numbers: seq<nat>) {
    |outputs| == |numbers| && forall i :: 0 <= i < |outputs| ==> outputs[i].number == numbers[i]
  }

  /** The outputs replace the inputs. The state remembers if the compaction resurrected something. */
  ghost predicate FinishStep(s: DbState, es: seq<Entry>, outputs: seq<FileMetaData>, t: DbState) {
    && s.running.Some?
    && var p := s.running.value;
       && p.level + 1 < NUM_LEVELS
       && IsMerge(es, p.inputs0 + p.inputs1)
       && Built(outputs) && HaveNumbers(outputs, p.taken)
       && Flatten(outputs) == Kept(es, |es|, p.smallestSnapshot, p.base, p.level)
       && IsReplacement(s.version, t.version, p.level, p.inputs0, p.inputs1, outputs)
       && t == s.(version := t.version, running := None,
                  clean := s.clean && !Resurrecting(s, p, es))
  }

  lemma OutputsAreFromInputs(p: Plan, es: seq<Entry>, outputs: seq<FileMetaData>)
    requires IsMerge(es, p.inputs0 + p.inputs1) && Built(outputs)
    requires Flatten(outputs) == Kept(es, |es|, p.smallestSnapshot, p.base, p.level)
    ensures AllWellFormed(outputs) && DisjointSorted(outputs)
    ensures OutputsFrom(p.inputs0 + p.inputs1, outputs)
  {
    KeptSorted(es, |es|, p.smallestSnapshot, p.base, p.level);
    BuiltIsSound(outputs);
    KeptMembers(es, |es|, p.smallestSnapshot, p.base, p.level);
    FlattenHas(outputs);
    forall o, e | o in outputs && e in o.entries ensures exists f :: f in p.inputs0 + p.inputs1 && e in f.entries {
      assert e in Flatten(outputs);
      assert e in es;
    }
  }

  lemma FinishKeepsVersion(s: DbState, es: seq<Entry>, outputs: seq<FileMetaData>, t: DbState)
    requires VersionOk(s.version) && NumbersBelow(s.version, s.nextFileNumber)
    requires s.running.Some? && PlanOk(s.running.value, s.version) && FinishStep(s, es, outputs, t)
    requires TakenOk(s.running.value.taken, s.version, s.nextFileNumber)
    ensures VersionOk(t.version) && NumbersBelow(t.version, t.nextFileNumber)
  {
    hide Unique, LevelsOk, Layered, NumbersUnique, InputsOk, GapFree, FlushedSince, Kept, Flatten;
    var p := s.running.value;
    assert p.inputs0 != [] by { PlanHasInput(p, s.version); }
    var lo, hi := HullOf(p.inputs0);
    OutputsAreFromInputs(p, es, outputs);
    OutputNumbers(s.version, s.nextFileNumber, p.taken, outputs);
    ReplacementKeepsVersion(p.base, s.version, t.version, p.level, p.inputs0, p.inputs1, outputs, lo, hi);
  }

  lemma PlanHasInput(p: Plan, v: Version)
    requires PlanOk(p, v)
    ensures p.inputs0 != []
  {
  }

  lemma OutputNumbers(v: Version, next: nat, taken: seq<nat>, outputs: seq<FileMetaData>)
    requires TakenOk(taken, v, next) && HaveNumbers(outputs, taken)
    ensures forall o :: o in outputs ==> o.number in taken && o.number < next
    ensures forall o, l, f :: o in outputs && Holds(v, l, f) ==> f.number != o.number
    ensures forall o, p :: o in outputs && p in outputs && o.number == p.number ==> o == p
  {
  }

  /** The install leaves every read anybody can still make as it was exactly when it resurrects nothing. */
  lemma FinishChangesNoReadIff(s: DbState, es: seq<Entry>, outputs: seq<FileMetaData>, t: DbState)
    requires StateOk(s) && FinishStep(s, es, outputs, t)
    ensures ReadsMatch(AllEntries(t), AllEntries(s), OldestReadable(t)) <==> !Resurrecting(s, s.running.value, es)
  {
    hide VersionOk, MemoryOk, NumbersBelow, Kept, Flatten, Sorted, Built, ResurrectsSome, IsReplacement, PlanOk, Unique;
    var p := s.running.value;
    forall f | f in p.inputs0 + p.inputs1
      ensures f in p.inputs0 ==> Holds(s.version, p.level, f)
      ensures f in p.inputs1 ==> Holds(s.version, p.level + 1, f)
    {
      InputHeldIn(p, s.version, f);
    }
    UniqueSubset(AllEntries(s), s.history);
    CompactionKeepsReadsIff(Memory(s), p.base, s.version, t.version, p.level, p.inputs0, p.inputs1, outputs, es,
                            p.smallestSnapshot, OldestReadable(s));
    assert Memory(t) == Memory(s);
  }

  lemma FinishKeepsEntries(s: DbState, es: seq<Entry>, outputs: seq<FileMetaData>, t: DbState)
    requires StateOk(s) && FinishStep(s, es, outputs, t)
    ensures Entries(t.version) <= Entries(s.version)
  {
    hide VersionOk, MemoryOk, NumbersBelow, Kept, Flatten, Sorted, ResurrectsSome, IsReplacement, PlanOk, Unique;
    var p := s.running.value;
    forall f | f in p.inputs0 + p.inputs1
      ensures f in p.inputs0 ==> Holds(s.version, p.level, f)
      ensures f in p.inputs1 ==> Holds(s.version, p.level + 1, f)
    {
      InputHeldIn(p, s.version, f);
    }
    OutputsAreFromInputs(p, es, outputs);
    ReplacementEntries(s.version, t.version, p.level, p.inputs0, p.inputs1, outputs);
  }

  lemma FinishKeeps(s: DbState, es: seq<Entry>, outputs: seq<FileMetaData>, t: DbState)
    requires StateOk(s) && FinishStep(s, es, outputs, t)
    ensures StateOk(t)
  {
    hide VersionOk, NumbersBelow, Kept, Flatten, Sorted, Built, ResurrectsSome, IsReplacement, PlanOk, Unique,
         IsMerge, Entries, Read, TakenOk;
    FinishKeepsVersion(s, es, outputs, t);
    FinishKeepsEntries(s, es, outputs, t);
    assert Memory(t) == Memory(s);
    FinishChangesNoReadIff(s, es, outputs, t);
  }
}
