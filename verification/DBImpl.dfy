/** The database object. Each method is one atomic step of the system in DbSteps. */
module Database {
  import opened InternalKeys
  import opened Versions
  import opened FileSearch
  import opened BoundaryFiles
  import opened CompactionInputs
  import opened DropRule
  import opened Compactions
  import opened VersionBuilder
  import opened Installs
  import opened CompactionReads
  import opened CompactionInput
  import opened VersionSets
  import opened DbSteps
  import VersionGet
  import Cursors

  class DBImpl {
    const versions: VersionSet
    var mem: seq<Entry>
    var imm: Option<seq<Entry>>
    var snapshots: seq<SequenceNumber>
    var running: Option<Plan>
    ghost var history: set<Entry>
    ghost var clean: bool

    ghost function View(): DbState reads this, versions {
      DbState(mem, imm, versions.current, versions.lastSequence, versions.nextFileNumber, snapshots, running, history, clean)
    }

    ghost predicate Valid() reads this, versions {
      && versions.Valid()
      && DbSteps.StateOk(View())
      && (running.Some? ==> NoDuplicates(running.value.inputs0) && NoDuplicates(running.value.inputs1))
      && (running.Some? ==> running.value.taken == [])
    }

    constructor (options: Options)
      ensures Valid() && fresh(versions)
      ensures mem == [] && imm == None && snapshots == [] && running == None && history == {} && clean
      ensures versions.lastSequence == 0
    {
      versions := new VersionSet(options);
      mem, imm, snapshots, running := [], None, [], None;
      history, clean := {}, true;
      new;
      assert forall l, f :: !Holds(versions.current, l, f);
      assert Entries(versions.current) == {} && AllEntries(View()) == {};
    }

    // ----- writes -----

    /** Inserts one update into the active memtable under the given sequence number. */
    method MemTableAdd(update: Update, sequence: SequenceNumber)
      requires Sorted(mem)
      requires forall e :: e in mem ==> e.key.sequence < sequence
      modifies this`mem
      ensures Sorted(mem) && EntrySet(mem) == old(EntrySet(mem)) + {UpdateEntry(update, sequence)}
      ensures forall e :: e in mem ==> e.key.sequence <= sequence
    {
      var e := UpdateEntry(update, sequence);
      var pos := Cursors.SeekEntry(mem, e.key);
      ghost var before := mem;
      mem := mem[..pos] + [e] + mem[pos..];
      assert forall x :: x in before <==> x in before[..pos] || x in before[pos..];
      forall i, j | 0 <= i < j < |mem| ensures Before(mem[i], mem[j]) {
        assert i < pos ==> mem[i] == before[i];
        assert i > pos ==> mem[i] == before[i - 1];
        assert j < pos ==> mem[j] == before[j];
        assert j > pos ==> mem[j] == before[j - 1];
      }
    }

    /** Applies a batch to the active memtable, one sequence number per update. */
    method InsertInto(updates: seq<Update>, first: nat)
      requires Sorted(mem) && first + |updates| <= MAX_SEQUENCE_NUMBER + 1
      requires forall e :: e in mem ==> e.key.sequence < first
      modifies this`mem
      ensures Sorted(mem) && EntrySet(mem) == old(EntrySet(mem)) + BatchEntries(updates, first)
    {
      assert BatchEntries(updates[..0], first) == {};
      for i := 0 to |updates|
        invariant Sorted(mem)
        invariant forall e :: e in mem ==> e.key.sequence < first + i
        invariant EntrySet(mem) == old(EntrySet(mem)) + BatchEntries(updates[..i], first)
      {
        hide Sorted, EntrySet, BatchEntries;
        MemTableAdd(updates[i], first + i);
        BatchGrows(updates, i, first);
      }
      assert updates[..|updates|] == updates;
    }

    method Write(updates: seq<Update>)
      requires Valid() && versions.lastSequence + |updates| < MAX_SEQUENCE_NUMBER
      modifies this`mem, this`history, versions`lastSequence
      ensures Valid() && WriteStep(old(View()), updates, View())
    {
      hide StateOk, WriteStep, BatchEntries, Sorted, EntrySet, VersionOk, NoDuplicates;
      ghost var s := View();
      MemReady(s);
      InsertInto(updates, versions.lastSequence + 1);
      ghost var t := AfterWrite(s, updates, mem);
      WriteIsStep(s, updates, mem);
      WriteKeeps(s, updates, t);
      history := history + BatchEntries(updates, versions.lastSequence + 1);
      versions.lastSequence := versions.lastSequence + |updates|;
      assert View() == t;
    }

    // ----- memtable switch and snapshots -----

    method SwitchMemTable()
      requires Valid() && imm.None?
      modifies this`mem, this`imm
      ensures Valid() && SwitchStep(old(View()), View())
    {
      ghost var s := View();
      imm := Some(mem);
      mem := [];
      SwitchKeeps(s, View());
    }

    method GetSnapshot() returns (sequence: SequenceNumber)
      requires Valid()
      modifies this`snapshots
      ensures Valid() && SnapshotStep(old(View()), View()) && sequence == versions.lastSequence
    {
      ghost var s := View();
      sequence := versions.lastSequence;
      snapshots := snapshots + [sequence];
      SnapshotKeeps(s, View());
    }

    method ReleaseSnapshot(i: nat)
      requires Valid() && i < |snapshots|
      modifies this`snapshots
      ensures Valid() && ReleaseStep(old(View()), i, View())
    {
      ghost var s := View();
      snapshots := snapshots[..i] + snapshots[i + 1..];
      ReleaseKeeps(s, i, View());
    }

    // ----- reads -----

    /** Any sequence number at or above the oldest live snapshot reads as the history of writes says. */
    method Get(user: UserKey, sequence: SequenceNumber) returns (r: Option<Value>)
      requires Valid()
      ensures r == Read(AllEntries(View()), user, sequence)
      ensures clean && Readable(View(), sequence) ==> r == Read(history, user, sequence)
    {
      hide VersionOk, NumbersBelow, PlanOk, Unique, Read;
      ghost var s := View();
      ReadableIff(s, sequence);
      assert AllEntries(s) == EntrySet(mem) + VersionGet.ImmSet(imm) + Entries(versions.current);
      UniqueSubset(AllEntries(s), history);
      MemoryOrders(s);
      r := VersionGet.Get(mem, imm, versions.current, user, sequence);
    }

    // ----- flushing -----

    /** Writes the immutable memtable to a file of the deepest level that is safe and installs it. */
    method CompactMemTable(fileSize: seq<Entry> -> nat)
      requires Valid() && imm.Some?
      modifies this`imm, versions
      ensures Valid()
      ensures old(imm) == Some([]) ==> EmptyFlushStep(old(View()), View())
      ensures old(imm) != Some([]) ==>
                exists level, f :: FlushStep(old(View()), level, f, View())
                  && IsDeepestLevel(old(versions.current), f.smallest.user, f.largest.user, versions.options, level)
    {
      ghost var s := View();
      ghost var pointers := versions.compactPointer;
      hide ReadsMatch, PlanOk, Layered, NumbersUnique, Unique, NumbersBelow;
      var entries := imm.value;
      var number := versions.NewFileNumber();
      if |entries| > 0 {
        var f := FileMetaData(number, fileSize(entries), entries[0].key, entries[|entries| - 1].key, entries);
        assert WellFormed(f);
        var level := PickLevelForMemTableOutput(versions.current, f.smallest.user, f.largest.user, versions.options);
        PickedLevelIsSafe(versions.current, level, f);
        var edit := VersionEdit([], {}, [(level, f)]);
        FlushEditFresh(versions.current, edit, level, f);
        versions.LogAndApply(edit);
        FlushEdit(s.version, versions.current, edit, level, f);
        imm := None;
        assert FlushStep(s, level, f, View());
        FlushKeeps(s, level, f, View());
      } else {
        imm := None;
        EmptyFlushKeeps(s, View());
      }
    }

    // ----- compactions -----

    /** Picks a compaction of the level. One that would only move a file is done on the spot,
        any other is left running with the snapshot bound of this moment. */
    method BeginCompaction(level: nat, fileToCompact: Option<FileMetaData>)
      requires Valid() && running.None? && level + 1 < NUM_LEVELS && versions.current.files[level] != []
      requires fileToCompact.Some? ==> fileToCompact.value in versions.current.files[level]
      modifies this`running, versions
      ensures Valid()
      ensures (exists p :: BeginStep(old(View()), p, View()) && p.level == level && !MovesOneFile(p.inputs0, p.inputs1, p.grandparents))
           || (exists f, grandparents :: MoveStep(old(View()), level, f, View()) && MovesOneFile([f], [], grandparents)
                && IsUnder(old(versions.current), level, [f], grandparents))
    {
      ghost var s := View();
      hide ReadsMatch, Layered, NumbersUnique, Unique, InputsOk, GapFree, NumbersBelow, MemoryOk, HistoryOk, PlanOk;
      var inputs0, inputs1, grandparents, largest := versions.PickCompaction(level, fileToCompact);
      var under := TotalFileSize(grandparents);
      if |inputs0| == 1 && |inputs1| == 0 && under <= MaxGrandParentOverlapBytes(versions.options) {
        assert inputs0 == [inputs0[0]] && inputs1 == [];
        assert MovesOneFile([inputs0[0]], [], grandparents) && IsUnder(versions.current, level, [inputs0[0]], grandparents);
        TrivialMove(level, inputs0[0], largest);
      } else {
        var smallestSnapshot := if |snapshots| == 0 then versions.lastSequence else snapshots[0];
        var p := Plan(level, versions.current, inputs0, inputs1, grandparents, largest, smallestSnapshot, []);
        running := Some(p);
        assert BeginStep(s, p, View());
        BeginKeeps(s, p, View());
      }
    }

    /** Nothing to merge it with, and not too many bytes of grandparents under it. */
    ghost predicate MovesOneFile(inputs0: seq<FileMetaData>, inputs1: seq<FileMetaData>, grandparents: seq<FileMetaData>)
      reads versions
    {
      |inputs0| == 1 && |inputs1| == 0 && SumOfSizes(grandparents) <= 10 * versions.options.maxFileSize
    }

    /** The files two levels down that the inputs meet. */
    ghost predicate IsUnder(v: Version, level: nat, inputs: seq<FileMetaData>, grandparents: seq<FileMetaData>) {
      && (level + 2 < |v.files| ==> TakesOverlapping(v.files[level + 2], inputs, grandparents))
      && (level + 2 >= |v.files| ==> grandparents == [])
    }

    method TrivialMove(level: nat, f: FileMetaData, largest: InternalKey)
      requires Valid() && running.None? && level + 1 < NUM_LEVELS && InputsOk(versions.current, level, [f], [])
      modifies versions
      ensures versions.Valid() && Valid() && MoveStep(old(View()), level, f, View())
    {
      ghost var s := View();
      hide ReadsMatch, InputsOk, NumbersBelow, MemoryOk, HistoryOk, Unique;
      assert f in [f] && Holds(versions.current, level, f) by {
        InputIsHeld(versions.current, level, f);
      }
      var edit := VersionEdit([(level, largest)], {(level, f.number)}, [(level + 1, f)]);
      assert IsCompactionEdit(edit, level, [f], [], [f]);
      CompactionEditFresh(versions.current, edit, level, [f], [], [f]);
      versions.LogAndApply(edit);
      CompactionEditReplaces(s.version, versions.current, edit, level, [f], [], [f]);
      MoveKeeps(s, level, f, View());
    }

    /** Runs the compaction's loop over its inputs and installs what it wrote into the version current by now:
        some steps that open an output file, and the step that finishes. */
    method FinishCompaction(limits: CompactionLimits, fileSize: seq<Entry> -> nat)
      requires Valid() && running.Some?
      modifies this`running, this`clean, versions
      ensures Valid()
      ensures exists es, outputs :: FinishStep(AfterOpens(old(View()), |outputs|), es, outputs, View())
    {
      hide StateOk, FinishStep, PlanOk, NoDuplicates, NumbersBelow, VersionOk, Kept, IsMerge, Flatten, Built,
           IsReplacement, Resurrecting, TakenOk;
      ghost var s0 := View();
      RunningFacts(s0);
      var first := versions.nextFileNumber;
      var es, outputs := RunCompaction(running.value, limits, fileSize, i => first + i);
      versions.nextFileNumber := first + |outputs|;
      running := Some(running.value.(taken := running.value.taken + NumbersFrom(first, |outputs|)));
      ghost var s := View();
      OpensKeep(s0, |outputs|);
      assert s == AfterOpens(s0, |outputs|);
      RunningFacts(s);
      var p := running.value;
      InstallCompactionResults(p, outputs);
      running, clean := None, clean && !Resurrecting(s, p, es);
      FinishIsStep(s, es, outputs, View());
      FinishKeeps(s, es, outputs, View());
      SoundVersion(View());
    }

    method RunCompaction(p: Plan, limits: CompactionLimits, fileSize: seq<Entry> -> nat, numberOf: nat -> nat)
      returns (es: seq<Entry>, outputs: seq<FileMetaData>)
      requires PlanOk(p, versions.current) && p.smallestSnapshot < MAX_SEQUENCE_NUMBER
      requires NoDuplicates(p.inputs0) && NoDuplicates(p.inputs1)
      ensures IsMerge(es, p.inputs0 + p.inputs1)
      ensures Built(outputs) && Numbered(outputs, numberOf)
      ensures Flatten(outputs) == Kept(es, |es|, p.smallestSnapshot, p.base, p.level)
    {
      hide InputsOk, Unique, GapFree, FlushedSince, Kept, Flatten, Built;
      forall f | f in p.inputs0 + p.inputs1
        ensures f in p.inputs0 ==> Holds(p.base, p.level, f)
        ensures f in p.inputs1 ==> Holds(p.base, p.level + 1, f)
      {
        InputHeldIn(p, versions.current, f);
      }
      InputsShareNothing(p.base, p.level, p.inputs0, p.inputs1);
      es := ReadInput(p.inputs0 + p.inputs1);
      var c := new Compaction(p.level, p.base, p.inputs0, p.inputs1, p.grandparents);
      outputs := DoCompactionWork(c, es, p.smallestSnapshot, limits, fileSize, numberOf);
    }

    method InstallCompactionResults(p: Plan, outputs: seq<FileMetaData>)
      requires versions.Valid() && PlanOk(p, versions.current)
      requires TakenOk(p.taken, versions.current, versions.nextFileNumber) && HaveNumbers(outputs, p.taken)
      modifies versions`current, versions`compactPointer
      ensures |versions.compactPointer| == NUM_LEVELS
      ensures IsReplacement(old(versions.current), versions.current, p.level, p.inputs0, p.inputs1, outputs)
    {
      hide PlanOk, NumbersBelow, VersionOk, Built, IsReplacement, AddsFresh, IsCompactionEdit, IsEdited, EditOk,
           LevelsOk, NumbersUnique, OutputsApart;
      ghost var v := versions.current;
      var edit := CompactionEdit(p.level, p.largest, p.inputs0, p.inputs1, outputs);
      ResultsEdit(p, v, versions.nextFileNumber, outputs, edit);
      versions.LogAndApply(edit);
      CompactionEditReplaces(v, versions.current, edit, p.level, p.inputs0, p.inputs1, outputs);
    }

    lemma InputIsHeld(v: Version, level: nat, f: FileMetaData)
      requires level < |v.files| && InputsOk(v, level, [f], [])
      ensures Holds(v, level, f)
    {
      assert f in [f];
    }
  }

  ghost function AfterWrite(s: DbState, updates: seq<Update>, mem: seq<Entry>): DbState
    requires s.lastSequence + |updates| < MAX_SEQUENCE_NUMBER
  {
    s.(mem := mem, history := s.history + BatchEntries(updates, s.lastSequence + 1), lastSequence := s.lastSequence + |updates|)
  }

  lemma WriteIsStep(s: DbState, updates: seq<Update>, mem: seq<Entry>)
    requires s.lastSequence + |updates| < MAX_SEQUENCE_NUMBER && Sorted(mem)
    requires EntrySet(mem) == EntrySet(s.mem) + BatchEntries(updates, s.lastSequence + 1)
    ensures WriteStep(s, updates, AfterWrite(s, updates, mem))
  {
    hide Sorted, EntrySet, BatchEntries;
  }

  lemma MemReady(s: DbState)
    requires StateOk(s)
    ensures Sorted(s.mem) && forall e :: e in s.mem ==> e.key.sequence < s.lastSequence + 1
  {
    hide VersionOk, NumbersBelow, PlanOk, ReadsMatch, Unique, Sorted;
    MemBelow(s);
  }

  lemma MemBelow(s: DbState)
    requires HistoryOk(s)
    ensures forall e :: e in s.mem ==> e.key.sequence < s.lastSequence + 1
  {
    forall e | e in s.mem ensures e.key.sequence < s.lastSequence + 1 {
      assert e in AllEntries(s);
    }
  }

  lemma BatchGrows(updates: seq<Update>, i: nat, first: nat)
    requires i < |updates| && first + |updates| <= MAX_SEQUENCE_NUMBER + 1
    ensures BatchEntries(updates[..i + 1], first) == BatchEntries(updates[..i], first) + {UpdateEntry(updates[i], first + i)}
  {
    forall e ensures e in BatchEntries(updates[..i + 1], first)
                <==> e in BatchEntries(updates[..i], first) || e == UpdateEntry(updates[i], first + i)
    {
      if e == UpdateEntry(updates[i], first + i) {
        assert UpdateEntry(updates[..i + 1][i], first + i) == e;
      }
      if e in BatchEntries(updates[..i], first) {
        var j :| 0 <= j < i && UpdateEntry(updates[..i][j], first + j) == e;
        assert UpdateEntry(updates[..i + 1][j], first + j) == e;
      }
    }
  }

  lemma MemoryOrders(s: DbState)
    requires MemoryOk(s)
    ensures Sorted(s.mem) && (s.imm.Some? ==> Sorted(s.imm.value))
    ensures s.imm.Some? ==> NewerThan(EntrySet(s.mem), EntrySet(s.imm.value))
    ensures NewerThan(EntrySet(s.mem) + VersionGet.ImmSet(s.imm), Entries(s.version))
  {
  }

  lemma RunningFacts(s: DbState)
    requires DbSteps.StateOk(s) && s.running.Some?
    ensures VersionOk(s.version) && NumbersBelow(s.version, s.nextFileNumber)
    ensures PlanOk(s.running.value, s.version) && s.running.value.smallestSnapshot < MAX_SEQUENCE_NUMBER
    ensures s.running.value.level + 1 < NUM_LEVELS
    ensures TakenOk(s.running.value.taken, s.version, s.nextFileNumber)
  {
    hide TakenOk, VersionOk, NumbersBelow, ReadsMatch, InputsOk, Unique;
  }

  lemma FinishIsStep(s: DbState, es: seq<Entry>, outputs: seq<FileMetaData>, t: DbState)
    requires s.running.Some? && s.running.value.level + 1 < NUM_LEVELS
    requires var p := s.running.value;
             && IsMerge(es, p.inputs0 + p.inputs1) && Built(outputs) && HaveNumbers(outputs, p.taken)
             && Flatten(outputs) == Kept(es, |es|, p.smallestSnapshot, p.base, p.level)
             && IsReplacement(s.version, t.version, p.level, p.inputs0, p.inputs1, outputs)
             && t == s.(version := t.version, running := None, clean := s.clean && !Resurrecting(s, p, es))
    ensures FinishStep(s, es, outputs, t)
  {
    hide IsMerge, Built, Flatten, Kept, IsReplacement, Resurrecting;
  }

  function NumbersFrom(first: nat, n: nat): (r: seq<nat>)
    ensures |r| == n
  {
    seq(n, i requires 0 <= i => first + i)
  }

  /** The state after the running compaction has opened `n` output files. */
  function AfterOpens(s: DbState, n: nat): DbState
    requires s.running.Some?
    ensures AfterOpens(s, n).running.Some?
  {
    if n == 0 then s else AfterOpen(AfterOpens(s, n - 1))
  }

  lemma {:induction false} OpensKeep(s: DbState, n: nat)
    requires DbSteps.StateOk(s) && s.running.Some?
    ensures DbSteps.StateOk(AfterOpens(s, n))
    ensures AfterOpens(s, n) == s.(nextFileNumber := s.nextFileNumber + n,
              running := Some(s.running.value.(taken := s.running.value.taken + NumbersFrom(s.nextFileNumber, n))))
  {
    hide DbSteps.StateOk;
    var taken := s.running.value.taken;
    if n == 0 {
      assert taken + NumbersFrom(s.nextFileNumber, 0) == taken;
    } else {
      OpensKeep(s, n - 1);
      assert taken + NumbersFrom(s.nextFileNumber, n - 1) + [s.nextFileNumber + n - 1] == taken + NumbersFrom(s.nextFileNumber, n);
      OpenKeeps(AfterOpens(s, n - 1), AfterOpens(s, n));
    }
  }

  /** The edit of a finished compaction fits the version current by now. */
  lemma ResultsEdit(p: Plan, v: Version, next: nat, outputs: seq<FileMetaData>, edit: VersionEdit)
    requires VersionOk(v) && PlanOk(p, v) && TakenOk(p.taken, v, next) && HaveNumbers(outputs, p.taken)
    requires IsCompactionEdit(edit, p.level, p.inputs0, p.inputs1, outputs) && edit.compactPointers == [(p.level, p.largest)]
    ensures p.level + 1 < NUM_LEVELS && LevelsOk(v) && NumbersUnique(v)
    ensures EditOk(edit) && OutputsApart(v, p.level, outputs)
    ensures forall l :: 0 <= l < NUM_LEVELS ==> AddsFresh(edit, l, LevelSet(v, l))
    ensures forall f :: f in p.inputs0 ==> Holds(v, p.level, f)
    ensures forall f :: f in p.inputs1 ==> Holds(v, p.level + 1, f)
  {
    hide InputsOk, Unique, GapFree, FlushedSince, Layered, AddsFresh, TakenOk, HaveNumbers;
    forall f | f in p.inputs0 + p.inputs1
      ensures f in p.inputs0 ==> Holds(v, p.level, f)
      ensures f in p.inputs1 ==> Holds(v, p.level + 1, f)
    {
      InputHeldIn(p, v, f);
    }
    OutputNumbersApart(v, p.level, next, p.taken, outputs);
    CompactionEditFresh(v, edit, p.level, p.inputs0, p.inputs1, outputs);
  }

  lemma SoundVersion(s: DbState)
    requires DbSteps.StateOk(s)
    ensures VersionOk(s.version)
  {
  }

  lemma OutputNumbersApart(v: Version, level: nat, next: nat, taken: seq<nat>, outputs: seq<FileMetaData>)
    requires TakenOk(taken, v, next) && HaveNumbers(outputs, taken)
    ensures OutputsApart(v, level, outputs) && DistinctNumbers(outputs)
  {
    OutputNumbers(v, next, taken, outputs);
  }

  /** AddInputDeletions and the additions of the outputs. */
  method CompactionEdit(level: nat, largest: InternalKey, inputs0: seq<FileMetaData>, inputs1: seq<FileMetaData>, outputs: seq<FileMetaData>)
    returns (edit: VersionEdit)
    ensures IsCompactionEdit(edit, level, inputs0, inputs1, outputs) && edit.compactPointers == [(level, largest)]
  {
    var deleted: set<(nat, nat)> := {};
    for i := 0 to |inputs0|
      invariant forall l, n :: (l, n) in deleted <==> l == level && exists f :: f in inputs0[..i] && f.number == n
    {
      deleted := deleted + {(level, inputs0[i].number)};
      MemberGrows(inputs0, i);
    }
    for i := 0 to |inputs1|
      invariant forall l, n :: (l, n) in deleted <==>
        (l == level && exists f :: f in inputs0 && f.number == n) || (l == level + 1 && exists f :: f in inputs1[..i] && f.number == n)
    {
      deleted := deleted + {(level + 1, inputs1[i].number)};
      MemberGrows(inputs1, i);
    }
    var added: seq<(nat, FileMetaData)> := [];
    for i := 0 to |outputs|
      invariant |added| == i && forall j :: 0 <= j < i ==> added[j] == (level + 1, outputs[j])
    {
      added := added + [(level + 1, outputs[i])];
    }
    edit := VersionEdit([(level, largest)], deleted, added);
  }

  lemma MemberGrows(files: seq<FileMetaData>, i: nat)
    requires i < |files|
    ensures forall f :: f in files[..i + 1] <==> f in files[..i] || f == files[i]
  {
    assert files[..i + 1] == files[..i] + [files[i]];
  }
}
