/** Reading the input files of a compaction through a merging iterator. */
module CompactionInput {
  import opened InternalKeys
  import opened Versions
  import opened FileSearch
  import opened BoundaryFiles
  import opened CompactionReads
  import opened Cursors
  import opened MergingIterators

  // ----- the sorted union exists -----

  /** Distinct entries are ordered one way or the other. */
  ghost predicate Comparable(s: set<Entry>) {
    forall a, b :: a in s && b in s && a != b ==> Before(a, b) || Before(b, a)
  }

  lemma UniqueIsComparable(s: set<Entry>)
    requires Unique(s)
    ensures Comparable(s)
  {
  }

  lemma {:induction false} InsertEntry(es: seq<Entry>, e: Entry) returns (r: seq<Entry>)
    requires Sorted(es) && forall x :: x in es ==> Before(x, e) || Before(e, x)
    ensures Sorted(r) && forall x :: x in r <==> x in es || x == e
  {
    var p := 0;
    while p < |es| && Before(es[p], e)
      invariant p <= |es| && forall j :: 0 <= j < p ==> Before(es[j], e)
    {
      p := p + 1;
    }
    r := es[..p] + [e] + es[p..];
    assert forall x :: x in es <==> x in es[..p] || x in es[p..];
    assert p < |es| ==> es[p] in es && forall j :: p < j < |es| ==> Before(es[p], es[j]);
  }

  lemma {:induction false} SetSorts(s: set<Entry>) returns (r: seq<Entry>)
    requires Comparable(s)
    ensures Sorted(r) && forall x :: x in r <==> x in s
    decreases s
  {
    if e :| e in s {
      var init := SetSorts(s - {e});
      r := InsertEntry(init, e);
    } else {
      r := [];
    }
  }

  // ----- the input files share no entry -----

  ghost function FileEntries(files: seq<FileMetaData>): set<Entry> {
    set f, e | f in files && e in f.entries :: e
  }

  ghost predicate NoSharedEntries(files: seq<FileMetaData>) {
    forall f, g, e :: f in files && g in files && f != g && e in f.entries ==> e !in g.entries
  }

  lemma HeldFilesShareNothing(v: Version, l: nat, f: FileMetaData, m: nat, g: FileMetaData, e: Entry)
    requires VersionOk(v) && Holds(v, l, f) && Holds(v, m, g) && f != g && e in f.entries
    ensures e !in g.entries
  {
    hide Unique;
    if l == m {
      if l == 0 {
        assert f.number != g.number;
      } else {
        LevelWellFormed(v, l);
        DisjointOrdered(v.files[l], f, g);
        EntryInFileRange(f, e);
        forall b | b in g.entries ensures b != e {
          EntryInFileRange(g, b);
        }
      }
    } else {
      assert l < m ==> Newer(f, g);
      assert m < l ==> Newer(g, f);
    }
  }

  lemma InputsShareNothing(v: Version, level: nat, inputs0: seq<FileMetaData>, inputs1: seq<FileMetaData>)
    requires VersionOk(v) && level + 1 < NUM_LEVELS
    requires forall f :: f in inputs0 ==> Holds(v, level, f)
    requires forall f :: f in inputs1 ==> Holds(v, level + 1, f)
    requires NoDuplicates(inputs0) && NoDuplicates(inputs1)
    ensures NoSharedEntries(inputs0 + inputs1) && NoDuplicates(inputs0 + inputs1)
    ensures AllWellFormed(inputs0 + inputs1) && Unique(FileEntries(inputs0 + inputs1))
  {
    hide LevelsOk, Layered, Unique;
    var all := inputs0 + inputs1;
    forall f, g, e | f in all && g in all && f != g && e in f.entries ensures e !in g.entries {
      HeldFilesShareNothing(v, if f in inputs0 then level else level + 1, f, if g in inputs0 then level else level + 1, g, e);
    }
    forall f | f in inputs0 ensures f !in inputs1 {
      assert Holds(v, level, f) && !Holds(v, level + 1, f);
    }
    forall i, j | 0 <= i < j < |all| ensures all[i] != all[j] {
      assert all[i] in inputs0 || i >= |inputs0|;
    }
    forall f | f in all ensures WellFormed(f) {
      HeldIsWellFormed(v, if f in inputs0 then level else level + 1, f);
    }
    forall e | e in FileEntries(all) ensures e in Entries(v) {
      var f :| f in all && e in f.entries;
      EntriesHeld(v, e);
      assert Holds(v, level, f) || Holds(v, level + 1, f);
    }
    UniqueSubset(FileEntries(all), Entries(v));
  }

  lemma HeldIsWellFormed(v: Version, l: nat, f: FileMetaData)
    requires LevelsOk(v) && Holds(v, l, f)
    ensures WellFormed(f)
  {
  }

  // ----- reading -----

  method OpenFiles(files: seq<FileMetaData>) returns (children: seq<Cursor>)
    requires AllWellFormed(files)
    ensures |children| == |files|
    ensures forall i :: 0 <= i < |files| ==> fresh(children[i]) && children[i].Ok() && children[i].entries == files[i].entries
    ensures forall i, j :: 0 <= i < j < |files| ==> children[i] != children[j]
  {
    children := [];
    for n := 0 to |files|
      invariant |children| == n
      invariant forall i :: 0 <= i < n ==> fresh(children[i]) && children[i].Ok() && children[i].entries == files[i].entries
      invariant forall i, j :: 0 <= i < j < n ==> children[i] != children[j]
    {
      assert WellFormed(files[n]);
      var child := new Cursor(files[n].entries);
      children := children + [child];
    }
  }

  /** The entries of the files in iteration order, as the merging iterator yields them. */
  method ReadInput(files: seq<FileMetaData>) returns (es: seq<Entry>)
    requires AllWellFormed(files) && NoDuplicates(files) && NoSharedEntries(files) && Unique(FileEntries(files))
    ensures IsMerge(es, files)
  {
    hide IsUnion, IsMerge, AllWellFormed, NoSharedEntries, Unique, Comparable, Sorted, NoDuplicates;
    UniqueIsComparable(FileEntries(files));
    ghost var merged := SetSorts(FileEntries(files));
    var children := OpenFiles(files);
    ghost var runs := seq(|children|, i requires 0 <= i < |children| => children[i].entries);
    UnionOfFiles(merged, files, runs);
    var input := new MergingIterator(children, merged);
    es := Drain(input);
  }

  method Drain(input: MergingIterator) returns (es: seq<Entry>)
    requires input.Ok()
    modifies input, input.children
    ensures es == input.merged
  {
    hide IsUnion, AtCut, BelowCut, Sorted;
    input.SeekToFirst();
    es := [];
    while input.Valid()
      invariant input.Ok() && es == input.merged[..input.pos]
      decreases |input.merged| - input.pos
    {
      es := es + [input.Current()];
      input.Next();
    }
    assert es == input.merged;
  }

  lemma UnionOfFiles(merged: seq<Entry>, files: seq<FileMetaData>, runs: seq<seq<Entry>>)
    requires AllWellFormed(files) && NoDuplicates(files) && NoSharedEntries(files)
    requires |runs| == |files| && forall i :: 0 <= i < |files| ==> runs[i] == files[i].entries
    requires Sorted(merged) && forall e :: e in merged <==> e in FileEntries(files)
    ensures IsUnion(merged, runs)
    ensures IsMerge(merged, files)
  {
    forall i | 0 <= i < |runs| ensures Sorted(runs[i]) {
      assert WellFormed(files[i]);
    }
    forall e ensures e in merged <==> exists i :: 0 <= i < |runs| && e in runs[i] {
      if e in merged {
        var f :| f in files && e in f.entries;
        var i :| 0 <= i < |files| && files[i] == f;
        assert e in runs[i];
      }
      if i :| 0 <= i < |runs| && e in runs[i] {
        assert files[i] in files;
      }
    }
    forall i, j, e | 0 <= i < |runs| && 0 <= j < |runs| && i != j && e in runs[i] ensures e !in runs[j] {
      assert files[i] in files && files[j] in files;
      assert i < j ==> files[i] != files[j];
      assert j < i ==> files[j] != files[i];
    }
  }
}
