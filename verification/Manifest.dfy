/** The manifest: a snapshot of the current version followed by edits, replayed at recovery. */
module Manifest {
  import opened InternalKeys
  import opened Versions
  import opened VersionBuilder

  // ----- what replaying a list of edits means -----

  ghost function LevelAfter(base: Version, edits: seq<VersionEdit>, level: nat): set<FileMetaData>
    requires level < |base.files|
  {
    if edits == [] then LevelSet(base, level)
    else Edited(LevelAfter(base, edits[..|edits| - 1], level), edits[|edits| - 1], level)
  }

  ghost function SeenAfter(base: Version, edits: seq<VersionEdit>, level: nat): set<FileMetaData>
    requires level < |base.files|
  {
    if edits == [] then LevelSet(base, level)
    else SeenAfter(base, edits[..|edits| - 1], level) + AddedAt(edits[|edits| - 1], level)
  }

  ghost function PointersAfterAll(pointers: seq<Option<InternalKey>>, edits: seq<VersionEdit>): (r: seq<Option<InternalKey>>)
    requires |pointers| == NUM_LEVELS && forall i :: 0 <= i < |edits| ==> EditOk(edits[i])
    ensures |r| == NUM_LEVELS
  {
    if edits == [] then pointers
    else
      var n := |edits| - 1;
      assert EditOk(edits[n]);
      PointersAfter(PointersAfterAll(pointers, edits[..n]), edits[n].compactPointers)
  }

  /** Each edit adds files under numbers its level has not seen before. */
  ghost predicate EditsFresh(base: Version, edits: seq<VersionEdit>) {
    && |base.files| == NUM_LEVELS
    && (forall k :: 0 <= k < |edits| ==> EditOk(edits[k]))
    && (forall k, l :: 0 <= k < |edits| && 0 <= l < NUM_LEVELS ==> AddsFresh(edits[k], l, SeenAfter(base, edits[..k], l)))
  }

  predicate BaseSorted(base: Version) {
    |base.files| == NUM_LEVELS && forall l :: 0 <= l < NUM_LEVELS ==> SortedBySmallest(base.files[l])
  }

  /** `v` is the result of replaying the edits on top of the base. */
  ghost predicate IsReplay(v: Version, base: Version, edits: seq<VersionEdit>) {
    && BaseSorted(base) && BaseSorted(v)
    && forall l :: 0 <= l < NUM_LEVELS ==> LevelSet(v, l) == LevelAfter(base, edits, l)
  }

  /** There is only one such version, down to the order of files. */
  lemma ReplayUnique(v: Version, w: Version, base: Version, edits: seq<VersionEdit>)
    requires IsReplay(v, base, edits) && IsReplay(w, base, edits)
    ensures v == w
  {
    forall l | 0 <= l < NUM_LEVELS ensures v.files[l] == w.files[l] {
      assert LevelSet(v, l) == LevelSet(w, l);
      assert forall f :: f in v.files[l] <==> f in LevelSet(v, l);
      assert forall f :: f in w.files[l] <==> f in LevelSet(w, l);
      SortedSameSet(v.files[l], w.files[l]);
    }
    assert v.files == w.files;
  }

  lemma {:induction false} LevelWithinSeen(base: Version, edits: seq<VersionEdit>, level: nat)
    requires level < |base.files|
    ensures LevelAfter(base, edits, level) <= SeenAfter(base, edits, level)
  {
    if edits != [] {
      LevelWithinSeen(base, edits[..|edits| - 1], level);
    }
  }

  /** Recovery: every edit folded into one builder, saved once. */
  method ReplayAtOnce(base: Version, pointers: seq<Option<InternalKey>>, edits: seq<VersionEdit>)
    returns (v: Version, newPointers: seq<Option<InternalKey>>)
    requires BaseSorted(base) && EditsFresh(base, edits) && |pointers| == NUM_LEVELS
    ensures IsReplay(v, base, edits)
    ensures newPointers == PointersAfterAll(pointers, edits)
  {
    var builder := new Builder(base, pointers);
    for k := 0 to |edits|
      invariant builder.Valid() && builder.base == base
      invariant forall l :: 0 <= l < NUM_LEVELS ==> builder.Seen(l) == SeenAfter(base, edits[..k], l)
      invariant forall l :: 0 <= l < NUM_LEVELS ==> builder.Level(l) == LevelAfter(base, edits[..k], l)
      invariant builder.compactPointer == PointersAfterAll(pointers, edits[..k])
    {
      assert edits[..k + 1][..k] == edits[..k];
      builder.Apply(edits[k]);
    }
    assert edits[..|edits|] == edits;
    v := builder.SaveTo();
    newPointers := builder.compactPointer;
  }

  /** Normal operation: each edit builds and installs its own version. */
  method ApplyStepwise(base: Version, pointers: seq<Option<InternalKey>>, edits: seq<VersionEdit>)
    returns (v: Version, newPointers: seq<Option<InternalKey>>)
    requires BaseSorted(base) && EditsFresh(base, edits) && |pointers| == NUM_LEVELS
    ensures IsReplay(v, base, edits)
    ensures newPointers == PointersAfterAll(pointers, edits)
  {
    v, newPointers := base, pointers;
    for k := 0 to |edits|
      invariant IsReplay(v, base, edits[..k])
      invariant newPointers == PointersAfterAll(pointers, edits[..k])
    {
      assert edits[..k + 1][..k] == edits[..k];
      var builder := new Builder(v, newPointers);
      forall l | 0 <= l < NUM_LEVELS ensures AddsFresh(edits[k], l, LevelSet(v, l)) {
        LevelWithinSeen(base, edits[..k], l);
      }
      builder.Apply(edits[k]);
      v := builder.SaveTo();
      newPointers := builder.compactPointer;
    }
    assert edits[..|edits|] == edits;
  }

  // ----- the snapshot record that starts a manifest -----

  ghost predicate IsSnapshot(edit: VersionEdit, v: Version, pointers: seq<Option<InternalKey>>)
    requires |v.files| == |pointers| == NUM_LEVELS
  {
    && EditOk(edit)
    && edit.deletedFiles == {}
    && (forall l :: 0 <= l < NUM_LEVELS ==> AddedAt(edit, l) == LevelSet(v, l) && AddsFresh(edit, l, {}))
    && PointersAfter(seq(NUM_LEVELS, _ => None), edit.compactPointers) == pointers
  }

  /** The version's files, level by level, as one list of additions. */
  function FilesUpTo(v: Version, level: nat): seq<(nat, FileMetaData)>
    requires level <= |v.files|
  {
    if level == 0 then []
    else FilesUpTo(v, level - 1) + Additions(level - 1, v.files[level - 1])
  }

  function Additions(level: nat, files: seq<FileMetaData>): seq<(nat, FileMetaData)> {
    seq(|files|, i requires 0 <= i < |files| => (level, files[i]))
  }

  lemma {:induction false} FilesUpToHas(v: Version, level: nat)
    requires level <= |v.files|
    ensures forall p :: p in FilesUpTo(v, level) <==> p.0 < level && p.1 in v.files[p.0]
  {
    if level > 0 {
      FilesUpToHas(v, level - 1);
      var last := Additions(level - 1, v.files[level - 1]);
      forall p ensures p in last <==> p.0 == level - 1 && p.1 in v.files[level - 1] {
        if p.0 == level - 1 && p.1 in v.files[level - 1] {
          var i :| 0 <= i < |v.files[level - 1]| && v.files[level - 1][i] == p.1;
          assert last[i] == p;
        }
      }
    }
  }

  lemma {:induction false} FilesUpToDistinct(v: Version, level: nat)
    requires VersionOk(v) && level <= NUM_LEVELS
    ensures forall i, j :: 0 <= i < j < |FilesUpTo(v, level)| ==> FilesUpTo(v, level)[i].1.number != FilesUpTo(v, level)[j].1.number
  {
    hide Layered, Unique;
    if level > 0 {
      FilesUpToDistinct(v, level - 1);
      FilesUpToHas(v, level - 1);
      var before := FilesUpTo(v, level - 1);
      var fs := v.files[level - 1];
      forall i, j | 0 <= i < j < |FilesUpTo(v, level)|
        ensures FilesUpTo(v, level)[i].1.number != FilesUpTo(v, level)[j].1.number
      {
        if j >= |before| {
          var g := fs[j - |before|];
          assert Holds(v, level - 1, g);
          if i < |before| {
            assert before[i] in before && Holds(v, before[i].0, before[i].1);
          } else {
            assert Holds(v, level - 1, fs[i - |before|]);
            LevelWellFormed(v, level - 1);
          }
        }
      }
    }
  }

  method WriteSnapshot(v: Version, pointers: seq<Option<InternalKey>>) returns (edit: VersionEdit)
    requires VersionOk(v) && |pointers| == NUM_LEVELS
    ensures IsSnapshot(edit, v, pointers)
  {
    var compactPointers: seq<(nat, InternalKey)> := [];
    var none: seq<Option<InternalKey>> := seq(NUM_LEVELS, _ => None);
    for level := 0 to NUM_LEVELS
      invariant forall i :: 0 <= i < |compactPointers| ==> compactPointers[i].0 < NUM_LEVELS
      invariant PointersAfter(none, compactPointers) == pointers[..level] + none[level..]
    {
      if pointers[level].Some? {
        compactPointers := compactPointers + [(level, pointers[level].value)];
        assert compactPointers[..|compactPointers| - 1] + [(level, pointers[level].value)] == compactPointers;
      }
    }
    var newFiles: seq<(nat, FileMetaData)> := [];
    for level := 0 to NUM_LEVELS
      invariant newFiles == FilesUpTo(v, level)
    {
      var files := v.files[level];
      for i := 0 to |files|
        invariant newFiles == FilesUpTo(v, level) + seq(i, k requires 0 <= k < i => (level, files[k]))
      {
        newFiles := newFiles + [(level, files[i])];
      }
    }
    edit := VersionEdit(compactPointers, {}, newFiles);
    FilesUpToHas(v, NUM_LEVELS);
    FilesUpToDistinct(v, NUM_LEVELS);
    forall l | 0 <= l < NUM_LEVELS ensures AddedAt(edit, l) == LevelSet(v, l) {
      forall f | f in v.files[l] ensures f in AddedAt(edit, l) {
        assert (l, f) in newFiles;
      }
    }
  }

  const EMPTY_VERSION := Version([[], [], [], [], [], [], []])

  lemma EmptyLevel(level: nat)
    requires level < NUM_LEVELS
    ensures LevelSet(EMPTY_VERSION, level) == {}
  {
  }

  /** The snapshot, applied to nothing, gives the version's files. */
  lemma SnapshotFillsLevel(v: Version, pointers: seq<Option<InternalKey>>, snapshot: VersionEdit, level: nat)
    requires |v.files| == |pointers| == NUM_LEVELS && level < NUM_LEVELS && IsSnapshot(snapshot, v, pointers)
    ensures LevelSet(EMPTY_VERSION, level) + AddedAt(snapshot, level) == LevelSet(v, level)
    ensures Edited(LevelSet(EMPTY_VERSION, level), snapshot, level) == LevelSet(v, level)
  {
    EmptyLevel(level);
  }

  /** Replaying a manifest rebuilds exactly what was installed: snapshot plus edits, folded once onto
      nothing, is the snapshotted version with the edits applied one by one. */
  lemma {:induction false} ManifestRebuilds(v: Version, pointers: seq<Option<InternalKey>>, snapshot: VersionEdit,
                                            edits: seq<VersionEdit>, level: nat)
    requires VersionOk(v) && |pointers| == NUM_LEVELS && level < NUM_LEVELS
    requires IsSnapshot(snapshot, v, pointers)
    ensures LevelAfter(EMPTY_VERSION, [snapshot] + edits, level) == LevelAfter(v, edits, level)
    ensures SeenAfter(EMPTY_VERSION, [snapshot] + edits, level) == SeenAfter(v, edits, level)
  {
    hide Layered, NumbersUnique, Unique, Edited, AddedAt, LevelSet, IsSnapshot;
    if edits == [] {
      assert [snapshot] + edits == [snapshot];
      assert [snapshot][..0] == [];
      SnapshotFillsLevel(v, pointers, snapshot, level);
    } else {
      var n := |edits| - 1;
      ManifestRebuilds(v, pointers, snapshot, edits[..n], level);
      assert ([snapshot] + edits)[..n + 1] == [snapshot] + edits[..n];
    }
  }

  lemma {:induction false} PointersRebuild(v: Version, pointers: seq<Option<InternalKey>>, snapshot: VersionEdit, edits: seq<VersionEdit>)
    requires |v.files| == |pointers| == NUM_LEVELS && IsSnapshot(snapshot, v, pointers)
    requires forall i :: 0 <= i < |edits| ==> EditOk(edits[i])
    ensures PointersAfterAll(seq(NUM_LEVELS, _ => None), [snapshot] + edits) == PointersAfterAll(pointers, edits)
  {
    if edits == [] {
      assert [snapshot] + edits == [snapshot] && [snapshot][..0] == [];
    } else {
      var n := |edits| - 1;
      PointersRebuild(v, pointers, snapshot, edits[..n]);
      assert ([snapshot] + edits)[..n + 1] == [snapshot] + edits[..n];
    }
  }

  lemma ManifestFresh(v: Version, pointers: seq<Option<InternalKey>>, snapshot: VersionEdit, edits: seq<VersionEdit>)
    requires VersionOk(v) && |pointers| == NUM_LEVELS
    requires IsSnapshot(snapshot, v, pointers) && EditsFresh(v, edits)
    ensures EditsFresh(EMPTY_VERSION, [snapshot] + edits)
  {
    var all := [snapshot] + edits;
    forall k, l | 0 <= k < |all| && 0 <= l < NUM_LEVELS ensures AddsFresh(all[k], l, SeenAfter(EMPTY_VERSION, all[..k], l)) {
      if k == 0 {
        assert all[..0] == [];
        assert LevelSet(EMPTY_VERSION, l) == {};
      } else {
        assert all[..k] == [snapshot] + edits[..k - 1];
        ManifestRebuilds(v, pointers, snapshot, edits[..k - 1], l);
      }
    }
    forall k | 0 <= k < |all| ensures EditOk(all[k]) {
    }
  }

  /** Replaying a snapshot and edits from nothing yields the very version that the edits led to step by step. */
  lemma ReplayIsExact(v: Version, pointers: seq<Option<InternalKey>>, snapshot: VersionEdit, edits: seq<VersionEdit>,
                        recovered: Version, installed: Version)
    requires VersionOk(v) && |pointers| == NUM_LEVELS
    requires IsSnapshot(snapshot, v, pointers)
    requires IsReplay(recovered, EMPTY_VERSION, [snapshot] + edits)
    requires IsReplay(installed, v, edits)
    ensures recovered == installed
  {
    forall l | 0 <= l < NUM_LEVELS ensures LevelSet(recovered, l) == LevelAfter(v, edits, l) {
      ManifestRebuilds(v, pointers, snapshot, edits, l);
    }
    ReplayUnique(recovered, installed, v, edits);
  }
}
