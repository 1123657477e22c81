/** Which entries a compaction may drop, and exactly when dropping them changes no read. */
module DropRule {
  import opened InternalKeys
  import opened Versions

  /** An older entry of the same user key, hidden from every snapshot by the one just before it. */
  predicate HiddenByNewer(es: seq<Entry>, i: nat, smallestSnapshot: nat)
    requires i < |es|
  {
    i > 0 && es[i - 1].key.user == es[i].key.user && es[i - 1].key.sequence <= smallestSnapshot
  }

  /** No level below the output level has a file spanning the key. */
  ghost predicate IsBaseLevel(v: Version, level: nat, user: UserKey) {
    forall l, f :: level + 2 <= l && Holds(v, l, f) ==> !Spans(f, user)
  }

  ghost predicate ObsoleteTombstone(e: Entry, smallestSnapshot: nat, v: Version, level: nat) {
    e.key.kind == TypeDeletion && e.key.sequence <= smallestSnapshot && IsBaseLevel(v, level, e.key.user)
  }

  ghost predicate Dropped(es: seq<Entry>, i: nat, smallestSnapshot: nat, v: Version, level: nat)
    requires i < |es|
  {
    HiddenByNewer(es, i, smallestSnapshot) || ObsoleteTombstone(es[i], smallestSnapshot, v, level)
  }

  /** What survives of the first `n` input entries. */
  ghost function Kept(es: seq<Entry>, n: nat, smallestSnapshot: nat, v: Version, level: nat): seq<Entry>
    requires n <= |es|
  {
    if n == 0 then []
    else Kept(es, n - 1, smallestSnapshot, v, level)
         + if Dropped(es, n - 1, smallestSnapshot, v, level) then [] else [es[n - 1]]
  }

  lemma {:induction false} KeptMembers(es: seq<Entry>, n: nat, smallestSnapshot: nat, v: Version, level: nat)
    requires n <= |es|
    ensures forall e :: e in Kept(es, n, smallestSnapshot, v, level)
                   <==> exists i :: 0 <= i < n && es[i] == e && !Dropped(es, i, smallestSnapshot, v, level)
  {
    if n > 0 {
      KeptMembers(es, n - 1, smallestSnapshot, v, level);
    }
  }

  /** The entry just before one of the same user key hides it if any entry does. */
  lemma HiddenIff(es: seq<Entry>, i: nat, smallestSnapshot: nat)
    requires Sorted(es) && i < |es|
    ensures HiddenByNewer(es, i, smallestSnapshot)
       <==> exists n :: n in es && n.key.user == es[i].key.user && n.key.sequence > es[i].key.sequence && n.key.sequence <= smallestSnapshot
  {
    if HiddenByNewer(es, i, smallestSnapshot) {
      assert Before(es[i - 1], es[i]) && es[i - 1] in es;
    }
    if n :| n in es && n.key.user == es[i].key.user && n.key.sequence > es[i].key.sequence && n.key.sequence <= smallestSnapshot {
      var j :| 0 <= j < |es| && es[j] == n;
      NoNewerIsNotBefore(es, j, i);
      OlderInputsDropped(es, j, i, smallestSnapshot);
    }
  }

  /** What is kept, said of the entries alone. An input entry goes if and only if the inputs hold a newer entry of
      its user key that every reader sees, or it is a deletion that every reader sees and no file two levels down
      or deeper has its user key in its range. */
  lemma KeptExactly(es: seq<Entry>, smallestSnapshot: nat, v: Version, level: nat)
    requires Sorted(es)
    ensures forall e :: e in Kept(es, |es|, smallestSnapshot, v, level) <==>
              && e in es
              && !(exists n :: n in es && n.key.user == e.key.user && n.key.sequence > e.key.sequence && n.key.sequence <= smallestSnapshot)
              && !(e.key.kind == TypeDeletion && e.key.sequence <= smallestSnapshot
                   && forall l, f :: level + 2 <= l && Holds(v, l, f) ==> !(f.smallest.user <= e.key.user <= f.largest.user))
  {
    KeptMembers(es, |es|, smallestSnapshot, v, level);
    forall i | 0 <= i < |es| ensures Dropped(es, i, smallestSnapshot, v, level) <==>
        || (exists n :: n in es && n.key.user == es[i].key.user && n.key.sequence > es[i].key.sequence && n.key.sequence <= smallestSnapshot)
        || (es[i].key.kind == TypeDeletion && es[i].key.sequence <= smallestSnapshot
            && forall l, f :: level + 2 <= l && Holds(v, l, f) ==> !(f.smallest.user <= es[i].key.user <= f.largest.user))
    {
      HiddenIff(es, i, smallestSnapshot);
      hide HiddenByNewer;
    }
    SortedOnce(es);
    hide Dropped, Kept, Sorted;
  }

  lemma SortedOnce(es: seq<Entry>)
    requires Sorted(es)
    ensures forall i, j :: 0 <= i < j < |es| ==> es[i] != es[j]
  {
    forall i, j | 0 <= i < j < |es| ensures es[i] != es[j] {
      assert Before(es[i], es[j]);
    }
  }

  lemma {:induction false} KeptSorted(es: seq<Entry>, n: nat, smallestSnapshot: nat, v: Version, level: nat)
    requires Sorted(es) && n <= |es|
    ensures Sorted(Kept(es, n, smallestSnapshot, v, level))
  {
    if n > 0 {
      KeptSorted(es, n - 1, smallestSnapshot, v, level);
      KeptMembers(es, n - 1, smallestSnapshot, v, level);
      var before := Kept(es, n - 1, smallestSnapshot, v, level);
      forall k | 0 <= k < |before| ensures Before(before[k], es[n - 1]) {
        assert before[k] in before;
      }
    }
  }

  ghost function EntrySet(es: seq<Entry>): set<Entry> {
    set e | e in es
  }

  /** Every entry of the tombstone's user key older than the tombstone is dropped with it. */
  lemma OlderInputsDropped(es: seq<Entry>, i: nat, j: nat, smallestSnapshot: nat)
    requires Sorted(es) && i < j < |es|
    requires es[i].key.user == es[j].key.user && es[i].key.sequence <= smallestSnapshot
    ensures HiddenByNewer(es, j, smallestSnapshot)
  {
    assert i < j - 1 ==> Before(es[i], es[j - 1]);
    assert Before(es[j - 1], es[j]);
  }

  /** A read at `oldest` finds a tombstone the compaction drops, while an older value of its user key,
      left outside the inputs, becomes the newest entry that read can see. */
  ghost predicate Resurrects(rest: set<Entry>, es: seq<Entry>, i: nat, r: Entry, smallestSnapshot: nat, oldest: nat,
                             v: Version, level: nat) {
    && i < |es|
    && ObsoleteTombstone(es[i], smallestSnapshot, v, level)
    && r in rest && r.key.user == es[i].key.user && r.key.sequence < es[i].key.sequence && r.key.kind == TypeValue
    && IsNewest(rest + EntrySet(es), r.key.user, oldest, es[i])
    && IsNewest(rest, r.key.user, oldest, r)
  }

  lemma NoNewerIsNotBefore(es: seq<Entry>, i: nat, j: nat)
    requires Sorted(es) && i < |es| && j < |es|
    requires es[j].key.user == es[i].key.user && es[j].key.sequence <= es[i].key.sequence
    ensures i <= j
  {
  }

  /** Of the inputs' entries no newer than a tombstone dropped as obsolete, none is kept. */
  lemma AroundTombstone(es: seq<Entry>, i: nat, o: Entry, smallestSnapshot: nat, v: Version, level: nat)
    requires Sorted(es) && i < |es| && o in es && o.key.user == es[i].key.user && o.key.sequence <= es[i].key.sequence
    requires ObsoleteTombstone(es[i], smallestSnapshot, v, level)
    ensures o !in Kept(es, |es|, smallestSnapshot, v, level)
  {
    KeptMembers(es, |es|, smallestSnapshot, v, level);
    forall j | 0 <= j < |es| && es[j] == o ensures Dropped(es, j, smallestSnapshot, v, level) {
      NoNewerIsNotBefore(es, i, j);
      if j > i {
        OlderInputsDropped(es, i, j, smallestSnapshot);
      }
    }
  }

  lemma ResurrectionChangesRead(rest: set<Entry>, es: seq<Entry>, i: nat, r: Entry, smallestSnapshot: nat, oldest: nat,
                                v: Version, level: nat)
    requires Sorted(es) && Unique(rest + EntrySet(es))
    requires Resurrects(rest, es, i, r, smallestSnapshot, oldest, v, level)
    ensures Read(rest + EntrySet(es), r.key.user, oldest) == None
    ensures Read(rest + EntrySet(Kept(es, |es|, smallestSnapshot, v, level)), r.key.user, oldest) == Some(r.value)
  {
    var before := rest + EntrySet(es);
    var after := rest + EntrySet(Kept(es, |es|, smallestSnapshot, v, level));
    KeptWithin(rest, es, smallestSnapshot, v, level);
    var u := r.key.user;
    ReadNewest(before, u, oldest, es[i]);
    forall o | o in after && Visible(o, u, oldest) ensures o in rest {
      assert o in before;
      if o in es {
        AroundTombstone(es, i, o, smallestSnapshot, v, level);
      }
    }
    assert IsNewest(after, u, oldest, r);
    ReadNewest(after, u, oldest, r);
  }

  lemma KeptWithin(rest: set<Entry>, es: seq<Entry>, smallestSnapshot: nat, v: Version, level: nat)
    ensures rest + EntrySet(Kept(es, |es|, smallestSnapshot, v, level)) <= rest + EntrySet(es)
    ensures Unique(rest + EntrySet(es)) ==> Unique(rest + EntrySet(Kept(es, |es|, smallestSnapshot, v, level)))
  {
    KeptMembers(es, |es|, smallestSnapshot, v, level);
  }

  /** The newest visible entry survives unless it is a tombstone dropped as obsolete. */
  lemma NewestSurvives(rest: set<Entry>, es: seq<Entry>, u: UserKey, s: nat, n: Entry, smallestSnapshot: nat, v: Version, level: nat)
    requires Sorted(es) && s >= smallestSnapshot
    requires IsNewest(rest + EntrySet(es), u, s, n)
    ensures n in rest || n in Kept(es, |es|, smallestSnapshot, v, level)
         || exists i :: 0 <= i < |es| && es[i] == n && ObsoleteTombstone(n, smallestSnapshot, v, level)
  {
    if n !in rest {
      KeptMembers(es, |es|, smallestSnapshot, v, level);
      var i :| 0 <= i < |es| && es[i] == n;
      if HiddenByNewer(es, i, smallestSnapshot) {
        assert Before(es[i - 1], es[i]);
        assert es[i - 1] in rest + EntrySet(es) && Visible(es[i - 1], u, s);
      }
    }
  }

  lemma ReadKept(rest: set<Entry>, es: seq<Entry>, u: UserKey, s: nat, smallestSnapshot: nat, oldest: nat, v: Version, level: nat)
    requires Sorted(es) && Unique(rest + EntrySet(es)) && smallestSnapshot <= oldest <= s
    requires forall i, r :: !Resurrects(rest, es, i, r, smallestSnapshot, oldest, v, level)
    ensures Read(rest + EntrySet(es), u, s) == Read(rest + EntrySet(Kept(es, |es|, smallestSnapshot, v, level)), u, s)
  {
    hide Sorted, Unique, Resurrects;
    var before := rest + EntrySet(es);
    var kept := Kept(es, |es|, smallestSnapshot, v, level);
    var after := rest + EntrySet(kept);
    KeptWithin(rest, es, smallestSnapshot, v, level);
    if e :| e in before && Visible(e, u, s) {
      var n := NewestExists(before, u, s, e);
      ReadNewest(before, u, s, n);
      NewestSurvives(rest, es, u, s, n, smallestSnapshot, v, level);
      if n in after {
        ReadNewest(after, u, s, n);
      } else {
        var i :| 0 <= i < |es| && es[i] == n && ObsoleteTombstone(n, smallestSnapshot, v, level);
        ReadWithoutTombstone(rest, es, u, s, i, smallestSnapshot, oldest, v, level);
      }
    } else {
      ReadNothing(before, u, s);
      ReadNothing(after, u, s);
    }
  }

  lemma ReadWithoutTombstone(rest: set<Entry>, es: seq<Entry>, u: UserKey, s: nat, i: nat, smallestSnapshot: nat, oldest: nat,
                             v: Version, level: nat)
    requires Sorted(es) && Unique(rest + EntrySet(es)) && smallestSnapshot <= oldest <= s && i < |es|
    requires forall r :: !Resurrects(rest, es, i, r, smallestSnapshot, oldest, v, level)
    requires IsNewest(rest + EntrySet(es), u, s, es[i]) && ObsoleteTombstone(es[i], smallestSnapshot, v, level)
    requires es[i] !in rest
    ensures Read(rest + EntrySet(Kept(es, |es|, smallestSnapshot, v, level)), u, s) == None
  {
    hide Sorted, ObsoleteTombstone;
    var before := rest + EntrySet(es);
    var after := rest + EntrySet(Kept(es, |es|, smallestSnapshot, v, level));
    KeptWithin(rest, es, smallestSnapshot, v, level);
    if e :| e in after && Visible(e, u, s) {
      var m := NewestExists(after, u, s, e);
      assert m in before && Visible(m, u, s) && m.key.sequence <= es[i].key.sequence;
      if m in es {
        AroundTombstone(es, i, m, smallestSnapshot, v, level);
      }
      TombstoneIsOld(es[i], smallestSnapshot, v, level);
      assert m in rest && m.key.sequence < es[i].key.sequence by {
        assert es[i] in before;
      }
      assert IsNewest(before, u, oldest, es[i]);
      assert IsNewest(rest, u, oldest, m);
      assert !Resurrects(rest, es, i, m, smallestSnapshot, oldest, v, level);
      ReadNewest(after, u, s, m);
    } else {
      ReadNothing(after, u, s);
    }
  }

  lemma TombstoneIsOld(e: Entry, smallestSnapshot: nat, v: Version, level: nat)
    requires ObsoleteTombstone(e, smallestSnapshot, v, level)
    ensures e.key.kind == TypeDeletion && e.key.sequence <= smallestSnapshot
  {
  }

  /** Dropping by a bound that nobody reads below changes no read at or above `oldest` if and only if
      it resurrects nothing there. */
  lemma ReadsKeptIff(rest: set<Entry>, es: seq<Entry>, smallestSnapshot: nat, oldest: nat, v: Version, level: nat)
    requires Sorted(es) && Unique(rest + EntrySet(es)) && smallestSnapshot <= oldest
    ensures (forall u, s :: s >= oldest ==>
               Read(rest + EntrySet(es), u, s) == Read(rest + EntrySet(Kept(es, |es|, smallestSnapshot, v, level)), u, s))
       <==> (forall i, r :: !Resurrects(rest, es, i, r, smallestSnapshot, oldest, v, level))
  {
    hide Sorted, Unique, Resurrects;
    if i, r :| Resurrects(rest, es, i, r, smallestSnapshot, oldest, v, level) {
      ResurrectionChangesRead(rest, es, i, r, smallestSnapshot, oldest, v, level);
    } else {
      forall u, s | s >= oldest
        ensures Read(rest + EntrySet(es), u, s) == Read(rest + EntrySet(Kept(es, |es|, smallestSnapshot, v, level)), u, s)
      {
        ReadKept(rest, es, u, s, smallestSnapshot, oldest, v, level);
      }
    }
  }
}
