/** The list a database iterator shows: one entry per user key that has a value at a sequence number. */
module LiveEntries {
  import opened InternalKeys
  import opened DropRule
  import opened Cursors

  predicate Seen(e: Entry, sequence: nat) {
    e.key.sequence <= sequence
  }

  /** The i-th entry is the newest visible one of its user key, and a value. */
  predicate IsLive(es: seq<Entry>, i: nat, sequence: nat)
    requires i < |es|
  {
    && Seen(es[i], sequence) && es[i].key.kind == TypeValue
    && forall j :: 0 <= j < i && es[j].key.user == es[i].key.user ==> !Seen(es[j], sequence)
  }

  function LiveUpTo(es: seq<Entry>, n: nat, sequence: nat): seq<Entry>
    requires n <= |es|
  {
    if n == 0 then []
    else LiveUpTo(es, n - 1, sequence) + if IsLive(es, n - 1, sequence) then [es[n - 1]] else []
  }

  function Live(es: seq<Entry>, sequence: nat): seq<Entry> {
    LiveUpTo(es, |es|, sequence)
  }

  lemma {:induction false} LiveMembers(es: seq<Entry>, n: nat, sequence: nat)
    requires n <= |es|
    ensures forall e :: e in LiveUpTo(es, n, sequence) <==> exists i :: 0 <= i < n && es[i] == e && IsLive(es, i, sequence)
  {
    if n > 0 {
      LiveMembers(es, n - 1, sequence);
    }
  }

  predicate UsersAscend(es: seq<Entry>) {
    forall i, j :: 0 <= i < j < |es| ==> es[i].key.user < es[j].key.user
  }

  lemma UsersOrdered(es: seq<Entry>, i: nat, j: nat)
    requires Sorted(es) && i <= j < |es|
    ensures es[i].key.user <= es[j].key.user
    ensures i < j && es[i].key.user == es[j].key.user ==> es[i].key.sequence > es[j].key.sequence
  {
    assert i < j ==> Before(es[i], es[j]);
  }

  /** The live list has its user keys in strictly ascending order. */
  lemma {:induction false} LiveAscends(es: seq<Entry>, n: nat, sequence: nat)
    requires Sorted(es) && n <= |es|
    ensures UsersAscend(LiveUpTo(es, n, sequence))
  {
    if n > 0 {
      LiveAscends(es, n - 1, sequence);
      LiveMembers(es, n - 1, sequence);
      var init := LiveUpTo(es, n - 1, sequence);
      if IsLive(es, n - 1, sequence) {
        forall k | 0 <= k < |init| ensures init[k].key.user < es[n - 1].key.user {
          assert init[k] in init;
          var i :| 0 <= i < n - 1 && es[i] == init[k] && IsLive(es, i, sequence);
          UsersOrdered(es, i, n - 1);
        }
      }
    }
  }

  /** The live list is what point reads see: a user key is listed with a value exactly if it reads as that value. */
  lemma LiveIsReadable(es: seq<Entry>, sequence: nat, user: UserKey, value: Value)
    requires Sorted(es)
    ensures (exists e :: e in Live(es, sequence) && e.key.user == user && e.value == value)
       <==> Read(EntrySet(es), user, sequence) == Some(value)
  {
    LiveMembers(es, |es|, sequence);
    SortedIsUnique(es);
    if e :| e in Live(es, sequence) && e.key.user == user && e.value == value {
      var i :| 0 <= i < |es| && es[i] == e && IsLive(es, i, sequence);
      LiveIsNewest(es, i, sequence);
      ReadNewest(EntrySet(es), user, sequence, e);
    }
    if Read(EntrySet(es), user, sequence) == Some(value) {
      var i := ReadableIsLive(es, sequence, user, value);
      assert es[i] in Live(es, sequence);
    }
  }

  lemma ReadableIsLive(es: seq<Entry>, sequence: nat, user: UserKey, value: Value) returns (i: nat)
    requires Sorted(es) && Read(EntrySet(es), user, sequence) == Some(value)
    ensures i < |es| && IsLive(es, i, sequence) && es[i].key.user == user && es[i].value == value
  {
    SortedIsUnique(es);
    var n :| IsNewest(EntrySet(es), user, sequence, n);
    ReadNewest(EntrySet(es), user, sequence, n);
    i :| 0 <= i < |es| && es[i] == n;
    NewestIsLive(es, i, sequence);
  }

  lemma NewestIsLive(es: seq<Entry>, i: nat, sequence: nat)
    requires Sorted(es) && i < |es| && es[i].key.kind == TypeValue
    requires IsNewest(EntrySet(es), es[i].key.user, sequence, es[i])
    ensures IsLive(es, i, sequence)
  {
    forall j | 0 <= j < i && es[j].key.user == es[i].key.user ensures !Seen(es[j], sequence) {
      assert Before(es[j], es[i]) && es[j] in EntrySet(es);
    }
  }

  lemma SortedIsUnique(es: seq<Entry>)
    requires Sorted(es)
    ensures Unique(EntrySet(es))
  {
    forall a, b | a in es && b in es && a.key.user == b.key.user && a.key.sequence == b.key.sequence ensures a == b {
      var i :| 0 <= i < |es| && es[i] == a;
      var j :| 0 <= j < |es| && es[j] == b;
      SameKeySameIndex(es, i, j);
    }
  }

  lemma SameKeySameIndex(es: seq<Entry>, i: nat, j: nat)
    requires Sorted(es) && i < |es| && j < |es|
    requires es[i].key.user == es[j].key.user && es[i].key.sequence == es[j].key.sequence
    ensures i == j
  {
  }

  lemma LiveIsNewest(es: seq<Entry>, i: nat, sequence: nat)
    requires Sorted(es) && i < |es| && IsLive(es, i, sequence)
    ensures IsNewest(EntrySet(es), es[i].key.user, sequence, es[i])
  {
    forall o | o in EntrySet(es) && Visible(o, es[i].key.user, sequence) ensures o.key.sequence <= es[i].key.sequence {
      var j :| 0 <= j < |es| && es[j] == o;
      if i < j {
        UsersOrdered(es, i, j);
      }
    }
  }

  // ----- where an entry stands in the list -----

  lemma {:induction false} LivePrefix(es: seq<Entry>, i: nat, n: nat, sequence: nat)
    requires i <= n <= |es|
    ensures LiveUpTo(es, i, sequence) <= LiveUpTo(es, n, sequence)
  {
    if i < n {
      LivePrefix(es, i, n - 1, sequence);
    }
  }

  /** A live entry stands in the list right after the live entries before it. */
  lemma ListedAt(es: seq<Entry>, i: nat, sequence: nat)
    requires i < |es| && IsLive(es, i, sequence)
    ensures var p := |LiveUpTo(es, i, sequence)|;
            p < |Live(es, sequence)| && Live(es, sequence)[p] == es[i]
  {
    LivePrefix(es, i + 1, |es|, sequence);
    assert LiveUpTo(es, i + 1, sequence)[|LiveUpTo(es, i, sequence)|] == es[i];
  }

  predicate NoneLive(es: seq<Entry>, from: nat, end: nat, sequence: nat) {
    forall j :: from <= j < end && j < |es| ==> !IsLive(es, j, sequence)
  }

  lemma {:induction false} NoneLiveNoneListed(es: seq<Entry>, i: nat, n: nat, sequence: nat)
    requires i <= n <= |es| && NoneLive(es, i, n, sequence)
    ensures LiveUpTo(es, i, sequence) == LiveUpTo(es, n, sequence)
  {
    if i < n {
      NoneLiveNoneListed(es, i, n - 1, sequence);
    }
  }

  /** Entries listed from the position of index `i` on come from index `i` on. */
  lemma {:induction false} ListedFrom(es: seq<Entry>, i: nat, n: nat, q: nat, sequence: nat) returns (j: nat)
    requires i <= n <= |es| && |LiveUpTo(es, i, sequence)| <= q < |LiveUpTo(es, n, sequence)|
    ensures i <= j < n && LiveUpTo(es, n, sequence)[q] == es[j]
  {
    if q < |LiveUpTo(es, n - 1, sequence)| {
      j := ListedFrom(es, i, n - 1, q, sequence);
    } else {
      j := n - 1;
    }
  }

  /** Position `p` of the list is the first whose user key is not below `user`. */
  ghost predicate IsFirstFrom(live: seq<Entry>, user: UserKey, p: nat) {
    && p <= |live|
    && (forall i :: 0 <= i < p ==> live[i].key.user < user)
    && (forall i :: p <= i < |live| ==> live[i].key.user >= user)
  }

  /** Seeking the internal key made from `user` splits the list at `user`. */
  lemma SeekSplitsList(es: seq<Entry>, user: UserKey, sequence: SequenceNumber, i: nat)
    requires Sorted(es) && IsSeek(es, LookupKey(user, sequence), i)
    ensures IsFirstFrom(Live(es, sequence), user, |LiveUpTo(es, i, sequence)|)
  {
    var live := Live(es, sequence);
    var p := |LiveUpTo(es, i, sequence)|;
    LivePrefix(es, i, |es|, sequence);
    LiveMembers(es, i, sequence);
    forall q | 0 <= q < p ensures live[q].key.user < user {
      assert LiveUpTo(es, i, sequence)[q] in LiveUpTo(es, i, sequence);
    }
    forall q | p <= q < |live| ensures live[q].key.user >= user {
      var j := ListedFrom(es, i, |es|, q, sequence);
    }
  }
}
