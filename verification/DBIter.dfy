/** What a user-level iterator knows about the internal entries it has scanned over. */
module UserScans {
  import opened InternalKeys
  import opened LiveEntries
  import opened Cursors

  // ----- scanning forwards -----

  /** A live entry of a user key beyond `past`. */
  predicate Wanted(es: seq<Entry>, sequence: nat, past: Option<UserKey>, i: nat)
    requires i < |es|
  {
    IsLive(es, i, sequence) && (past.Some? ==> es[i].key.user > past.value)
  }

  predicate NoneWanted(es: seq<Entry>, sequence: nat, past: Option<UserKey>, start: nat, end: nat) {
    forall j :: start <= j < end && j < |es| ==> !Wanted(es, sequence, past, j)
  }

  /** Every visible entry before `i` has a user key up to `k`, every visible one from `i` on has `k` or more. */
  ghost predicate PassesThrough(es: seq<Entry>, sequence: nat, i: nat, k: UserKey) {
    && (forall j :: 0 <= j < i && j < |es| && Seen(es[j], sequence) ==> es[j].key.user <= k)
    && (forall j :: i <= j < |es| && Seen(es[j], sequence) ==> es[j].key.user >= k)
  }

  /** User keys seen before `i` do not come again from `i` on. */
  ghost predicate StartsFresh(es: seq<Entry>, sequence: nat, i: nat) {
    forall j, m :: 0 <= j < i <= m < |es| && Seen(es[j], sequence) ==> es[j].key.user < es[m].key.user
  }

  /** The state of a forward scan about to look at entry `i`: `skip` is hidden from here on. */
  ghost predicate Skips(es: seq<Entry>, sequence: nat, past: Option<UserKey>, i: nat, skipping: bool, skip: Option<UserKey>) {
    if skipping then
      && skip.Some?
      && PassesThrough(es, sequence, i, skip.value)
      && (past.Some? ==> past.value <= skip.value)
      && forall m :: i <= m < |es| && es[m].key.user == skip.value ==> !Wanted(es, sequence, past, m)
    else past.None? && StartsFresh(es, sequence, i)
  }

  lemma SkipUnseen(es: seq<Entry>, sequence: nat, past: Option<UserKey>, i: nat, skipping: bool, skip: Option<UserKey>)
    requires i < |es| && Skips(es, sequence, past, i, skipping, skip) && !Seen(es[i], sequence)
    ensures Skips(es, sequence, past, i + 1, skipping, skip) && !Wanted(es, sequence, past, i)
  {
  }

  lemma SkipHidden(es: seq<Entry>, sequence: nat, past: Option<UserKey>, i: nat, skip: Option<UserKey>)
    requires i < |es| && Skips(es, sequence, past, i, true, skip) && Seen(es[i], sequence)
    requires es[i].key.user <= skip.value
    ensures Skips(es, sequence, past, i + 1, true, skip) && !Wanted(es, sequence, past, i)
  {
  }

  lemma SkipDeletion(es: seq<Entry>, sequence: nat, past: Option<UserKey>, i: nat, skipping: bool, skip: Option<UserKey>)
    requires Sorted(es) && i < |es| && Skips(es, sequence, past, i, skipping, skip)
    requires Seen(es[i], sequence) && es[i].key.kind == TypeDeletion
    ensures Skips(es, sequence, past, i + 1, true, Some(es[i].key.user)) && !Wanted(es, sequence, past, i)
  {
    forall j | 0 <= j < |es| ensures if j < i then es[j].key.user <= es[i].key.user else es[i].key.user <= es[j].key.user {
      if j < i { UsersOrdered(es, j, i); } else { UsersOrdered(es, i, j); }
    }
  }

  lemma ScanFinds(es: seq<Entry>, sequence: nat, past: Option<UserKey>, i: nat, skipping: bool, skip: Option<UserKey>)
    requires i < |es| && Skips(es, sequence, past, i, skipping, skip)
    requires Seen(es[i], sequence) && es[i].key.kind == TypeValue
    requires skipping ==> es[i].key.user > skip.value
    ensures Wanted(es, sequence, past, i)
  {
  }

  // ----- scanning backwards -----

  /** The entries still to be looked at when moving back from position `i`. */
  function Remaining(es: seq<Entry>, i: nat): nat {
    if i < |es| then i + 1 else 0
  }

  /** The state of a backward scan over the entries `[c, hi)`: the oldest value entry, if any, that nothing
      newer scanned so far hides. */
  ghost predicate Candidate(es: seq<Entry>, sequence: nat, c: nat, hi: nat, found: Option<nat>) {
    && c <= hi <= |es|
    && (found.Some? ==>
          && c <= found.value < hi && Seen(es[found.value], sequence) && es[found.value].key.kind == TypeValue
          && forall j :: c <= j < found.value ==> !Seen(es[j], sequence))
    && NoneLive(es, if found.Some? then found.value + 1 else c, hi, sequence)
  }

  lemma CandidateUnseen(es: seq<Entry>, sequence: nat, c: nat, hi: nat, found: Option<nat>)
    requires 0 < c && Candidate(es, sequence, c, hi, found) && !Seen(es[c - 1], sequence)
    ensures Candidate(es, sequence, c - 1, hi, found)
  {
  }

  lemma CandidateReplaced(es: seq<Entry>, sequence: nat, c: nat, hi: nat, found: Option<nat>)
    requires Sorted(es) && 0 < c && Candidate(es, sequence, c, hi, found) && Seen(es[c - 1], sequence)
    requires found.Some? ==> es[c - 1].key.user >= es[found.value].key.user
    ensures Candidate(es, sequence, c - 1, hi, if es[c - 1].key.kind == TypeValue then Some(c - 1) else None)
  {
    if found.Some? {
      UsersOrdered(es, c - 1, found.value);
    }
  }

  /** Where a backward scan ends: before the entries of `k`, but for entries that cannot be seen. */
  ghost predicate StopsBefore(es: seq<Entry>, sequence: nat, i: nat, k: UserKey) {
    && (forall j :: 0 <= j < Remaining(es, i) ==> es[j].key.user < k)
    && (forall j :: Remaining(es, i) <= j < |es| && Seen(es[j], sequence) ==> es[j].key.user >= k)
  }

  lemma CandidateStands(es: seq<Entry>, sequence: nat, i: nat, hi: nat, l: nat)
    requires Sorted(es) && Candidate(es, sequence, Remaining(es, i), hi, Some(l))
    requires i < |es| ==> es[i].key.user < es[l].key.user
    ensures IsLive(es, l, sequence) && StopsBefore(es, sequence, i, es[l].key.user)
  {
    if i < |es| {
      forall j | 0 <= j <= i ensures es[j].key.user < es[l].key.user {
        UsersOrdered(es, j, i);
      }
    }
    forall j | l <= j < |es| ensures es[j].key.user >= es[l].key.user {
      UsersOrdered(es, l, j);
    }
  }

  // ----- between neighbours of the live list -----

  /** The first live entry past a listed one is listed right after it. */
  lemma NextListed(es: seq<Entry>, sequence: nat, at: nat, start: nat, end: nat)
    requires Sorted(es) && at < |es| && IsLive(es, at, sequence)
    requires PassesThrough(es, sequence, start, es[at].key.user)
    requires start <= end <= |es| && NoneWanted(es, sequence, Some(es[at].key.user), start, end)
    requires end < |es| ==> Wanted(es, sequence, Some(es[at].key.user), end)
    ensures |LiveUpTo(es, end, sequence)| == |LiveUpTo(es, at, sequence)| + 1
  {
    forall j | at + 1 <= j < end ensures !IsLive(es, j, sequence) {
      UsersOrdered(es, at, j);
      if j >= start { assert !Wanted(es, sequence, Some(es[at].key.user), j); }
    }
    if end < |es| && end <= at { UsersOrdered(es, end, at); }
    NoneLiveNoneListed(es, at + 1, end, sequence);
  }

  lemma SameUserNotLive(es: seq<Entry>, sequence: nat, i: nat, at: nat)
    requires Sorted(es) && i < at < |es| && IsLive(es, at, sequence) && es[i].key.user >= es[at].key.user
    ensures !IsLive(es, i, sequence)
  {
    UsersOrdered(es, i, at);
  }

  lemma StopsBeforeNoneLive(es: seq<Entry>, sequence: nat, i: nat, at: nat)
    requires Sorted(es) && at < |es| && IsLive(es, at, sequence) && StopsBefore(es, sequence, i, es[at].key.user)
    ensures Remaining(es, i) <= at && NoneLive(es, Remaining(es, i), at, sequence)
  {
    forall j | Remaining(es, i) <= j < at ensures !IsLive(es, j, sequence) {
      if Seen(es[j], sequence) { SameUserNotLive(es, sequence, j, at); }
    }
  }

  lemma FirstListed(es: seq<Entry>, sequence: nat, start: nat, end: nat)
    requires start <= end <= |es| && NoneWanted(es, sequence, None, start, end)
    ensures LiveUpTo(es, start, sequence) == LiveUpTo(es, end, sequence)
  {
    forall j | start <= j < end ensures !IsLive(es, j, sequence) {
      assert !Wanted(es, sequence, None, j);
    }
    NoneLiveNoneListed(es, start, end, sequence);
  }

  lemma StartOfNext(es: seq<Entry>, sequence: nat, at: nat)
    requires Sorted(es) && at < |es| && Seen(es[at], sequence)
    ensures PassesThrough(es, sequence, at + 1, es[at].key.user)
  {
    forall j | 0 <= j < |es| ensures if j <= at then es[j].key.user <= es[at].key.user else es[at].key.user <= es[j].key.user {
      if j <= at { UsersOrdered(es, j, at); } else { UsersOrdered(es, at, j); }
    }
  }

  lemma PassingIsSkipping(es: seq<Entry>, sequence: nat, i: nat, k: UserKey)
    requires PassesThrough(es, sequence, i, k)
    ensures Skips(es, sequence, Some(k), i, true, Some(k))
  {
  }

  lemma TurnForward(es: seq<Entry>, sequence: nat, i: nat, k: UserKey)
    requires StopsBefore(es, sequence, i, k)
    ensures PassesThrough(es, sequence, Remaining(es, i), k)
  {
  }

  lemma SeekStartsFresh(es: seq<Entry>, user: UserKey, sequence: SequenceNumber, i: nat)
    requires IsSeek(es, LookupKey(user, sequence), i)
    ensures StartsFresh(es, sequence, i)
  {
    forall j, m | 0 <= j < i <= m < |es| && Seen(es[j], sequence) ensures es[j].key.user < es[m].key.user {
      assert Less(es[j].key, LookupKey(user, sequence));
      assert AtMost(LookupKey(user, sequence), es[m].key);
    }
  }
}

module DBIterators {
  import opened InternalKeys
  import opened Cursors
  import opened LiveEntries
  import opened UserScans

  datatype Direction = Forward | Reverse

  /** The user-level iterator over one internal iterator, as of one sequence number. */
  class DBIter {
    const iter: Cursor
    const sequence: SequenceNumber
    var savedKey: Option<UserKey>  // None when cleared
    var savedValue: Value
    var direction: Direction
    var valid: bool
    ghost var at: nat  // the internal entry that is shown; the number of entries when not valid

    /** The position in the live list. */
    ghost function Position(): nat
      requires at <= |iter.entries|
      reads this
    {
      |LiveUpTo(iter.entries, at, sequence)|
    }

    ghost predicate Ok() reads this, iter {
      && iter.Ok()
      && at <= |iter.entries|
      && (valid <==> at < |iter.entries|)
      && (valid ==> IsLive(iter.entries, at, sequence))
      && (valid && direction == Forward ==> iter.pos == at)
      && (valid && direction == Reverse ==>
            && savedKey == Some(iter.entries[at].key.user)
            && savedValue == iter.entries[at].value
            && StopsBefore(iter.entries, sequence, iter.pos, iter.entries[at].key.user))
    }

    constructor (iter: Cursor, sequence: SequenceNumber)
      requires iter.Ok()
      ensures Ok() && !valid && this.iter == iter && this.sequence == sequence
    {
      this.iter := iter;
      this.sequence := sequence;
      savedKey, savedValue := None, "";
      direction, valid := Forward, false;
      at := |iter.entries|;
    }

    function Key(): (k: UserKey)
      requires Ok() && valid
      reads this, iter
      ensures k == iter.entries[at].key.user
    {
      if direction == Forward then iter.Current().key.user else savedKey.value
    }

    function Value(): (v: InternalKeys.Value)
      requires Ok() && valid
      reads this, iter
      ensures v == iter.entries[at].value
    {
      if direction == Forward then iter.Current().value else savedValue
    }

    /** Validity, key and value are those of the live list at the position. */
    lemma ShowsLiveList()
      requires Ok()
      ensures valid <==> Position() < |Live(iter.entries, sequence)|
      ensures !valid ==> Position() == |Live(iter.entries, sequence)|
      ensures valid ==> Live(iter.entries, sequence)[Position()].key.user == Key()
                        && Live(iter.entries, sequence)[Position()].value == Value()
    {
      if valid { ListedAt(iter.entries, at, sequence); }
    }

    /** Moves to the first live entry from the current one on, past `savedKey` if `skip` is set. */
    method FindNextUserEntry(skip: bool)
      requires iter.Ok() && iter.Valid() && direction == Forward
      requires skip ==> savedKey.Some?
      requires Skips(iter.entries, sequence, if skip then savedKey else None, iter.pos, skip, savedKey)
      modifies this, iter
      ensures Ok() && direction == Forward && at == iter.pos && at >= old(iter.pos)
      ensures NoneWanted(iter.entries, sequence, if skip then old(savedKey) else None, old(iter.pos), at)
      ensures valid ==> Wanted(iter.entries, sequence, if skip then old(savedKey) else None, at)
    {
      hide Skips, Sorted, StopsBefore;
      ghost var past := if skip then savedKey else None;
      var skipping := skip;
      while iter.Valid()
        invariant iter.Ok() && direction == Forward && old(iter.pos) <= iter.pos
        invariant skipping ==> savedKey.Some?
        invariant Skips(iter.entries, sequence, past, iter.pos, skipping, savedKey)
        invariant NoneWanted(iter.entries, sequence, past, old(iter.pos), iter.pos)
        decreases |iter.entries| - iter.pos
      {
        var e := iter.Current();
        if e.key.sequence <= sequence {
          match e.key.kind
          case TypeDeletion =>
            SkipDeletion(iter.entries, sequence, past, iter.pos, skipping, savedKey);
            savedKey := Some(e.key.user);
            skipping := true;
          case TypeValue =>
            if skipping && e.key.user <= savedKey.value {
              SkipHidden(iter.entries, sequence, past, iter.pos, savedKey);
            } else {
              ScanFinds(iter.entries, sequence, past, iter.pos, skipping, savedKey);
              valid := true;
              savedKey := None;
              at := iter.pos;
              return;
            }
        } else {
          SkipUnseen(iter.entries, sequence, past, iter.pos, skipping, savedKey);
        }
        iter.Next();
      }
      savedKey := None;
      valid := false;
      at := |iter.entries|;
    }

    method Next()
      requires Ok() && valid
      modifies this, iter
      ensures Ok()
      ensures Position() == old(Position()) + 1
    {
      hide Skips, Sorted, NoneWanted, Wanted, PassesThrough;
      ghost var was := at;
      if direction == Reverse {
        direction := Forward;
        TurnForward(iter.entries, sequence, iter.pos, iter.entries[at].key.user);
        if !iter.Valid() {
          iter.SeekToFirst();
        } else {
          iter.Next();
        }
      } else {
        savedKey := Some(iter.Current().key.user);
        StartOfNext(iter.entries, sequence, at);
        iter.Next();
      }
      if !iter.Valid() {
        valid := false;
        savedKey := None;
        at := |iter.entries|;
        return;
      }
      ghost var start := iter.pos;
      PassingIsSkipping(iter.entries, sequence, start, savedKey.value);
      FindNextUserEntry(true);
      NextListed(iter.entries, sequence, was, start, at);
    }

    /** Moves to the last live entry not after the current one. */
    method FindPrevUserEntry()
      requires iter.Ok() && direction == Reverse
      modifies this, iter
      ensures Ok()
      ensures valid ==> at < old(Remaining(iter.entries, iter.pos))
      ensures NoneLive(iter.entries, if valid then at + 1 else 0, old(Remaining(iter.entries, iter.pos)), sequence)
    {
      hide Sorted, StopsBefore, IsLive;
      ghost var hi := Remaining(iter.entries, iter.pos);
      ghost var found: Option<nat> := None;
      var kind := TypeDeletion;
      while iter.Valid()
        invariant iter.Ok() && direction == Reverse
        invariant Candidate(iter.entries, sequence, Remaining(iter.entries, iter.pos), hi, found)
        invariant kind == TypeValue <==> found.Some?
        invariant found.Some? ==> savedKey == Some(iter.entries[found.value].key.user) && savedValue == iter.entries[found.value].value
        decreases Remaining(iter.entries, iter.pos)
      {
        var e := iter.Current();
        if e.key.sequence <= sequence {
          if kind != TypeDeletion && e.key.user < savedKey.value {
            break;
          }
          CandidateReplaced(iter.entries, sequence, iter.pos + 1, hi, found);
          kind := e.key.kind;
          if kind == TypeDeletion {
            savedKey, savedValue := None, "";
            found := None;
          } else {
            savedKey, savedValue := Some(e.key.user), e.value;
            found := Some(iter.pos);
          }
        } else {
          CandidateUnseen(iter.entries, sequence, iter.pos + 1, hi, found);
        }
        iter.Prev();
      }
      if kind == TypeDeletion {
        valid := false;
        savedKey, savedValue := None, "";
        direction := Forward;
        at := |iter.entries|;
      } else {
        valid := true;
        at := found.value;
        CandidateStands(iter.entries, sequence, iter.pos, hi, at);
      }
    }

    method Prev()
      requires Ok() && valid
      modifies this, iter
      ensures Ok()
      ensures Position() == PrevPos(|Live(iter.entries, sequence)|, old(Position()))
    {
      hide Sorted, StopsBefore, IsLive;
      ghost var was := at;
      if direction == Forward {
        savedKey := Some(iter.Current().key.user);
        while true
          invariant iter.Ok() && iter.Valid() && iter.pos <= was && savedKey == Some(iter.entries[was].key.user)
          invariant NoneLive(iter.entries, iter.pos, was, sequence)
          decreases iter.pos
        {
          iter.Prev();
          if !iter.Valid() {
            valid := false;
            savedKey, savedValue := None, "";
            at := |iter.entries|;
            NoneLiveNoneListed(iter.entries, 0, was, sequence);
            return;
          }
          if iter.Current().key.user < savedKey.value {
            break;
          }
          SameUserNotLive(iter.entries, sequence, iter.pos, was);
        }
        direction := Reverse;
      } else {
        StopsBeforeNoneLive(iter.entries, sequence, iter.pos, was);
      }
      FindPrevUserEntry();
      NoneLiveNoneListed(iter.entries, if valid then at + 1 else 0, was, sequence);
    }

    method Seek(target: UserKey)
      requires iter.Ok()
      modifies this, iter
      ensures Ok() && IsFirstFrom(Live(iter.entries, sequence), target, Position())
    {
      direction := Forward;
      savedValue := "";
      savedKey := None;
      iter.Seek(LookupKey(target, sequence));
      ghost var start := iter.pos;
      SeekSplitsList(iter.entries, target, sequence, start);
      if iter.Valid() {
        SeekStartsFresh(iter.entries, target, sequence, start);
        FindNextUserEntry(false);
        FirstListed(iter.entries, sequence, start, at);
      } else {
        valid := false;
        at := |iter.entries|;
      }
    }

    method SeekToFirst()
      requires iter.Ok()
      modifies this, iter
      ensures Ok() && Position() == 0
    {
      direction := Forward;
      savedValue := "";
      iter.SeekToFirst();
      if iter.Valid() {
        FindNextUserEntry(false);
        FirstListed(iter.entries, sequence, 0, at);
      } else {
        valid := false;
        at := |iter.entries|;
      }
    }

    method SeekToLast()
      requires iter.Ok()
      modifies this, iter
      ensures Ok() && Position() == PrevPos(|Live(iter.entries, sequence)|, |Live(iter.entries, sequence)|)
    {
      direction := Reverse;
      savedValue := "";
      iter.SeekToLast();
      FindPrevUserEntry();
      NoneLiveNoneListed(iter.entries, if valid then at + 1 else 0, |iter.entries|, sequence);
    }
  }
}
