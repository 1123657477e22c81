/** Internal keys, entries, and what a read at a sequence number means.

    The engine only ever compares user keys through the user comparator, so a user key
    is represented by its rank in that comparator's order. */
module InternalKeys {

  type UserKey = int
  type Value = string

  datatype Option<+T> = None | Some(value: T)

  datatype ValueType = TypeDeletion | TypeValue

  const MAX_SEQUENCE_NUMBER: nat := 0xFF_FFFF_FFFF_FFFF
  type SequenceNumber = n: nat | n <= MAX_SEQUENCE_NUMBER
  const VALUE_TYPE_FOR_SEEK := TypeValue

  datatype InternalKey = InternalKey(user: UserKey, sequence: SequenceNumber, kind: ValueType)

  datatype Entry = Entry(key: InternalKey, value: Value)

  /** The 64-bit trailer of an encoded key: sequence in the high 56 bits, type in the low 8. */
  function PackSequenceAndType(k: InternalKey): nat {
    k.sequence * 256 + if k.kind == TypeValue then 1 else 0
  }

  /** The comparator: user keys ascending, then trailers descending. Negative means `a` first. */
  function Compare(a: InternalKey, b: InternalKey): (r: int)
    ensures r == 0 <==> a == b
    ensures r < 0 <==> Less(a, b)
    ensures r > 0 <==> Less(b, a)
  {
    if a.user < b.user then -1
    else if a.user > b.user then 1
    else if PackSequenceAndType(a) > PackSequenceAndType(b) then -1
    else if PackSequenceAndType(a) < PackSequenceAndType(b) then 1
    else 0
  }

  predicate Less(a: InternalKey, b: InternalKey) {
    a.user < b.user
    || (a.user == b.user && (a.sequence > b.sequence
                             || (a.sequence == b.sequence && a.kind == TypeValue && b.kind == TypeDeletion)))
  }

  predicate AtMost(a: InternalKey, b: InternalKey) {
    a == b || Less(a, b)
  }

  /** The key a reader seeks to: it sorts just before every entry of `user` it may see. */
  function LookupKey(user: UserKey, sequence: SequenceNumber): InternalKey {
    InternalKey(user, sequence, VALUE_TYPE_FOR_SEEK)
  }

  /** Strictly earlier in iteration order, with sequence numbers unique per user key. */
  predicate Before(a: Entry, b: Entry) {
    a.key.user < b.key.user || (a.key.user == b.key.user && a.key.sequence > b.key.sequence)
  }

  predicate Sorted(es: seq<Entry>) {
    forall i, j :: 0 <= i < j < |es| ==> Before(es[i], es[j])
  }

  // ----- the meaning of a read -----

  predicate Visible(e: Entry, user: UserKey, sequence: nat) {
    e.key.user == user && e.key.sequence <= sequence
  }

  /** No two entries of one user key carry the same sequence number. */
  ghost predicate Unique(s: set<Entry>) {
    forall a, b :: a in s && b in s && a.key.user == b.key.user && a.key.sequence == b.key.sequence ==> a == b
  }

  lemma UniqueSubset(a: set<Entry>, b: set<Entry>)
    requires a <= b && Unique(b)
    ensures Unique(a)
  {
  }

  /** Of a user key on both sides, `a` holds only newer entries. */
  ghost predicate NewerThan(a: set<Entry>, b: set<Entry>) {
    forall x, y :: x in a && y in b && x.key.user == y.key.user ==> x.key.sequence > y.key.sequence
  }

  ghost predicate IsNewest(s: set<Entry>, user: UserKey, sequence: nat, e: Entry) {
    && e in s
    && Visible(e, user, sequence)
    && forall o :: o in s && Visible(o, user, sequence) ==> o.key.sequence <= e.key.sequence
  }

  function Payload(e: Entry): Option<Value> {
    if e.key.kind == TypeValue then Some(e.value) else None
  }

  /** What a reader of `user` at `sequence` must get from the entries `s`:
      the newest visible value, or nothing if that entry is a tombstone or there is none. */
  ghost function Read(s: set<Entry>, user: UserKey, sequence: nat): (r: Option<Value>)
    ensures (exists e :: IsNewest(s, user, sequence, e)) ==> exists e :: IsNewest(s, user, sequence, e) && r == Payload(e)
  {
    if exists e :: IsNewest(s, user, sequence, e)
    then (var e :| IsNewest(s, user, sequence, e); Payload(e))
    else None
  }

  lemma {:induction false} NewestExists(s: set<Entry>, user: UserKey, sequence: nat, e: Entry) returns (n: Entry)
    requires e in s && Visible(e, user, sequence)
    ensures IsNewest(s, user, sequence, n)
    decreases s
  {
    if o :| o in s && Visible(o, user, sequence) && o.key.sequence > e.key.sequence {
      var m := NewestExists(s - {e}, user, sequence, o);
      n := m;
    } else {
      n := e;
    }
  }

  /** A newest entry determines the read. */
  lemma ReadNewest(s: set<Entry>, user: UserKey, sequence: nat, e: Entry)
    requires Unique(s) && IsNewest(s, user, sequence, e)
    ensures Read(s, user, sequence) == Payload(e)
  {
  }

  lemma ReadNothing(s: set<Entry>, user: UserKey, sequence: nat)
    requires forall e :: e in s ==> !Visible(e, user, sequence)
    ensures Read(s, user, sequence) == None
  {
  }

  /** Reads only depend on the visible entries. */
  lemma ReadDependsOnVisible(s: set<Entry>, t: set<Entry>, user: UserKey, sequence: nat)
    requires Unique(s) && Unique(t)
    requires forall e :: Visible(e, user, sequence) ==> (e in s <==> e in t)
    ensures Read(s, user, sequence) == Read(t, user, sequence)
  {
    if e :| e in s && Visible(e, user, sequence) {
      var n := NewestExists(s, user, sequence, e);
      assert IsNewest(t, user, sequence, n);
      ReadNewest(s, user, sequence, n);
      ReadNewest(t, user, sequence, n);
    } else {
      ReadNothing(s, user, sequence);
      ReadNothing(t, user, sequence);
    }
  }
}
