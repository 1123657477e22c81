/** The bytewise order of user keys, internal keys over it, and keys that separate neighbours. */
module ByteKeys {
  import opened Coding
  import opened BlockFormat
  import opened InternalKeys

  /** Comparison byte by byte, a prefix before its extensions. */
  predicate LexLess(a: seq<Byte>, b: seq<Byte>) {
    if b == [] then false
    else if a == [] then true
    else a[0] < b[0] || (a[0] == b[0] && LexLess(a[1..], b[1..]))
  }

  lemma {:induction false} LexIrreflexive(a: seq<Byte>)
    ensures !LexLess(a, a)
  {
    if a != [] { LexIrreflexive(a[1..]); }
  }

  lemma {:induction false} LexTransitive(a: seq<Byte>, b: seq<Byte>, c: seq<Byte>)
    requires LexLess(a, b) && LexLess(b, c)
    ensures LexLess(a, c)
  {
    if a != [] && a[0] == b[0] && b[0] == c[0] { LexTransitive(a[1..], b[1..], c[1..]); }
  }

  lemma {:induction false} LexTotal(a: seq<Byte>, b: seq<Byte>)
    ensures LexLess(a, b) || a == b || LexLess(b, a)
  {
    if a != [] && b != [] && a[0] == b[0] {
      LexTotal(a[1..], b[1..]);
      assert a == [a[0]] + a[1..] && b == [b[0]] + b[1..];
    }
  }

  /** Two keys compare as the first bytes in which they differ. */
  lemma {:induction false} LexAt(a: seq<Byte>, b: seq<Byte>, n: nat)
    requires n <= |a| && n < |b| && a[..n] == b[..n] && (n == |a| || a[n] < b[n])
    ensures LexLess(a, b)
  {
    if n > 0 {
      assert a[0] == a[..n][0] && b[0] == b[..n][0];
      assert a[1..][..n - 1] == a[..n][1..] && b[1..][..n - 1] == b[..n][1..];
      LexAt(a[1..], b[1..], n - 1);
    }
  }

  /** The first `n` bytes agree, and no more. Where the next ones differ by more than one, the key is cut behind
      the byte in between, and otherwise left alone. */
  ghost predicate SeparatesAt(start: seq<Byte>, limit: seq<Byte>, r: seq<Byte>, n: nat) {
    && n <= |start| && n <= |limit| && start[..n] == limit[..n]
    && if n < |start| && n < |limit| then
         && start[n] != limit[n]
         && var byte: nat := start[n];
            if byte + 1 < limit[n] then |r| == n + 1 && r[..n] == start[..n] && r[n] == byte + 1 else r == start
       else
         r == start
  }

  /** The key up to its first byte that is not 0xff, that byte increased; a key of 0xff alone stays. */
  ghost predicate SucceedsAt(key: seq<Byte>, r: seq<Byte>, n: nat) {
    && n <= |key| && (forall i :: 0 <= i < n ==> key[i] == 0xff)
    && if n < |key| then
         var byte: nat := key[n];
         byte != 0xff && |r| == n + 1 && r[..n] == key[..n] && r[n] == byte + 1
       else
         r == key
  }

  /** A shorter key between two keys where there is one next to the first difference, or else the first key. */
  method FindShortestSeparator(start: seq<Byte>, limit: seq<Byte>) returns (r: seq<Byte>)
    ensures r == start || (LexLess(start, r) && LexLess(r, limit))
    ensures |r| <= |start|
    ensures exists n :: SeparatesAt(start, limit, r, n)
  {
    var minLength := if |start| < |limit| then |start| else |limit|;
    var i: nat := 0;
    while i < minLength && start[i] == limit[i]
      invariant i <= minLength && start[..i] == limit[..i]
    {
      i := i + 1;
    }
    r := start;
    if i < minLength {
      var byte: nat := start[i];
      if byte < 0xff && byte + 1 < limit[i] {
        var next: Byte := byte + 1;
        r := start[..i] + [next];
        assert r[..i] == start[..i];
        LexAt(start, r, i);
        LexAt(r, limit, i);
      }
    }
    assert SeparatesAt(start, limit, r, i);
  }

  /** A shorter key after the given one, or the key itself. */
  method FindShortSuccessor(key: seq<Byte>) returns (r: seq<Byte>)
    ensures r == key || LexLess(key, r)
    ensures |r| <= |key|
    ensures exists n :: SucceedsAt(key, r, n)
  {
    for i := 0 to |key|
      invariant forall j :: 0 <= j < i ==> key[j] == 0xff
    {
      var byte: nat := key[i];
      if byte != 0xff {
        var next: Byte := byte + 1;
        r := key[..i] + [next];
        assert r[..i] == key[..i];
        LexAt(key, r, i);
        assert SucceedsAt(key, r, i);
        return;
      }
    }
    r := key;
    assert SucceedsAt(key, r, |key|);
  }

  // ----- internal keys -----

  datatype BKey = BKey(user: seq<Byte>, sequence: SequenceNumber, kind: ValueType)

  function Trailer(k: BKey): Word64 {
    k.sequence * 256 + if k.kind == TypeValue then 1 else 0
  }

  predicate KeyLess(a: BKey, b: BKey) {
    LexLess(a.user, b.user) || (a.user == b.user && Trailer(a) > Trailer(b))
  }

  predicate KeyAtMost(a: BKey, b: BKey) {
    a == b || KeyLess(a, b)
  }

  lemma KeyTransitive(a: BKey, b: BKey, c: BKey)
    requires KeyLess(a, b) && KeyLess(b, c)
    ensures KeyLess(a, c)
  {
    if LexLess(a.user, b.user) && LexLess(b.user, c.user) { LexTransitive(a.user, b.user, c.user); }
  }

  lemma KeyTotal(a: BKey, b: BKey)
    ensures KeyLess(a, b) || a == b || KeyLess(b, a)
    ensures !(KeyLess(a, b) && KeyLess(b, a)) && !KeyLess(a, a)
  {
    hide LexLess;
    LexTotal(a.user, b.user);
    LexIrreflexive(a.user);
    LexIrreflexive(b.user);
    if LexLess(a.user, b.user) && LexLess(b.user, a.user) { LexTransitive(a.user, b.user, a.user); }
  }

  lemma KeyAtMostTransitive(a: BKey, b: BKey, c: BKey)
    requires KeyAtMost(a, b) && KeyAtMost(b, c)
    ensures KeyAtMost(a, c)
  {
    hide KeyLess;
    if a != b && b != c { KeyTransitive(a, b, c); }
  }

  // ----- internal keys as bytes -----

  /** The user key followed by the trailer in 64 bits. */
  function EncodeKey(k: BKey): (s: seq<Byte>)
    ensures |s| == |k.user| + 8
  {
    k.user + EncodeFixed64(Trailer(k))
  }

  function DecodeKey(s: seq<Byte>): Option<BKey> {
    if |s| < 8 then None
    else
      var t := TrailerPart(s);
      if t % 256 > 1 then None
      else Some(BKey(UserPart(s), t / 256, if t % 256 == 1 then TypeValue else TypeDeletion))
  }

  function UserPart(s: seq<Byte>): seq<Byte> {
    if |s| < 8 then s else s[..|s| - 8]
  }

  function TrailerPart(s: seq<Byte>): Word64 {
    if |s| < 8 then 0 else DecodeFixed64(s[|s| - 8..])
  }

  /** How the comparator orders encoded internal keys. */
  predicate InternalLess(a: seq<Byte>, b: seq<Byte>) {
    LexLess(UserPart(a), UserPart(b)) || (UserPart(a) == UserPart(b) && TrailerPart(a) > TrailerPart(b))
  }

  lemma KeyParts(k: BKey)
    ensures UserPart(EncodeKey(k)) == k.user && TrailerPart(EncodeKey(k)) == Trailer(k)
  {
    hide EncodeFixed64, DecodeFixed64;
    Fixed64RoundTrip(Trailer(k));
    assert EncodeKey(k)[|k.user|..] == EncodeFixed64(Trailer(k));
  }

  lemma KeyRoundTrip(k: BKey)
    ensures DecodeKey(EncodeKey(k)) == Some(k)
  {
    hide EncodeKey, UserPart, TrailerPart;
    KeyParts(k);
  }

  /** The order of encoded keys is that of the keys. */
  lemma InternalLessMeans(a: BKey, b: BKey)
    ensures InternalLess(EncodeKey(a), EncodeKey(b)) <==> KeyLess(a, b)
  {
    hide EncodeKey, UserPart, TrailerPart, Trailer;
    KeyParts(a);
    KeyParts(b);
  }

  lemma InternalLessTransitive(a: seq<Byte>, b: seq<Byte>, c: seq<Byte>)
    requires InternalLess(a, b) && InternalLess(b, c)
    ensures InternalLess(a, c)
  {
    hide UserPart, TrailerPart, LexLess;
    if LexLess(UserPart(a), UserPart(b)) && LexLess(UserPart(b), UserPart(c)) {
      LexTransitive(UserPart(a), UserPart(b), UserPart(c));
    }
  }

  /** The earliest internal key of a user key. */
  function EarliestKey(user: seq<Byte>): BKey {
    BKey(user, MAX_SEQUENCE_NUMBER, VALUE_TYPE_FOR_SEEK)
  }

  /** `r` is `start`, or the earliest key of a user key after that of `start`. */
  predicate IsShortened(start: BKey, r: BKey) {
    r == start || (r == EarliestKey(r.user) && LexLess(start.user, r.user))
  }

  /** A separator that is not the first key itself has a user key strictly between those of the two. */
  method FindShortestSeparatorKey(start: BKey, limit: BKey) returns (r: BKey)
    ensures IsShortened(start, r)
    ensures r != start ==> LexLess(r.user, limit.user)
    ensures |r.user| <= |start.user|
    ensures exists tmp, n :: SeparatesAt(start.user, limit.user, tmp, n)
              && r == if |tmp| < |start.user| && tmp != start.user then EarliestKey(tmp) else start
  {
    var tmp := FindShortestSeparator(start.user, limit.user);
    if |tmp| < |start.user| && LexLess(start.user, tmp) {
      r := EarliestKey(tmp);
    } else {
      r := start;
    }
  }

  method FindShortSuccessorKey(key: BKey) returns (r: BKey)
    ensures IsShortened(key, r) && |r.user| <= |key.user|
    ensures exists tmp, n :: SucceedsAt(key.user, tmp, n)
              && r == if |tmp| < |key.user| && tmp != key.user then EarliestKey(tmp) else key
  {
    var tmp := FindShortSuccessor(key.user);
    if |tmp| < |key.user| && LexLess(key.user, tmp) {
      r := EarliestKey(tmp);
    } else {
      r := key;
    }
  }

  lemma ShortenedIsAfter(start: BKey, r: BKey)
    requires IsShortened(start, r)
    ensures KeyAtMost(start, r)
  {
  }

  /** Between a key and its separator lies no other entry of a user key that the separator has skipped. */
  lemma SeparatorSkipsNothing(start: BKey, limit: BKey, sep: BKey, k: BKey, later: BKey)
    requires IsShortened(start, sep) && (sep != start ==> LexLess(sep.user, limit.user))
    requires KeyLess(start, k) && KeyAtMost(k, sep)
    requires KeyAtMost(limit, later) && KeyLess(start, limit)
    ensures k.user != later.user
  {
    hide LexLess;
    KeyTotal(start, k);
    assert sep != start;
    LexIrreflexive(later.user);
    if LexLess(k.user, sep.user) { LexTransitive(k.user, sep.user, limit.user); }
    if LexLess(limit.user, later.user) { LexTransitive(k.user, limit.user, later.user); }
  }
}
