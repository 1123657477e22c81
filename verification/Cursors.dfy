/** The plain cursor over a sorted run of entries that every internal iterator must behave like. */
module Cursors {
  import opened InternalKeys

  function Keys(es: seq<Entry>): seq<InternalKey> {
    seq(|es|, i requires 0 <= i < |es| => es[i].key)
  }

  ghost predicate KeysAscend(keys: seq<InternalKey>) {
    forall i, j :: 0 <= i < j < |keys| ==> AtMost(keys[i], keys[j])
  }

  /** Position `p` is the first of ascending keys at or after the target. */
  ghost predicate IsKeySeek(keys: seq<InternalKey>, target: InternalKey, p: nat) {
    && p <= |keys|
    && (forall i :: 0 <= i < p ==> Less(keys[i], target))
    && (forall i :: p <= i < |keys| ==> AtMost(target, keys[i]))
  }

  /** The binary search behind every seek in a sorted run. */
  method SeekIn(keys: seq<InternalKey>, target: InternalKey) returns (p: nat)
    requires KeysAscend(keys)
    ensures IsKeySeek(keys, target, p)
  {
    var lo: nat, hi: nat := 0, |keys|;
    while lo < hi
      invariant lo <= hi <= |keys|
      invariant forall i :: 0 <= i < lo ==> Less(keys[i], target)
      invariant forall i :: hi <= i < |keys| ==> AtMost(target, keys[i])
    {
      var mid := (lo + hi) / 2;
      if Compare(keys[mid], target) < 0 {
        assert forall i :: 0 <= i < mid ==> AtMost(keys[i], keys[mid]);
        lo := mid + 1;
      } else {
        assert forall i :: mid < i < |keys| ==> AtMost(keys[mid], keys[i]);
        hi := mid;
      }
    }
    p := lo;
  }

  /** Position `p` is the first entry at or after `key`; the length of the run if there is none. */
  ghost predicate IsSeek(es: seq<Entry>, key: InternalKey, p: nat) {
    && p <= |es|
    && (forall j :: 0 <= j < p ==> Less(es[j].key, key))
    && (forall j :: p <= j < |es| ==> AtMost(key, es[j].key))
  }

  method SeekEntry(es: seq<Entry>, key: InternalKey) returns (pos: nat)
    requires Sorted(es)
    ensures IsSeek(es, key, pos)
  {
    forall i, j | 0 <= i < j < |es| ensures AtMost(Keys(es)[i], Keys(es)[j]) {
      assert Before(es[i], es[j]);
    }
    pos := SeekIn(Keys(es), key);
    assert forall i :: 0 <= i < |es| ==> Keys(es)[i] == es[i].key;
  }

  /** Where a step backwards leads: off the end of the run from its first entry. */
  function PrevPos(n: nat, p: nat): nat {
    if p == 0 then n else p - 1
  }

  class Cursor {
    const entries: seq<Entry>
    var pos: nat  // the number of entries when not valid

    ghost predicate Ok() reads this {
      Sorted(entries) && pos <= |entries|
    }

    predicate Valid() reads this {
      pos < |entries|
    }

    function Current(): Entry
      requires Valid()
      reads this
    {
      entries[pos]
    }

    constructor (entries: seq<Entry>)
      requires Sorted(entries)
      ensures Ok() && !Valid() && this.entries == entries
    {
      this.entries := entries;
      pos := |entries|;
    }

    method SeekToFirst()
      requires Ok()
      modifies this
      ensures Ok() && pos == 0
    {
      pos := 0;
    }

    method SeekToLast()
      requires Ok()
      modifies this
      ensures Ok() && pos == PrevPos(|entries|, |entries|)
    {
      pos := if |entries| == 0 then 0 else |entries| - 1;
    }

    method Seek(target: InternalKey)
      requires Ok()
      modifies this
      ensures Ok() && IsSeek(entries, target, pos)
    {
      pos := SeekEntry(entries, target);
    }

    method Next()
      requires Ok() && Valid()
      modifies this
      ensures Ok() && pos == old(pos) + 1
    {
      pos := pos + 1;
    }

    method Prev()
      requires Ok() && Valid()
      modifies this
      ensures Ok() && pos == PrevPos(|entries|, old(pos))
    {
      pos := if pos == 0 then |entries| else pos - 1;
    }
  }
}
