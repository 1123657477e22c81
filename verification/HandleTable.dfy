/** The cache's hash table: buckets of slots, doubled when it fills up. */
module HandleTables {
  import opened Coding
  import opened InternalKeys

  type Key = seq<Byte>
  type Id = nat
  type HashFunction = Key -> Word

  datatype Slot = Slot(hash: Word, key: Key, id: Id)

  type Bucket = seq<Slot>

  /** The slots of a bucket of a table of `n` buckets are those of the map that belong there. */
  ghost predicate BucketOk(hash: HashFunction, contents: map<Key, Id>, n: nat, b: nat, slots: Bucket)
    requires n > 0
  {
    && (forall i :: 0 <= i < |slots| ==> slots[i].hash == hash(slots[i].key) && slots[i].hash % n == b)
    && (forall i :: 0 <= i < |slots| ==> slots[i].key in contents && contents[slots[i].key] == slots[i].id)
    && (forall i, j :: 0 <= i < j < |slots| ==> slots[i].key != slots[j].key)
    && (forall k :: k in contents && hash(k) % n == b ==> Slot(hash(k), k, contents[k]) in slots)
  }

  /** Where in a bucket the key is, or its end. */
  ghost predicate IsFound(slots: Bucket, key: Key, i: nat) {
    && i <= |slots|
    && (forall j :: 0 <= j < i ==> slots[j].key != key)
    && (i < |slots| ==> slots[i].key == key)
  }

  class HandleTable {
    const hash: HashFunction
    var list: seq<Bucket>
    var elems: nat
    ghost var contents: map<Key, Id>

    ghost predicate Valid() reads this {
      && |list| >= 4
      && elems == |contents|
      && forall b :: 0 <= b < |list| ==> BucketOk(hash, contents, |list|, b, list[b])
    }

    constructor (hash: HashFunction)
      ensures Valid() && contents == map[] && this.hash == hash
    {
      this.hash, list, elems, contents := hash, [[], [], [], []], 0, map[];
    }

    method FindPointer(key: Key) returns (b: nat, i: nat)
      requires Valid()
      ensures b < |list| && b == hash(key) % |list| && IsFound(list[b], key, i)
      ensures i < |list[b]| <==> key in contents
      ensures i < |list[b]| ==> list[b][i].id == contents[key]
    {
      hide BucketOk;
      b := hash(key) % |list|;
      i := 0;
      var slots := list[b];
      while i < |slots| && (slots[i].hash != hash(key) || slots[i].key != key)
        invariant i <= |slots|
        invariant forall j :: 0 <= j < i ==> slots[j].hash != hash(key) || slots[j].key != key
      {
        i := i + 1;
      }
      SearchEnds(hash, contents, |list|, b, slots, key, i);
    }

    method Lookup(key: Key) returns (r: Option<Id>)
      requires Valid()
      ensures r == if key in contents then Some(contents[key]) else None
    {
      var b, i := FindPointer(key);
      r := if i < |list[b]| then Some(list[b][i].id) else None;
    }

    /** Puts the slot in the place of the one with its key, or at the end of its bucket. */
    method Insert(key: Key, id: Id) returns (replaced: Option<Id>)
      requires Valid()
      modifies this
      ensures Valid() && contents == old(contents)[key := id]
      ensures replaced == if key in old(contents) then Some(old(contents)[key]) else None
    {
      var b, i := FindPointer(key);
      var slots := list[b];
      var slot := Slot(hash(key), key, id);
      ghost var was := contents;
      contents := contents[key := id];
      if i < |slots| {
        replaced := Some(slots[i].id);
        list := list[b := slots[i := slot]];
        forall c | 0 <= c < |list| ensures BucketOk(hash, contents, |list|, c, list[c]) {
          SlotReplaced(hash, was, |list|, c, old(list)[c], b, key, id, i);
        }
        assert contents.Keys == was.Keys;
      } else {
        replaced := None;
        list := list[b := slots + [slot]];
        forall c | 0 <= c < |list| ensures BucketOk(hash, contents, |list|, c, list[c]) {
          SlotAdded(hash, was, |list|, c, old(list)[c], b, key, id);
        }
        elems := elems + 1;
        assert contents.Keys == was.Keys + {key};
        if elems > |list| {
          Resize();
        }
      }
    }

    method Remove(key: Key) returns (r: Option<Id>)
      requires Valid()
      modifies this
      ensures Valid() && contents == old(contents) - {key}
      ensures r == if key in old(contents) then Some(old(contents)[key]) else None
    {
      var b, i := FindPointer(key);
      var slots := list[b];
      if i == |slots| {
        assert contents - {key} == contents;
        return None;
      }
      r := Some(slots[i].id);
      ghost var was := contents;
      contents := contents - {key};
      list := list[b := slots[..i] + slots[i + 1..]];
      elems := elems - 1;
      assert contents.Keys == was.Keys - {key};
      forall c | 0 <= c < |list| ensures BucketOk(hash, contents, |list|, c, list[c]) {
        SlotRemoved(hash, was, |list|, c, old(list)[c], b, key, i);
      }
    }

    /** Moves every slot to a table at least as large as their number. */
    method Resize()
      requires Valid()
      modifies this
      ensures Valid() && contents == old(contents)
    {
      var newLength: nat := 4;
      while newLength < elems
        invariant newLength >= 4
        decreases elems - newLength
      {
        newLength := newLength * 2;
      }
      list := Rehash(hash, contents, list, newLength);
    }
  }

  /** A table of another length with the same contents. */
  method Rehash(hash: HashFunction, ghost contents: map<Key, Id>, list: seq<Bucket>, newLength: nat) returns (newList: seq<Bucket>)
    requires |list| > 0 && newLength > 0
    requires forall b :: 0 <= b < |list| ==> BucketOk(hash, contents, |list|, b, list[b])
    ensures |newList| == newLength
    ensures forall b :: 0 <= b < |newList| ==> BucketOk(hash, contents, |newList|, b, newList[b])
  {
    newList := seq(newLength, _ => []);
    ghost var moved: map<Key, Id> := map[];
    forall c | 0 <= c < newLength ensures BucketOk(hash, moved, newLength, c, newList[c]) {}
    NoneMoved(hash, contents, list);
    hide BucketOk, Moved;
    var i: nat := 0;
    while i < |list|
      invariant i <= |list| && |newList| == newLength
      invariant Moved(hash, contents, list, moved, i, 0)
      invariant forall c :: 0 <= c < newLength ==> BucketOk(hash, moved, newLength, c, newList[c])
    {
      newList, moved := MoveBucket(hash, contents, list, i, newList, moved);
      i := i + 1;
    }
    AllMoved(hash, contents, list, moved);
  }

  lemma NoneMoved(hash: HashFunction, contents: map<Key, Id>, list: seq<Bucket>)
    requires |list| > 0
    ensures Moved(hash, contents, list, map[], 0, 0)
  {
  }

  /** Pushes the slots of bucket `i` onto their new buckets. */
  method MoveBucket(hash: HashFunction, ghost contents: map<Key, Id>, list: seq<Bucket>, i: nat, before: seq<Bucket>, ghost movedBefore: map<Key, Id>)
    returns (newList: seq<Bucket>, ghost moved: map<Key, Id>)
    requires i < |list| && |before| > 0 && Moved(hash, contents, list, movedBefore, i, 0)
    requires BucketOk(hash, contents, |list|, i, list[i])
    requires forall c :: 0 <= c < |before| ==> BucketOk(hash, movedBefore, |before|, c, before[c])
    ensures |newList| == |before| && Moved(hash, contents, list, moved, i + 1, 0)
    ensures forall c :: 0 <= c < |newList| ==> BucketOk(hash, moved, |newList|, c, newList[c])
  {
    hide BucketOk, Moved;
    newList, moved := before, movedBefore;
    var slots := list[i];
    var j: nat := 0;
    while j < |slots|
      invariant j <= |slots| && |newList| == |before|
      invariant Moved(hash, contents, list, moved, i, j)
      invariant forall c :: 0 <= c < |newList| ==> BucketOk(hash, moved, |newList|, c, newList[c])
    {
      var slot := slots[j];
      var c := slot.hash % |newList|;
      MoveOne(hash, contents, list, moved, i, j);
      ghost var was, lists := moved, newList;
      newList := newList[c := [slot] + newList[c]];
      moved := moved[slot.key := slot.id];
      forall d | 0 <= d < |newList| ensures BucketOk(hash, moved, |newList|, d, newList[d]) {
        SlotPushed(hash, was, |newList|, d, lists[d], c, slot.key, slot.id);
      }
      j := j + 1;
    }
    BucketMoved(hash, contents, list, moved, i);
  }

  lemma SearchEnds(hash: HashFunction, contents: map<Key, Id>, n: nat, b: nat, slots: Bucket, key: Key, i: nat)
    requires n > 0 && BucketOk(hash, contents, n, b, slots) && b == hash(key) % n && i <= |slots|
    requires forall j :: 0 <= j < i ==> slots[j].hash != hash(key) || slots[j].key != key
    requires i < |slots| ==> slots[i].key == key
    ensures IsFound(slots, key, i)
    ensures i < |slots| <==> key in contents
    ensures i < |slots| ==> slots[i].id == contents[key]
  {
    if key in contents {
      var m :| 0 <= m < |slots| && slots[m] == Slot(hash(key), key, contents[key]);
    }
  }

  /** The slots in buckets before `i` and the first `j` slots of bucket `i` have been moved. */
  ghost predicate Moved(hash: HashFunction, contents: map<Key, Id>, list: seq<Bucket>, moved: map<Key, Id>, i: nat, j: nat)
    requires |list| > 0
  {
    && (forall k :: k in moved ==> k in contents && moved[k] == contents[k])
    && (forall k :: k in contents && hash(k) % |list| < i ==> k in moved)
    && (forall k :: k in moved ==> hash(k) % |list| <= i)
    && (i < |list| ==> j <= |list[i]| && forall k :: k in contents && hash(k) % |list| == i ==>
          (k in moved <==> exists m :: 0 <= m < j && list[i][m].key == k))
  }

  lemma MoveOne(hash: HashFunction, contents: map<Key, Id>, list: seq<Bucket>, moved: map<Key, Id>, i: nat, j: nat)
    requires i < |list| && Moved(hash, contents, list, moved, i, j) && j < |list[i]|
    requires BucketOk(hash, contents, |list|, i, list[i])
    ensures var slot := list[i][j];
            slot.key !in moved && slot.hash == hash(slot.key)
            && Moved(hash, contents, list, moved[slot.key := slot.id], i, j + 1)
  {
    var slot := list[i][j];
    var after := moved[slot.key := slot.id];
    assert slot.key in contents && contents[slot.key] == slot.id && hash(slot.key) % |list| == i;
    assert slot.key !in moved;
    forall k | k in contents && hash(k) % |list| == i
      ensures k in after <==> exists m :: 0 <= m < j + 1 && list[i][m].key == k
    {
      if k in moved { assert exists m :: 0 <= m < j && list[i][m].key == k; }
    }
  }

  lemma BucketMoved(hash: HashFunction, contents: map<Key, Id>, list: seq<Bucket>, moved: map<Key, Id>, i: nat)
    requires i < |list| && Moved(hash, contents, list, moved, i, |list[i]|)
    requires BucketOk(hash, contents, |list|, i, list[i])
    ensures Moved(hash, contents, list, moved, i + 1, 0)
  {
    forall k | k in contents && hash(k) % |list| == i ensures k in moved {
      var slot := Slot(hash(k), k, contents[k]);
      var m :| 0 <= m < |list[i]| && list[i][m] == slot;
      assert list[i][m].key == k;
    }
  }

  lemma AllMoved(hash: HashFunction, contents: map<Key, Id>, list: seq<Bucket>, moved: map<Key, Id>)
    requires |list| > 0 && Moved(hash, contents, list, moved, |list|, 0)
    ensures moved == contents
  {
    forall k | k in contents ensures k in moved {
      assert hash(k) % |list| < |list|;
    }
  }

  // ----- one bucket through each operation -----

  lemma SlotReplaced(hash: HashFunction, contents: map<Key, Id>, n: nat, c: nat, slots: Bucket, b: nat, key: Key, id: Id, i: nat)
    requires n > 0 && BucketOk(hash, contents, n, c, slots) && b == hash(key) % n
    requires c == b ==> i < |slots| && slots[i].key == key
    ensures BucketOk(hash, contents[key := id], n, c, if c == b then slots[i := Slot(hash(key), key, id)] else slots)
  {
    if c == b {
      var after := slots[i := Slot(hash(key), key, id)];
      forall k | k in contents[key := id] && hash(k) % n == b ensures Slot(hash(k), k, contents[key := id][k]) in after {
        if k != key {
          var m :| 0 <= m < |slots| && slots[m] == Slot(hash(k), k, contents[k]);
          assert after[m] == slots[m];
        } else {
          assert after[i].key == key;
        }
      }
    }
  }

  lemma SlotAdded(hash: HashFunction, contents: map<Key, Id>, n: nat, c: nat, slots: Bucket, b: nat, key: Key, id: Id)
    requires n > 0 && BucketOk(hash, contents, n, c, slots) && b == hash(key) % n && key !in contents
    ensures BucketOk(hash, contents[key := id], n, c, if c == b then slots + [Slot(hash(key), key, id)] else slots)
  {
  }

  lemma SlotPushed(hash: HashFunction, contents: map<Key, Id>, n: nat, c: nat, slots: Bucket, b: nat, key: Key, id: Id)
    requires n > 0 && BucketOk(hash, contents, n, c, slots) && b == hash(key) % n && key !in contents
    ensures BucketOk(hash, contents[key := id], n, c, if c == b then [Slot(hash(key), key, id)] + slots else slots)
  {
  }

  lemma SlotRemoved(hash: HashFunction, contents: map<Key, Id>, n: nat, c: nat, slots: Bucket, b: nat, key: Key, i: nat)
    requires n > 0 && BucketOk(hash, contents, n, c, slots) && b == hash(key) % n
    requires c == b ==> i < |slots| && slots[i].key == key
    ensures BucketOk(hash, contents - {key}, n, c, if c == b then slots[..i] + slots[i + 1..] else slots)
  {
    if c == b {
      var after := slots[..i] + slots[i + 1..];
      assert forall m :: 0 <= m < |after| ==> after[m] == slots[if m < i then m else m + 1];
      forall m | 0 <= m < |after|
        ensures after[m].hash == hash(after[m].key) && after[m].hash % n == b
        ensures after[m].key in contents - {key} && contents[after[m].key] == after[m].id
      {
        var p := if m < i then m else m + 1;
        assert slots[p].key != slots[i].key;
      }
      KeptInBucket(hash, contents, n, slots, b, key, i);
    }
  }

  lemma KeptInBucket(hash: HashFunction, contents: map<Key, Id>, n: nat, slots: Bucket, b: nat, key: Key, i: nat)
    requires n > 0 && BucketOk(hash, contents, n, b, slots) && i < |slots| && slots[i].key == key
    ensures forall k :: k in contents - {key} && hash(k) % n == b ==> Slot(hash(k), k, contents[k]) in slots[..i] + slots[i + 1..]
  {
    var after := slots[..i] + slots[i + 1..];
    forall k | k in contents - {key} && hash(k) % n == b ensures Slot(hash(k), k, contents[k]) in after {
      var m :| 0 <= m < |slots| && slots[m] == Slot(hash(k), k, contents[k]);
      assert m != i;
      assert after[if m < i then m else m - 1] == slots[m];
    }
  }
}
