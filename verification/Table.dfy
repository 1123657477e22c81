/** A table file: data blocks, an index with a separator key for each of them, and a filter. */
module Tables {
  import opened Coding
  import opened InternalKeys
  import opened ByteKeys
  import opened BlockFormat
  import opened BlockIterators
  import opened TableFormat
  import opened FilterBlocks
  import LogFormat

  datatype BEntry = BEntry(key: BKey, value: seq<Byte>)

  /** A written block and where it is in the file. */
  datatype TableBlock = TableBlock(handle: BlockHandle, entries: seq<BEntry>)

  datatype IndexEntry = IndexEntry(key: BKey, block: TableBlock)

  /** What a table file means. */
  datatype Table = Table(index: seq<IndexEntry>, filters: Option<seq<Filter>>)

  /** An open table: the file, the contents of its index block, and its filters. */
  datatype TableFile = TableFile(file: seq<Byte>, index: seq<Byte>, filters: Option<seq<Filter>>)

  ghost predicate AscendingKeys(es: seq<BEntry>) {
    forall i, j :: 0 <= i < j < |es| ==> KeyLess(es[i].key, es[j].key)
  }

  /** Every entry of one run is before every entry of the other. */
  ghost predicate AllBefore(a: seq<BEntry>, b: seq<BEntry>) {
    forall i, j :: 0 <= i < |a| && 0 <= j < |b| ==> KeyLess(a[i].key, b[j].key)
  }

  function LastKey(b: TableBlock): BKey
    requires b.entries != []
  {
    b.entries[|b.entries| - 1].key
  }

  ghost predicate BlocksOk(blocks: seq<TableBlock>) {
    && (forall i :: 0 <= i < |blocks| ==> blocks[i].entries != [] && AscendingKeys(blocks[i].entries))
    && forall i, j :: 0 <= i < j < |blocks| ==> AllBefore(blocks[i].entries, blocks[j].entries)
  }

  function Blocks(index: seq<IndexEntry>): seq<TableBlock> {
    seq(|index|, i requires 0 <= i < |index| => index[i].block)
  }

  /** The separator of a block is its last key, or one of a user key strictly before the next block. */
  ghost predicate SeparatorOk(e: IndexEntry, next: seq<BEntry>) {
    && e.block.entries != []
    && IsShortened(LastKey(e.block), e.key)
    && (next != [] && e.key != LastKey(e.block) ==> LexLess(e.key.user, next[0].key.user))
  }

  ghost predicate SeparatorsOk(index: seq<IndexEntry>) {
    forall i :: 0 <= i < |index| ==> SeparatorOk(index[i], EntriesAfter(index, i))
  }

  /** The entries of the block after block `i`. */
  function EntriesAfter(index: seq<IndexEntry>, i: nat): seq<BEntry> {
    if i + 1 < |index| then index[i + 1].block.entries else []
  }

  /** The filter for the place of the block matches the user keys in it. */
  ghost predicate FilterOk(hash: Hash, filters: seq<Filter>, b: TableBlock) {
    forall k :: 0 <= k < |b.entries| ==>
      var i := b.handle.offset / FILTER_BASE; i < |filters| ==> Matches(hash, filters[i], b.entries[k].key.user)
  }

  ghost predicate TableOk(hash: Hash, t: Table) {
    && BlocksOk(Blocks(t.index)) && SeparatorsOk(t.index)
    && (t.filters.Some? ==> forall i :: 0 <= i < |t.index| ==> FilterOk(hash, t.filters.value, t.index[i].block))
  }

  ghost predicate InBlocks(blocks: seq<TableBlock>, e: BEntry) {
    exists i :: 0 <= i < |blocks| && e in blocks[i].entries
  }

  ghost predicate InTable(t: Table, e: BEntry) {
    InBlocks(Blocks(t.index), e)
  }

  // ----- the bytes of a table -----

  function KVs(es: seq<BEntry>): (r: seq<KV>)
    ensures |r| == |es|
  {
    seq(|es|, i requires 0 <= i < |es| => KV(EncodeKey(es[i].key), es[i].value))
  }

  /** An index entry maps the separator to the block's handle. */
  function IndexKVs(index: seq<IndexEntry>): (r: seq<KV>)
    ensures |r| == |index|
  {
    seq(|index|, i requires 0 <= i < |index| => KV(EncodeKey(index[i].key), EncodeHandle(index[i].block.handle)))
  }

  /** The file holds the block at its handle, with `interval` entries between restart points. */
  ghost predicate BlockStored(crc: LogFormat.Checksum, file: seq<Byte>, interval: nat, b: TableBlock) {
    exists contents :: BlockAt(crc, file, b.handle, contents) && IsBlock(KVs(b.entries), interval, contents)
  }

  ghost predicate BlocksStored(crc: LogFormat.Checksum, file: seq<Byte>, interval: nat, blocks: seq<TableBlock>) {
    forall i :: 0 <= i < |blocks| ==> BlockStored(crc, file, interval, blocks[i])
  }

  /** The bytes are those of the table. */
  ghost predicate Stored(crc: LogFormat.Checksum, f: TableFile, interval: nat, t: Table) {
    && IsBlock(IndexKVs(t.index), 1, f.index)
    && f.filters == t.filters
    && BlocksStored(crc, f.file, interval, Blocks(t.index))
  }

  // ----- lookup -----

  /** The first entry of the table at or after the key. */
  ghost predicate IsFirstFrom(t: Table, k: BKey, e: BEntry) {
    InTable(t, e) && KeyAtMost(k, e.key) && forall o :: InTable(t, o) && KeyAtMost(k, o.key) ==> KeyAtMost(e.key, o.key)
  }

  /** Where a cursor over ascending keys stands after seeking. */
  ghost predicate IsSeek(keys: seq<BKey>, k: BKey, p: nat) {
    && p <= |keys|
    && (forall i :: 0 <= i < p ==> KeyLess(keys[i], k))
    && (forall i :: p <= i < |keys| ==> KeyAtMost(k, keys[i]))
  }

  ghost predicate KeysAscend(keys: seq<BKey>) {
    forall i, j :: 0 <= i < j < |keys| ==> KeyLess(keys[i], keys[j])
  }

  // ----- where the keys of index and blocks lie -----

  function KeysOf(es: seq<BEntry>): seq<BKey> {
    seq(|es|, i requires 0 <= i < |es| => es[i].key)
  }

  function IndexKeys(index: seq<IndexEntry>): seq<BKey> {
    seq(|index|, i requires 0 <= i < |index| => index[i].key)
  }

  ghost predicate ShapeOk(t: Table) {
    BlocksOk(Blocks(t.index)) && SeparatorsOk(t.index)
  }

  lemma BlockFacts(t: Table, i: nat)
    requires ShapeOk(t) && i < |t.index|
    ensures var es := t.index[i].block.entries; es != [] && AscendingKeys(es)
    ensures SeparatorOk(t.index[i], EntriesAfter(t.index, i))
    ensures forall j :: i < j < |t.index| ==> AllBefore(t.index[i].block.entries, t.index[j].block.entries)
  {
    assert Blocks(t.index)[i] == t.index[i].block;
    forall j | i < j < |t.index| ensures AllBefore(t.index[i].block.entries, t.index[j].block.entries) {
      assert Blocks(t.index)[j] == t.index[j].block;
    }
  }

  /** The entries of a block are at or before its separator. */
  lemma SeparatorAfterBlock(t: Table, i: nat, m: nat)
    requires ShapeOk(t) && i < |t.index| && m < |t.index[i].block.entries|
    ensures KeyAtMost(t.index[i].block.entries[m].key, t.index[i].key)
  {
    hide KeyLess, ShapeOk, IsShortened;
    BlockFacts(t, i);
    var b := t.index[i].block;
    ShortenedIsAfter(LastKey(b), t.index[i].key);
    KeyAtMostTransitive(b.entries[m].key, LastKey(b), t.index[i].key);
  }

  /** The separator of a block is before everything in the next one. */
  lemma SeparatorBeforeNext(t: Table, i: nat)
    requires ShapeOk(t) && i + 1 < |t.index|
    ensures t.index[i + 1].block.entries != [] && KeyLess(t.index[i].key, t.index[i + 1].block.entries[0].key)
  {
    hide ShapeOk, IsShortened, LexLess;
    BlockFacts(t, i);
    BlockFacts(t, i + 1);
    var b, next := t.index[i].block.entries, t.index[i + 1].block.entries;
    assert KeyLess(b[|b| - 1].key, next[0].key);
  }

  /** The separator of a block is before everything in later blocks. */
  lemma SeparatorBeforeLater(t: Table, i: nat, j: nat, m: nat)
    requires ShapeOk(t) && i < j < |t.index| && m < |t.index[j].block.entries|
    ensures KeyLess(t.index[i].key, t.index[j].block.entries[m].key)
    ensures t.index[i + 1].block.entries != []
    ensures KeyAtMost(t.index[i + 1].block.entries[0].key, t.index[j].block.entries[m].key)
  {
    hide ShapeOk, KeyLess;
    SeparatorBeforeNext(t, i);
    BlockFacts(t, i + 1);
    var next, later := t.index[i + 1].block.entries, t.index[j].block.entries;
    if j > i + 1 {
      assert KeyLess(next[0].key, later[m].key);
    } else if m > 0 {
      assert KeyLess(next[0].key, next[m].key);
    }
    if later[m].key != next[0].key {
      KeyTransitive(t.index[i].key, next[0].key, later[m].key);
    }
  }

  lemma IndexAscends(t: Table)
    requires ShapeOk(t)
    ensures KeysAscend(IndexKeys(t.index))
  {
    hide ShapeOk, KeyLess;
    forall i, j | 0 <= i < j < |t.index| ensures KeyLess(t.index[i].key, t.index[j].key) {
      BlockFacts(t, j);
      SeparatorBeforeLater(t, i, j, 0);
      SeparatorAfterBlock(t, j, 0);
      if t.index[j].block.entries[0].key != t.index[j].key {
        KeyTransitive(t.index[i].key, t.index[j].block.entries[0].key, t.index[j].key);
      }
    }
  }

  // ----- what a seek through the index finds -----

  /** Entries in blocks before the one the index leads to are before the key. */
  lemma EarlierBlocksBefore(t: Table, k: BKey, i: nat, j: nat, e: BEntry)
    requires ShapeOk(t) && IsSeek(IndexKeys(t.index), k, i) && j < i && e in t.index[j].block.entries
    ensures !KeyAtMost(k, e.key)
  {
    hide ShapeOk, KeyLess;
    var m :| 0 <= m < |t.index[j].block.entries| && t.index[j].block.entries[m] == e;
    SeparatorAfterBlock(t, j, m);
    assert KeyLess(IndexKeys(t.index)[j], k);
    if e.key != t.index[j].key { KeyTransitive(e.key, t.index[j].key, k); }
    KeyTotal(e.key, k);
  }

  lemma WhichBlock(t: Table, e: BEntry) returns (j: nat, m: nat)
    requires InTable(t, e)
    ensures j < |t.index| && m < |t.index[j].block.entries| && t.index[j].block.entries[m] == e
  {
    j :| 0 <= j < |Blocks(t.index)| && e in Blocks(t.index)[j].entries;
    m :| 0 <= m < |t.index[j].block.entries| && t.index[j].block.entries[m] == e;
  }

  lemma BlockSeekIsFirst(t: Table, k: BKey, i: nat, q: nat)
    requires ShapeOk(t) && IsSeek(IndexKeys(t.index), k, i) && i < |t.index|
    requires IsSeek(KeysOf(t.index[i].block.entries), k, q) && q < |t.index[i].block.entries|
    ensures IsFirstFrom(t, k, t.index[i].block.entries[q])
  {
    hide ShapeOk, KeyLess, InBlocks;
    var es := t.index[i].block.entries;
    var e := es[q];
    assert KeyAtMost(k, KeysOf(es)[q]);
    EntryInTable(t, i, q);
    BlockFacts(t, i);
    forall o | InTable(t, o) && KeyAtMost(k, o.key) ensures KeyAtMost(e.key, o.key) {
      var j, m := WhichBlock(t, o);
      if j < i {
        EarlierBlocksBefore(t, k, i, j, o);
      } else if j == i {
        KeyTotal(KeysOf(es)[m], k);
        assert m >= q;
      } else {
        assert KeyLess(es[q].key, t.index[j].block.entries[m].key);
      }
    }
  }

  lemma EntryInTable(t: Table, i: nat, q: nat)
    requires i < |t.index| && q < |t.index[i].block.entries|
    ensures InTable(t, t.index[i].block.entries[q])
  {
    assert Blocks(t.index)[i] == t.index[i].block;
  }

  /** If the index leads to a block with nothing at or after the key, no entry after it has the key's user key. */
  lemma PastBlockOtherUser(t: Table, k: BKey, i: nat, e: BEntry)
    requires ShapeOk(t) && IsSeek(IndexKeys(t.index), k, i) && i < |t.index|
    requires IsSeek(KeysOf(t.index[i].block.entries), k, |t.index[i].block.entries|)
    requires InTable(t, e) && KeyAtMost(k, e.key)
    ensures e.key.user != k.user
  {
    hide ShapeOk, KeyLess, LexLess, IsShortened, InBlocks;
    var j, m := WhichBlock(t, e);
    BlockFacts(t, i);
    var es := t.index[i].block.entries;
    assert KeyLess(KeysOf(es)[|es| - 1], k) && KeyAtMost(k, IndexKeys(t.index)[i]);
    if j < i {
      EarlierBlocksBefore(t, k, i, j, e);
    } else if j == i {
      assert KeyLess(KeysOf(es)[m], k);
      KeyTotal(e.key, k);
    } else {
      SeparatorBeforeLater(t, i, j, m);
      var limit := t.index[i + 1].block.entries[0].key;
      assert AllBefore(es, t.index[i + 1].block.entries);
      SeparatorSkipsNothing(LastKey(t.index[i].block), limit, t.index[i].key, k, e.key);
    }
  }

  lemma PastIndex(t: Table, k: BKey, e: BEntry)
    requires ShapeOk(t) && IsSeek(IndexKeys(t.index), k, |t.index|)
    ensures !IsFirstFrom(t, k, e)
  {
    hide ShapeOk, KeyLess, InBlocks;
    if InTable(t, e) {
      var j, m := WhichBlock(t, e);
      EarlierBlocksBefore(t, k, |t.index|, j, e);
    }
  }

  /** If the block the index leads to does not hold the key's user key, the first entry at or after the
      key does not have it either. */
  lemma AbsentFromBlock(t: Table, k: BKey, i: nat, q: nat, e: BEntry)
    requires ShapeOk(t) && IsSeek(IndexKeys(t.index), k, i) && i < |t.index|
    requires IsSeek(KeysOf(t.index[i].block.entries), k, q)
    requires forall m :: 0 <= m < |t.index[i].block.entries| ==> t.index[i].block.entries[m].key.user != k.user
    requires IsFirstFrom(t, k, e)
    ensures e.key.user != k.user
  {
    hide ShapeOk, KeyLess, InBlocks;
    var es := t.index[i].block.entries;
    if q < |es| {
      BlockSeekIsFirst(t, k, i, q);
      EntryInTable(t, i, q);
      assert IsFirstFrom(t, k, es[q]);
      KeyTotal(es[q].key, e.key);
      assert es[q].key == e.key;
    } else {
      PastBlockOtherUser(t, k, i, e);
    }
  }

  lemma {:induction false} SeekExists(keys: seq<BKey>, k: BKey) returns (p: nat)
    requires KeysAscend(keys)
    ensures IsSeek(keys, k, p)
  {
    hide KeyLess;
    if keys == [] {
      p := 0;
    } else {
      var n := |keys| - 1;
      p := SeekExists(keys[..n], k);
      assert forall i :: 0 <= i < n ==> keys[..n][i] == keys[i];
      KeyTotal(keys[n], k);
      if p == n && KeyLess(keys[n], k) {
        p := n + 1;
      } else if p < n {
        assert KeyAtMost(k, keys[..n][p]);
        KeyAtMostTransitive(k, keys[p], keys[n]);
      }
    }
  }

  lemma EntryKeysAscend(es: seq<BEntry>)
    requires AscendingKeys(es)
    ensures KeysAscend(KeysOf(es)) && |KeysOf(es)| == |es|
  {
  }

  lemma SeekInBounds(keys: seq<BKey>, k: BKey, p: nat)
    requires IsSeek(keys, k, p)
    ensures p <= |keys|
  {
  }

  lemma FirstFromGives(t: Table, k: BKey, e: BEntry)
    requires IsFirstFrom(t, k, e)
    ensures InTable(t, e) && KeyAtMost(k, e.key)
  {
  }

  lemma FirstIsUnique(t: Table, k: BKey, i: nat, q: nat, e: BEntry)
    requires ShapeOk(t) && i < |t.index| && q < |t.index[i].block.entries|
    requires IsFirstFrom(t, k, e) && IsFirstFrom(t, k, t.index[i].block.entries[q])
    ensures e == t.index[i].block.entries[q]
  {
    hide ShapeOk, KeyLess, InBlocks;
    var o := t.index[i].block.entries[q];
    var j, m := WhichBlock(t, e);
    KeyTotal(e.key, o.key);
    PlaceOfKey(t, i, q, j, m);
  }

  /** A key stands in one place only. */
  lemma PlaceOfKey(t: Table, i: nat, q: nat, j: nat, m: nat)
    requires ShapeOk(t) && i < |t.index| && j < |t.index|
    requires q < |t.index[i].block.entries| && m < |t.index[j].block.entries|
    ensures t.index[i].block.entries[q].key == t.index[j].block.entries[m].key ==> i == j && q == m
  {
    hide ShapeOk, KeyLess;
    BlockFacts(t, i);
    BlockFacts(t, j);
    KeyTotal(t.index[i].block.entries[q].key, t.index[i].block.entries[q].key);
  }

  // ----- seeking in bytes -----

  /** The entries of a block have these internal keys. */
  ghost predicate HasKeys(es: seq<KV>, keys: seq<BKey>) {
    |es| == |keys| && forall i :: 0 <= i < |es| ==> es[i].key == EncodeKey(keys[i])
  }

  ghost predicate IsBlockSeek(es: seq<KV>, target: seq<Byte>, p: nat) {
    && p <= |es|
    && (forall i :: 0 <= i < p ==> InternalLess(es[i].key, target))
    && (forall i :: p <= i < |es| ==> !InternalLess(es[i].key, target))
  }

  /** Ascending internal keys ascend as bytes. */
  lemma BytesAscend(es: seq<KV>, keys: seq<BKey>)
    requires HasKeys(es, keys) && KeysAscend(keys)
    ensures Ascending(InternalLess, es)
  {
    hide KeyLess, InternalLess, EncodeKey;
    forall a, b, c | InternalLess(a, b) && InternalLess(b, c) ensures InternalLess(a, c) {
      InternalLessTransitive(a, b, c);
    }
    forall i, j | 0 <= i < j < |es| ensures InternalLess(es[i].key, es[j].key) {
      InternalLessMeans(keys[i], keys[j]);
    }
  }

  /** A seek among bytes is a seek among keys. */
  lemma SeekMeans(es: seq<KV>, keys: seq<BKey>, k: BKey, p: nat)
    requires HasKeys(es, keys) && IsBlockSeek(es, EncodeKey(k), p)
    ensures IsSeek(keys, k, p)
  {
    hide KeyLess, InternalLess, EncodeKey;
    forall i | 0 <= i < |keys| ensures KeyLess(keys[i], k) <==> InternalLess(es[i].key, EncodeKey(k)) {
      InternalLessMeans(keys[i], k);
    }
    forall i | p <= i < |keys| ensures KeyAtMost(k, keys[i]) {
      KeyTotal(keys[i], k);
    }
  }

  datatype Found = Found(key: seq<Byte>, value: seq<Byte>) | Absent | Corrupt

  /** The block cursor, sent to the target. Of a block of `es`, it shows the first entry not before the target. */
  method SeekBlock(contents: seq<Byte>, target: seq<Byte>, ghost es: seq<KV>, ghost interval: nat)
    returns (r: Found, ghost p: nat)
    ensures IsBlock(es, interval, contents) && Ascending(InternalLess, es) ==>
              IsBlockSeek(es, target, p) && r == if p < |es| then Found(es[p].key, es[p].value) else Absent
  {
    hide Ascending, IsBlock, IsBlockSeek, InternalLess, Represents, Open;
    ghost var good := IsBlock(es, interval, contents) && Ascending(InternalLess, es);
    if good { BlockOpens(es, interval, contents); }
    var layout := Open(contents);
    p := 0;
    if layout.BadBlock? {
      return Corrupt, p;
    }
    if layout.numRestarts == 0 {
      return Absent, p;
    }
    var iter := new Iter(InternalLess, contents, layout.restarts, layout.numRestarts, es, interval);
    iter.Seek(target);
    p := iter.pos;
    if good { CursorShows(iter, target); }
    if iter.Valid() {
      return Found(iter.key, contents[iter.valueStart..iter.valueStart + iter.valueLength]), p;
    }
    r := if iter.corrupt then Corrupt else Absent;
  }

  lemma CursorShows(iter: Iter, target: seq<Byte>)
    requires iter.Ok() && iter.IsSeek(target, iter.pos) && iter.less == InternalLess
    ensures IsBlockSeek(iter.es, target, iter.pos)
    ensures iter.Valid() <==> iter.pos < |iter.es|
    ensures iter.pos < |iter.es| ==>
              && iter.valueStart + iter.valueLength <= |iter.data| && iter.key == iter.es[iter.pos].key
              && iter.data[iter.valueStart..iter.valueStart + iter.valueLength] == iter.es[iter.pos].value
  {
    iter.ShownEnd();
    hide Represents, Ascending, InternalLess;
  }

  // ----- the point lookup -----

  lemma IndexHasKeys(index: seq<IndexEntry>)
    ensures HasKeys(IndexKVs(index), IndexKeys(index))
  {
  }

  lemma BlockHasKeys(es: seq<BEntry>)
    ensures HasKeys(KVs(es), KeysOf(es))
  {
  }

  /** What the seek in the index finds. */
  lemma IndexSeek(t: Table, k: BKey, i: nat)
    requires ShapeOk(t) && IsBlockSeek(IndexKVs(t.index), EncodeKey(k), i)
    ensures IsSeek(IndexKeys(t.index), k, i) && i <= |t.index|
    ensures i < |t.index| ==> DecodeHandle(IndexKVs(t.index)[i].value, 0).Parsed?
    ensures i < |t.index| ==> DecodeHandle(IndexKVs(t.index)[i].value, 0).value == t.index[i].block.handle
  {
    hide ShapeOk, EncodeHandle, DecodeHandle, EncodeKey;
    IndexHasKeys(t.index);
    SeekMeans(IndexKVs(t.index), IndexKeys(t.index), k, i);
    if i < |t.index| {
      var value := EncodeHandle(t.index[i].block.handle);
      assert value[0..|value|] == value;
      HandleRoundTrip(value, 0, t.index[i].block.handle);
    }
  }

  lemma IndexBytesAscend(t: Table)
    requires ShapeOk(t)
    ensures Ascending(InternalLess, IndexKVs(t.index))
  {
    hide ShapeOk, Ascending, IndexKVs;
    IndexAscends(t);
    IndexHasKeys(t.index);
    BytesAscend(IndexKVs(t.index), IndexKeys(t.index));
  }

  lemma BlockBytesAscend(t: Table, i: nat)
    requires ShapeOk(t) && i < |t.index|
    ensures Ascending(InternalLess, KVs(t.index[i].block.entries))
  {
    hide ShapeOk, Ascending, KVs;
    var es := t.index[i].block.entries;
    BlockFacts(t, i);
    EntryKeysAscend(es);
    BlockHasKeys(es);
    BytesAscend(KVs(es), KeysOf(es));
  }

  /** The bytes that show an entry. */
  function Shown(e: BEntry): Found {
    Found(EncodeKey(e.key), e.value)
  }

  /** Nothing reported, or the first entry at or after the key; and that entry if it has the key's user key. */
  ghost predicate IsAnswer(t: Table, k: BKey, r: Found) {
    && !r.Corrupt?
    && (r.Found? ==> exists e :: IsFirstFrom(t, k, e) && r == Shown(e))
    && forall e :: IsFirstFrom(t, k, e) && e.key.user == k.user ==> r == Shown(e)
  }

  lemma AnswerPastIndex(t: Table, k: BKey)
    requires ShapeOk(t) && IsSeek(IndexKeys(t.index), k, |t.index|)
    ensures IsAnswer(t, k, Absent)
  {
    hide ShapeOk, IsSeek;
    forall e ensures !IsFirstFrom(t, k, e) { PastIndex(t, k, e); }
  }

  lemma AnswerFiltered(hash: Hash, t: Table, k: BKey, i: nat)
    requires TableOk(hash, t) && i < |t.index| && IsSeek(IndexKeys(t.index), k, i)
    requires forall m :: 0 <= m < |t.index[i].block.entries| ==> t.index[i].block.entries[m].key.user != k.user
    ensures IsAnswer(t, k, Absent)
  {
    hide TableOk, IsSeek, IsFirstFrom;
    TableShape(hash, t);
    BlockFacts(t, i);
    hide ShapeOk;
    EntryKeysAscend(t.index[i].block.entries);
    var q := SeekExists(KeysOf(t.index[i].block.entries), k);
    forall e | IsFirstFrom(t, k, e) ensures e.key.user != k.user { AbsentFromBlock(t, k, i, q, e); }
  }

  lemma TableShape(hash: Hash, t: Table)
    requires TableOk(hash, t)
    ensures ShapeOk(t)
  {
  }

  lemma AnswerInBlock(t: Table, k: BKey, i: nat, q: nat)
    requires ShapeOk(t) && i < |t.index| && IsSeek(IndexKeys(t.index), k, i)
    requires IsBlockSeek(KVs(t.index[i].block.entries), EncodeKey(k), q)
    ensures var es := t.index[i].block.entries;
            q <= |es| && IsAnswer(t, k, if q < |es| then Shown(es[q]) else Absent)
  {
    hide ShapeOk, IsSeek, KVs, EncodeKey, IsFirstFrom;
    var es := t.index[i].block.entries;
    BlockHasKeys(es);
    SeekMeans(KVs(es), KeysOf(es), k, q);
    SeekInBounds(KeysOf(es), k, q);
    if q < |es| {
      BlockSeekIsFirst(t, k, i, q);
      forall e | IsFirstFrom(t, k, e) ensures e == es[q] { FirstIsUnique(t, k, i, q, e); }
    } else {
      forall e | IsFirstFrom(t, k, e) ensures e.key.user != k.user { FirstFromGives(t, k, e); PastBlockOtherUser(t, k, i, e); }
    }
  }

  lemma StoredGives(crc: LogFormat.Checksum, verify: bool, f: TableFile, interval: nat, t: Table, i: nat)
    requires Stored(crc, f, interval, t) && i < |t.index|
    ensures var contents := ReadBlock(crc, verify, f.file, t.index[i].block.handle);
            contents.Some? && IsBlock(KVs(t.index[i].block.entries), interval, contents.value)
  {
    hide IsBlock, BlockAt, ReadBlock;
    assert Blocks(t.index)[i] == t.index[i].block;
    var contents :| BlockAt(crc, f.file, t.index[i].block.handle, contents) && IsBlock(KVs(t.index[i].block.entries), interval, contents);
    ReadsBlock(crc, verify, f.file, t.index[i].block.handle, contents);
  }

  lemma FilterSays(hash: Hash, t: Table, i: nat)
    requires TableOk(hash, t) && t.filters.Some? && i < |t.index|
    ensures FilterOk(hash, t.filters.value, t.index[i].block)
  {
  }

  lemma FilterRejects(hash: Hash, filters: seq<Filter>, b: TableBlock, user: seq<Byte>)
    requires FilterOk(hash, filters, b)
    ensures var i := b.handle.offset / FILTER_BASE;
            i < |filters| && !Matches(hash, filters[i], user) ==>
              forall m :: 0 <= m < |b.entries| ==> b.entries[m].key.user != user
  {
  }

  /** A point lookup: a seek in the index block, the filter of the block it leads to, and a seek in that block. */
  method InternalGet(hash: Hash, crc: LogFormat.Checksum, verify: bool, f: TableFile, k: BKey, ghost t: Table, ghost interval: nat)
    returns (r: Found)
    ensures TableOk(hash, t) && Stored(crc, f, interval, t) ==> IsAnswer(t, k, r)
  {
    hide TableOk, Stored, IsAnswer, Ascending, IsBlock, IsBlockSeek, IsSeek, ShapeOk, DecodeHandle, ReadBlock, FilterOk;
    ghost var good := TableOk(hash, t) && Stored(crc, f, interval, t);
    if good {
      TableShape(hash, t);
      IndexBytesAscend(t);
      StoredIndex(crc, f, interval, t);
    }
    var entry, i := SeekBlock(f.index, EncodeKey(k), IndexKVs(t.index), 1);
    if good {
      IndexSeek(t, k, i);
      if i == |t.index| { AnswerPastIndex(t, k); }
    }
    if !entry.Found? {
      return entry;
    }
    var handle := DecodeHandle(entry.value, 0);
    if f.filters.Some? && handle.Parsed? {
      var may := BlockMayMatch(hash, f.filters.value, handle.value.offset, k.user);
      if !may {
        if good {
          FilterSays(hash, t, i);
          FilterRejects(hash, f.filters.value, t.index[i].block, k.user);
          AnswerFiltered(hash, t, k, i);
        }
        return Absent;
      }
    }
    if handle.Bad? {
      return Corrupt;
    }
    if good { StoredGives(crc, verify, f, interval, t, i); }
    var contents := ReadBlock(crc, verify, f.file, handle.value);
    if contents.None? {
      return Corrupt;
    }
    if good { BlockBytesAscend(t, i); }
    ghost var q;
    r, q := SeekBlock(contents.value, EncodeKey(k), if good then KVs(t.index[i].block.entries) else [], interval);
    if good { AnswerInBlock(t, k, i, q); }
  }

  lemma StoredIndex(crc: LogFormat.Checksum, f: TableFile, interval: nat, t: Table)
    requires Stored(crc, f, interval, t)
    ensures IsBlock(IndexKVs(t.index), 1, f.index) && f.filters == t.filters
  {
    hide IsBlock, BlocksStored;
  }

  // ----- what the lookup means -----

  function LookupKeyOf(user: seq<Byte>, sequence: SequenceNumber): BKey {
    BKey(user, sequence, VALUE_TYPE_FOR_SEEK)
  }

  /** The newest entry of the user key that a reader at the sequence number may see. */
  ghost predicate IsNewestOf(t: Table, user: seq<Byte>, sequence: SequenceNumber, e: BEntry) {
    && InTable(t, e) && e.key.user == user && e.key.sequence <= sequence
    && forall o :: InTable(t, o) && o.key.user == user && o.key.sequence <= sequence ==> Trailer(o.key) <= Trailer(e.key)
  }

  /** That entry is the first one at or after the lookup key. */
  lemma NewestIsFirst(t: Table, user: seq<Byte>, sequence: SequenceNumber, e: BEntry)
    ensures IsNewestOf(t, user, sequence, e) <==> IsFirstFrom(t, LookupKeyOf(user, sequence), e) && e.key.user == user
  {
    hide LexLess, InBlocks;
    var k := LookupKeyOf(user, sequence);
    LexIrreflexive(user);
    if IsNewestOf(t, user, sequence, e) {
      forall o | InTable(t, o) && KeyAtMost(k, o.key) ensures KeyAtMost(e.key, o.key) {
      }
    }
  }

  datatype Got = NotFound | Value(value: seq<Byte>) | Deleted | Corruption

  function Outcome(e: BEntry): Got {
    if e.key.kind == TypeValue then Value(e.value) else Deleted
  }

  /** What a reader of the user key at the sequence number is to be told. */
  ghost predicate IsOutcome(t: Table, user: seq<Byte>, sequence: SequenceNumber, r: Got) {
    && (forall e :: IsNewestOf(t, user, sequence, e) ==> r == Outcome(e))
    && ((forall e :: !IsNewestOf(t, user, sequence, e)) ==> r.NotFound?)
  }

  lemma AnswerIsOutcome(t: Table, user: seq<Byte>, sequence: SequenceNumber, found: Found)
    requires IsAnswer(t, LookupKeyOf(user, sequence), found)
    ensures found.Absent? ==> IsOutcome(t, user, sequence, NotFound)
    ensures found.Found? ==> DecodeKey(found.key).Some?
    ensures found.Found? ==>
              var k := DecodeKey(found.key).value;
              IsOutcome(t, user, sequence, if k.user != user then NotFound else if k.kind == TypeValue then Value(found.value) else Deleted)
  {
    hide IsFirstFrom, IsNewestOf, EncodeKey, DecodeKey, LookupKeyOf;
    var k := LookupKeyOf(user, sequence);
    LookupUser(user, sequence);
    forall e ensures IsNewestOf(t, user, sequence, e) <==> IsFirstFrom(t, k, e) && e.key.user == user {
      NewestIsFirst(t, user, sequence, e);
    }
    forall e ensures DecodeKey(EncodeKey(e)) == Some(e) {
      KeyRoundTrip(e);
    }
  }

  /** No table lookup misses: from the bytes of a table file, the newest visible entry of the user key is reported
      if there is one, and nothing otherwise. */
  method Get(hash: Hash, crc: LogFormat.Checksum, verify: bool, f: TableFile, user: seq<Byte>, sequence: SequenceNumber,
             ghost t: Table, ghost interval: nat) returns (r: Got)
    ensures TableOk(hash, t) && Stored(crc, f, interval, t) ==> IsOutcome(t, user, sequence, r)
  {
    hide TableOk, Stored, IsAnswer, IsOutcome, DecodeKey;
    ghost var good := TableOk(hash, t) && Stored(crc, f, interval, t);
    var found := InternalGet(hash, crc, verify, f, LookupKeyOf(user, sequence), t, interval);
    if good {
      AnswerIsOutcome(t, user, sequence, found);
      AnswerIsSound(t, LookupKeyOf(user, sequence), found);
    }
    if found.Absent? {
      return NotFound;
    }
    if found.Corrupt? {
      return Corruption;
    }
    var key := DecodeKey(found.key);
    if key.None? {
      return Corruption;
    }
    r := if key.value.user != user then NotFound else if key.value.kind == TypeValue then Value(found.value) else Deleted;
  }

  lemma AnswerIsSound(t: Table, k: BKey, r: Found)
    requires IsAnswer(t, k, r)
    ensures !r.Corrupt?
  {
  }

  lemma LookupUser(user: seq<Byte>, sequence: SequenceNumber)
    ensures LookupKeyOf(user, sequence).user == user
  {
  }

  // ----- opening a file -----

  /** The file ends with a footer that leads to the index of the table, and holds its blocks. */
  ghost predicate IsTableFile(crc: LogFormat.Checksum, file: seq<Byte>, filters: Option<seq<Filter>>, interval: nat, t: Table) {
    && filters == t.filters
    && BlocksStored(crc, file, interval, Blocks(t.index))
    && IndexHandle(file).Some?
    && exists index :: BlockAt(crc, file, IndexHandle(file).value, index) && IsBlock(IndexKVs(t.index), 1, index)
  }

  /** Reads the footer and the index block. */
  method OpenTable(crc: LogFormat.Checksum, verify: bool, file: seq<Byte>, filters: Option<seq<Filter>>) returns (r: Option<TableFile>)
    ensures forall interval, t :: IsTableFile(crc, file, filters, interval, t) ==> r.Some? && Stored(crc, r.value, interval, t)
  {
    hide IndexHandle, ReadBlock, BlockAt, IsBlock, BlocksStored;
    var handle := IndexHandle(file);
    if handle.None? {
      return None;
    }
    var index := ReadBlock(crc, verify, file, handle.value);
    r := if index.None? then None else Some(TableFile(file, index.value, filters));
    forall interval, t | IsTableFile(crc, file, filters, interval, t) ensures r.Some? && Stored(crc, r.value, interval, t) {
      var contents :| BlockAt(crc, file, handle.value, contents) && IsBlock(IndexKVs(t.index), 1, contents);
      ReadsBlock(crc, verify, file, handle.value, contents);
    }
  }
}
