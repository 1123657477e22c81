/** Building a table file entry by entry. */
module TableBuilders {
  import opened Coding
  import opened InternalKeys
  import opened ByteKeys
  import opened BlockFormat
  import opened BlockBuilders
  import opened TableFormat
  import opened FilterBlocks
  import opened Tables
  import LogFormat

  function Flatten(blocks: seq<TableBlock>): seq<BEntry> {
    if blocks == [] then [] else Flatten(blocks[..|blocks| - 1]) + blocks[|blocks| - 1].entries
  }

  lemma FlattenGrows(blocks: seq<TableBlock>, b: TableBlock)
    ensures Flatten(blocks + [b]) == Flatten(blocks) + b.entries
  {
    assert (blocks + [b])[..|blocks|] == blocks;
  }

  /** Cutting an ascending run into blocks gives ascending blocks in ascending order, with the same entries. */
  lemma {:induction false} FlattenCuts(blocks: seq<TableBlock>)
    requires AscendingKeys(Flatten(blocks)) && forall i :: 0 <= i < |blocks| ==> blocks[i].entries != []
    ensures BlocksOk(blocks)
    ensures forall e :: InBlocks(blocks, e) <==> e in Flatten(blocks)
  {
    hide KeyLess;
    if blocks != [] {
      var n := |blocks| - 1;
      var init, last := blocks[..n], blocks[n];
      var all := Flatten(init);
      CutAscends(all, last.entries);
      FlattenCuts(init);
      forall i | 0 <= i < n ensures AllBefore(blocks[i].entries, last.entries) {
        forall m | 0 <= m < |blocks[i].entries| ensures blocks[i].entries[m] in all {
          assert init[i] == blocks[i] && InBlocks(init, blocks[i].entries[m]);
        }
        BeforeAll(blocks[i].entries, all, last.entries);
      }
      CutsMembers(blocks);
      CutsOk(blocks);
    }
  }

  lemma CutAscends(a: seq<BEntry>, b: seq<BEntry>)
    requires AscendingKeys(a + b)
    ensures AscendingKeys(a) && AscendingKeys(b) && AllBefore(a, b)
  {
    hide KeyLess;
    forall i, j | 0 <= i < j < |a| ensures KeyLess(a[i].key, a[j].key) {
      assert (a + b)[i] == a[i] && (a + b)[j] == a[j];
    }
    forall i, j | 0 <= i < j < |b| ensures KeyLess(b[i].key, b[j].key) {
      assert (a + b)[|a| + i] == b[i] && (a + b)[|a| + j] == b[j];
    }
    forall i, j | 0 <= i < |a| && 0 <= j < |b| ensures KeyLess(a[i].key, b[j].key) {
      assert (a + b)[i] == a[i] && (a + b)[|a| + j] == b[j];
    }
  }

  lemma BeforeAll(part: seq<BEntry>, a: seq<BEntry>, b: seq<BEntry>)
    requires AllBefore(a, b) && forall m :: 0 <= m < |part| ==> part[m] in a
    ensures AllBefore(part, b)
  {
    hide KeyLess;
    forall m, j | 0 <= m < |part| && 0 <= j < |b| ensures KeyLess(part[m].key, b[j].key) {
      var i :| 0 <= i < |a| && a[i] == part[m];
    }
  }

  lemma InCut(blocks: seq<TableBlock>, e: BEntry)
    requires blocks != []
    ensures var n := |blocks| - 1; InBlocks(blocks, e) <==> InBlocks(blocks[..n], e) || e in blocks[n].entries
  {
    var n := |blocks| - 1;
    if InBlocks(blocks[..n], e) {
      var i :| 0 <= i < n && e in blocks[..n][i].entries;
      assert e in blocks[i].entries;
    }
    if InBlocks(blocks, e) && e !in blocks[n].entries {
      var i :| 0 <= i < |blocks| && e in blocks[i].entries;
      assert e in blocks[..n][i].entries;
    }
  }

  lemma CutsMembers(blocks: seq<TableBlock>)
    requires blocks != []
    requires var n := |blocks| - 1; forall e :: InBlocks(blocks[..n], e) <==> e in Flatten(blocks[..n])
    ensures forall e :: InBlocks(blocks, e) <==> e in Flatten(blocks)
  {
    hide InBlocks;
    forall e ensures InBlocks(blocks, e) <==> e in Flatten(blocks) {
      InCut(blocks, e);
    }
  }

  lemma CutsOk(blocks: seq<TableBlock>)
    requires blocks != []
    requires var n := |blocks| - 1;
             && BlocksOk(blocks[..n]) && blocks[n].entries != [] && AscendingKeys(blocks[n].entries)
             && forall i :: 0 <= i < n ==> AllBefore(blocks[i].entries, blocks[n].entries)
    ensures BlocksOk(blocks)
  {
    hide AscendingKeys, AllBefore;
    var n := |blocks| - 1;
    assert forall i :: 0 <= i < n ==> blocks[..n][i] == blocks[i];
  }

  // ----- what the builder's fields say -----

  /** The blocks written so far, the last of them perhaps not in the index yet. */
  function Written(index: seq<IndexEntry>, pending: Option<TableBlock>): seq<TableBlock> {
    Blocks(index) + if pending.Some? then [pending.value] else []
  }

  /** The written blocks and the block under way hold the entries added. */
  ghost predicate EntriesOk(written: seq<TableBlock>, dataBlock: seq<BEntry>, lastKey: BKey, numEntries: nat, added: seq<BEntry>) {
    && added == Flatten(written) + dataBlock && AscendingKeys(added)
    && (forall i :: 0 <= i < |written| ==> written[i].entries != [])
    && numEntries == |added|
    && (added != [] ==> lastKey == added[|added| - 1].key)
  }

  /** What comes after block `i`, as far as it is known. */
  function Following(written: seq<TableBlock>, dataBlock: seq<BEntry>, i: nat): seq<BEntry> {
    if i + 1 < |written| then written[i + 1].entries else dataBlock
  }

  ghost predicate IndexOk(index: seq<IndexEntry>, pending: Option<TableBlock>, dataBlock: seq<BEntry>) {
    && (pending.Some? ==> dataBlock == [])
    && forall i :: 0 <= i < |index| ==>
         SeparatorOk(index[i], Following(Written(index, pending), dataBlock, i)) && Following(Written(index, pending), dataBlock, i) != []
  }

  /** The filters know the user keys of every block by the place where it starts. */
  ghost predicate KeysAdded(keys: set<(nat, seq<Byte>)>, offset: nat, written: seq<TableBlock>, dataBlock: seq<BEntry>) {
    && (forall k :: 0 <= k < |dataBlock| ==> (offset / FILTER_BASE, dataBlock[k].key.user) in keys)
    && forall i, k :: 0 <= i < |written| && 0 <= k < |written[i].entries| ==>
         (written[i].handle.offset / FILTER_BASE, written[i].entries[k].key.user) in keys
  }

  lemma AppendAscends(es: seq<BEntry>, e: BEntry)
    requires AscendingKeys(es) && (es != [] ==> KeyLess(es[|es| - 1].key, e.key))
    ensures AscendingKeys(es + [e])
  {
    hide KeyLess;
    forall i | 0 <= i < |es| ensures KeyLess(es[i].key, e.key) {
      if i < |es| - 1 { KeyTransitive(es[i].key, es[|es| - 1].key, e.key); }
    }
  }

  lemma AppendEntries(written: seq<TableBlock>, dataBlock: seq<BEntry>, lastKey: BKey, numEntries: nat, added: seq<BEntry>, e: BEntry)
    requires EntriesOk(written, dataBlock, lastKey, numEntries, added)
    requires numEntries > 0 ==> KeyLess(lastKey, e.key)
    ensures EntriesOk(written, dataBlock + [e], e.key, numEntries + 1, added + [e])
  {
    hide KeyLess, AscendingKeys, Flatten;
    AppendAscends(added, e);
    assert Flatten(written) + (dataBlock + [e]) == (Flatten(written) + dataBlock) + [e];
  }

  lemma AppendIndex(index: seq<IndexEntry>, dataBlock: seq<BEntry>, e: BEntry)
    requires IndexOk(index, None, dataBlock)
    ensures IndexOk(index, None, dataBlock + [e])
  {
    hide IsShortened, LexLess, KeyLess;
    forall i | 0 <= i < |index|
      ensures SeparatorOk(index[i], Following(Written(index, None), dataBlock + [e], i))
      ensures Following(Written(index, None), dataBlock + [e], i) != []
    {
      assert SeparatorOk(index[i], Following(Written(index, None), dataBlock, i));
    }
  }

  /** Putting the pending block into the index leaves the written blocks as they are. */
  lemma PlaceKeepsWritten(index: seq<IndexEntry>, b: TableBlock, separator: BKey)
    ensures Written(index + [IndexEntry(separator, b)], None) == Written(index, Some(b))
  {
  }

  lemma PlaceIndex(index: seq<IndexEntry>, b: TableBlock, separator: BKey, dataBlock: seq<BEntry>)
    requires IndexOk(index, Some(b), []) && b.entries != []
    requires IsShortened(LastKey(b), separator)
    requires dataBlock != [] && (separator != LastKey(b) ==> LexLess(separator.user, dataBlock[0].key.user))
    ensures IndexOk(index + [IndexEntry(separator, b)], None, dataBlock)
  {
    hide IsShortened, LexLess, KeyLess;
    PlaceKeepsWritten(index, b, separator);
    var grown := index + [IndexEntry(separator, b)];
    var written := Written(index, Some(b));
    assert |written| == |index| + 1 && written[|index|] == b;
    forall i | 0 <= i < |grown|
      ensures SeparatorOk(grown[i], Following(written, dataBlock, i)) && Following(written, dataBlock, i) != []
    {
      if i < |index| {
        assert SeparatorOk(index[i], Following(written, [], i));
        assert Following(written, dataBlock, i) == Following(written, [], i);
      }
    }
  }

  lemma LastPending(index: seq<IndexEntry>, b: TableBlock, lastKey: BKey, numEntries: nat, added: seq<BEntry>)
    requires EntriesOk(Written(index, Some(b)), [], lastKey, numEntries, added)
    ensures b.entries != [] && numEntries > 0 && lastKey == LastKey(b)
  {
    hide AscendingKeys;
    var written := Written(index, Some(b));
    assert written[|written| - 1] == b;
  }

  lemma FlushEntries(written: seq<TableBlock>, dataBlock: seq<BEntry>, lastKey: BKey, numEntries: nat, added: seq<BEntry>, h: BlockHandle)
    requires EntriesOk(written, dataBlock, lastKey, numEntries, added) && dataBlock != []
    ensures EntriesOk(written + [TableBlock(h, dataBlock)], [], lastKey, numEntries, added)
  {
    hide AscendingKeys;
    FlattenGrows(written, TableBlock(h, dataBlock));
  }

  lemma FlushIndex(index: seq<IndexEntry>, dataBlock: seq<BEntry>, h: BlockHandle)
    requires IndexOk(index, None, dataBlock) && dataBlock != []
    ensures IndexOk(index, Some(TableBlock(h, dataBlock)), [])
  {
    hide SeparatorOk;
    var b := TableBlock(h, dataBlock);
    forall i | 0 <= i < |index|
      ensures SeparatorOk(index[i], Following(Written(index, Some(b)), [], i)) && Following(Written(index, Some(b)), [], i) != []
    {
      assert Following(Written(index, Some(b)), [], i) == Following(Written(index, None), dataBlock, i);
    }
  }

  lemma FlushWritten(index: seq<IndexEntry>, b: TableBlock)
    ensures Written(index, Some(b)) == Written(index, None) + [b]
  {
  }

  /** Written out, the block under way is pending. */
  lemma BlockFlushed(index: seq<IndexEntry>, dataBlock: seq<BEntry>, lastKey: BKey, numEntries: nat, added: seq<BEntry>, h: BlockHandle)
    requires EntriesOk(Written(index, None), dataBlock, lastKey, numEntries, added) && IndexOk(index, None, dataBlock) && dataBlock != []
    ensures var pending := Some(TableBlock(h, dataBlock));
            && Written(index, pending) == Written(index, None) + [pending.value]
            && EntriesOk(Written(index, pending), [], lastKey, numEntries, added)
            && IndexOk(index, pending, [])
  {
    hide EntriesOk, IndexOk;
    FlushEntries(Written(index, None), dataBlock, lastKey, numEntries, added, h);
    FlushIndex(index, dataBlock, h);
    FlushWritten(index, TableBlock(h, dataBlock));
  }

  lemma FlushKeys(keys: set<(nat, seq<Byte>)>, h: BlockHandle, next: nat, written: seq<TableBlock>, dataBlock: seq<BEntry>)
    requires KeysAdded(keys, h.offset, written, dataBlock)
    ensures KeysAdded(keys, next, written + [TableBlock(h, dataBlock)], [])
  {
  }

  // ----- the bytes written -----

  lemma StoredGrows(crc: LogFormat.Checksum, file: seq<Byte>, interval: nat, blocks: seq<TableBlock>, more: seq<Byte>)
    requires BlocksStored(crc, file, interval, blocks)
    ensures BlocksStored(crc, file + more, interval, blocks)
  {
    hide IsBlock, BlockTrailer, Stands;
    forall i | 0 <= i < |blocks| ensures BlockStored(crc, file + more, interval, blocks[i]) {
      var contents :| BlockAt(crc, file, blocks[i].handle, contents) && IsBlock(KVs(blocks[i].entries), interval, contents);
      StandsGrows(file, blocks[i].handle.offset, contents + BlockTrailer(crc, contents), more);
    }
  }

  lemma StoredOneMore(crc: LogFormat.Checksum, file: seq<Byte>, interval: nat, blocks: seq<TableBlock>, b: TableBlock, contents: seq<Byte>)
    requires BlocksStored(crc, file, interval, blocks)
    requires BlockAt(crc, file, b.handle, contents) && IsBlock(KVs(b.entries), interval, contents)
    ensures BlocksStored(crc, file, interval, blocks + [b])
  {
    hide IsBlock, BlockAt;
    assert BlockStored(crc, file, interval, b);
  }

  lemma KVsGrow(es: seq<BEntry>, e: BEntry)
    ensures KVs(es + [e]) == KVs(es) + [KV(EncodeKey(e.key), e.value)]
  {
    hide EncodeKey;
  }

  lemma IndexKVsGrow(index: seq<IndexEntry>, e: IndexEntry)
    ensures IndexKVs(index + [e]) == IndexKVs(index) + [KV(EncodeKey(e.key), EncodeHandle(e.block.handle))]
  {
    hide EncodeKey, EncodeHandle;
  }

  // ----- the builder -----

  const LENGTH_LIMIT: nat := 0x1_0000_0000
  const OFFSET_LIMIT: nat := 0x1_0000_0000_0000_0000

  class TableBuilder {
    const hash: Hash
    const crc: LogFormat.Checksum
    const blockSize: nat
    const filter: FilterBlockBuilder?
    const dataBlock: BlockBuilder
    const indexBlock: BlockBuilder
    var file: seq<Byte>
    var pendingIndexEntry: bool  // a block is written, but not in the index yet
    var pendingHandle: BlockHandle
    var lastKey: BKey
    var numEntries: nat
    var closed: bool
    ghost var index: seq<IndexEntry>
    ghost var pending: Option<TableBlock>
    ghost var block: seq<BEntry>  // the entries of the data block under way
    ghost var added: seq<BEntry>

    ghost predicate FilterUpToDate() reads this`file, this`index, this`pending, this`block, filter {
      filter != null ==>
        && filter.Valid() && filter.hash == hash && |filter.filters| == |file| / FILTER_BASE
        && KeysAdded(filter.added, |file|, Written(index, pending), block)
    }

    ghost predicate DataBytes() reads this`block, dataBlock {
      && dataBlock.Valid() && !dataBlock.finished && dataBlock.es == KVs(block)
      && dataBlock.CurrentSizeEstimate() < LENGTH_LIMIT
    }

    ghost predicate IndexBytes() reads this`index, this`pending, this`pendingIndexEntry, this`pendingHandle, indexBlock {
      && indexBlock.Valid() && !indexBlock.finished && indexBlock.interval == 1 && indexBlock.es == IndexKVs(index)
      && indexBlock.CurrentSizeEstimate() < LENGTH_LIMIT
      && pendingIndexEntry == pending.Some?
      && (pending.Some? ==> pendingHandle == pending.value.handle)
    }

    ghost predicate Valid() reads this, filter, dataBlock, indexBlock {
      && dataBlock != indexBlock
      && EntriesOk(Written(index, pending), block, lastKey, numEntries, added)
      && IndexOk(index, pending, block)
      && BlocksStored(crc, file, dataBlock.interval, Written(index, pending))
      && DataBytes() && (!closed ==> IndexBytes())
      && FilterUpToDate()
    }

    constructor (hash: Hash, crc: LogFormat.Checksum, blockSize: nat, interval: nat, filter: FilterBlockBuilder?)
      requires interval >= 1
      requires filter != null ==> filter.Valid() && filter.filters == [] && filter.added == {} && filter.hash == hash
      ensures Valid() && !closed && added == [] && file == []
      ensures this.hash == hash && this.crc == crc && this.filter == filter && dataBlock.interval == interval
      ensures fresh(dataBlock) && fresh(indexBlock)
    {
      hide IsRestarts, Encodable;
      this.hash, this.crc, this.blockSize, this.filter := hash, crc, blockSize, filter;
      dataBlock := new BlockBuilder(interval);
      indexBlock := new BlockBuilder(1);
      file, pendingIndexEntry, pendingHandle, numEntries, closed := [], false, BlockHandle(0, 0), 0, false;
      lastKey := BKey([], 0, TypeValue);
      index, pending, block, added := [], None, [], [];
    }

    /** Lengths within a block are stored in 32 bits, offsets in the file in 64. */
    predicate Room(key: BKey, value: seq<Byte>) reads this, dataBlock, indexBlock {
      && dataBlock.CurrentSizeEstimate() + |key.user| + |value| + 27 < LENGTH_LIMIT
      && IndexRoom()
    }

    predicate IndexRoom() reads this, indexBlock {
      && indexBlock.CurrentSizeEstimate() + |lastKey.user| + 47 < LENGTH_LIMIT
      && |file| < OFFSET_LIMIT
    }

    /** Puts the written block into the index under a separator. */
    method PlacePending(separator: BKey)
      requires IndexBytes() && pending.Some?
      requires indexBlock.CurrentSizeEstimate() + |separator.user| + 47 < LENGTH_LIMIT
      modifies this`index, this`pending, this`pendingIndexEntry, indexBlock
      ensures IndexBytes() && pending.None? && index == old(index) + [IndexEntry(separator, old(pending).value)]
    {
      hide EncodeKey, EncodeHandle;
      IndexKVsGrow(index, IndexEntry(separator, pending.value));
      KeyLength(separator);
      var handle := EncodeHandle(pendingHandle);
      HandleLength(pendingHandle);
      indexBlock.Add(EncodeKey(separator), handle);
      index := index + [IndexEntry(separator, pending.value)];
      pending, pendingIndexEntry := None, false;
    }

    lemma KeyLength(k: BKey)
      ensures |EncodeKey(k)| == |k.user| + 8
    {
    }

    lemma HandleLength(h: BlockHandle)
      ensures |EncodeHandle(h)| <= 20
    {
    }

    method AddToBlock(key: BKey, value: seq<Byte>)
      requires DataBytes() && dataBlock.CurrentSizeEstimate() + |key.user| + |value| + 27 < LENGTH_LIMIT
      modifies this`block, dataBlock
      ensures DataBytes() && block == old(block) + [BEntry(key, value)]
    {
      hide EncodeKey;
      KVsGrow(block, BEntry(key, value));
      KeyLength(key);
      dataBlock.Add(EncodeKey(key), value);
      block := block + [BEntry(key, value)];
    }

    /** A block that waits for its separator gets it now that the next key is known. */
    method PlaceBefore(ghost e: BEntry, key: BKey)
      requires e.key == key && IndexBytes() && IndexOk(index, pending, block) && IndexRoom()
      requires EntriesOk(Written(index, pending), block, lastKey, numEntries, added) && (numEntries > 0 ==> KeyLess(lastKey, key))
      modifies this`index, this`pending, this`pendingIndexEntry, indexBlock
      ensures IndexBytes() && pending.None? && IndexOk(index, None, block + [e])
      ensures Written(index, pending) == old(Written(index, pending))
    {
      hide EntriesOk, IndexOk, KeyLess, LexLess, IsShortened, IndexBytes, Written, SeparatesAt;
      PendingTells();
      if pendingIndexEntry {
        PendingLeavesBlockEmpty(index, pending, block);
        assert block + [e] == [e];
        LastPending(index, pending.value, lastKey, numEntries, added);
        var separator := FindShortestSeparatorKey(lastKey, key);
        PlaceIndex(index, pending.value, separator, [e]);
        PlaceKeepsWritten(index, pending.value, separator);
        PlacePending(separator);
      } else {
        AppendIndex(index, block, e);
      }
    }

    method Add(key: BKey, value: seq<Byte>)
      requires Valid() && !closed && Room(key, value) && (numEntries > 0 ==> KeyLess(lastKey, key))
      modifies this, filter, dataBlock, indexBlock
      ensures Valid() && !closed && added == old(added) + [BEntry(key, value)]
    {
      hide EntriesOk, IndexOk, KeysAdded, KeyLess, LexLess, IsShortened, BlocksStored, DataBytes, IndexBytes, Written;
      ghost var e := BEntry(key, value);
      AppendEntries(Written(index, pending), block, lastKey, numEntries, added, e);
      PlaceBefore(e, key);
      if filter != null {
        KeyAdded(filter.added, |file|, Written(index, pending), block, e);
        filter.AddKey(key.user);
      }
      lastKey := key;
      numEntries := numEntries + 1;
      AddToBlock(key, value);
      added := added + [e];
      if dataBlock.CurrentSizeEstimate() >= blockSize {
        Flush();
      }
    }

    method WriteRawBlock(contents: seq<Byte>) returns (h: BlockHandle)
      requires |file| < OFFSET_LIMIT && |contents| < LENGTH_LIMIT
      modifies this`file
      ensures file == old(file) + (contents + BlockTrailer(crc, contents))
      ensures h == BlockHandle(|old(file)|, |contents|) && BlockAt(crc, file, h, contents)
    {
      hide BlockTrailer;
      h := BlockHandle(|file|, |contents|);
      BlockAppended(crc, file, contents);
      file := file + (contents + BlockTrailer(crc, contents));
    }

    method Flush()
      requires Valid() && !closed && |file| < OFFSET_LIMIT
      modifies this`file, this`pending, this`pendingIndexEntry, this`pendingHandle, this`block, filter, dataBlock
      ensures Valid() && !closed && block == [] && |file| <= |old(file)| + LENGTH_LIMIT + 5
    {
      hide EntriesOk, IndexOk, KeysAdded, Written, BlocksStored, DataBytes, IndexBytes;
      if dataBlock.Empty() {
        EmptyBlock();
        return;
      }
      ghost var written, es := Written(index, pending), block;
      NotEmptyBlock();
      var h := WriteBlock(written);
      BlockFlushed(index, es, lastKey, numEntries, added, h);
      if filter != null {
        FlushKeys(filter.added, h, |file|, written, es);
        FilterBehind(|old(file)|, |file|);
      }
      SetPending(h, TableBlock(h, es));
      StartFilter();
    }

    method SetPending(h: BlockHandle, ghost b: TableBlock)
      requires IndexBytes() && b.handle == h
      modifies this`pending, this`pendingIndexEntry, this`pendingHandle
      ensures IndexBytes() && pending == Some(b)
    {
      pending, pendingIndexEntry, pendingHandle := Some(b), true, h;
    }

    lemma FilterBehind(a: nat, b: nat)
      requires a <= b
      ensures a / FILTER_BASE <= b / FILTER_BASE
    {
    }

    /** The filters catch up with the file. */
    method StartFilter()
      requires filter != null ==>
                 && filter.Valid() && filter.hash == hash && |filter.filters| <= |file| / FILTER_BASE
                 && KeysAdded(filter.added, |file|, Written(index, pending), block)
      modifies filter
      ensures FilterUpToDate()
    {
      hide KeysAdded, Written;
      if filter != null {
        filter.StartBlock(|file|);
      }
    }

    /** Finishes the data block and writes it to the file. */
    method WriteBlock(ghost written: seq<TableBlock>) returns (h: BlockHandle)
      requires DataBytes() && |file| < OFFSET_LIMIT && BlocksStored(crc, file, dataBlock.interval, written)
      modifies this`file, this`block, dataBlock
      ensures DataBytes() && block == []
      ensures h.offset == |old(file)| <= |file| <= |old(file)| + LENGTH_LIMIT + 5
      ensures BlocksStored(crc, file, dataBlock.interval, written + [TableBlock(h, old(block))])
    {
      hide BlocksStored, BlockAt, IsBlock, BlockTrailer;
      var contents := dataBlock.Finish();
      h := WriteRawBlock(contents);
      StoredGrows(crc, old(file), dataBlock.interval, written, contents + BlockTrailer(crc, contents));
      StoredOneMore(crc, file, dataBlock.interval, written, TableBlock(h, block), contents);
      dataBlock.Reset();
      block := [];
    }

    lemma PendingTells()
      requires IndexBytes()
      ensures pendingIndexEntry == pending.Some?
    {
    }

    lemma EmptyBlock()
      requires DataBytes() && dataBlock.Empty()
      ensures block == []
    {
      dataBlock.EmptyTells();
    }

    lemma NotEmptyBlock()
      requires Valid() && !closed && !dataBlock.Empty()
      ensures block != [] && pending.None?
    {
      dataBlock.EmptyTells();
    }

    /** Writes out what is left, the index and the footer. `meta` are the bytes of the filter block and the block
        that `metaindex` points to. */
    method Finish(meta: seq<Byte>, metaindex: BlockHandle) returns (filters: Option<seq<Filter>>, ghost t: Table)
      requires Valid() && !closed && IndexRoom() && |file| + |meta| + LENGTH_LIMIT + 5 < OFFSET_LIMIT
      modifies this, filter, dataBlock, indexBlock
      ensures closed && TableOk(hash, t) && IsTableFile(crc, file, filters, dataBlock.interval, t)
      ensures forall e :: InTable(t, e) <==> e in old(added)
    {
      hide EntriesOk, IndexOk, KeysAdded, KeyLess, LexLess, IsShortened, Matches, TableOk, InBlocks, BlocksStored, IsTableFile, DataBytes, IndexBytes, SucceedsAt;
      ghost var all := added;
      Flush();
      ghost var end := |file|;
      closed := true;
      filters := None;
      if filter != null {
        var fs := filter.Finish();
        filters := Some(fs);
      }
      StoredGrows(crc, file, dataBlock.interval, Written(index, pending), meta);
      file := file + meta;
      PendingTells();
      if pendingIndexEntry {
        LastPending(index, pending.value, lastKey, numEntries, added);
        var separator := FindShortSuccessorKey(lastKey);
        LastIndex(index, pending.value, separator);
        PlaceKeepsWritten(index, pending.value, separator);
        PlacePending(separator);
      } else {
        NothingLeft(index);
      }
      assert Written(index, None) == Blocks(index);
      t := Table(index, filters);
      WriteIndex(t, metaindex);
      FinishedTable(hash, t, if filter != null then filter.added else {}, end, lastKey, numEntries, all);
    }

    method WriteIndex(ghost t: Table, metaindex: BlockHandle)
      requires IndexBytes() && |file| < OFFSET_LIMIT && t.index == index
      requires BlocksStored(crc, file, dataBlock.interval, Blocks(index))
      modifies this`file, indexBlock
      ensures IsTableFile(crc, file, t.filters, dataBlock.interval, t)
    {
      hide BlocksStored, BlockAt, IsBlock, IndexHandle, EncodeFooter;
      var contents := indexBlock.Finish();
      var h := WriteRawBlock(contents);
      StoredGrows(crc, old(file), dataBlock.interval, Blocks(index), contents + BlockTrailer(crc, contents));
      StoredGrows(crc, file, dataBlock.interval, Blocks(index), EncodeFooter(metaindex, h));
      FooterRoundTrip(file, metaindex, h);
      BlockGrows(crc, file, h, contents, EncodeFooter(metaindex, h));
      file := file + EncodeFooter(metaindex, h);
    }
  }

  lemma BlockGrows(crc: LogFormat.Checksum, file: seq<Byte>, h: BlockHandle, contents: seq<Byte>, more: seq<Byte>)
    requires BlockAt(crc, file, h, contents)
    ensures BlockAt(crc, file + more, h, contents)
  {
    StandsGrows(file, h.offset, contents + BlockTrailer(crc, contents), more);
  }

  lemma PendingLeavesBlockEmpty(index: seq<IndexEntry>, pending: Option<TableBlock>, block: seq<BEntry>)
    requires IndexOk(index, pending, block)
    ensures pending.Some? ==> block == []
  {
  }

  lemma LastIndex(index: seq<IndexEntry>, b: TableBlock, separator: BKey)
    requires IndexOk(index, Some(b), []) && b.entries != [] && IsShortened(LastKey(b), separator)
    ensures SeparatorsOk(index + [IndexEntry(separator, b)])
  {
    var grown := index + [IndexEntry(separator, b)];
    assert SeparatorOk(IndexEntry(separator, b), []);
    hide SeparatorOk, IsShortened, LexLess, Following, Written;
    forall i | 0 <= i < |grown| ensures SeparatorOk(grown[i], EntriesAfter(grown, i)) {
      if i < |index| {
        assert SeparatorOk(index[i], Following(Written(index, Some(b)), [], i));
        FollowingPlaced(index, b, separator, i);
      }
    }
  }

  lemma FollowingPlaced(index: seq<IndexEntry>, b: TableBlock, separator: BKey, i: nat)
    requires i < |index|
    ensures EntriesAfter(index + [IndexEntry(separator, b)], i) == Following(Written(index, Some(b)), [], i)
  {
  }

  lemma NothingLeft(index: seq<IndexEntry>)
    requires IndexOk(index, None, [])
    ensures SeparatorsOk(index)
  {
    if index != [] { SomethingFollows(index, []); }
  }

  lemma SomethingFollows(index: seq<IndexEntry>, dataBlock: seq<BEntry>)
    requires IndexOk(index, None, dataBlock) && index != []
    ensures dataBlock != []
  {
    assert Following(Written(index, None), dataBlock, |index| - 1) == dataBlock;
    assert SeparatorOk(index[|index| - 1], dataBlock);
  }

  lemma FinishedTable(hash: Hash, t: Table, keys: set<(nat, seq<Byte>)>, offset: nat, lastKey: BKey, numEntries: nat, added: seq<BEntry>)
    requires EntriesOk(Written(t.index, None), [], lastKey, numEntries, added) && SeparatorsOk(t.index)
    requires t.filters.Some? ==>
               && KeysAdded(keys, offset, Written(t.index, None), [])
               && forall i, u :: (i, u) in keys ==> i < |t.filters.value| && Matches(hash, t.filters.value[i], u)
    ensures TableOk(hash, t) && forall e :: InTable(t, e) <==> e in added
  {
    hide AscendingKeys, Matches, SeparatorsOk;
    var blocks := Blocks(t.index);
    assert Written(t.index, None) == blocks && Flatten(blocks) + [] == Flatten(blocks);
    FlattenCuts(blocks);
    if t.filters.Some? {
      forall i | 0 <= i < |t.index| ensures FilterOk(hash, t.filters.value, t.index[i].block) {
        assert blocks[i] == t.index[i].block;
      }
    }
  }

  lemma KeyAdded(keys: set<(nat, seq<Byte>)>, offset: nat, written: seq<TableBlock>, dataBlock: seq<BEntry>, e: BEntry)
    requires KeysAdded(keys, offset, written, dataBlock)
    ensures KeysAdded(keys + {(offset / FILTER_BASE, e.key.user)}, offset, written, dataBlock + [e])
  {
  }
}
