/** Writing a table: data blocks, a filter block, a meta index, the index, and a footer. */
module TableBuilders {
  import opened Wrappers
  import opened Bytes
  import opened Seqs
  import opened Coding
  import opened BlockFormat
  import opened Blocks
  import opened Comparators
  import opened TableFormat
  import opened FilterBlocks
  import opened TableLayout
  import LogFormat
  import opened Varints

  // "filter."
  const FILTER_PREFIX: seq<byte> := [102, 105, 108, 116, 101, 114, 46]

  function FilterName(p: Policy): Key {
    FILTER_PREFIX + p.name
  }

  // ---- Finished tables ----

  datatype Contents = Contents(shape: Shape, groups: seq<seq<Key>>, pending: seq<Key>,
                               filterHandle: BlockHandle, metaHandle: BlockHandle, indexHandle: BlockHandle)

  function FinalGroups(groups: seq<seq<Key>>, pending: seq<Key>): seq<seq<Key>> {
    if pending == [] then groups else groups + [pending]
  }

  function MetaEntries(policy: Option<Policy>, filterHandle: BlockHandle): seq<KeyValue> {
    match policy
    case None => []
    case Some(p) => [(FilterName(p), EncodeHandle(filterHandle))]
  }

  // The meta index has one entry: "filter." with the policy's name, and the filter block's offset and size.
  lemma MetaFormat(p: Policy, h: BlockHandle)
    ensures MetaEntries(Some(p), h)
         == [([102, 105, 108, 116, 101, 114, 46] + p.name, VarintBytes(h.offset) + VarintBytes(h.size))]
    ensures MetaEntries(None, h) == []
  {}

  // Every key of a block is in the filter for the start of the block.
  ghost predicate AllFiltered(c: Contents) {
    Shaped(c.shape)
    && forall i: nat, p: nat :: InBlock(c.shape, i, p) ==> InStretch(c.groups, c.pending, c.shape.starts[i], c.shape.es[p].0)
  }

  ghost predicate FilterStored(crc: LogFormat.Checksum, policy: Option<Policy>, file: seq<byte>, c: Contents)
    requires LogFormat.IsChecksum(crc)
  {
    policy.Some? ==>
      AllFiltered(c) && HasBlock(crc, None, file, c.filterHandle, FilterBlockBytes(policy.value, FinalGroups(c.groups, c.pending)))
  }

  ghost predicate IsTable(crc: LogFormat.Checksum, policy: Option<Policy>, fm: Format, file: seq<byte>, c: Contents) {
    LogFormat.IsChecksum(crc)
    && Complete(c.shape, fm) && BlocksStored(c.shape, fm, crc, file) && FilterStored(crc, policy, file, c)
    && HasBlock(crc, fm.compressor, file, c.metaHandle, BlockBytes(MetaEntries(policy, c.filterHandle), fm.interval))
    && HasBlock(crc, fm.compressor, file, c.indexHandle, BlockBytes(c.shape.index, 1))
    && |file| >= FOOTER_SIZE && file[|file| - FOOTER_SIZE..] == EncodeFooter(c.metaHandle, c.indexHandle)
  }

  lemma AllAreFiltered(s: Shape, offset: nat, c: Contents)
    requires Shaped(s) && Filtered(s, offset, c.groups, c.pending)
    requires Shaped(c.shape) && c.shape.es == s.es && c.shape.cuts == s.cuts && c.shape.starts == s.starts
    ensures AllFiltered(c)
  {
    hide KeysOk, InStretch;
    forall i: nat, p: nat | InBlock(c.shape, i, p)
      ensures InStretch(c.groups, c.pending, c.shape.starts[i], c.shape.es[p].0)
    {
      assert s.cuts[i] <= p < End(s, i);
      assert StartsAt(s, offset, p, s.starts[i]);
    }
  }

  // ---- What the builder's fields say ----

  datatype Fields = Fields(file: seq<byte>, offset: nat, lastKey: Key, numEntries: nat,
                           pendingIndexEntry: bool, pendingHandle: BlockHandle, data: seq<KeyValue>, index: seq<KeyValue>)

  ghost predicate Kept(f: Fields, s: Shape, fm: Format, crc: LogFormat.Checksum) {
    LogFormat.IsChecksum(crc) && Building(s, fm)
    && f.data == Current(s) && f.index == s.index && f.offset == |f.file| && BlocksStored(s, fm, crc, f.file)
    && f.pendingIndexEntry == Pending(s)
    && (f.pendingIndexEntry ==> f.pendingHandle == HandleOf(s, |s.starts| - 1, fm))
    && f.numEntries == |s.es| && (f.numEntries > 0 ==> f.lastKey == s.es[f.numEntries - 1].0)
  }

  // Closing the finished block, and adding the entry.
  ghost function AddedFields(f: Fields, e: KeyValue, sep: Key): Fields {
    f.(lastKey := e.0, numEntries := f.numEntries + 1, pendingIndexEntry := false, data := f.data + [e],
       index := if f.pendingIndexEntry then f.index + [(sep, EncodeHandle(f.pendingHandle))] else f.index)
  }

  lemma AddKeeps(f: Fields, s: Shape, fm: Format, crc: LogFormat.Checksum, e: KeyValue, sep: Key)
    requires Kept(f, s, fm, crc) && IsInternal(e.0) && (s.es != [] ==> InternalLess(s.es[|s.es| - 1].0, e.0))
    requires f.pendingIndexEntry ==> ClosesBefore(f.lastKey, sep, e.0)
    ensures Kept(AddedFields(f, e, sep), WithEntry(WithSeparator(s, sep, fm), e), fm, crc)
  {
    hide BlocksStored, InternalLess, EncodeHandle, ClosesBefore, BlockBytes, IndexOk, KeysOk, IsInternal, HandleOf, Packed, Separates;
    LastIsThere(s, fm);
    EntryAdded(s, e, sep, fm);
    var t := WithEntry(WithSeparator(s, sep, fm), e);
    LastIsThere(t, fm);
    assert f.file + [] == f.file;
    StoredMore(s, t, fm, crc, f.file, []);
  }

  lemma LastIsThere(s: Shape, fm: Format)
    requires Building(s, fm)
    ensures Shaped(s) && (Pending(s) ==> s.es != [] && s.starts != [] && Current(s) == [])
  {}

  ghost function FlushedFields(f: Fields, fm: Format, crc: LogFormat.Checksum): Fields
    requires LogFormat.IsChecksum(crc)
  {
    var b := BlockBytes(f.data, fm.interval);
    var file := f.file + OnDisk(crc, fm.compressor, b);
    f.(file := file, offset := |file|, pendingIndexEntry := true, pendingHandle := BlockHandle(|f.file|, |Packed(fm.compressor, b).0|), data := [])
  }

  lemma FlushKeeps(f: Fields, s: Shape, fm: Format, crc: LogFormat.Checksum)
    requires Kept(f, s, fm, crc) && f.data != []
    ensures Kept(FlushedFields(f, fm, crc), WithBlock(s, |f.file|), fm, crc)
  {
    hide BlocksStored, EncodeHandle, BlockBytes, IndexOk, KeysOk, OnDisk, Packed;
    BlockEnded(s, |f.file|, fm);
    LastIsThere(WithBlock(s, |f.file|), fm);
    StoredBlock(s, fm, crc, f.file);
  }

  // ---- TableBuilder ----

  method StartFilters(policy: Option<Policy>) returns (r: FilterBlockBuilder?)
    ensures r == null <==> policy.None?
    ensures r != null ==> fresh(r) && r.policy == policy.value && r.Valid() && r.groups == [] && r.pending == []
  {
    r := null;
    if policy.Some? {
      hide FilterBlockBuilder.Valid;
      r := new FilterBlockBuilder(policy.value);
      r.StartBlock(0);
    }
  }

  class TableBuilder {
    const crc: LogFormat.Checksum
    const fm: Format
    const blockSize: nat
    const policy: Option<Policy>
    var file: seq<byte>
    var offset: nat
    const dataBlock: BlockBuilder
    const indexBlock: BlockBuilder
    const filterBlock: FilterBlockBuilder?
    var lastKey: Key
    var numEntries: nat
    var closed: bool
    var pendingIndexEntry: bool
    var pendingHandle: BlockHandle

    ghost var shape: Shape

    ghost function Parts(): set<object> {
      {dataBlock, indexBlock} + if filterBlock == null then {} else {filterBlock}
    }

    ghost function View(): Fields
      reads this, dataBlock, indexBlock
    {
      Fields(file, offset, lastKey, numEntries, pendingIndexEntry, pendingHandle, dataBlock.es, indexBlock.es)
    }

    ghost predicate BlocksValid()
      reads this, dataBlock, indexBlock
    {
      dataBlock != indexBlock && dataBlock.Valid() && dataBlock.interval == fm.interval
      && indexBlock.Valid() && indexBlock.interval == 1
    }

    ghost predicate FiltersValid()
      reads this, Parts()
    {
      (filterBlock == null <==> policy.None?)
      && (filterBlock != null ==> filterBlock.policy == policy.value && filterBlock.Valid())
    }

    ghost predicate FiltersHold(s: Shape, offset: nat)
      reads this, Parts()
    {
      filterBlock != null ==> Shaped(s) && Filtered(s, offset, filterBlock.groups, filterBlock.pending)
    }

    ghost predicate Valid()
      reads this, Parts()
    {
      BlocksValid() && Kept(View(), shape, fm, crc) && FiltersValid() && FiltersHold(shape, offset)
    }

    constructor (crc: LogFormat.Checksum, fm: Format, blockSize: nat, policy: Option<Policy>)
      requires LogFormat.IsChecksum(crc)
      ensures Valid() && !closed && shape.es == [] && fresh(Parts())
      ensures this.crc == crc && this.fm == fm && this.policy == policy && this.blockSize == blockSize && dataBlock.es == []
    {
      hide BlockBuilder.Valid, FilterBlockBuilder.Valid, Kept, Filtered, Shaped, LogFormat.IsChecksum;
      this.crc, this.fm, this.blockSize, this.policy := crc, fm, blockSize, policy;
      file, offset, lastKey, numEntries, closed := [], 0, [], 0, false;
      pendingIndexEntry, pendingHandle := false, BlockHandle(0, 0);
      shape := Shape([], [0], [], []);
      dataBlock := new BlockBuilder(fm.interval);
      indexBlock := new BlockBuilder(1);
      var filter: FilterBlockBuilder? := StartFilters(policy);
      filterBlock := filter;
      new;
      NothingYet(View(), fm, crc);
    }

    // The key is behind all keys so far.
    method Add(key: Key, value: seq<byte>)
      requires Valid() && !closed && IsInternal(key)
      requires shape.es != [] ==> InternalLess(shape.es[|shape.es| - 1].0, key)
      modifies this, Parts()
      ensures Valid() && !closed && shape.es == old(shape.es) + [(key, value)]
      ensures var block := old(dataBlock.es) + [(key, value)];
              dataBlock.es == if |BlockBytes(block, fm.interval)| >= blockSize then [] else block
    {
      hide Kept, Filtered, InternalLess, IsInternal, BlockBuilder.Valid, FilterBlockBuilder.Valid, Shaped, ClosesBefore, BlockBytes;
      AddEntry(key, value);
      dataBlock.SizeIs();
      var estimatedBlockSize := dataBlock.CurrentSizeEstimate();
      if estimatedBlockSize >= blockSize {
        Flush();
      }
    }

    method AddEntry(key: Key, value: seq<byte>)
      requires Valid() && !closed && IsInternal(key)
      requires shape.es != [] ==> InternalLess(shape.es[|shape.es| - 1].0, key)
      modifies this, Parts()
      ensures Valid() && !closed && shape.es == old(shape.es) + [(key, value)] && dataBlock.es == old(dataBlock.es) + [(key, value)]
    {
      hide Kept, Filtered, InternalLess, IsInternal, BlockBuilder.Valid, FilterBlockBuilder.Valid, Shaped, ClosesBefore;
      hide WithEntry, WithSeparator, EncodeHandle;
      ghost var s, f := shape, View();
      KeptIsSound(f, s, fm, crc);
      var sep := ClosePending(key);
      AddKeeps(f, s, fm, crc, (key, value), sep);
      AddToFilter(key);
      lastKey := key;
      numEntries := numEntries + 1;
      dataBlock.Add(key, value);
      shape := WithEntry(WithSeparator(s, sep, fm), (key, value));
      EntriesAfter(s, sep, fm, (key, value));
      assert View() == AddedFields(f, (key, value), sep);
      if filterBlock != null {
        FilteredMore(s, f, (key, value), sep, shape, fm, crc, offset, old(filterBlock.groups), old(filterBlock.pending));
      }
    }

    // The index entry of a finished block is written when the next key is known.
    method ClosePending(key: Key) returns (sep: Key)
      requires BlocksValid() && Kept(View(), shape, fm, crc) && IsInternal(key)
      requires shape.es != [] ==> InternalLess(shape.es[|shape.es| - 1].0, key)
      modifies this`lastKey, this`pendingIndexEntry, indexBlock
      ensures BlocksValid() && dataBlock.es == old(dataBlock.es)
      ensures old(pendingIndexEntry) ==> ClosesBefore(old(lastKey), sep, key)
      ensures !pendingIndexEntry
      ensures indexBlock.es == if old(pendingIndexEntry) then old(indexBlock.es) + [(sep, EncodeHandle(pendingHandle))]
                               else old(indexBlock.es)
    {
      hide Kept, InternalLess, BlockBuilder.Valid, ClosesBefore, EncodeHandle;
      PendingLast(View(), shape, fm, crc, key);
      sep := lastKey;
      if pendingIndexEntry {
        lastKey := FindShortestInternalSeparator(lastKey, key);
        sep := lastKey;
        indexBlock.Add(lastKey, EncodeHandle(pendingHandle));
        pendingIndexEntry := false;
      }
    }

    method AddToFilter(key: Key)
      requires FiltersValid()
      modifies if filterBlock == null then {} else {filterBlock}
      ensures FiltersValid()
      ensures filterBlock != null ==> filterBlock.groups == old(filterBlock.groups)
                                      && filterBlock.pending == old(filterBlock.pending) + [key]
    {
      hide FilterBlockBuilder.Valid;
      if filterBlock != null {
        filterBlock.AddKey(key);
      }
    }

    method Flush()
      requires Valid() && !closed
      modifies this, Parts()
      ensures Valid() && !closed && shape.es == old(shape.es) && dataBlock.es == []
    {
      hide Kept, Filtered, BlockBuilder.Valid, FilterBlockBuilder.Valid, Shaped, BlockBytes, OnDisk, Packed;
      dataBlock.EmptyIff();
      if dataBlock.Empty() {
        return;
      }
      ghost var s, f := shape, View();
      KeptIsSound(f, s, fm, crc);
      FlushKeeps(f, s, fm, crc);
      pendingHandle := WriteBlock(dataBlock);
      pendingIndexEntry := true;
      shape := WithBlock(s, f.offset);
      assert View() == FlushedFields(f, fm, crc);
      StartFilter(s, f);
    }

    // The filter builder is told where the next block begins.
    method StartFilter(ghost s: Shape, ghost f: Fields)
      requires FiltersValid() && FiltersHold(s, f.offset) && Kept(f, s, fm, crc) && f.offset <= offset
      requires shape == WithBlock(s, f.offset) && Kept(View(), shape, fm, crc)
      modifies if filterBlock == null then {} else {filterBlock}
      ensures FiltersValid() && FiltersHold(shape, offset)
    {
      hide FilterBlockBuilder.Valid, Building, BlocksStored;
      if filterBlock != null {
        LastIsThere(s, fm);
        LastIsThere(shape, fm);
        FilterRoom(s, f.offset, filterBlock.groups, filterBlock.pending, offset);
        ghost var groups, pending := filterBlock.groups, filterBlock.pending;
        filterBlock.StartBlock(offset);
        FilteredBlock(s, shape, f.offset, offset, groups, pending, filterBlock.groups, filterBlock.pending);
      }
    }

    method WriteBlock(block: BlockBuilder) returns (handle: BlockHandle)
      requires LogFormat.IsChecksum(crc) && block.Valid() && block.interval >= 1 && offset == |file|
      modifies this`file, this`offset, block
      ensures var b := BlockBytes(old(block.es), block.interval);
              file == old(file) + OnDisk(crc, fm.compressor, b)
              && handle == BlockHandle(|old(file)|, |Packed(fm.compressor, b).0|)
      ensures offset == |file| && block.Valid() && block.es == []
    {
      hide BlockBytes, BlockTrailer;
      var raw := block.Finish();
      var contents, t := raw, NO_COMPRESSION;
      if fm.compressor.Some? {
        var compressed := fm.compressor.value.compress(raw);
        if |compressed| < |raw| - |raw| / 8 {
          contents, t := compressed, fm.compressor.value.id;
        }
      }
      handle := WriteRawBlock(contents, t);
      block.Reset();
    }

    method WriteRawBlock(contents: seq<byte>, t: byte) returns (handle: BlockHandle)
      requires LogFormat.IsChecksum(crc) && offset == |file|
      modifies this`file, this`offset
      ensures file == old(file) + (contents + BlockTrailer(crc, contents, t))
      ensures handle == BlockHandle(|old(file)|, |contents|) && offset == |file|
    {
      handle := BlockHandle(offset, |contents|);
      file := file + contents;
      file := file + BlockTrailer(crc, contents, t);
      offset := offset + |contents| + TRAILER_SIZE;
    }

    method Finish() returns (ghost c: Contents)
      requires Valid() && !closed
      modifies this, Parts()
      ensures closed && IsTable(crc, policy, fm, file, c) && c.shape.es == old(shape.es) && offset == |file|
    {
      hide Kept, Filtered, BlockBuilder.Valid, FilterBlockBuilder.Valid, Shaped, BlockBytes, OnDisk, Packed, IsTable;
      hide FilterBlockBytes, EncodeFooter, EncodeHandle, Closes;
      Flush();
      closed := true;
      ghost var s, f := shape, View();
      KeptIsSound(f, s, fm, crc);
      var filterHandle;
      ghost var groups, pending;
      filterHandle, groups, pending := WriteFilter();
      var metaHandle := WriteMeta(filterHandle);
      var sep := ClosePendingLast();
      shape := WithSeparator(s, sep, fm);
      assert indexBlock.es == LastIndex(f, sep);
      var indexHandle := WriteBlock(indexBlock);
      var footer := EncodeFooter(metaHandle, indexHandle);
      file := file + footer;
      offset := offset + |footer|;
      c := Contents(shape, groups, pending, filterHandle, metaHandle, indexHandle);
      TableIsBuilt(f, s, fm, crc, policy, sep, c, file);
    }

    method WriteFilter() returns (filterHandle: BlockHandle, ghost groups: seq<seq<Key>>, ghost pending: seq<Key>)
      requires FiltersValid() && LogFormat.IsChecksum(crc) && offset == |file|
      modifies this`file, this`offset, if filterBlock == null then {} else {filterBlock}
      ensures offset == |file|
      ensures filterBlock != null ==> groups == old(filterBlock.groups) && pending == old(filterBlock.pending)
      ensures file == WithFilter(old(file), policy, crc, groups, pending)
      ensures policy.Some? ==> filterHandle == FilterHandle(old(file), policy.value, groups, pending)
    {
      hide FilterBlockBuilder.Valid, FilterBlockBytes, BlockTrailer;
      filterHandle := BlockHandle(0, 0);
      groups, pending := [], [];
      if filterBlock != null {
        groups, pending := filterBlock.groups, filterBlock.pending;
        var contents := filterBlock.Finish();
        filterHandle := WriteRawBlock(contents, NO_COMPRESSION);
      }
    }

    method WriteMeta(filterHandle: BlockHandle) returns (handle: BlockHandle)
      requires FilterPolicyKept() && LogFormat.IsChecksum(crc) && offset == |file|
      modifies this`file, this`offset
      ensures var b := BlockBytes(MetaEntries(policy, filterHandle), fm.interval);
              file == old(file) + OnDisk(crc, fm.compressor, b)
              && handle == BlockHandle(|old(file)|, |Packed(fm.compressor, b).0|) && offset == |file|
    {
      hide BlockBytes, OnDisk, Packed, BlockBuilder.Valid, EncodeHandle;
      var meta := new BlockBuilder(fm.interval);
      if filterBlock != null {
        meta.Add(FilterName(policy.value), EncodeHandle(filterHandle));
      }
      assert meta.es == MetaEntries(policy, filterHandle);
      handle := WriteBlock(meta);
    }

    ghost predicate FilterPolicyKept()
    {
      filterBlock == null <==> policy.None?
    }

    // The last index entry needs only to be at or after the last key.
    method ClosePendingLast() returns (sep: Key)
      requires BlocksValid() && (pendingIndexEntry ==> IsInternal(lastKey))
      modifies this`lastKey, this`pendingIndexEntry, indexBlock
      ensures BlocksValid() && !pendingIndexEntry
      ensures old(pendingIndexEntry) ==> Closes(old(lastKey), sep)
      ensures indexBlock.es == if old(pendingIndexEntry) then old(indexBlock.es) + [(sep, EncodeHandle(pendingHandle))]
                               else old(indexBlock.es)
    {
      hide BlockBuilder.Valid, EncodeHandle, Closes;
      sep := lastKey;
      if pendingIndexEntry {
        lastKey := FindShortInternalSuccessor(lastKey);
        sep := lastKey;
        indexBlock.Add(lastKey, EncodeHandle(pendingHandle));
        pendingIndexEntry := false;
      }
    }
  }

  // ---- The steps on values ----

  lemma EntriesAfter(s: Shape, sep: Key, fm: Format, e: KeyValue)
    requires Shaped(s)
    ensures WithEntry(WithSeparator(s, sep, fm), e).es == s.es + [e]
  {}

  lemma NothingYet(f: Fields, fm: Format, crc: LogFormat.Checksum)
    requires LogFormat.IsChecksum(crc)
    requires f.file == [] && f.offset == 0 && f.numEntries == 0 && !f.pendingIndexEntry && f.data == [] && f.index == []
    ensures var s := Shape([], [0], [], []);
            Kept(f, s, fm, crc) && Shaped(s) && Filtered(s, 0, [], [])
  {
    hide BlockBytes, HasBlock, InStretch, EncodeHandle, Separates, HandleOf, BlockOf;
    var s := Shape([], [0], [], []);
    assert CutsOk(0, s.cuts);
    assert Shaped(s);
    assert Current(s) == [];
    assert Building(s, fm);
    assert forall p: nat, at: nat :: !StartsAt(s, 0, p, at);
  }

  lemma PendingLast(f: Fields, s: Shape, fm: Format, crc: LogFormat.Checksum, key: Key)
    requires Kept(f, s, fm, crc) && (s.es != [] ==> InternalLess(s.es[|s.es| - 1].0, key))
    ensures f.pendingIndexEntry ==> IsInternal(f.lastKey) && InternalLess(f.lastKey, key)
  {
    hide BlocksStored, InternalLess, IndexOk, BlockBytes, IsInternal;
    LastIsThere(s, fm);
  }

  lemma KeptIsSound(f: Fields, s: Shape, fm: Format, crc: LogFormat.Checksum)
    requires Kept(f, s, fm, crc)
    ensures LogFormat.IsChecksum(crc) && f.offset == |f.file| && Shaped(s) && f.data == Current(s)
    ensures f.pendingIndexEntry ==> IsInternal(f.lastKey)
  {
    hide BlocksStored, BlockBytes, IndexOk, IsInternal;
    LastIsThere(s, fm);
  }

  // The file has only grown since the filter's stretch began.
  lemma FilterRoom(s: Shape, offset: nat, groups: seq<seq<Key>>, pending: seq<Key>, offset': nat)
    requires Shaped(s) && Filtered(s, offset, groups, pending) && offset <= offset'
    ensures |groups| <= offset' / BASE
  {}

  lemma FilteredMore(s: Shape, f: Fields, e: KeyValue, sep: Key, t: Shape, fm: Format, crc: LogFormat.Checksum,
                     offset: nat, groups: seq<seq<Key>>, pending: seq<Key>)
    requires Kept(f, s, fm, crc) && Kept(AddedFields(f, e, sep), t, fm, crc)
    requires t == WithEntry(WithSeparator(s, sep, fm), e)
    requires Shaped(s) && Filtered(s, offset, groups, pending)
    ensures Shaped(t) && Filtered(t, offset, groups, pending + [e.0])
  {
    hide BlocksStored, Building, Filtered, EncodeHandle;
    LastIsThere(t, fm);
    FilteredEntry(s, e, t, offset, groups, pending);
  }

  ghost function LastIndex(f: Fields, sep: Key): seq<KeyValue> {
    if f.pendingIndexEntry then f.index + [(sep, EncodeHandle(f.pendingHandle))] else f.index
  }

  function WithFilter(file: seq<byte>, policy: Option<Policy>, crc: LogFormat.Checksum, groups: seq<seq<Key>>, pending: seq<Key>): seq<byte>
    requires LogFormat.IsChecksum(crc)
  {
    match policy
    case None => file
    case Some(p) =>
      var b := FilterBlockBytes(p, FinalGroups(groups, pending));
      file + OnDisk(crc, None, b)
  }

  function FilterHandle(file: seq<byte>, p: Policy, groups: seq<seq<Key>>, pending: seq<Key>): BlockHandle {
    BlockHandle(|file|, |FilterBlockBytes(p, FinalGroups(groups, pending))|)
  }

  // A file, a block behind it, and more.
  lemma BlockInMiddle(crc: LogFormat.Checksum, compressor: Option<Compressor>, file: seq<byte>, b: seq<byte>, more: seq<byte>)
    requires LogFormat.IsChecksum(crc)
    ensures HasBlock(crc, compressor, file + OnDisk(crc, compressor, b) + more, BlockHandle(|file|, |Packed(compressor, b).0|), b)
  {
    BlockAppended(crc, compressor, file, b);
    BlockStays(crc, compressor, file + OnDisk(crc, compressor, b), more, BlockHandle(|file|, |Packed(compressor, b).0|), b);
  }

  lemma TableIsBuilt(f: Fields, s: Shape, fm: Format, crc: LogFormat.Checksum, policy: Option<Policy>, sep: Key,
                     c: Contents, file: seq<byte>)
    requires Kept(f, s, fm, crc) && f.data == [] && Shaped(s)
    requires f.pendingIndexEntry ==> Closes(f.lastKey, sep)
    requires policy.Some? ==> Filtered(s, f.offset, c.groups, c.pending)
                              && c.filterHandle == FilterHandle(f.file, policy.value, c.groups, c.pending)
    requires c.shape == WithSeparator(s, sep, fm)
    requires var file1 := WithFilter(f.file, policy, crc, c.groups, c.pending);
             var meta, index := BlockBytes(MetaEntries(policy, c.filterHandle), fm.interval), BlockBytes(LastIndex(f, sep), 1);
             var file2 := file1 + OnDisk(crc, fm.compressor, meta);
             c.metaHandle == BlockHandle(|file1|, |Packed(fm.compressor, meta).0|) && c.indexHandle == BlockHandle(|file2|, |Packed(fm.compressor, index).0|)
             && file == file2 + OnDisk(crc, fm.compressor, index) + EncodeFooter(c.metaHandle, c.indexHandle)
    ensures IsTable(crc, policy, fm, file, c)
  {
    hide BlockBytes, OnDisk, Packed, EncodeFooter, EncodeHandle, HasBlock, Kept, Closes, Filtered, FilterBlockBytes, Shaped;
    hide Complete, BlocksStored, FilterStored, WithFilter, Current, WithSeparator;
    KeptIsSound(f, s, fm, crc);
    var file1 := WithFilter(f.file, policy, crc, c.groups, c.pending);
    var meta, index := BlockBytes(MetaEntries(policy, c.filterHandle), fm.interval), BlockBytes(LastIndex(f, sep), 1);
    var file2 := file1 + OnDisk(crc, fm.compressor, meta);
    var footer := EncodeFooter(c.metaHandle, c.indexHandle);
    var m, i := OnDisk(crc, fm.compressor, meta), OnDisk(crc, fm.compressor, index);
    BlockInMiddle(crc, fm.compressor, file2, index, footer);
    Associate(file1 + m, i, footer);
    Associate(file1, m, i + footer);
    BlockInMiddle(crc, fm.compressor, file1, meta, i + footer);
    FooterEnds(file2 + i, footer);
    ShapeIsBuilt(f, s, fm, crc, policy, sep, c, m + (i + footer));
  }

  // The data blocks and the filter stay where they are.
  lemma ShapeIsBuilt(f: Fields, s: Shape, fm: Format, crc: LogFormat.Checksum, policy: Option<Policy>, sep: Key,
                     c: Contents, more: seq<byte>)
    requires Kept(f, s, fm, crc) && f.data == [] && Shaped(s)
    requires f.pendingIndexEntry ==> Closes(f.lastKey, sep)
    requires policy.Some? ==> Filtered(s, f.offset, c.groups, c.pending)
                              && c.filterHandle == FilterHandle(f.file, policy.value, c.groups, c.pending)
    requires c.shape == WithSeparator(s, sep, fm)
    ensures var file := WithFilter(f.file, policy, crc, c.groups, c.pending) + more;
            Complete(c.shape, fm) && BlocksStored(c.shape, fm, crc, file) && FilterStored(crc, policy, file, c)
    ensures c.shape.index == LastIndex(f, sep)
  {
    hide BlockBytes, OnDisk, EncodeHandle, HasBlock, BlocksStored, IndexOk, Filtered, KeysOk, Closes, FilterBlockBytes;
    hide AllFiltered, IsInternal;
    LastIsThere(s, fm);
    SeparatorAdded(s, sep, fm);
    AllCut(c.shape, s, fm);
    var file1 := WithFilter(f.file, policy, crc, c.groups, c.pending);
    var after := file1[|f.file|..] + more;
    assert file1 + more == f.file + after;
    StoredMore(s, c.shape, fm, crc, f.file, after);
    if policy.Some? {
      BlockInMiddle(crc, None, f.file, FilterBlockBytes(policy.value, FinalGroups(c.groups, c.pending)), more);
      AllAreFiltered(s, f.offset, c);
    }
  }

  lemma FooterEnds(file: seq<byte>, footer: seq<byte>)
    ensures (file + footer)[|file + footer| - |footer|..] == footer
  {}

  lemma AllCut(t: Shape, s: Shape, fm: Format)
    requires IndexOk(t, fm) && !Pending(t) && Shaped(s) && Current(s) == []
    requires t.es == s.es && t.cuts == s.cuts && t.starts == s.starts
    ensures Complete(t, fm)
  {}
}
