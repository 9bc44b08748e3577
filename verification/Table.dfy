/** Reading a table: opening its file, and looking up one key through index and filter. */
module Tables {
  import opened Wrappers
  import opened Bytes
  import opened Seqs
  import opened Coding
  import opened BlockFormat
  import opened Blocks
  import opened Comparators
  import opened TableFormat
  import opened FilterBlocks
  import opened TableLayout
  import opened TableBuilders
  import LogFormat
  import DbFormat

  // What Table::Open keeps of a file.
  datatype Table = Table(crc: LogFormat.Checksum, policy: Option<Policy>, compressors: seq<Option<Compressor>>, verify: bool, file: seq<byte>,
                         indexData: seq<byte>, filter: Option<FilterBlockReader>)

  // Offsets in a file are written in 64 bits, those within a block in 32.
  ghost predicate SizesOk(policy: Option<Policy>, fm: Format, file: seq<byte>, c: Contents) {
    |file| < TWO_64 && Shaped(c.shape)
    && (forall i: nat :: i < |c.shape.starts| ==> |BlockBytes(BlockOf(c.shape, i), fm.interval)| < TWO_32)
    && |BlockBytes(c.shape.index, 1)| < TWO_32 && |BlockBytes(MetaEntries(policy, c.filterHandle), fm.interval)| < TWO_32
    && (policy.Some? ==> |FilterBlockBytes(policy.value, FinalGroups(c.groups, c.pending))| < TWO_32)
  }

  ghost predicate TableOk(t: Table, fm: Format, c: Contents) {
    SizesOk(t.policy, fm, t.file, c) && IsTable(t.crc, t.policy, fm, t.file, c) && t.indexData == BlockBytes(c.shape.index, 1)
    && Known(t.compressors, fm.compressor)
    && (t.filter.Some? ==>
          t.policy.Some?
          && t.filter.value == OpenFilterBlock(FilterBlockBytes(t.policy.value, FinalGroups(c.groups, c.pending))))
  }

  // Block::NewIterator
  method NewIterator(data: seq<byte>, less: Order, ghost es: seq<KeyValue>, ghost interval: nat) returns (it: BlockIter)
    requires interval > 0 && |data| < TWO_32 && data == BlockBytes(es, interval) && Ascending(es, less) && IsOrder(less)
    ensures fresh(it) && it.Ok() && it.pos == None && it.es == es && it.less == less
  {
    hide Ascending, IsOrder, BlockBytes, Fits, Offset, NumRestarts, OpenBlock;
    SmallBlockFits(es, interval);
    BuiltBlockOpens(es, interval);
    NumRestartsPositive(es, interval);
    var o := OpenBlock(data);
    if o.None? || o.value.1 == 0 {
      // The source makes an iterator without entries here.
      assert false;
    }
    it := new BlockIter(data, o.value.0, o.value.1, less, es, interval);
  }

  lemma NumRestartsPositive(es: seq<KeyValue>, interval: nat)
    requires interval > 0
    ensures NumRestarts(es, interval) >= 1
  {}

  // Where the parts of a table file are, as its footer tells.
  lemma Opens(crc: LogFormat.Checksum, policy: Option<Policy>, compressors: seq<Option<Compressor>>, fm: Format, file: seq<byte>,
              c: Contents, verify: bool)
    requires IsTable(crc, policy, fm, file, c) && SizesOk(policy, fm, file, c) && Known(compressors, fm.compressor)
    ensures |file| >= FOOTER_SIZE
    ensures DecodeFooter(file[|file| - FOOTER_SIZE..]) == Some((c.metaHandle, c.indexHandle))
    ensures ReadBlock(crc, compressors, file, c.indexHandle, verify) == Some(BlockBytes(c.shape.index, 1))
    ensures ReadBlock(crc, compressors, file, c.metaHandle, verify) == Some(BlockBytes(MetaEntries(policy, c.filterHandle), fm.interval))
    ensures |BlockBytes(c.shape.index, 1)| < TWO_32 && |BlockBytes(MetaEntries(policy, c.filterHandle), fm.interval)| < TWO_32
    ensures policy.Some? ==>
              ReadBlock(crc, compressors, file, c.filterHandle, verify) == Some(FilterBlockBytes(policy.value, FinalGroups(c.groups, c.pending)))
              && |FilterBlockBytes(policy.value, FinalGroups(c.groups, c.pending))| < TWO_32
              && DecodeHandle(EncodeHandle(c.filterHandle)) == Some(Got(c.filterHandle, []))
  {
    hide BlockBytes, FilterBlockBytes, Complete, BlocksStored, AllFiltered, DecodeFooter, EncodeFooter, ReadBlock, BlockTrailer;
    hide DecodeHandle, EncodeHandle;
    ReadsBack(crc, compressors, fm.compressor, file, c.indexHandle, BlockBytes(c.shape.index, 1), verify);
    ReadsBack(crc, compressors, fm.compressor, file, c.metaHandle, BlockBytes(MetaEntries(policy, c.filterHandle), fm.interval), verify);
    FooterRoundTrip(c.metaHandle, c.indexHandle);
    if policy.Some? {
      ReadsBack(crc, compressors, None, file, c.filterHandle, FilterBlockBytes(policy.value, FinalGroups(c.groups, c.pending)), verify);
      HandleAlone(c.filterHandle);
    }
  }

  lemma HandleAlone(h: BlockHandle)
    requires Fits64(h)
    ensures DecodeHandle(EncodeHandle(h)) == Some(Got(h, []))
  {
    hide EncodeHandle, DecodeHandle;
    HandleRoundTrip(h, []);
    assert EncodeHandle(h) + [] == EncodeHandle(h);
  }

  // Table::Open, on a file the builder wrote.
  method Open(crc: LogFormat.Checksum, policy: Option<Policy>, compressors: seq<Option<Compressor>>, verify: bool, file: seq<byte>,
              ghost fm: Format, ghost c: Contents)
    returns (t: Table)
    requires IsTable(crc, policy, fm, file, c) && SizesOk(policy, fm, file, c) && Known(compressors, fm.compressor)
    ensures TableOk(t, fm, c) && t.file == file && t.policy == policy && (t.filter.Some? <==> policy.Some?)
  {
    hide IsTable, DecodeFooter, ReadBlock, BlockBytes, FilterBlockBytes, OpenFilterBlock, DecodeHandle, EncodeHandle;
    Opens(crc, policy, compressors, fm, file, c, verify);
    var footer := DecodeFooter(file[|file| - FOOTER_SIZE..]);
    var indexData := ReadBlock(crc, compressors, file, footer.value.1, verify);
    var filter := None;
    if policy.Some? {
      filter := ReadMeta(crc, policy.value, compressors, verify, file, footer.value.0, fm, c);
    }
    t := Table(crc, policy, compressors, verify, file, indexData.value, filter);
  }

  // The meta index block names the filter block.
  method ReadMeta(crc: LogFormat.Checksum, p: Policy, compressors: seq<Option<Compressor>>, verify: bool, file: seq<byte>, metaHandle: BlockHandle,
                  ghost fm: Format, ghost c: Contents)
    returns (filter: Option<FilterBlockReader>)
    requires IsTable(crc, Some(p), fm, file, c) && SizesOk(Some(p), fm, file, c) && Known(compressors, fm.compressor) && metaHandle == c.metaHandle
    ensures filter == Some(OpenFilterBlock(FilterBlockBytes(p, FinalGroups(c.groups, c.pending))))
  {
    hide IsTable, ReadBlock, BlockBytes, FilterBlockBytes, OpenFilterBlock, DecodeHandle, EncodeHandle, Less, IsOrder;
    Opens(crc, Some(p), compressors, fm, file, c, verify);
    LessIsOrder();
    var contents := ReadBlock(crc, compressors, file, metaHandle, verify);
    ghost var entries := MetaEntries(Some(p), c.filterHandle);
    var it := NewIterator(contents.value, Less, entries, fm.interval);
    LessIrreflexive(entries[0].0);
    it.Seek(FilterName(p));
    filter := None;
    if it.Valid() && it.Current().0 == FilterName(p) {
      var handle := DecodeHandle(it.Current().1);
      var block := ReadBlock(crc, compressors, file, handle.value.value, verify);
      filter := Some(OpenFilterBlock(block.value));
    }
  }

  // ---- InternalGet ----

  // No version of k's user key is at or after k.
  ghost predicate NoVersion(es: seq<KeyValue>, k: Key)
    requires KeysOk(es) && IsInternal(k)
  {
    forall q :: 0 <= q < |es| && UserKey(es[q].0) == UserKey(k) ==> InternalLess(es[q].0, k)
  }

  // What the saver is handed: the first entry at or after k, or possibly nothing if that is of another
  // user key.
  ghost predicate Answers(es: seq<KeyValue>, k: Key, r: Option<KeyValue>)
    requires KeysOk(es) && IsInternal(k)
  {
    match r
    case None => NoVersion(es, k)
    case Some(e) => exists p: nat :: AtOrAfter(es, InternalLess, k, Some(p)) && e == es[p]
  }

  // A version at or after k makes the first entry at or after k a version too.
  lemma {:induction false} FirstVersion(es: seq<KeyValue>, k: Key, q: nat) returns (p: nat)
    requires KeysOk(es) && IsInternal(k) && q < |es| && UserKey(es[q].0) == UserKey(k) && !InternalLess(es[q].0, k)
    ensures p <= q && AtOrAfter(es, InternalLess, k, Some(p)) && UserKey(es[p].0) == UserKey(k)
    decreases q
  {
    hide Less;
    LessIsOrder();
    if j: nat :| j < q && !InternalLess(es[j].0, k) {
      assert InternalLess(es[j].0, es[q].0);
      p := FirstVersion(es, k, j);
    } else {
      p := q;
    }
  }

  // If a version is there, the index leads to a block whose filter lets k pass and which has it.
  lemma VersionIsReached(t: Table, fm: Format, c: Contents, k: Key, q: nat, r: Option<nat>)
    requires TableOk(t, fm, c) && IsInternal(k) && (t.policy.Some? ==> NeverMissesUser(t.policy.value))
    requires q < |c.shape.es| && UserKey(c.shape.es[q].0) == UserKey(k) && !InternalLess(c.shape.es[q].0, k)
    requires AtOrAfter(c.shape.index, InternalLess, k, r)
    ensures r.Some? && (t.filter.Some? ==> KeyMayMatch(t.filter.value, t.policy.value, c.shape.starts[r.value], k))
    ensures exists n: nat :: AtOrAfter(BlockOf(c.shape, r.value), InternalLess, k, Some(n))
  {
    hide BlockBytes, FilterBlockBytes, IndexOk, BlocksStored, HasBlock, KeyMayMatch, OpenFilterBlock, InStretch, EncodeHandle, AtOrAfter;
    hide NeverMissesUser, InternalLess, KeysOk, IsInternal;
    var s := c.shape;
    IndexIsBlock(t, fm, c);
    var p := FirstVersion(s.es, k, q);
    IndexLeads(s, fm, k, p, r);
    if t.filter.Some? {
      FilterFits(t, fm, c);
      VersionIsFiltered(t.policy.value, c, k, r.value, p);
    }
  }

  lemma VersionIsFiltered(policy: Policy, c: Contents, k: Key, i: nat, p: nat)
    requires NeverMissesUser(policy) && AllFiltered(c) && InBlock(c.shape, i, p) && p < |c.shape.es|
    requires IsInternal(k) && UserKey(c.shape.es[p].0) == UserKey(k)
    requires |FilterBlockBytes(policy, FinalGroups(c.groups, c.pending))| < TWO_32
    ensures KeyMayMatch(OpenFilterBlock(FilterBlockBytes(policy, FinalGroups(c.groups, c.pending))), policy, c.shape.starts[i], k)
  {
    hide FilterBlockBytes, KeyMayMatch, OpenFilterBlock, InStretch, NeverMissesUser;
    var s := c.shape;
    NoFalseNegatives(policy, c.groups, c.pending, s.starts[i], s.es[p].0, k);
  }

  lemma FilterFits(t: Table, fm: Format, c: Contents)
    requires TableOk(t, fm, c) && t.filter.Some?
    ensures |FilterBlockBytes(t.policy.value, FinalGroups(c.groups, c.pending))| < TWO_32 && AllFiltered(c)
  {
    hide BlockBytes, FilterBlockBytes, Complete, BlocksStored, AllFiltered;
  }

  // What the index says of its i-th block.
  lemma IndexedBlock(t: Table, fm: Format, c: Contents, i: nat)
    requires TableOk(t, fm, c) && i < |c.shape.index|
    ensures IndexOk(c.shape, fm) && i < |c.shape.starts|
    ensures var h := HandleOf(c.shape, i, fm);
            DecodeHandle(c.shape.index[i].1) == Some(Got(h, [])) && h.offset == c.shape.starts[i]
            && ReadBlock(t.crc, t.compressors, t.file, h, t.verify) == Some(BlockBytes(BlockOf(c.shape, i), fm.interval))
            && |BlockBytes(BlockOf(c.shape, i), fm.interval)| < TWO_32
    ensures Ascending(BlockOf(c.shape, i), InternalLess)
  {
    hide BlockBytes, FilterBlockBytes, AllFiltered, DecodeHandle, EncodeHandle, ReadBlock, BlockTrailer, InternalLess, Separates;
    var h, b := HandleOf(c.shape, i, fm), BlockBytes(BlockOf(c.shape, i), fm.interval);
    assert HasBlock(t.crc, fm.compressor, t.file, h, b);
    ReadsBack(t.crc, t.compressors, fm.compressor, t.file, h, b, t.verify);
    HandleAlone(h);
  }

  lemma IndexIsBlock(t: Table, fm: Format, c: Contents)
    requires TableOk(t, fm, c)
    ensures |t.indexData| < TWO_32 && Ascending(c.shape.index, InternalLess) && IsOrder(InternalLess) && KeysOk(c.shape.es)
    ensures Shaped(c.shape) && |c.shape.index| <= |c.shape.starts| && t.indexData == BlockBytes(c.shape.index, 1)
    ensures t.filter.Some? ==> t.policy.Some? && ReaderOk(t.filter.value)
  {
    hide BlockBytes, FilterBlockBytes, AllFiltered, BlocksStored, InternalLess;
    IndexAscending(c.shape, fm);
    InternalLessIsOrder();
  }

  // The filter of the block the index names for k says that k is not in it.
  ghost predicate Rejects(t: Table, c: Contents, k: Key) {
    exists i: nat :: i < |c.shape.starts| && RejectsAt(t, c, k, i)
  }

  ghost predicate RejectsAt(t: Table, c: Contents, k: Key, i: nat)
    requires i < |c.shape.starts|
  {
    AtOrAfter(c.shape.index, InternalLess, k, Some(i)) && t.filter.Some? && t.policy.Some?
    && ReaderOk(t.filter.value) && !KeyMayMatch(t.filter.value, t.policy.value, c.shape.starts[i], k)
  }

  lemma OneIndex(t: Table, c: Contents, k: Key, at: Option<nat>)
    requires AtOrAfter(c.shape.index, InternalLess, k, at) && Rejects(t, c, k)
    ensures at.Some? && at.value < |c.shape.starts| && RejectsAt(t, c, k, at.value)
  {
    hide KeyMayMatch, ReaderOk, InternalLess;
  }

  // A rejected key is not looked for in the block.
  method InternalGet(t: Table, k: Key, ghost fm: Format, ghost c: Contents) returns (r: Option<KeyValue>)
    requires TableOk(t, fm, c) && IsInternal(k) && (t.policy.Some? ==> NeverMissesUser(t.policy.value))
    ensures KeysOk(c.shape.es) && Answers(c.shape.es, k, r) && (Rejects(t, c, k) ==> r == None)
  {
    hide Rejects, TableOk, InternalLess, Ascending, IsOrder, AtOrAfter, NeverMissesUser, KeyMayMatch, DecodeHandle, ReadBlock, BlockBytes;
    hide IndexOk, KeysOk, Shaped, IsInternal, Answers, BlockOf, HandleOf;
    IndexIsBlock(t, fm, c);
    r := None;
    var e, at := SeekIn(t.indexData, k, c.shape.index, 1);
    if e.Some? {
      IndexedBlock(t, fm, c, at.value);
      var handle := DecodeHandle(e.value.1).value.value;
      if t.filter.Some? && !KeyMayMatch(t.filter.value, t.policy.value, handle.offset, k) {
      } else {
        ghost var n: Option<nat>;
        r, n := BlockReader(t, k, handle, fm, c, at.value);
        if r.Some? {
          Hit(t, fm, c, k, at.value, n.value);
          if Rejects(t, c, k) {
            OneIndex(t, c, k, at);
          }
          return;
        }
        BlockMissed(c.shape, k, at.value);
      }
    }
    Missed(t, fm, c, k, at);
  }

  // A seek in a block, and the entry there.
  method SeekIn(data: seq<byte>, k: Key, ghost es: seq<KeyValue>, ghost interval: nat)
    returns (r: Option<KeyValue>, ghost at: Option<nat>)
    requires interval > 0 && |data| < TWO_32 && data == BlockBytes(es, interval)
    requires Ascending(es, InternalLess) && IsOrder(InternalLess)
    ensures AtOrAfter(es, InternalLess, k, at)
    ensures match at
            case None => r == None
            case Some(i) => i < |es| && r == Some(es[i])
  {
    hide InternalLess, Ascending, IsOrder, BlockBytes, BlockIter.Ok, AtOrAfter;
    var it := NewIterator(data, InternalLess, es, interval);
    it.Seek(k);
    it.ValidIff();
    at := it.pos;
    r := if it.Valid() then Some(it.Current()) else None;
  }

  // A seek in the data block behind a handle.
  method BlockReader(t: Table, k: Key, handle: BlockHandle, ghost fm: Format, ghost c: Contents, ghost i: nat)
    returns (r: Option<KeyValue>, ghost n: Option<nat>)
    requires TableOk(t, fm, c) && i < |c.shape.index| && IndexOk(c.shape, fm)
    requires i < |c.shape.starts| && handle == HandleOf(c.shape, i, fm)
    ensures AtOrAfter(BlockOf(c.shape, i), InternalLess, k, n)
    ensures match n
            case None => r == None
            case Some(j) => j < |BlockOf(c.shape, i)| && r == Some(BlockOf(c.shape, i)[j])
  {
    hide TableOk, InternalLess, Ascending, IsOrder, AtOrAfter, DecodeHandle, ReadBlock, BlockBytes, BlockOf, HandleOf, Separates;
    IndexedBlock(t, fm, c, i);
    InternalLessIsOrder();
    var block := ReadBlock(t.crc, t.compressors, t.file, handle, t.verify);
    r, n := SeekIn(block.value, k, BlockOf(c.shape, i), fm.interval);
  }

  lemma Hit(t: Table, fm: Format, c: Contents, k: Key, i: nat, n: nat)
    requires TableOk(t, fm, c) && IsInternal(k) && i < |c.shape.index|
    requires AtOrAfter(c.shape.index, InternalLess, k, Some(i))
    requires Shaped(c.shape) && i < |c.shape.starts| && AtOrAfter(BlockOf(c.shape, i), InternalLess, k, Some(n))
    ensures KeysOk(c.shape.es) && Answers(c.shape.es, k, Some(BlockOf(c.shape, i)[n]))
  {
    hide BlockBytes, FilterBlockBytes, AllFiltered, BlocksStored, InternalLess, IsInternal, Separates, HasBlock, EncodeHandle;
    FirstInBlock(c.shape, fm, k, i, n);
    assert c.shape.es[c.shape.cuts[i] + n] == BlockOf(c.shape, i)[n];
  }

  lemma BlockMissed(s: Shape, k: Key, i: nat)
    requires Shaped(s) && i < |s.starts| && AtOrAfter(BlockOf(s, i), InternalLess, k, None)
    ensures !exists n: nat :: AtOrAfter(BlockOf(s, i), InternalLess, k, Some(n))
  {}

  lemma Missed(t: Table, fm: Format, c: Contents, k: Key, r: Option<nat>)
    requires TableOk(t, fm, c) && IsInternal(k) && (t.policy.Some? ==> NeverMissesUser(t.policy.value))
    requires AtOrAfter(c.shape.index, InternalLess, k, r) && Shaped(c.shape) && |c.shape.index| <= |c.shape.starts|
    requires r.Some? ==> (t.filter.Some? && !KeyMayMatch(t.filter.value, t.policy.value, c.shape.starts[r.value], k))
                         || !exists n: nat :: AtOrAfter(BlockOf(c.shape, r.value), InternalLess, k, Some(n))
    ensures Answers(c.shape.es, k, None)
  {
    hide TableOk, InternalLess, AtOrAfter, NeverMissesUser, KeyMayMatch, BlockOf;
    forall q: nat | q < |c.shape.es| && UserKey(c.shape.es[q].0) == UserKey(k)
      ensures InternalLess(c.shape.es[q].0, k)
    {
      if !InternalLess(c.shape.es[q].0, k) {
        VersionIsReached(t, fm, c, k, q, r);
        assert false;
      }
    }
  }

  // ---- A read ----

  // What SaveValue makes of the entry it is handed.
  datatype SaverState = NotFound | Found(value: seq<byte>) | Deleted | Corrupt

  function SaveValue(user: Key, e: KeyValue): SaverState {
    if !IsInternal(e.0) || Tag(e.0) % 256 > 1 then Corrupt
    else if UserKey(e.0) != user then NotFound
    else if Tag(e.0) % 256 == 1 then Found(e.1)
    else Deleted
  }

  // On any entry: the eighth byte from the end of its key says what it is, if there is one and it is 0 or 1.
  lemma SavesByType(user: Key, e: KeyValue)
    ensures SaveValue(user, e)
         == if |e.0| < 8 || e.0[|e.0| - 8] > 1 then Corrupt
            else if e.0[..|e.0| - 8] != user then NotFound
            else if e.0[|e.0| - 8] == 1 then Found(e.1) else Deleted
  {
    if |e.0| >= 8 {
      var tail := e.0[|e.0| - 8..];
      assert LittleEndian(tail) == tail[0] + 256 * LittleEndian(tail[1..]);
    }
  }

  ghost predicate TypesOk(es: seq<KeyValue>) {
    forall i :: 0 <= i < |es| ==> IsInternal(es[i].0) && Tag(es[i].0) % 256 <= 1
  }

  // Entry p is a version of the user key with a sequence number of at most s.
  ghost predicate Visible(es: seq<KeyValue>, user: Key, s: nat, p: nat) {
    p < |es| && IsInternal(es[p].0) && UserKey(es[p].0) == user && Tag(es[p].0) / 256 <= s
  }

  ghost predicate Newest(es: seq<KeyValue>, user: Key, s: nat, p: nat) {
    Visible(es, user, s, p) && forall q: nat :: Visible(es, user, s, q) ==> Tag(es[q].0) <= Tag(es[p].0)
  }

  // The newest visible version decides.
  ghost predicate ReadsTable(es: seq<KeyValue>, user: Key, s: nat, r: SaverState) {
    match r
    case NotFound => forall p: nat :: !Visible(es, user, s, p)
    case Found(v) => exists p: nat :: Newest(es, user, s, p) && Tag(es[p].0) % 256 == 1 && es[p].1 == v
    case Deleted => exists p: nat :: Newest(es, user, s, p) && Tag(es[p].0) % 256 == 0
    case Corrupt => false
  }

  // A lookup in a table finds the newest version at a snapshot, if the table has one.
  method Get(t: Table, user: Key, s: nat, ghost fm: Format, ghost c: Contents) returns (r: SaverState)
    requires TableOk(t, fm, c) && s <= DbFormat.MAX_SEQUENCE && (t.policy.Some? ==> NeverMissesUser(t.policy.value))
    requires TypesOk(c.shape.es)
    ensures ReadsTable(c.shape.es, user, s, r)
  {
    hide TableOk, NeverMissesUser, ReadsTable, TypesOk, Answers, KeysOk;
    var k := InternalKey(user, s, TYPE_FOR_SEEK);
    InternalKeyParts(user, s, TYPE_FOR_SEEK);
    var e := InternalGet(t, k, fm, c);
    AnswerIsNewest(c.shape.es, user, s, e);
    r := if e.Some? then SaveValue(user, e.value) else NotFound;
  }

  lemma AnswerIsNewest(es: seq<KeyValue>, user: Key, s: nat, e: Option<KeyValue>)
    requires KeysOk(es) && TypesOk(es) && s <= DbFormat.MAX_SEQUENCE && Answers(es, InternalKey(user, s, TYPE_FOR_SEEK), e)
    ensures ReadsTable(es, user, s, if e.Some? then SaveValue(user, e.value) else NotFound)
  {
    hide InternalLess, InternalKey, Less, IsInternal;
    var k := InternalKey(user, s, TYPE_FOR_SEEK);
    InternalKeyParts(user, s, TYPE_FOR_SEEK);
    forall q: nat | q < |es| && UserKey(es[q].0) == user
      ensures InternalLess(es[q].0, k) <==> !Visible(es, user, s, q)
    {
      SeekKeyIsRight(user, s, es[q].0);
    }
    if e.Some? {
      var p: nat :| AtOrAfter(es, InternalLess, k, Some(p)) && e.value == es[p];
      VersionsFollow(es, k, user, s, p);
    }
  }

  // Behind the first entry at or after the seek key come only older versions, and all visible ones if it is
  // of another user key come not at all.
  lemma VersionsFollow(es: seq<KeyValue>, k: Key, user: Key, s: nat, p: nat)
    requires KeysOk(es) && IsInternal(k) && UserKey(k) == user && AtOrAfter(es, InternalLess, k, Some(p))
    requires forall q: nat :: q < |es| && UserKey(es[q].0) == user ==> (InternalLess(es[q].0, k) <==> !Visible(es, user, s, q))
    ensures if UserKey(es[p].0) == user then Newest(es, user, s, p) else forall q: nat :: !Visible(es, user, s, q)
  {
    hide Less, IsInternal;
    LessIsOrder();
    forall q: nat | Visible(es, user, s, q)
      ensures UserKey(es[p].0) == user && Tag(es[q].0) <= Tag(es[p].0)
    {
      assert !InternalLess(es[q].0, k);
      assert p < q ==> InternalLess(es[p].0, es[q].0);
      assert !InternalLess(es[p].0, k);
    }
  }
}
