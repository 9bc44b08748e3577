/**
 A table's bytes and the entries of the tree.  User keys are byte strings in the one and ranks in the other;
 what a lookup finds and what a scan gives is the same.
 */
module TableEntries {
  import opened Wrappers
  import opened Bytes
  import opened Coding
  import opened BlockFormat
  import opened Blocks
  import opened Comparators
  import opened TableFormat
  import opened TableLayout
  import opened TableBuilders
  import opened Tables
  import opened FilterBlocks
  import Sets
  import LogFormat
  import DbFormat

  // ---- Ranks of user keys ----

  // rank tells these keys apart and puts them in order.
  ghost predicate Ranks(rank: Key -> int, keys: set<Key>) {
    forall a, b :: a in keys && b in keys ==> (Less(a, b) <==> rank(a) < rank(b))
  }

  ghost function Below(keys: set<Key>, a: Key): set<Key> {
    set k | k in keys && Less(k, a)
  }

  // Any finite set of keys has ranks: how many of them are less.
  lemma RanksExist(keys: set<Key>) returns (rank: Key -> int)
    ensures Ranks(rank, keys)
  {
    rank := (a: Key) => |Below(keys, a)|;
    hide Less;
    LessIsOrder();
    forall a, b | a in keys && b in keys && Less(a, b)
      ensures |Below(keys, a)| < |Below(keys, b)|
    {
      assert a in Below(keys, b) && a !in Below(keys, a) && Below(keys, a) <= Below(keys, b);
      Sets.SubsetSize(Below(keys, a), Below(keys, b) - {a});
    }
  }

  lemma SameRank(rank: Key -> int, keys: set<Key>, a: Key, b: Key)
    requires Ranks(rank, keys) && a in keys && b in keys
    ensures rank(a) == rank(b) <==> a == b
  {
    hide Less;
    LessIsOrder();
  }

  // ---- Entries ----

  function EntryOf(rank: Key -> int, e: KeyValue): DbFormat.Entry
    requires IsInternal(e.0)
  {
    DbFormat.Entry(rank(UserKey(e.0)), Tag(e.0) / 256, if Tag(e.0) % 256 == 1 then DbFormat.Put(e.1) else DbFormat.Deletion)
  }

  function EntriesOf(rank: Key -> int, es: seq<KeyValue>): (r: seq<DbFormat.Entry>)
    requires forall e :: e in es ==> IsInternal(e.0)
    ensures |r| == |es| && forall i :: 0 <= i < |es| ==> r[i] == EntryOf(rank, es[i])
  {
    seq(|es|, i requires 0 <= i < |es| => EntryOf(rank, es[i]))
  }

  ghost function UserKeys(es: seq<KeyValue>): set<Key>
    requires forall e :: e in es ==> IsInternal(e.0)
  {
    set e | e in es :: UserKey(e.0)
  }

  // No two versions of a key have the same sequence number.
  ghost predicate NumbersTell(es: seq<KeyValue>)
    requires forall e :: e in es ==> IsInternal(e.0)
  {
    forall i, j :: 0 <= i < j < |es| && UserKey(es[i].0) == UserKey(es[j].0) ==> Tag(es[i].0) / 256 != Tag(es[j].0) / 256
  }

  // The entries a table may have, and ranks for their keys and those of `more`.
  ghost predicate Ranked(rank: Key -> int, es: seq<KeyValue>, more: set<Key>) {
    KeysOk(es) && TypesOk(es) && (forall e :: e in es ==> IsInternal(e.0)) && NumbersTell(es) && Ranks(rank, UserKeys(es) + more)
  }

  lemma EntriesSorted(rank: Key -> int, es: seq<KeyValue>, more: set<Key>)
    requires Ranked(rank, es, more)
    ensures DbFormat.Sorted(EntriesOf(rank, es))
  {
    hide Less, IsInternal;
    var r := EntriesOf(rank, es);
    forall i, j | 0 <= i < j < |r|
      ensures DbFormat.Less(r[i].Ikey(), r[j].Ikey())
    {
      assert InternalLess(es[i].0, es[j].0);
      assert es[i] in es && es[j] in es;
      assert UserKey(es[i].0) in UserKeys(es) && UserKey(es[j].0) in UserKeys(es);
    }
  }

  // What a reader is told of an entry, or of none.
  function StateOf(r: Option<DbFormat.Entry>): SaverState {
    match r
    case None => NotFound
    case Some(e) => if e.payload.Put? then Found(e.payload.value) else Deleted
  }

  // The newest version in bytes is the entry a lookup among the ranked entries finds.
  lemma SameAnswer(rank: Key -> int, es: seq<KeyValue>, user: Key, s: nat, r: SaverState)
    requires Ranked(rank, es, {user}) && ReadsTable(es, user, s, r)
    ensures r == StateOf(DbFormat.Lookup(EntriesOf(rank, es), rank(user), s))
  {
    var entries := EntriesOf(rank, es);
    EntriesSorted(rank, es, {user});
    var found := DbFormat.Lookup(entries, rank(user), s);
    DbFormat.LookupFindsNewest(entries, rank(user), s);
    hide DbFormat.Lookup, DbFormat.Sorted, Less, IsInternal;
    forall p: nat | p < |es|
      ensures Visible(es, user, s, p) <==> entries[p].key == rank(user) && entries[p].sn <= s
      ensures entries[p] in DbFormat.Elements(entries)
    {
      assert es[p] in es;
      SameRank(rank, UserKeys(es) + {user}, UserKey(es[p].0), user);
    }
    if found.Some? {
      var q: nat :| q < |es| && entries[q] == found.value;
      assert Visible(es, user, s, q);
      forall p: nat | Newest(es, user, s, p)
        ensures p == q
      {
        assert entries[p].sn <= entries[q].sn;
        assert Tag(es[q].0) <= Tag(es[p].0);
      }
    }
  }

  // Table::Get, in the tree's terms.
  method Get(t: Table, user: Key, s: nat, ghost rank: Key -> int, ghost fm: Format, ghost c: Contents) returns (r: SaverState)
    requires TableOk(t, fm, c) && s <= DbFormat.MAX_SEQUENCE && (t.policy.Some? ==> NeverMissesUser(t.policy.value))
    requires Ranked(rank, c.shape.es, {user})
    ensures r == StateOf(DbFormat.Lookup(EntriesOf(rank, c.shape.es), rank(user), s))
  {
    hide TableOk, NeverMissesUser, ReadsTable, DbFormat.Lookup;
    r := Tables.Get(t, user, s, fm, c);
    SameAnswer(rank, c.shape.es, user, s, r);
  }

  // ---- A scan ----

  // An iterator from a block's first entry to its last.
  method ScanBlock(data: seq<byte>, ghost es: seq<KeyValue>, ghost interval: nat) returns (r: seq<KeyValue>)
    requires interval > 0 && |data| < TWO_32 && data == BlockBytes(es, interval) && Ascending(es, InternalLess)
    ensures r == es
  {
    hide InternalLess, Ascending, IsOrder, BlockBytes, BlockIter.Ok;
    InternalLessIsOrder();
    var it := NewIterator(data, InternalLess, es, interval);
    it.SeekToFirst();
    it.ValidIff();
    r := [];
    while it.Valid()
      invariant it.Ok() && it.es == es && (it.Valid() <==> it.pos.Some?)
      invariant |r| <= |es| && r == es[..|r|] && it.pos == (if |r| < |es| then Some(|r|) else None)
      decreases |es| - |r|
    {
      r := r + [it.Current()];
      it.Next();
      it.ValidIff();
    }
  }

  // The iterator over a table, from its first entry to its last: block by block as the index names them.
  method Scan(t: Table, ghost fm: Format, ghost c: Contents) returns (r: seq<KeyValue>)
    requires TableOk(t, fm, c)
    ensures r == c.shape.es
  {
    hide TableOk, InternalLess, Ascending, IsOrder, DecodeHandle, ReadBlock, BlockBytes, Shaped, IndexOk, Complete, KeysOk, BlockOf, HandleOf;
    IndexIsBlock(t, fm, c);
    AllInBlocks(t, fm, c);
    var index := ScanBlock(t.indexData, c.shape.index, 1);
    r := [];
    var i := 0;
    while i < |index|
      invariant i <= |index| && c.shape.cuts[i] <= |c.shape.es| && r == c.shape.es[..c.shape.cuts[i]]
    {
      IndexedBlock(t, fm, c, i);
      BlockFollows(c.shape, i);
      var handle := DecodeHandle(index[i].1);
      var block := ReadBlock(t.crc, t.compressors, t.file, handle.value.value, t.verify);
      var entries := ScanBlock(block.value, BlockOf(c.shape, i), fm.interval);
      r := r + entries;
      i := i + 1;
    }
    assert c.shape.es[..|c.shape.es|] == c.shape.es;
  }

  lemma AllInBlocks(t: Table, fm: Format, c: Contents)
    requires TableOk(t, fm, c)
    ensures Shaped(c.shape) && |c.shape.index| == |c.shape.starts| == |c.shape.cuts| - 1
    ensures c.shape.cuts[0] == 0 && c.shape.cuts[|c.shape.starts|] == |c.shape.es| && fm.interval > 0
  {
    hide BlockBytes, FilterBlockBytes, AllFiltered, BlocksStored, InternalLess;
  }

  lemma BlockFollows(s: Shape, i: nat)
    requires Shaped(s) && i < |s.starts|
    ensures s.cuts[i] <= s.cuts[i + 1] <= |s.es| && s.es[..s.cuts[i]] + BlockOf(s, i) == s.es[..s.cuts[i + 1]]
  {
    hide KeysOk;
    assert End(s, i) == s.cuts[i + 1];
  }
}
