/** What a table file holds, and why its index and filters lose no entry. */
module TableLayout {
  import opened Wrappers
  import opened Bytes
  import opened Seqs
  import opened Coding
  import opened BlockFormat
  import opened Blocks
  import opened Comparators
  import opened TableFormat
  import opened FilterBlocks
  import opened LogFormat

  // All entries; where one block ends and the next begins among them; the file offset of each finished
  // block; and the entries of the index block.
  datatype Shape = Shape(es: seq<KeyValue>, cuts: seq<nat>, starts: seq<nat>, index: seq<KeyValue>)

  ghost predicate KeysOk(es: seq<KeyValue>) {
    Ascending(es, InternalLess) && forall i :: 0 <= i < |es| ==> IsInternal(es[i].0)
  }

  ghost predicate CutsOk(n: nat, cuts: seq<nat>) {
    |cuts| >= 1 && cuts[0] == 0 && cuts[|cuts| - 1] <= n && forall i, j :: 0 <= i < j < |cuts| ==> cuts[i] < cuts[j]
  }

  ghost predicate Shaped(s: Shape) {
    KeysOk(s.es) && CutsOk(|s.es|, s.cuts) && |s.starts| == |s.cuts| - 1 && |s.index| <= |s.starts|
  }

  // Where block i ends.
  ghost function End(s: Shape, i: nat): (p: nat)
    requires Shaped(s) && i < |s.starts|
    ensures s.cuts[i] < p <= |s.es|
  {
    assert i + 1 < |s.cuts| - 1 ==> s.cuts[i + 1] < s.cuts[|s.cuts| - 1];
    s.cuts[i + 1]
  }

  ghost function BlockOf(s: Shape, i: nat): seq<KeyValue>
    requires Shaped(s) && i < |s.starts|
  {
    s.es[s.cuts[i]..End(s, i)]
  }

  // The entries not yet in a finished block.
  ghost function Current(s: Shape): seq<KeyValue>
    requires Shaped(s)
  {
    s.es[s.cuts[|s.cuts| - 1]..]
  }

  ghost function HandleOf(s: Shape, i: nat, fm: Format): BlockHandle
    requires Shaped(s) && i < |s.starts|
  {
    BlockHandle(s.starts[i], |Packed(fm.compressor, BlockBytes(BlockOf(s, i), fm.interval)).0|)
  }

  // sep lies between block i and whatever follows it.
  ghost predicate Separates(s: Shape, i: nat, sep: Key)
    requires Shaped(s) && i < |s.starts|
  {
    var p := End(s, i);
    if p < |s.es| then ClosesBefore(s.es[p - 1].0, sep, s.es[p].0) else Closes(s.es[p - 1].0, sep)
  }

  ghost predicate IndexOk(s: Shape, fm: Format)
  {
    Shaped(s) && forall i: nat :: i < |s.index| ==> Separates(s, i, s.index[i].0) && s.index[i].1 == EncodeHandle(HandleOf(s, i, fm))
  }

  ghost predicate BlocksStored(s: Shape, fm: Format, crc: Checksum, file: seq<byte>)
    requires IsChecksum(crc)
  {
    Shaped(s) && forall i: nat :: i < |s.starts| ==> HasBlock(crc, fm.compressor, file, HandleOf(s, i, fm), BlockBytes(BlockOf(s, i), fm.interval))
  }

  // The last block has no index entry yet exactly while nothing has been added behind it.
  ghost predicate Pending(s: Shape)
    requires Shaped(s)
  {
    |s.index| < |s.starts|
  }

  ghost predicate Building(s: Shape, fm: Format)
  {
    IndexOk(s, fm)
    && if Pending(s) then |s.index| + 1 == |s.starts| && Current(s) == [] else s.starts != [] ==> Current(s) != []
  }

  // ---- Steps of the builder ----

  ghost function WithSeparator(s: Shape, sep: Key, fm: Format): Shape
    requires Shaped(s)
  {
    if Pending(s) then s.(index := s.index + [(sep, EncodeHandle(HandleOf(s, |s.starts| - 1, fm)))]) else s
  }

  ghost function WithEntry(s: Shape, e: KeyValue): Shape {
    s.(es := s.es + [e])
  }

  ghost function WithBlock(s: Shape, offset: nat): Shape {
    s.(cuts := s.cuts + [|s.es|], starts := s.starts + [offset])
  }

  lemma BlockOfStable(s: Shape, t: Shape, i: nat)
    requires Shaped(s) && Shaped(t) && s.es <= t.es && s.cuts <= t.cuts && s.starts <= t.starts && i < |s.starts|
    ensures End(t, i) == End(s, i) && BlockOf(t, i) == BlockOf(s, i)
    ensures forall fm: Format :: HandleOf(t, i, fm) == HandleOf(s, i, fm)
  {
    assert t.cuts[i] == s.cuts[i] && t.cuts[i + 1] == s.cuts[i + 1];
    assert t.starts[i] == s.starts[i];
    assert t.es == s.es + t.es[|s.es|..];
    SliceOfConcat(s.es, t.es[|s.es|..], s.cuts[i], s.cuts[i + 1]);
  }

  // An entry goes behind the last, once the block before it has been closed off.
  lemma EntryAdded(s: Shape, e: KeyValue, sep: Key, fm: Format)
    requires Building(s, fm) && IsInternal(e.0)
    requires s.es != [] ==> InternalLess(s.es[|s.es| - 1].0, e.0)
    requires Pending(s) ==> s.es != [] && ClosesBefore(s.es[|s.es| - 1].0, sep, e.0)
    ensures var t := WithEntry(WithSeparator(s, sep, fm), e);
            Building(t, fm) && !Pending(t) && Current(t) == Current(s) + [e]
  {
    hide BlockBytes, InternalLess, ClosesBefore, Closes, EncodeHandle, IsInternal;
    var t := WithEntry(WithSeparator(s, sep, fm), e);
    AscendingAppended(s.es, e);
    assert Shaped(t);
    forall i: nat | i < |t.index|
      ensures Separates(t, i, t.index[i].0) && t.index[i].1 == EncodeHandle(HandleOf(t, i, fm))
    {
      BlockOfStable(s, t, i);
      if i < |s.index| {
        assert Separates(s, i, s.index[i].0);
        CutsRise(s, i);
      }
    }
  }

  // Only the last block can end where the entries do.
  lemma CutsRise(s: Shape, i: nat)
    requires Shaped(s) && i < |s.starts|
    ensures i + 1 < |s.starts| || Current(s) != [] ==> End(s, i) < |s.es|
  {}

  lemma AscendingAppended(es: seq<KeyValue>, e: KeyValue)
    requires KeysOk(es) && IsInternal(e.0) && (es != [] ==> InternalLess(es[|es| - 1].0, e.0))
    ensures KeysOk(es + [e])
  {
    hide InternalLess;
    InternalLessIsOrder();
    forall i, j | 0 <= i < j < |es + [e]|
      ensures InternalLess((es + [e])[i].0, (es + [e])[j].0)
    {
      if j == |es| && i < |es| - 1 {
        assert InternalLess(es[i].0, es[|es| - 1].0);
      }
    }
  }

  lemma BlockEnded(s: Shape, offset: nat, fm: Format)
    requires Building(s, fm) && Current(s) != []
    ensures var t := WithBlock(s, offset);
            Building(t, fm) && Pending(t) && Current(t) == [] && BlockOf(t, |s.starts|) == Current(s)
  {
    hide BlockBytes, InternalLess, ClosesBefore, Closes, EncodeHandle, IsInternal;
    var t := WithBlock(s, offset);
    assert Shaped(t);
    forall i: nat | i < |t.index|
      ensures Separates(t, i, t.index[i].0) && t.index[i].1 == EncodeHandle(HandleOf(t, i, fm))
    {
      BlockOfStable(s, t, i);
      assert Separates(s, i, s.index[i].0);
    }
  }

  lemma SeparatorAdded(s: Shape, sep: Key, fm: Format)
    requires Building(s, fm) && (Pending(s) ==> s.es != [] && Closes(s.es[|s.es| - 1].0, sep))
    ensures IndexOk(WithSeparator(s, sep, fm), fm) && !Pending(WithSeparator(s, sep, fm))
  {
    hide BlockBytes, InternalLess, ClosesBefore, Closes, EncodeHandle, IsInternal;
    var t := WithSeparator(s, sep, fm);
    forall i: nat | i < |t.index|
      ensures Separates(t, i, t.index[i].0) && t.index[i].1 == EncodeHandle(HandleOf(t, i, fm))
    {
      BlockOfStable(s, t, i);
      if i < |s.index| {
        assert Separates(s, i, s.index[i].0);
      }
    }
  }

  lemma StoredMore(s: Shape, t: Shape, fm: Format, crc: Checksum, file: seq<byte>, more: seq<byte>)
    requires IsChecksum(crc) && BlocksStored(s, fm, crc, file) && Shaped(t)
    requires s.es <= t.es && s.cuts <= t.cuts && s.starts == t.starts
    ensures BlocksStored(t, fm, crc, file + more)
  {
    hide BlockBytes, InternalLess, HasBlock, IsChecksum, IsInternal, Packed;
    forall i: nat | i < |t.starts|
      ensures HasBlock(crc, fm.compressor, file + more, HandleOf(t, i, fm), BlockBytes(BlockOf(t, i), fm.interval))
    {
      BlockOfStable(s, t, i);
      BlockStays(crc, fm.compressor, file, more, HandleOf(s, i, fm), BlockBytes(BlockOf(s, i), fm.interval));
    }
  }

  lemma StoredBlock(s: Shape, fm: Format, crc: Checksum, file: seq<byte>)
    requires IsChecksum(crc) && BlocksStored(s, fm, crc, file)
    requires Shaped(WithBlock(s, |file|)) && BlockOf(WithBlock(s, |file|), |s.starts|) == Current(s)
    ensures var b := BlockBytes(Current(s), fm.interval);
            BlocksStored(WithBlock(s, |file|), fm, crc, file + OnDisk(crc, fm.compressor, b))
  {
    hide BlockBytes, InternalLess, HasBlock, IsInternal, OnDisk, Packed;
    var b := BlockBytes(Current(s), fm.interval);
    var t := WithBlock(s, |file|);
    BlockAppended(crc, fm.compressor, file, b);
    forall i: nat | i < |t.starts|
      ensures HasBlock(crc, fm.compressor, file + OnDisk(crc, fm.compressor, b), HandleOf(t, i, fm), BlockBytes(BlockOf(t, i), fm.interval))
    {
      if i < |s.starts| {
        BlockOfStable(s, t, i);
        BlockStays(crc, fm.compressor, file, OnDisk(crc, fm.compressor, b), HandleOf(s, i, fm), BlockBytes(BlockOf(s, i), fm.interval));
      }
    }
  }

  // ---- Filters ----

  // Where the block of entry p begins, or will.
  ghost predicate StartsAt(s: Shape, offset: nat, p: nat, at: nat)
    requires Shaped(s)
  {
    p < |s.es|
    && if s.cuts[|s.starts|] <= p then at == offset
       else exists i: nat :: i < |s.starts| && s.cuts[i] <= p < End(s, i) && at == s.starts[i]
  }

  // Every key is in the filter for the start of its block.
  ghost predicate Filtered(s: Shape, offset: nat, groups: seq<seq<Key>>, pending: seq<Key>)
    requires Shaped(s)
  {
    |groups| == offset / BASE
    && forall p: nat, at: nat :: StartsAt(s, offset, p, at) ==> InStretch(groups, pending, at, s.es[p].0)
  }

  lemma FilteredEntry(s: Shape, e: KeyValue, t: Shape, offset: nat, groups: seq<seq<Key>>, pending: seq<Key>)
    requires Shaped(s) && Shaped(t) && Filtered(s, offset, groups, pending)
    requires t.es == s.es + [e] && t.cuts == s.cuts && t.starts == s.starts
    ensures Filtered(t, offset, groups, pending + [e.0])
  {
    hide KeysOk;
    forall p: nat, at: nat | StartsAt(t, offset, p, at)
      ensures InStretch(groups, pending + [e.0], at, t.es[p].0)
    {
      if p < |s.es| {
        assert StartsAt(s, offset, p, at) by {
          if p < s.cuts[|s.starts|] {
            var i: nat :| i < |t.starts| && t.cuts[i] <= p < End(t, i) && at == t.starts[i];
            assert s.cuts[i] <= p < End(s, i);
          }
        }
        assert InStretch(groups, pending, at, s.es[p].0);
      } else {
        assert at / BASE == |groups|;
        assert AllGroups(groups, pending + [e.0])[|groups|] == pending + [e.0];
      }
    }
  }

  lemma FilteredBlock(s: Shape, t: Shape, offset: nat, offset': nat, groups: seq<seq<Key>>, pending: seq<Key>,
                      groups': seq<seq<Key>>, pending': seq<Key>)
    requires Shaped(s) && Shaped(t) && Filtered(s, offset, groups, pending)
    requires t == WithBlock(s, offset) && |groups'| == offset' / BASE
    requires if |groups'| == |groups| then groups' == groups && pending' == pending else groups + [pending] <= groups'
    ensures Filtered(t, offset', groups', pending')
  {
    hide KeysOk, InStretch;
    forall p: nat, at: nat | StartsAt(t, offset', p, at)
      ensures InStretch(groups', pending', at, t.es[p].0)
    {
      assert t.cuts[|t.starts|] == |s.es|;
      var i: nat :| i < |t.starts| && t.cuts[i] <= p < End(t, i) && at == t.starts[i];
      assert StartsAt(s, offset, p, at) by {
        if i < |s.starts| {
          assert s.cuts[i] <= p < End(s, i);
          assert End(s, i) <= s.cuts[|s.starts|];
        } else {
          assert t.cuts[i] == s.cuts[|s.starts|];
        }
      }
      StartKeeps(groups, pending, groups', pending', at, s.es[p].0);
    }
  }

  // ---- Lookup ----

  // Every entry is in an indexed block.
  ghost predicate Complete(s: Shape, fm: Format)
  {
    IndexOk(s, fm) && |s.index| == |s.starts| && s.cuts[|s.starts|] == |s.es|
  }

  ghost predicate InBlock(s: Shape, i: nat, p: nat)
    requires Shaped(s)
  {
    i < |s.starts| && s.cuts[i] <= p < End(s, i)
  }

  lemma {:induction false} BlockWith(s: Shape, p: nat, n: nat) returns (i: nat)
    requires Shaped(s) && n <= |s.starts| && p < s.cuts[n]
    ensures InBlock(s, i, p)
  {
    hide KeysOk;
    if s.cuts[n - 1] <= p {
      i := n - 1;
    } else {
      i := BlockWith(s, p, n - 1);
    }
  }

  // A separator is at or after all of its block, and before all that follows.
  lemma SeparatorAfter(s: Shape, i: nat, p: nat, fm: Format)
    requires IndexOk(s, fm) && i < |s.index| && p < |s.es|
    ensures p < End(s, i) ==> !InternalLess(s.index[i].0, s.es[p].0)
    ensures p >= End(s, i) ==> InternalLess(s.index[i].0, s.es[p].0)
  {
    hide InternalLess, ClosesBefore, Closes, EncodeHandle, IsInternal, BlockBytes;
    InternalLessIsOrder();
    var q, sep := End(s, i), s.index[i].0;
    assert Separates(s, i, sep);
    if p < q {
      LastCloses(s, i, sep);
      ClosingIsAfter(s.es[q - 1].0, sep);
      assert p < q - 1 ==> InternalLess(s.es[p].0, s.es[q - 1].0);
    } else {
      assert InternalLess(s.es[q - 1].0, s.es[q].0);
      ClosingOrder(s.es[q - 1].0, sep, s.es[q].0);
      assert p > q ==> InternalLess(s.es[q].0, s.es[p].0);
    }
  }

  lemma LastCloses(s: Shape, i: nat, sep: Key)
    requires Shaped(s) && i < |s.starts| && Separates(s, i, sep)
    ensures Closes(s.es[End(s, i) - 1].0, sep)
  {
    hide InternalLess;
  }

  lemma IndexAscending(s: Shape, fm: Format)
    requires IndexOk(s, fm)
    ensures Ascending(s.index, InternalLess)
  {
    hide InternalLess, BlockBytes, EncodeHandle, Separates;
    InternalLessIsOrder();
    forall i, j | 0 <= i < j < |s.index|
      ensures InternalLess(s.index[i].0, s.index[j].0)
    {
      var p := End(s, j) - 1;
      SeparatorAfter(s, i, p, fm);
      SeparatorAfter(s, j, p, fm);
      assert End(s, i) <= p by {
        assert s.cuts[i + 1] <= s.cuts[j];
      }
    }
  }

  // The first entry found in the block the index leads to is the first of all.
  lemma FirstInBlock(s: Shape, fm: Format, k: Key, i: nat, q: nat)
    requires IndexOk(s, fm) && i < |s.index|
    requires AtOrAfter(s.index, InternalLess, k, Some(i)) && AtOrAfter(BlockOf(s, i), InternalLess, k, Some(q))
    ensures AtOrAfter(s.es, InternalLess, k, Some(s.cuts[i] + q))
  {
    hide InternalLess, BlockBytes, EncodeHandle, Separates;
    InternalLessIsOrder();
    var b, from := BlockOf(s, i), s.cuts[i];
    assert s.es[from + q] == b[q];
    forall p: nat | p < from + q
      ensures InternalLess(s.es[p].0, k)
    {
      if p < from {
        assert InternalLess(s.index[i - 1].0, k);
        SeparatorAfter(s, i - 1, p, fm);
      } else {
        assert s.es[p] == b[p - from];
      }
    }
  }

  // If the first entry at or after k has k's user key, then the index leads to its block.
  lemma IndexLeads(s: Shape, fm: Format, k: Key, p: nat, r: Option<nat>)
    requires Complete(s, fm) && IsInternal(k)
    requires AtOrAfter(s.es, InternalLess, k, Some(p)) && UserKey(s.es[p].0) == UserKey(k)
    requires AtOrAfter(s.index, InternalLess, k, r)
    ensures r.Some? && InBlock(s, r.value, p) && AtOrAfter(BlockOf(s, r.value), InternalLess, k, Some(p - s.cuts[r.value]))
  {
    hide InternalLess, BlockBytes, EncodeHandle, Separates, IsInternal;
    InternalLessIsOrder();
    var b := BlockWith(s, p, |s.starts|);
    SeparatorAfter(s, b, p, fm);
    assert !InternalLess(s.index[b].0, k);
    var i := r.value;
    if i < b {
      SeparatorBefore(s, fm, k, p, i, b);
    }
    assert i == b;
    var block := BlockOf(s, b);
    assert block[p - s.cuts[b]] == s.es[p];
  }

  // A separator in front of another block cannot be at or after k: it is the last key of its block, or its
  // user key is smaller.
  lemma SeparatorBefore(s: Shape, fm: Format, k: Key, p: nat, i: nat, b: nat)
    requires Complete(s, fm) && IsInternal(k) && i < b && InBlock(s, b, p)
    requires AtOrAfter(s.es, InternalLess, k, Some(p)) && UserKey(s.es[p].0) == UserKey(k)
    ensures InternalLess(s.index[i].0, k)
  {
    hide BlockBytes, EncodeHandle, Less;
    LessIsOrder();
    var q, sep := End(s, i), s.index[i].0;
    assert s.cuts[i + 1] <= s.cuts[b];
    assert Separates(s, i, sep);
    if sep != s.es[q - 1].0 {
      assert Less(UserKey(sep), UserKey(s.es[q].0));
      assert q < p ==> InternalLess(s.es[q].0, s.es[p].0);
    }
  }
}
