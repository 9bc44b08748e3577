/**
 An index over blocks as one run: a cursor on the index, and a cursor on the block it points to.  For a
 table the blocks are data blocks; for a level, the tables themselves.
 */
module TwoLevelIterators {
  import opened Wrappers
  import opened DbFormat
  import opened Cursors

  // An index entry: a key no entry of its block exceeds, and the handle of the block.
  datatype IndexEntry = IndexEntry(separator: IKey, handle: nat)

  // The entries of the blocks from the i-th on, up to the j-th.
  function Flat(index: seq<IndexEntry>, block: nat -> seq<Entry>, j: nat): seq<Entry>
    requires j <= |index|
  {
    if j == 0 then [] else Flat(index, block, j - 1) + block(index[j - 1].handle)
  }

  // Every block is sorted, ends at or before its separator, and begins after the one before.
  ghost predicate IndexOk(index: seq<IndexEntry>, block: nat -> seq<Entry>) {
    (forall i :: 0 <= i < |index| ==> Sorted(block(index[i].handle)))
    && (forall i, e :: 0 <= i < |index| && e in block(index[i].handle) ==> !Less(index[i].separator, e.Ikey()))
    && (forall i, j :: 0 <= i < j < |index| ==> Less(index[i].separator, index[j].separator))
    && forall i, e :: 0 < i < |index| && e in block(index[i].handle) ==> Less(index[i - 1].separator, e.Ikey())
  }

  // Entry p of block i is entry |Flat(i)| + p of the whole.
  lemma {:induction false} FlatAt(index: seq<IndexEntry>, block: nat -> seq<Entry>, j: nat, i: nat)
    requires i < j <= |index|
    ensures |Flat(index, block, i + 1)| <= |Flat(index, block, j)|
    ensures Flat(index, block, i + 1) == Flat(index, block, i) + block(index[i].handle)
    ensures Flat(index, block, j)[|Flat(index, block, i)|..|Flat(index, block, i + 1)|] == block(index[i].handle)
  {
    if i < j - 1 {
      FlatAt(index, block, j - 1, i);
      var a, b := Flat(index, block, j - 1), block(index[j - 1].handle);
      assert (a + b)[|Flat(index, block, i)|..|Flat(index, block, i + 1)|]
          == a[|Flat(index, block, i)|..|Flat(index, block, i + 1)|];
    }
  }

  lemma {:induction false} FlatMembers(index: seq<IndexEntry>, block: nat -> seq<Entry>, j: nat, e: Entry)
    requires j <= |index|
    ensures e in Flat(index, block, j) <==> exists i :: 0 <= i < j && e in block(index[i].handle)
  {
    if j > 0 {
      FlatMembers(index, block, j - 1, e);
    }
  }

  // The blocks up to j end at or before the separator of the last.
  lemma FlatUpTo(index: seq<IndexEntry>, block: nat -> seq<Entry>, j: nat, e: Entry)
    requires IndexOk(index, block) && 0 < j <= |index| && e in Flat(index, block, j)
    ensures !Less(index[j - 1].separator, e.Ikey())
  {
    FlatMembers(index, block, j, e);
    var i :| 0 <= i < j && e in block(index[i].handle);
    if i < j - 1 {
      assert Less(index[i].separator, index[j - 1].separator);
    }
  }

  lemma {:induction false} FlatSorted(index: seq<IndexEntry>, block: nat -> seq<Entry>, j: nat)
    requires IndexOk(index, block) && j <= |index|
    ensures Sorted(Flat(index, block, j))
  {
    if j > 0 {
      FlatSorted(index, block, j - 1);
      var a, b := Flat(index, block, j - 1), block(index[j - 1].handle);
      forall x, y | 0 <= x < |a| && 0 <= y < |b|
        ensures Less(a[x].Ikey(), b[y].Ikey())
      {
        FlatUpTo(index, block, j - 1, a[x]);
        assert b[y] in b;
      }
      assert Sorted(b);
    }
  }

  // A cursor on one block, made for a handle.
  datatype DataIter = DataIter(handle: nat, pos: Option<nat>)

  class TwoLevelIterator {
    const index: seq<IndexEntry>
    const block: nat -> seq<Entry>
    var indexPos: Option<nat>
    var data: Option<DataIter>

    ghost function View(): seq<Entry> {
      Flat(index, block, |index|)
    }

    ghost function Offset(i: nat): nat
      requires i <= |index|
    {
      |Flat(index, block, i)|
    }

    // Positions are in range, and a data cursor belongs to the block the index points to.
    ghost predicate Attached()
      reads this
    {
      IndexOk(index, block)
      && (indexPos.Some? ==> indexPos.value < |index|)
      && (data.Some? ==> indexPos.Some? && data.value.handle == index[indexPos.value].handle
                         && (data.value.pos.Some? ==> data.value.pos.value < |block(data.value.handle)|))
    }

    // Between calls: on an entry, or with no data cursor at all.
    ghost predicate Ok()
      reads this
    {
      Attached() && (data.Some? ==> data.value.pos.Some?)
    }

    ghost function Pos(): (r: Option<nat>)
      reads this
      requires Ok()
      ensures r.Some? <==> Valid()
    {
      if data.Some? then Some(Offset(indexPos.value) + data.value.pos.value) else None
    }

    constructor (index: seq<IndexEntry>, block: nat -> seq<Entry>)
      requires IndexOk(index, block)
      ensures Ok() && Pos() == None && this.index == index && this.block == block
    {
      this.index, this.block, indexPos, data := index, block, None, None;
    }

    predicate Valid()
      reads this
    {
      data.Some? && data.value.pos.Some?
    }

    function Current(): (e: Entry)
      reads this
      requires Ok() && Valid()
      ensures Pos().Some? && Pos().value < |View()| && e == View()[Pos().value]
    {
      FlatAt(index, block, |index|, indexPos.value);
      assert View()[Offset(indexPos.value)..Offset(indexPos.value + 1)][data.value.pos.value]
          == View()[Offset(indexPos.value) + data.value.pos.value];
      block(data.value.handle)[data.value.pos.value]
    }

    // InitDataBlock: no cursor without a block; the cursor at hand is kept if it is on the right block.
    method InitDataBlock()
      requires IndexOk(index, block) && (indexPos.Some? ==> indexPos.value < |index|)
      requires data.Some? && data.value.pos.Some? ==> data.value.pos.value < |block(data.value.handle)|
      modifies this`data
      ensures Attached() && (data.Some? <==> indexPos.Some?)
    {
      if indexPos.None? {
        data := None;
      } else {
        var handle := index[indexPos.value].handle;
        if data.Some? && handle == data.value.handle {
        } else {
          data := Some(DataIter(handle, None));
        }
      }
    }

    method SeekData(cut: Cut)
      requires Attached()
      modifies this`data
      ensures Attached() && (data.Some? <==> old(data.Some?))
      ensures data.Some? ==> data.value.handle == old(data.value.handle) && data.value.pos == PosFrom(block(data.value.handle), cut)
    {
      if data.Some? {
        data := Some(data.value.(pos := PosFrom(block(data.value.handle), cut)));
      }
    }

    method SeekDataToLast()
      requires Attached()
      modifies this`data
      ensures Attached() && (data.Some? <==> old(data.Some?))
      ensures data.Some? ==> data.value.handle == old(data.value.handle) && data.value.pos == PosTo(block(data.value.handle), End)
    {
      if data.Some? {
        LastIsEnd(block(data.value.handle));
        var n := |block(data.value.handle)|;
        data := Some(data.value.(pos := if n > 0 then Some(n - 1) else None));
      }
    }

    static lemma LastIsEnd(es: seq<Entry>)
      ensures CountBelow(es, End) == |es|
    {}

    // Past empty blocks and exhausted ones to the first entry of a later block.
    method SkipEmptyDataBlocksForward()
      requires Attached() && (data.None? ==> indexPos.None?)
      modifies this`indexPos, this`data
      ensures Ok()
      ensures old(Valid()) ==> indexPos == old(indexPos) && data == old(data)
      ensures !old(Valid()) ==> Pos() == if old(indexPos).None? then None
                                         else From(Offset(old(indexPos).value + 1))
    {
      ghost var target := if indexPos.Some? then Offset(indexPos.value + 1) else |View()|;
      ghost var start := Valid();
      while data.None? || data.value.pos.None?
        invariant Attached() && (data.None? ==> indexPos.None?)
        invariant start ==> indexPos == old(indexPos) && data == old(data)
        invariant !start ==> if Valid() then data.value.pos == Some(0) && Offset(indexPos.value) == target
                             else if indexPos.Some? then Offset(indexPos.value + 1) == target
                             else target == |View()|
        decreases if indexPos.Some? then |index| - indexPos.value else 0, data.Some?
      {
        if indexPos.None? {
          data := None;
          return;
        }
        indexPos := NextPos(|index|, indexPos.value);
        InitDataBlock();
        SeekData(Start);
        if indexPos.Some? {
          FlatAt(index, block, |index|, indexPos.value);
        }
      }
      if !start {
        FlatAt(index, block, |index|, indexPos.value);
      }
    }

    // The position of the n-th entry, if there are that many.
    ghost function From(n: nat): Option<nat> {
      if n < |View()| then Some(n) else None
    }

    method SkipEmptyDataBlocksBackward()
      requires Attached() && (data.None? ==> indexPos.None?)
      modifies this`indexPos, this`data
      ensures Ok()
      ensures old(Valid()) ==> indexPos == old(indexPos) && data == old(data)
      ensures !old(Valid()) ==> Pos() == if old(indexPos).None? then None
                                         else PrevPos(Offset(old(indexPos).value))
    {
      ghost var target := if indexPos.Some? then Offset(indexPos.value) else 0;
      ghost var start := Valid();
      while data.None? || data.value.pos.None?
        invariant Attached() && (data.None? ==> indexPos.None?)
        invariant start ==> indexPos == old(indexPos) && data == old(data)
        invariant !start ==> if Valid() then Offset(indexPos.value) + data.value.pos.value + 1 == target
                             else if indexPos.Some? then Offset(indexPos.value) == target
                             else target == 0
        decreases if indexPos.Some? then indexPos.value + 1 else 0, data.Some?
      {
        if indexPos.None? {
          data := None;
          return;
        }
        indexPos := PrevPos(indexPos.value);
        InitDataBlock();
        SeekDataToLast();
        if indexPos.Some? {
          FlatAt(index, block, |index|, indexPos.value);
        }
      }
    }

    // ---- The cursor: each operation does on the whole run what it would on one sorted list ----

    method Seek(target: IKey)
      requires Ok()
      modifies this`indexPos, this`data
      ensures Ok() && Pos() == PosFrom(View(), Before(target))
    {
      hide CountBelow, Flat, FirstSeparator;
      indexPos := SeekIndex(target);
      InitDataBlock();
      SeekData(Before(target));
      ghost var i := indexPos;
      SeekSplits(target, i);
      SkipEmptyDataBlocksForward();
    }

    method SeekToFirst()
      requires Ok()
      modifies this`indexPos, this`data
      ensures Ok() && Pos() == PosFrom(View(), Start)
    {
      indexPos := if |index| > 0 then Some(0) else None;
      InitDataBlock();
      SeekData(Start);
      if indexPos.Some? {
        FlatAt(index, block, |index|, 0);
      }
      SkipEmptyDataBlocksForward();
    }

    method SeekToLast()
      requires Ok()
      modifies this`indexPos, this`data
      ensures Ok() && Pos() == PosTo(View(), End)
    {
      hide CountBelow, Flat;
      indexPos := if |index| > 0 then Some(|index| - 1) else None;
      InitDataBlock();
      SeekDataToLast();
      LastIsEnd(View());
      FlatNothing(index, block);
      if data.Some? {
        LastIsEnd(block(data.value.handle));
      }
      if indexPos.Some? {
        FlatAt(index, block, |index|, indexPos.value);
      }
      SkipEmptyDataBlocksBackward();
    }

    method Next()
      requires Ok() && Valid()
      modifies this`indexPos, this`data
      ensures Ok() && Pos() == NextPos(|View()|, old(Pos()).value)
    {
      FlatAt(index, block, |index|, indexPos.value);
      data := Some(data.value.(pos := NextPos(|block(data.value.handle)|, data.value.pos.value)));
      SkipEmptyDataBlocksForward();
    }

    method Prev()
      requires Ok() && Valid()
      modifies this`indexPos, this`data
      ensures Ok() && Pos() == PrevPos(old(Pos()).value)
    {
      data := Some(data.value.(pos := PrevPos(data.value.pos.value)));
      SkipEmptyDataBlocksBackward();
    }

    // The index cursor's own seek: the first separator at or after the target.
    function SeekIndex(target: IKey): (r: Option<nat>)
      requires IndexOk(index, block)
      ensures r.Some? ==> r.value < |index| && !Less(index[r.value].separator, target)
      ensures forall i :: 0 <= i < (if r.Some? then r.value else |index|) ==> Less(index[i].separator, target)
    {
      var i := FirstSeparator(index, target);
      if i < |index| then Some(i) else None
    }

    lemma SeekSplits(target: IKey, i: Option<nat>)
      requires IndexOk(index, block) && i == SeekIndex(target)
      ensures i.None? ==> PosFrom(View(), Before(target)) == None
      ensures i.Some? ==>
                var b := block(index[i.value].handle);
                CountBelow(View(), Before(target)) == Offset(i.value) + CountBelow(b, Before(target))
                && Offset(i.value + 1) == Offset(i.value) + |b| <= |View()|
    {
      FlatSorted(index, block, |index|);
      var view := View();
      if i.None? {
        forall j | 0 <= j < |view|
          ensures Below(Before(target), view[j].Ikey())
        {
          if |index| > 0 {
            FlatUpTo(index, block, |index|, view[j]);
          }
        }
        CountIs(view, Before(target), |view|);
      } else {
        FlatAt(index, block, |index|, i.value);
        CountInBlock(target, i.value);
      }
    }

    lemma CountInBlock(target: IKey, i: nat)
      requires IndexOk(index, block) && SeekIndex(target) == Some(i)
      ensures CountBelow(View(), Before(target)) == Offset(i) + CountBelow(block(index[i].handle), Before(target))
    {
      hide Flat, CountBelow, FirstSeparator;
      var view, b, cut := View(), block(index[i].handle), Before(target);
      FlatAt(index, block, |index|, i);
      FlatSorted(index, block, |index|);
      CountSplits(b, cut);
      var c := Offset(i) + CountBelow(b, cut);
      FlatNothing(index, block);
      forall j | 0 <= j < |view|
        ensures Below(cut, view[j].Ikey()) <==> j < c
      {
        if j < Offset(i) {
          EarlierBlock(target, i, j);
        } else if j < Offset(i + 1) {
          assert view[j] == view[Offset(i)..Offset(i + 1)][j - Offset(i)];
        } else {
          LaterBlock(index, block, i, j);
        }
      }
      CountIs(view, cut, c);
    }

    lemma EarlierBlock(target: IKey, i: nat, j: nat)
      requires IndexOk(index, block) && SeekIndex(target) == Some(i) && 0 < i < |index| && j < Offset(i) <= |View()|
      ensures Less(View()[j].Ikey(), target)
    {
      hide Flat, FirstSeparator;
      FlatPrefix(index, block, |index|, i);
      assert View()[j] == Flat(index, block, i)[j];
      FlatUpTo(index, block, i, View()[j]);
    }
  }

  lemma FlatNothing(index: seq<IndexEntry>, block: nat -> seq<Entry>)
    ensures Flat(index, block, 0) == []
  {}

  function FirstSeparator(index: seq<IndexEntry>, target: IKey): (i: nat)
    ensures i <= |index| && (forall j :: 0 <= j < i ==> Less(index[j].separator, target))
    ensures i < |index| ==> !Less(index[i].separator, target)
  {
    if index == [] || !Less(index[0].separator, target) then 0 else 1 + FirstSeparator(index[1..], target)
  }

  lemma {:induction false} FlatPrefix(index: seq<IndexEntry>, block: nat -> seq<Entry>, j: nat, i: nat)
    requires i <= j <= |index|
    ensures |Flat(index, block, i)| <= |Flat(index, block, j)|
    ensures Flat(index, block, j)[..|Flat(index, block, i)|] == Flat(index, block, i)
  {
    if i < j {
      FlatPrefix(index, block, j - 1, i);
    }
  }

  // What follows block i lies beyond its separator.
  lemma LaterBlock(index: seq<IndexEntry>, block: nat -> seq<Entry>, i: nat, x: nat)
    requires IndexOk(index, block) && i < |index| && |Flat(index, block, i + 1)| <= x < |Flat(index, block, |index|)|
    ensures Less(index[i].separator, Flat(index, block, |index|)[x].Ikey())
  {
    LaterBlockUpTo(index, block, i, x, |index|);
  }

  lemma {:induction false} LaterBlockUpTo(index: seq<IndexEntry>, block: nat -> seq<Entry>, i: nat, x: nat, j: nat)
    requires IndexOk(index, block) && i < j <= |index| && |Flat(index, block, i + 1)| <= x < |Flat(index, block, j)|
    ensures Less(index[i].separator, Flat(index, block, j)[x].Ikey())
  {
    var a, b := Flat(index, block, j - 1), block(index[j - 1].handle);
    if x < |a| {
      LaterBlockUpTo(index, block, i, x, j - 1);
    } else {
      var e := b[x - |a|];
      assert e in b && i < j - 1;
      assert i < j - 2 ==> Less(index[i].separator, index[j - 2].separator);
      assert Less(index[j - 2].separator, e.Ikey());
    }
  }
}
