/** The iterators a database puts together: one for each memtable and level-0 file, one for each other level. */
module RunIterators {
  import opened Wrappers
  import opened DbFormat
  import opened Versions
  import opened Cursors
  import opened TwoLevelIterators
  import opened Merger

  // ---- One run ----

  // MemTable::NewIterator, or TableCache::NewIterator: a cursor on one sorted run.
  method RunIterator(es: seq<Entry>) returns (it: TwoLevelIterator)
    requires Sorted(es)
    ensures fresh(it) && it.Ok() && it.View() == es
  {
    var index := if es == [] then [] else [IndexEntry(es[|es| - 1].Ikey(), 0)];
    var block := (h: nat) => es;
    OneRun(es, index, block);
    it := new TwoLevelIterator(index, block);
  }

  lemma {:induction false} OneRun(es: seq<Entry>, index: seq<IndexEntry>, block: nat -> seq<Entry>)
    requires Sorted(es) && (forall h: nat :: block(h) == es)
    requires index == if es == [] then [] else [IndexEntry(es[|es| - 1].Ikey(), 0)]
    ensures IndexOk(index, block) && Flat(index, block, |index|) == es
  {
    if es != [] {
      forall e | e in es
        ensures !Less(es[|es| - 1].Ikey(), e.Ikey())
      {
        var j: nat :| j < |es| && es[j] == e;
      }
      assert Flat(index, block, 0) == [];
      assert Flat(index, block, 1) == [] + es;
    }
  }

  // Version::NewConcatenatingIterator: the files of a sorted level one after the other.
  method LevelIterator(files: seq<File>) returns (it: TwoLevelIterator)
    requires LevelSorted(files) && forall f :: f in files ==> FileOk(f)
    ensures fresh(it) && it.Ok() && Sorted(it.View()) && Elements(it.View()) == LevelEntries(files)
  {
    var index := seq(|files|, i requires 0 <= i < |files| => IndexEntry(files[i].largest, i));
    var block := (h: nat) => if h < |files| then files[h].entries else [];
    FilesIndexed(files, index, block);
    it := new TwoLevelIterator(index, block);
  }

  ghost predicate Indexes(files: seq<File>, index: seq<IndexEntry>, block: nat -> seq<Entry>) {
    |index| == |files|
    && forall i: nat :: i < |files| ==> index[i] == IndexEntry(files[i].largest, i) && block(i) == files[i].entries
  }

  lemma {:induction false} FilesIndexed(files: seq<File>, index: seq<IndexEntry>, block: nat -> seq<Entry>)
    requires LevelSorted(files) && (forall f :: f in files ==> FileOk(f)) && Indexes(files, index, block)
    ensures IndexOk(index, block) && Sorted(Flat(index, block, |index|))
    ensures Elements(Flat(index, block, |index|)) == LevelEntries(files)
  {
    forall i: nat | i < |files|
      ensures Sorted(block(index[i].handle)) && forall e :: e in block(index[i].handle) ==> !Less(index[i].separator, e.Ikey())
    {
      UpToSeparator(files, index, block, i);
    }
    forall i: nat, j: nat | i < j < |files|
      ensures Less(index[i].separator, index[j].separator)
      ensures forall e :: e in block(index[j].handle) ==> Less(index[i].separator, e.Ikey())
    {
      BeyondSeparator(files, index, block, i, j);
    }
    hide FileOk, Sorted, LevelSorted, Indexes;
    assert IndexOk(index, block);
    hide IndexOk, Flat;
    FlatSorted(index, block, |index|);
    forall e
      ensures e in Flat(index, block, |index|) <==> e in LevelEntries(files)
    {
      FlatMembers(index, block, |index|, e);
      InSomeFile(files, index, block, e);
    }
  }

  lemma {:induction false} UpToSeparator(files: seq<File>, index: seq<IndexEntry>, block: nat -> seq<Entry>, i: nat)
    requires (forall f :: f in files ==> FileOk(f)) && Indexes(files, index, block) && i < |files|
    ensures Sorted(block(index[i].handle)) && forall e :: e in block(index[i].handle) ==> !Less(index[i].separator, e.Ikey())
  {
    assert files[i] in files;
    forall e | e in files[i].entries
      ensures !Less(files[i].largest, e.Ikey())
    {
      EntryInRange(files[i], e);
    }
  }

  lemma {:induction false} BeyondSeparator(files: seq<File>, index: seq<IndexEntry>, block: nat -> seq<Entry>, i: nat, j: nat)
    requires LevelSorted(files) && (forall f :: f in files ==> FileOk(f)) && Indexes(files, index, block) && i < j < |files|
    ensures Less(index[i].separator, index[j].separator)
    ensures forall e :: e in block(index[j].handle) ==> Less(index[i].separator, e.Ikey())
  {
    assert files[j] in files;
    FileSpans(files[j]);
    forall e | e in files[j].entries
      ensures Less(files[i].largest, e.Ikey())
    {
      EntryInRange(files[j], e);
    }
  }

  lemma {:induction false} InSomeFile(files: seq<File>, index: seq<IndexEntry>, block: nat -> seq<Entry>, e: Entry)
    requires Indexes(files, index, block)
    ensures e in LevelEntries(files) <==> exists i :: 0 <= i < |index| && e in block(index[i].handle)
  {
    if e in LevelEntries(files) {
      var f :| f in files && e in f.entries;
      var i: nat :| i < |files| && files[i] == f;
      assert e in block(index[i].handle);
    }
    if i :| 0 <= i < |index| && e in block(index[i].handle) {
      assert files[i] in files && e in files[i].entries;
    }
  }

  // ---- Several runs ----

  ghost predicate KeysDiffer(a: set<Entry>, b: set<Entry>) {
    forall e, f :: e in a && f in b ==> e.Ikey() != f.Ikey()
  }

  // All entries of some runs.
  ghost function Together(runs: seq<seq<Entry>>): set<Entry> {
    if runs == [] then {} else Together(runs[..|runs| - 1]) + Elements(runs[|runs| - 1])
  }

  // Sorted runs with no internal key in two of them.
  ghost predicate RunsOk(runs: seq<seq<Entry>>) {
    runs == [] || (RunsOk(runs[..|runs| - 1]) && Sorted(runs[|runs| - 1])
                   && KeysDiffer(Together(runs[..|runs| - 1]), Elements(runs[|runs| - 1])))
  }

  // Iterators over the runs, one each.
  ghost predicate Serve(list: seq<TwoLevelIterator>, runs: seq<seq<Entry>>)
    reads list
  {
    |list| == |runs| && (forall i, j :: 0 <= i < j < |list| ==> list[i] != list[j])
    && forall i :: 0 <= i < |list| ==> list[i].Ok() && list[i].View() == runs[i]
  }

  lemma RunsNext(runs: seq<seq<Entry>>, run: seq<Entry>)
    ensures Together(runs + [run]) == Together(runs) + Elements(run)
    ensures RunsOk(runs + [run]) <==> RunsOk(runs) && Sorted(run) && KeysDiffer(Together(runs), Elements(run))
  {
    assert (runs + [run])[..|runs|] == runs;
  }

  lemma {:induction false} TogetherMembers(runs: seq<seq<Entry>>, e: Entry)
    ensures e in Together(runs) <==> exists i :: 0 <= i < |runs| && e in runs[i]
  {
    if runs != [] {
      TogetherMembers(runs[..|runs| - 1], e);
    }
  }

  lemma {:induction false} RunsApart(runs: seq<seq<Entry>>, i: nat, j: nat)
    requires RunsOk(runs) && i < |runs|
    ensures Sorted(runs[i])
    ensures i < j < |runs| ==> KeysDiffer(Elements(runs[i]), Elements(runs[j]))
  {
    var n := |runs| - 1;
    if i < n {
      RunsApart(runs[..n], i, j);
      if j == n {
        forall e | e in runs[i]
          ensures e in Together(runs[..n])
        {
          TogetherMembers(runs[..n], e);
          assert e in runs[..n][i];
        }
      }
    }
  }

  // The runs have a sorted union.
  lemma {:induction false} Unite(runs: seq<seq<Entry>>) returns (view: seq<Entry>)
    requires RunsOk(runs)
    ensures Sorted(view) && Elements(view) == Together(runs)
  {
    if runs == [] {
      view := [];
    } else {
      var front := Unite(runs[..|runs| - 1]);
      view := UniteTwo(front, runs[|runs| - 1], |runs[|runs| - 1]|);
      assert runs[|runs| - 1][..|runs[|runs| - 1]|] == runs[|runs| - 1];
    }
  }

  lemma {:induction false} UniteTwo(a: seq<Entry>, b: seq<Entry>, n: nat) returns (view: seq<Entry>)
    requires Sorted(a) && Sorted(b) && n <= |b| && KeysDiffer(Elements(a), Elements(b))
    ensures Sorted(view) && Elements(view) == Elements(a) + Elements(b[..n])
  {
    if n == 0 {
      view := a;
      assert b[..0] == [];
    } else {
      var front := UniteTwo(a, b, n - 1);
      var e := b[n - 1];
      assert b[..n] == b[..n - 1] + [e];
      hide Sorted, Insert;
      forall f | f in front
        ensures f.Ikey() != e.Ikey()
      {
        assert f in Elements(front);
        NotYetIn(a, b, n - 1, f);
      }
      InsertSorted(front, e);
      view := Insert(front, e);
      assert Elements(b[..n]) == Elements(b[..n - 1]) + {e};
    }
  }

  lemma NotYetIn(a: seq<Entry>, b: seq<Entry>, n: nat, f: Entry)
    requires Sorted(b) && n < |b| && KeysDiffer(Elements(a), Elements(b)) && (f in a || f in b[..n])
    ensures f.Ikey() != b[n].Ikey()
  {
    if f in a {
      assert f in Elements(a) && b[n] in Elements(b);
    } else {
      var i: nat :| i < n && b[i] == f;
      assert Less(b[i].Ikey(), b[n].Ikey());
    }
  }

  lemma UnionOf(runs: seq<seq<Entry>>, view: seq<Entry>)
    requires RunsOk(runs) && Sorted(view) && Elements(view) == Together(runs)
    ensures Union(runs, view)
  {
    hide RunsOk, Sorted, Together;
    forall i, j, e, f | 0 <= i < j < |runs| && e in runs[i] && f in runs[j]
      ensures e.Ikey() != f.Ikey()
    {
      RunsApart(runs, i, j);
      assert e in Elements(runs[i]) && f in Elements(runs[j]);
    }
    forall i | 0 <= i < |runs|
      ensures Sorted(runs[i])
    {
      RunsApart(runs, i, i);
    }
    forall e
      ensures e in view <==> exists i :: 0 <= i < |runs| && e in runs[i]
    {
      TogetherMembers(runs, e);
      assert e in view <==> e in Elements(view);
    }
  }

  // NewMergingIterator
  method MergeRuns(list: seq<TwoLevelIterator>, ghost runs: seq<seq<Entry>>) returns (it: MergingIterator)
    requires Serve(list, runs) && RunsOk(runs)
    ensures fresh(it) && it.Ok() && it.Pos() == None && it.children == list && Elements(it.view) == Together(runs)
  {
    ghost var view := Unite(runs);
    UnionOf(runs, view);
    hide RunsOk, Together, Union, TwoLevelIterator.Ok, TwoLevelIterator.View;
    assert seq(|list|, i requires 0 <= i < |list| => list[i].View()) == runs;
    it := new MergingIterator(list, view);
  }

  // One more run in the list.
  method AddRun(list: seq<TwoLevelIterator>, ghost runs: seq<seq<Entry>>, it: TwoLevelIterator)
    returns (list': seq<TwoLevelIterator>, ghost runs': seq<seq<Entry>>)
    requires Serve(list, runs) && RunsOk(runs) && it !in list && it.Ok() && Sorted(it.View())
    requires KeysDiffer(Together(runs), Elements(it.View()))
    ensures list' == list + [it] && Serve(list', runs') && RunsOk(runs')
    ensures Together(runs') == Together(runs) + Elements(it.View())
  {
    hide Sorted, RunsOk, Together, TwoLevelIterator.Ok, TwoLevelIterator.View;
    list' := list + [it];
    runs' := runs + [it.View()];
    RunsNext(runs, it.View());
  }

  // All that an iterator goes through, from the first entry to the last.
  method Drain(it: MergingIterator) returns (es: seq<Entry>)
    requires it.Ok()
    modifies it, it.children
    ensures it.Ok() && es == it.view
  {
    hide MergingIterator.Ok, MergingIterator.Pos, MergingIterator.Valid, MergingIterator.Current;
    es := [];
    it.SeekToFirst();
    FirstPos(it.view);
    ghost var n := |it.view|;
    ValidIsPos(it);
    while it.Valid()
      invariant it.Ok() && |es| <= n == |it.view| && es == it.view[..|es|]
      invariant it.Pos() == if |es| < n then Some(|es|) else None
      invariant it.Valid() <==> it.Pos().Some?
      decreases n - |es|
    {
      it.CurrentAtPos();
      var e := it.Current();
      assert it.view[..|es| + 1] == it.view[..|es|] + [e];
      it.Next();
      es := es + [e];
      ValidIsPos(it);
    }
    assert it.view[..n] == it.view;
  }

  lemma ValidIsPos(it: MergingIterator)
    requires it.Ok()
    ensures it.Valid() <==> it.Pos().Some?
  {
    hide TwoLevelIterator.Ok, TwoLevelIterator.View, Union, CountBelow;
  }

  lemma FirstPos(view: seq<Entry>)
    ensures PosFrom(view, Start) == if |view| > 0 then Some(0) else None
  {}
}
