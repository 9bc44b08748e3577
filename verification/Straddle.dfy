/**
 Why no user key may straddle two files of a level: two runs from a new database, through writes, flushes
 and a merge under a live snapshot whose output is cut between two versions of a key, to a wrong read.
 */
module Straddles {
  import opened Wrappers
  import opened DbFormat
  import opened Versions
  import opened VersionBuilder
  import opened CompactionInputs
  import opened CompactionWork
  import opened Trees
  import opened Lsm

  function FileOf(number: nat, es: seq<Entry>): File
    requires es != []
  {
    File(number, 1, es[0].Ikey(), es[|es| - 1].Ikey(), es)
  }

  // The number of entries stands for the size of a file.
  function Count(es: seq<Entry>): nat {
    |es|
  }

  lemma CutAfterOne(e: Entry, e': Entry)
    ensures CutBySize([e, e'], 1, Count).Tables() == [[e], [e']]
  {
    assert [] + [e] == [e] && [e] + [e'] == [e, e'];
    assert CutBySize([], 1, Count) == Cutting([], []);
    CutNext([], e, 1, Count);
    assert CutBySize([e], 1, Count) == Cutting([[e]], []);
    hide CutBySize;
    CutNext([e], e', 1, Count);
    assert [] + [e'] == [e'];
    assert [[e]] + [[e']] == [[e], [e']];
  }

  lemma CutAfterTwo(e: Entry, e': Entry, e'': Entry)
    ensures CutBySize([e, e', e''], 2, Count).Tables() == [[e, e'], [e'']]
  {
    assert [] + [e] == [e] && [e] + [e'] == [e, e'] && [e, e'] + [e''] == [e, e', e''];
    assert CutBySize([], 2, Count) == Cutting([], []);
    CutNext([], e, 2, Count);
    hide CutBySize;
    assert CutBySize([e], 2, Count) == Cutting([], [e]);
    CutNext([e], e', 2, Count);
    assert CutBySize([e, e'], 2, Count) == Cutting([[e, e']], []);
    CutNext([e, e'], e'', 2, Count);
    assert [] + [e''] == [e''];
    assert [[e, e']] + [[e'']] == [[e, e'], [e'']];
  }

  // A tree with files at two levels only.
  function Levels(l: nat, fs: seq<File>, m: nat, gs: seq<File>): Version {
    seq(NUM_LEVELS, i => if i == l then fs else if i == m then gs else [])
  }

  ghost predicate Holds(v: Version, l: nat, fs: seq<File>, m: nat, gs: seq<File>) {
    l < m < NUM_LEVELS && v[l] == fs && v[m] == gs && (forall i: nat :: i < NUM_LEVELS && i != l && i != m ==> v[i] == [])
    && forall i: nat, f {:trigger f in v[i]} :: i < NUM_LEVELS ==> (f in v[i] <==> (i == l && f in fs) || (i == m && f in gs))
  }

  lemma LevelsHold(l: nat, fs: seq<File>, m: nat, gs: seq<File>)
    requires l < m < NUM_LEVELS
    ensures Holds(Levels(l, fs, m, gs), l, fs, m, gs)
  {}

  lemma NothingElsewhere(v: Version)
    requires forall i: nat :: i < NUM_LEVELS ==> |v[i]| <= 2 && (|v[i]| == 2 ==> Before(v[i][0], v[i][1]))
    ensures VersionOrdered(v)
  {
    forall l | 0 <= l < NUM_LEVELS
      ensures Ordered(v[l])
    {}
  }

  lemma NothingElsewhere1(v: Version, l: nat, fs: seq<File>, m: nat, gs: seq<File>)
    requires Holds(v, l, fs, m, gs) && |fs| <= 2 && |gs| <= 2
    requires (|fs| == 2 ==> Before(fs[0], fs[1])) && (|gs| == 2 ==> Before(gs[0], gs[1]))
    ensures VersionOrdered(v)
  {
    NothingElsewhere(v);
  }

  // A database as it must be, with empty memtables.
  ghost predicate Stands(v: Version, next: nat, es: set<Entry>, last: nat, snap: nat) {
    Inv([], None, v, next, es, last, snap) && FilesAge(v)
  }

  lemma NewDatabase()
    ensures Stands(Levels(1, [], 2, []), 2, {}, 0, 0) && NoStraddle(Levels(1, [], 2, []))
  {
    EmptyInv();
    assert Levels(1, [], 2, []) == [[], [], [], [], [], [], []];
  }

  lemma EntriesOfTwo(v: Version, l: nat, fs: seq<File>, m: nat, gs: seq<File>)
    requires Holds(v, l, fs, m, gs)
    ensures VersionEntries(v) == LevelEntries(fs) + LevelEntries(gs)
  {
    forall e
      ensures e in VersionEntries(v) <==> e in LevelEntries(fs) || e in LevelEntries(gs)
    {
      if e in LevelEntries(fs) {
        var f :| f in fs && e in f.entries;
        assert f in v[l];
      }
      if e in LevelEntries(gs) {
        var f :| f in gs && e in f.entries;
        assert f in v[m];
      }
    }
  }

  lemma EntriesOfFiles(f: File, g: File)
    ensures LevelEntries([]) == {} && LevelEntries([f]) == Elements(f.entries)
    ensures LevelEntries([f, g]) == Elements(f.entries) + Elements(g.entries)
  {
    assert f in [f] && f in [f, g] && g in [f, g];
  }

  lemma IsKeptInto(v: Version, level: nat, inputs0: seq<File>, inputs1: seq<File>, snap: nat, input: seq<Entry>, outs: seq<File>)
    requires Sorted(input) && Elements(input) == LevelEntries(inputs0) + LevelEntries(inputs1)
    requires LevelEntries(outs) == Elements(Kept(input, |input|, snap, v, level))
    ensures KeptInto(v, level, inputs0, inputs1, snap, input, outs)
  {}

  // A merge from a tree no key straddles, whatever it is cut into.
  lemma MergeOnce(v: Version, next: nat, history: set<Entry>, last: nat, snap: nat, level: nat, inputs0: seq<File>, inputs1: seq<File>,
                  input: seq<Entry>, outs: seq<File>, v': Version)
    requires Stands(v, next, history, last, snap) && NoStraddle(v) && level < NUM_LEVELS
    requires InputsOk(v, level, inputs0, inputs1) && OutputsOk(inputs0, inputs1, outs, next)
    requires VersionOrdered(v') && Replaced(v, level, inputs0, inputs1, outs, v')
    requires KeptInto(v, level, inputs0, inputs1, snap, input, outs)
    ensures Stands(v', next + |outs|, history, last, snap)
  {
    DBImpl.ApartIsSafe([], None, v, next, history, last, snap, level, inputs0, inputs1);
    InvTree([], None, v, next, history, last, snap);
    assert TreeOk(v, next);
    hide Inv, TreeOk, FilesAge, NoStraddle, InputsOk, OutputsOk, Replaced, VersionOrdered, KeptInto, AgeSafe, NothingResurrects;
    CompactKeeps([], None, v, next, history, last, snap, level, inputs0, inputs1, input, outs, v');
    CompactKeepsTree(v, next, level, inputs0, inputs1, snap, input, outs, v');
  }

  // ---- Writing and flushing ----

  // A table of these entries comes to rest on this level, and v' is the tree with it.
  ghost predicate FlushedAt(v: Version, f: File, level: nat, v': Version) {
    level < NUM_LEVELS && RestsAt(v, f.smallest.key, f.largest.key, 1, level) && NothingMeets(v, level, f)
    && Gains(v, level, f, v') && VersionOrdered(v')
  }

  // Write a batch, switch memtables, flush.  The oldest live snapshot may be released meanwhile, or one be
  // taken if there is none.
  lemma WrittenAndFlushed(v: Version, next: nat, es: set<Entry>, last: nat, snap: nat, batch: seq<(int, Payload)>, table: seq<Entry>,
                          snap': nat, level: nat, v': Version)
    requires Stands(v, next, es, last, snap) && last + |batch| < MAX_SEQUENCE && snap <= snap' <= last + |batch|
    requires table != [] && Sorted(table) && Elements(table) == BatchEntries(batch, last + 1)
    requires FlushedAt(v, FileOf(next + 1, table), level, v')
    ensures Stands(v', next + 2, es + Elements(table), last + |batch|, snap')
    ensures NoStraddle(v) ==> NoStraddle(v')
  {
    hide Inv, FilesAge, NoStraddle, NothingMeets, VersionOrdered, Sorted, Elements, BatchEntries, Gains, RestsAt;
    var f, es', last' := FileOf(next + 1, table), es + Elements(table), last + |batch|;
    assert Sorted([]) && Elements([]) + Elements(table) == Elements(table) by { NoElements(); }
    WriteKeeps([], None, v, next, es, last, snap, batch, table, snap');
    SwitchKeeps(table, v, next, es', last', snap', next + 1);
    DBImpl.FlushedFileOk([], table, v, next + 1, es', last', snap', f);
    GainsEdit(v, level, f, v');
    FlushKeeps([], table, v, next + 1, es', last', snap', f, level, v');
  }

  lemma NoElements()
    ensures Sorted([]) && Elements([]) == {}
  {}

  lemma FilesOnly(v: Version)
    ensures Tree([], None, v) == VersionEntries(v)
  {
    NoElements();
  }

  lemma GainsEdit(v: Version, level: nat, f: File, v': Version)
    requires level < NUM_LEVELS && Gains(v, level, f, v')
    ensures EditedBy(v, FileEdit({}, [(level, f)]), v')
  {
    assert forall l: nat, g: File :: (l, g) in [(level, f)] <==> l == level && g == f;
  }

  // Nothing in its way: as deep as a flush goes.
  lemma RestsDeepest(v: Version, f: File, v': Version)
    requires Holds(v, 1, [], 2, []) && Holds(v', 1, [], 2, [f])
    ensures FlushedAt(v, f, 2, v')
  {
    var lo, hi := f.smallest.key, f.largest.key;
    assert Overlapping([], Some(lo), Some(hi)) == [];
    assert forall i: nat :: i < NUM_LEVELS ==> v[i] == [];
    assert !SomeMeets([], lo, hi);
    assert GoesDown(v, lo, hi, 1, 0) && GoesDown(v, lo, hi, 1, 1);
    NothingElsewhere1(v', 1, [], 2, [f]);
  }

  // It meets a file of one unit on level 2, and no other.
  lemma RestsAbove(v: Version, gs: seq<File>, f: File, v': Version)
    requires Holds(v, 1, [], 2, gs) && Holds(v', 1, [f], 2, gs) && 1 <= |gs| <= 2 && (|gs| == 2 ==> Before(gs[0], gs[1]))
    requires Overlapping(gs, Some(f.smallest.key), Some(f.largest.key)) == [gs[0]] && gs[0].size == 1
    ensures FlushedAt(v, f, 1, v')
  {
    var lo, hi := f.smallest.key, f.largest.key;
    assert v[2] == gs && v[1] == [] && v[0] == [];
    assert gs[0] in Overlapping(gs, Some(lo), Some(hi));
    assert SomeMeets(gs, lo, hi) && !SomeMeets([], lo, hi);
    assert TotalFileSize([gs[0]]) == 1 + TotalFileSize([gs[0]][1..]) && [gs[0]][1..] == [];
    assert GoesDown(v, lo, hi, 1, 0) && !GoesDown(v, lo, hi, 1, 1);
    NothingElsewhere1(v', 1, [f], 2, gs);
  }

  lemma MeetsFirst(g: File, gs: seq<File>, lo: int, hi: int)
    requires Meets(g, Some(lo), Some(hi)) && |gs| <= 1 && forall h :: h in gs ==> !Meets(h, Some(lo), Some(hi))
    ensures Overlapping([g] + gs, Some(lo), Some(hi)) == [g]
  {
    assert ([g] + gs)[1..] == gs && Overlapping([], Some(lo), Some(hi)) == [];
    if |gs| == 1 {
      assert gs[1..] == [] && gs[0] in gs;
    }
  }

  // The entries of a batch of one and of two.
  lemma OneWritten(e: Entry)
    requires e.sn > 0
    ensures BatchEntries([(e.key, e.payload)], e.sn) == {e} && Elements([e]) == {e} && Sorted([e])
  {
    var batch := [(e.key, e.payload)];
    assert e == Entry(batch[0].0, e.sn + 0, batch[0].1);
  }

  lemma TwoWritten(a: Entry, d: Entry)
    requires 0 < a.sn && d.sn == a.sn + 1 && a.key < d.key
    ensures BatchEntries([(a.key, a.payload), (d.key, d.payload)], a.sn) == {a, d} && Elements([a, d]) == {a, d} && Sorted([a, d])
  {
    var batch := [(a.key, a.payload), (d.key, d.payload)];
    assert a == Entry(batch[0].0, a.sn + 0, batch[0].1) && d == Entry(batch[1].0, a.sn + 1, batch[1].1);
  }

  lemma TakenWithNext(v: Version, f: File, gs: seq<File>, g: File)
    requires Holds(v, 1, [f], 2, gs) && g in gs && f.smallest.key <= f.largest.key
    requires forall h :: h in gs && Meets(h, Some(f.smallest.key), Some(f.largest.key)) ==> h == g
    requires Meets(g, Some(f.smallest.key), Some(f.largest.key))
    ensures InputsOk(v, 1, [f], [g])
  {
    assert v[1] == [f] && v[2] == gs && f in [f];
    assert Spans([f], f.smallest.key, f.largest.key);
    assert TakesAllNext(gs, [f], [g], f.smallest.key, f.largest.key);
  }

  // ---- First run: a move ----

  // A key is written and flushed; under a snapshot taken then it is written again and flushed above.
  lemma WrittenTwice(e1: Entry, e2: Entry)
    requires e1.key == e2.key && e1.sn == 1 && e2.sn == 2
    ensures var a, b := FileOf(3, [e1]), FileOf(5, [e2]);
            var empty, below, v0 := Levels(1, [], 2, []), Levels(1, [], 2, [a]), Levels(1, [b], 2, [a]);
            FlushedAt(empty, a, 2, below) && FlushedAt(below, b, 1, v0)
            && Stands(v0, 6, {e1, e2}, 2, 1) && NoStraddle(v0) && InputsOk(v0, 1, [b], [a])
  {
    var a, b := FileOf(3, [e1]), FileOf(5, [e2]);
    hide Stands, NoStraddle, Levels, FlushedAt, InputsOk, Sorted;
    OneWritten(e1);
    OneWritten(e2);
    assert {e1} + {e2} == {e1, e2};
    hide BatchEntries, Elements;
    TwoFlushed([(e1.key, e1.payload)], [e1], [(e2.key, e2.payload)], [e2]);
  }

  // A new database: a batch written and flushed, a snapshot taken, another batch written and flushed.
  lemma TwoFlushed(batch1: seq<(int, Payload)>, table1: seq<Entry>, batch2: seq<(int, Payload)>, table2: seq<Entry>)
    requires table1 != [] && Sorted(table1) && Elements(table1) == BatchEntries(batch1, 1)
    requires table2 != [] && Sorted(table2) && Elements(table2) == BatchEntries(batch2, |batch1| + 1)
    requires |batch1| + |batch2| < MAX_SEQUENCE
    requires var a, b := FileOf(3, table1), FileOf(5, table2);
             b.smallest.key <= b.largest.key && Meets(a, Some(b.smallest.key), Some(b.largest.key))
    ensures var a, b := FileOf(3, table1), FileOf(5, table2);
            var empty, below, v0 := Levels(1, [], 2, []), Levels(1, [], 2, [a]), Levels(1, [b], 2, [a]);
            FlushedAt(empty, a, 2, below) && FlushedAt(below, b, 1, v0)
            && Stands(v0, 6, Elements(table1) + Elements(table2), |batch1| + |batch2|, |batch1|) && NoStraddle(v0)
            && InputsOk(v0, 1, [b], [a])
  {
    var a, b := FileOf(3, table1), FileOf(5, table2);
    var empty, below, v0 := Levels(1, [], 2, []), Levels(1, [], 2, [a]), Levels(1, [b], 2, [a]);
    var last := |batch1|;
    OneAboveOther(a, b);
    hide Stands, NoStraddle, Levels, FlushedAt, InputsOk, Sorted, BatchEntries, Elements, Meets;
    FirstFlushed(batch1, table1, empty, below);
    WrittenAndFlushed(below, 4, Elements(table1), last, last, batch2, table2, last, 1, v0);
  }

  lemma FirstFlushed(batch: seq<(int, Payload)>, table: seq<Entry>, v: Version, v': Version)
    requires table != [] && Sorted(table) && Elements(table) == BatchEntries(batch, 1) && |batch| < MAX_SEQUENCE
    requires v == Levels(1, [], 2, []) && FlushedAt(v, FileOf(3, table), 2, v')
    ensures Stands(v', 4, Elements(table), |batch|, |batch|) && NoStraddle(v')
  {
    hide Stands, NoStraddle, Levels, FlushedAt, Sorted, BatchEntries, Elements;
    NewDatabase();
    WrittenAndFlushed(v, 2, {}, 0, 0, batch, table, |batch|, 2, v');
    assert {} + Elements(table) == Elements(table);
  }

  // A table goes down to level 2, the next that meets it to level 1, and a merge takes both.
  lemma OneAboveOther(a: File, b: File)
    requires a.size == 1 && b.smallest.key <= b.largest.key && Meets(a, Some(b.smallest.key), Some(b.largest.key))
    ensures var empty, below, v0 := Levels(1, [], 2, []), Levels(1, [], 2, [a]), Levels(1, [b], 2, [a]);
            FlushedAt(empty, a, 2, below) && FlushedAt(below, b, 1, v0) && InputsOk(v0, 1, [b], [a])
  {
    hide Levels, Holds, FlushedAt, InputsOk, Overlapping, Meets, Before;
    var empty, below, v0 := Levels(1, [], 2, []), Levels(1, [], 2, [a]), Levels(1, [b], 2, [a]);
    LevelsHold(1, [], 2, []);
    LevelsHold(1, [], 2, [a]);
    LevelsHold(1, [b], 2, [a]);
    RestsDeepest(empty, a, below);
    assert [a] + [] == [a];
    MeetsFirst(a, [], b.smallest.key, b.largest.key);
    RestsAbove(below, [a], b, v0);
    TakenWithNext(v0, b, [a], a);
  }

  // Merged under the snapshot, both versions are kept, and cut apart.
  lemma Straddled(e1: Entry, e2: Entry)
    requires e1.key == e2.key && e1.sn == 1 && e2.sn == 2 && e1.payload.Put?
    ensures var a, b, f1, f2 := FileOf(3, [e1]), FileOf(5, [e2]), FileOf(6, [e2]), FileOf(7, [e1]);
            var v0, v1 := Levels(1, [b], 2, [a]), Levels(2, [f1, f2], 3, []);
            CutBySize(Kept([e2, e1], 2, 1, v0, 1), 1, Count).Tables() == [[e2], [e1]]
            && KeptInto(v0, 1, [b], [a], 1, [e2, e1], [f1, f2]) && Replaced(v0, 1, [b], [a], [f1, f2], v1)
            && Stands(v1, 8, {e1, e2}, 2, 1)
  {
    var a, b, f1, f2 := FileOf(3, [e1]), FileOf(5, [e2]), FileOf(6, [e2]), FileOf(7, [e1]);
    var v0, v1 := Levels(1, [b], 2, [a]), Levels(2, [f1, f2], 3, []);
    WrittenTwice(e1, e2);
    BothKept(e2, e1, 1, v0, 1);
    CutAfterOne(e2, e1);
    LevelsHold(1, [b], 2, [a]);
    LevelsHold(2, [f1, f2], 3, []);
    EntriesOfFiles(a, b);
    EntriesOfFiles(b, a);
    EntriesOfFiles(f1, f2);
    hide Stands, Inv, FilesAge, NoStraddle, InputsOk, Kept, KeptInto, CutBySize, Levels, Holds, FlushedAt;
    SameEntriesOut(e1, e2, a, b, f1, f2);
    ReplacedBetween(v0, v1, 1, [b], [a], [f1, f2], 3);
    NothingElsewhere1(v1, 2, [f1, f2], 3, []);
    hide OutputsOk, Replaced, VersionOrdered;
    IsKeptInto(v0, 1, [b], [a], 1, [e2, e1], [f1, f2]);
    MergeOnce(v0, 6, {e1, e2}, 2, 1, 1, [b], [a], [e2, e1], [f1, f2], v1);
  }

  lemma SameEntriesOut(e1: Entry, e2: Entry, a: File, b: File, f1: File, f2: File)
    requires e1.key == e2.key && e1.sn == 1 && e2.sn == 2
    requires a == FileOf(3, [e1]) && b == FileOf(5, [e2]) && f1 == FileOf(6, [e2]) && f2 == FileOf(7, [e1])
    ensures Sorted([e2, e1]) && Elements([e2, e1]) == Elements([e2]) + Elements([e1])
    ensures OutputsOk([b], [a], [f1, f2], 6)
  {
    EntriesOfFiles(a, b);
    EntriesOfFiles(b, a);
    assert Elements([e2]) == {e2} && Elements([e1]) == {e1};
    hide LevelEntries;
    assert forall f, e :: f in [f1, f2] && e in f.entries ==> e in InputEntries([b], [a]);
  }

  // All files of one level replaced by files of the next.
  lemma ReplacedBetween(v: Version, v': Version, level: nat, inputs0: seq<File>, inputs1: seq<File>, outs: seq<File>, m: nat)
    requires Holds(v, level, inputs0, level + 1, inputs1) && Holds(v', level + 1, outs, m, [])
    ensures Replaced(v, level, inputs0, inputs1, outs, v')
  {}

  lemma BothKept(e: Entry, e': Entry, snap: nat, v: Version, level: nat)
    requires e.sn > snap && e'.payload.Put?
    ensures Kept([e, e'], 2, snap, v, level) == [e, e']
  {
    var input := [e, e'];
    assert !Dropped(input, 0, snap, v, level) && !Dropped(input, 1, snap, v, level);
    hide Dropped;
    assert Kept(input, 0, snap, v, level) == [];
    assert Kept(input, 1, snap, v, level) == [] + [e];
    assert Kept(input, 2, snap, v, level) == ([] + [e]) + [e'];
  }

  // Then the file with the newer version meets nothing on the next level and is moved down alone, and the
  // search stops at the older version above it.
  lemma StraddlingMoveMisleads(e1: Entry, e2: Entry)
    requires e1.key == e2.key && e1.sn == 1 && e2.sn == 2 && e1.payload.Put?
    ensures var f1, f2 := FileOf(6, [e2]), FileOf(7, [e1]);
            var v1, v2 := Levels(2, [f1, f2], 3, []), Levels(2, [f2], 3, [f1]);
            Stands(v1, 8, {e1, e2}, 2, 1) && InputsOk(v1, 2, [f1], []) && Moved(v1, 2, f1, v2) && !MoveSafe(v1, 2, f1)
            && Inv([], None, v2, 8, {e1, e2}, 2, 1)
            && WrongAt(v2, e2.key, 2, 2, e1) && Misled([], None, v2, e2.key, 2)
  {
    var f1, f2 := FileOf(6, [e2]), FileOf(7, [e1]);
    var v1, v2 := Levels(2, [f1, f2], 3, []), Levels(2, [f2], 3, [f1]);
    LevelsHold(2, [f1, f2], 3, []);
    LevelsHold(2, [f2], 3, [f1]);
    hide Inv, FilesAge, InputsOk, Levels, Holds, Moved, WrongAt, MoveSafe, VersionOrdered, EditedBy;
    hide MisleadsWhereParted, Follows, Misled, CutBySize, Kept, KeptInto, Replaced;
    Straddled(e1, e2);
    assert Follows(f1, f2) by { IsFollower(e1, e2, f1, f2); }
    MovedAlone(v1, v2, f1, f2);
    MoveKeeps([], None, v1, 8, {e1, e2}, 2, 1, 2, f1, v2);
    OlderAnswers(v2, e1, e2, f1, f2);
    IsMisled(v2, e2.key, 2, 2, e1);
  }

  lemma IsFollower(e1: Entry, e2: Entry, f1: File, f2: File)
    requires e1.key == e2.key && e1.sn < e2.sn && f1 == FileOf(6, [e2]) && f2 == FileOf(7, [e1])
    ensures Follows(f1, f2)
  {}

  lemma IsMisled(v: Version, k: int, s: nat, l: nat, e: Entry)
    requires WrongAt(v, k, s, l, e)
    ensures Misled([], None, v, k, s)
  {
    NoElements();
    hide WrongAt;
    assert Misleads(v, k, s);
  }

  lemma MovedAlone(v1: Version, v2: Version, f1: File, f2: File)
    requires Holds(v1, 2, [f1, f2], 3, []) && Holds(v2, 2, [f2], 3, [f1]) && Follows(f1, f2) && f1.number != f2.number
    requires f1.smallest.key == f1.largest.key
    ensures InputsOk(v1, 2, [f1], []) && Moved(v1, 2, f1, v2) && !MoveSafe(v1, 2, f1)
    ensures EditedBy(v1, FileEdit({(2, f1.number)}, [(3, f1)]), v2) && VersionOrdered(v2)
  {
    assert f2 in v1[2] && f1 in [f1];
    NothingElsewhere1(v2, 2, [f2], 3, [f1]);
    hide Meets, Follows;
    InputsFromRanges(v1, 2, [f1], [], f1.smallest.key, f1.smallest.key);
    assert forall l: nat, g: File :: (l, g) in [(3, f1)] <==> l == 3 && g == f1;
  }

  lemma OlderAnswers(v2: Version, e1: Entry, e2: Entry, f1: File, f2: File)
    requires Holds(v2, 2, [f2], 3, [f1]) && f1.entries == [e2] && f2.entries == [e1] && e1.key == e2.key && e1.sn < e2.sn
    ensures WrongAt(v2, e2.key, e2.sn, 2, e1)
  {
    EntriesOfTwo(v2, 2, [f2], 3, [f1]);
    EntriesOfFiles(f2, f1);
    EntriesOfFiles(f1, f2);
    hide VersionEntries, LevelEntries;
    assert v2[0] == [] && v2[1] == [] && LevelEntries(v2[2]) == {e1} && VersionEntries(v2) == {e1, e2};
  }

  // The search of the files after the move.
  method SearchAfterMove(e1: Entry, e2: Entry) returns (found: Option<Entry>)
    requires e1.key == e2.key && e1.sn == 1 && e2.sn == 2 && e1.payload.Put?
    ensures found == Some(e1)
  {
    var f1, f2 := FileOf(6, [e2]), FileOf(7, [e1]);
    var v2 := Levels(2, [f2], 3, [f1]);
    hide Inv, Stands, Levels, Holds, Misleads, InputsOk, Moved, MoveSafe, VersionOk, Level0InOrder, VersionOrdered, TreeOk, FirstAnswer,
      IsNewest, NothingVisible, LevelsInOrder, Misled, WrongAt, FilesAge, Numbered, VersionEntries;
    StraddlingMoveMisleads(e1, e2);
    InvTree([], None, v2, 8, {e1, e2}, 2, 1);
    LevelsHold(2, [f2], 3, [f1]);
    found := Versions.Get(v2, e2.key, 2);
    OnlyOlder(v2, e1, e2, f1, f2, found);
  }

  // A Get after the move: it gives the older version, not what the history says.
  method GetAfterMove(e1: Entry, e2: Entry) returns (r: Option<Value>)
    requires e1.key == e2.key && e1.sn == 1 && e2.sn == 2 && e1.payload.Put?
    ensures r == Some(e1.payload.value)
    ensures Reads({e1, e2}, e2.key, 2, Shown(Some(e2)))
  {
    var f1, f2 := FileOf(6, [e2]), FileOf(7, [e1]);
    var v2 := Levels(2, [f2], 3, [f1]);
    hide Inv, Stands, Levels, Holds, InputsOk, Moved, MoveSafe, Older, Misled, WrongAt, Reads, FilesAge, Tree;
    StraddlingMoveMisleads(e1, e2);
    LevelsHold(2, [f2], 3, [f1]);
    r := DBImpl.Search([], None, v2, e2.key, 2, 8, {e1, e2}, 2, 1);
    forall e | Older(Tree([], None, v2), e2.key, 2, Some(e))
      ensures e == e1
    {
      OlderIsFirst(v2, e1, e2, f1, f2, e);
    }
    NewerIsRead(e1, e2);
  }

  // The newest version at 2 is e2, so the one that comes first is e1.
  lemma OnlyOlder(v2: Version, e1: Entry, e2: Entry, f1: File, f2: File, r: Option<Entry>)
    requires Holds(v2, 2, [f2], 3, [f1]) && f1.entries == [e2] && f2.entries == [e1] && e1.key == e2.key && e1.sn < e2.sn == 2
    requires WrongAt(v2, e2.key, 2, 2, e1) && (r.None? ==> NothingVisible(VersionEntries(v2), e2.key, 2))
    requires r.Some? ==> exists l: nat :: FirstAnswer(v2, e2.key, 2, l, r.value)
    ensures r == Some(e1)
  {
    EntriesOfTwo(v2, 2, [f2], 3, [f1]);
    EntriesOfFiles(f2, f1);
    EntriesOfFiles(f1, f2);
    hide VersionEntries, LevelEntries, FirstAnswer;
    assert VersionEntries(v2) == {e1, e2} && LevelEntries(v2[2]) == {e1};
    if r.Some? {
      var l: nat :| FirstAnswer(v2, e2.key, 2, l, r.value);
      OneAnswer(v2, e2.key, 2, l, r.value, 2, e1);
      NewestOfOne(v2, e2.key, 2, r.value, e1);
    }
  }

  lemma NewestOfOne(v: Version, k: int, l: nat, e: Entry, e1: Entry)
    requires l < NUM_LEVELS && FirstAnswer(v, k, 2, l, e) && LevelEntries(v[l]) == {e1}
    ensures e == e1
  {}

  lemma OlderIsFirst(v2: Version, e1: Entry, e2: Entry, f1: File, f2: File, e: Entry)
    requires Holds(v2, 2, [f2], 3, [f1]) && f1.entries == [e2] && f2.entries == [e1] && e1.key == e2.key && e1.sn < e2.sn == 2
    requires Older(Tree([], None, v2), e2.key, 2, Some(e))
    ensures e == e1
  {
    EntriesOfTwo(v2, 2, [f2], 3, [f1]);
    EntriesOfFiles(f2, f1);
    EntriesOfFiles(f1, f2);
    NoElements();
    hide VersionEntries, LevelEntries;
    assert Tree([], None, v2) == {e1, e2};
  }

  lemma NewerIsRead(e1: Entry, e2: Entry)
    requires e1.key == e2.key && e1.sn == 1 && e2.sn == 2
    ensures Reads({e1, e2}, e2.key, 2, Shown(Some(e2)))
  {
    assert IsNewest({e1, e2}, e2.key, 2, e2);
  }

  // ---- Second run: a merge ----

  // A value of key k is written and flushed; under a snapshot taken then key j is written and k deleted,
  // and both are flushed above.
  lemma Deleted(a: Entry, w: Entry, d: Entry)
    requires a.key < w.key == d.key && w.sn == 1 && a.sn == 2 && d.sn == 3
    ensures var f, g := FileOf(5, [a, d]), FileOf(3, [w]);
            var empty, below, v0 := Levels(1, [], 2, []), Levels(1, [], 2, [g]), Levels(1, [f], 2, [g]);
            FlushedAt(empty, g, 2, below) && FlushedAt(below, f, 1, v0)
            && Stands(v0, 6, {a, w, d}, 3, 1) && NoStraddle(v0) && InputsOk(v0, 1, [f], [g])
  {
    var f, g := FileOf(5, [a, d]), FileOf(3, [w]);
    hide Stands, NoStraddle, Levels, FlushedAt, InputsOk, Sorted;
    OneWritten(w);
    TwoWritten(a, d);
    assert {w} + {a, d} == {a, w, d};
    hide BatchEntries, Elements;
    TwoFlushed([(w.key, w.payload)], [w], [(a.key, a.payload), (d.key, d.payload)], [a, d]);
  }

  // Merged while a snapshot sees the value, everything is kept, and the deletion is cut off from the value.
  lemma CutBehindDeletion(a: Entry, w: Entry, d: Entry)
    requires a.key < w.key == d.key && w.sn == 1 && a.sn == 2 && d.sn == 3 && a.payload.Put? && w.payload.Put?
    ensures var f, g, g1, g2 := FileOf(5, [a, d]), FileOf(3, [w]), FileOf(6, [a, d]), FileOf(7, [w]);
            var v0, v1 := Levels(1, [f], 2, [g]), Levels(1, [], 2, [g1, g2]);
            CutBySize(Kept([a, d, w], 3, 1, v0, 1), 2, Count).Tables() == [[a, d], [w]]
            && KeptInto(v0, 1, [f], [g], 1, [a, d, w], [g1, g2]) && Replaced(v0, 1, [f], [g], [g1, g2], v1)
            && Stands(v1, 8, {a, w, d}, 3, 1)
  {
    var f, g, g1, g2 := FileOf(5, [a, d]), FileOf(3, [w]), FileOf(6, [a, d]), FileOf(7, [w]);
    var v0, v1 := Levels(1, [f], 2, [g]), Levels(2, [g1, g2], 3, []);
    assert v1 == Levels(1, [], 2, [g1, g2]);
    Deleted(a, w, d);
    AllKept(a, d, w, 1, v0, 1);
    CutAfterTwo(a, d, w);
    LevelsHold(1, [f], 2, [g]);
    LevelsHold(2, [g1, g2], 3, []);
    EntriesOfFiles(f, g);
    EntriesOfFiles(g, f);
    EntriesOfFiles(g1, g2);
    hide Stands, Inv, FilesAge, NoStraddle, InputsOk, Kept, KeptInto, CutBySize, Levels, Holds, FlushedAt;
    SameThreeOut(a, w, d, f, g, g1, g2);
    ReplacedBetween(v0, v1, 1, [f], [g], [g1, g2], 3);
    NothingElsewhere1(v1, 2, [g1, g2], 3, []);
    hide OutputsOk, Replaced, VersionOrdered;
    IsKeptInto(v0, 1, [f], [g], 1, [a, d, w], [g1, g2]);
    MergeOnce(v0, 6, {a, w, d}, 3, 1, 1, [f], [g], [a, d, w], [g1, g2], v1);
  }

  lemma SameThreeOut(a: Entry, w: Entry, d: Entry, f: File, g: File, g1: File, g2: File)
    requires a.key < w.key == d.key && w.sn == 1 && a.sn == 2 && d.sn == 3
    requires f == FileOf(5, [a, d]) && g == FileOf(3, [w]) && g1 == FileOf(6, [a, d]) && g2 == FileOf(7, [w])
    ensures Sorted([a, d, w]) && Elements([a, d, w]) == Elements([a, d]) + Elements([w]) && OutputsOk([f], [g], [g1, g2], 6)
    ensures Before(g1, g2)
  {
    EntriesOfFiles(f, g);
    EntriesOfFiles(g, f);
    assert Elements([a, d]) == {a, d} && Elements([w]) == {w};
    hide LevelEntries;
    assert forall x, e :: x in [g1, g2] && e in x.entries ==> e in InputEntries([f], [g]);
  }

  lemma AllKept(a: Entry, d: Entry, w: Entry, snap: nat, v: Version, level: nat)
    requires a.key < d.key && d.sn > snap && a.payload.Put? && w.payload.Put?
    ensures Kept([a, d, w], 3, snap, v, level) == [a, d, w]
  {
    var input := [a, d, w];
    assert !Dropped(input, 0, snap, v, level) && !Dropped(input, 1, snap, v, level) && !Dropped(input, 2, snap, v, level);
    hide Dropped;
    assert Kept(input, 0, snap, v, level) == [];
    assert Kept(input, 1, snap, v, level) == [] + [a];
    assert Kept(input, 2, snap, v, level) == ([] + [a]) + [d];
    assert Kept(input, 3, snap, v, level) == (([] + [a]) + [d]) + [w];
  }

  // The snapshot is released, and key j written again and flushed above.
  lemma WrittenAgain(a: Entry, w: Entry, d: Entry, n: Entry)
    requires a.key < w.key == d.key && w.sn == 1 && a.sn == 2 && d.sn == 3 && a.payload.Put? && w.payload.Put?
    requires n.key == a.key && n.sn == 4
    ensures var f, g1, g2 := FileOf(9, [n]), FileOf(6, [a, d]), FileOf(7, [w]);
            var v1, v2 := Levels(1, [], 2, [g1, g2]), Levels(1, [f], 2, [g1, g2]);
            FlushedAt(v1, f, 1, v2) && Stands(v2, 10, {a, w, d, n}, 4, 4) && InputsOk(v2, 1, [f], [g1])
  {
    var f, g1, g2 := FileOf(9, [n]), FileOf(6, [a, d]), FileOf(7, [w]);
    var v1, v2 := Levels(1, [], 2, [g1, g2]), Levels(1, [f], 2, [g1, g2]);
    hide Stands, Levels, FlushedAt, InputsOk, Sorted, NoStraddle;
    AboveFirst(f, g1, g2);
    assert Stands(v1, 8, {a, w, d}, 3, 1) by {
      hide Kept, KeptInto, CutBySize, Replaced;
      CutBehindDeletion(a, w, d);
    }
    assert {a, w, d} + {n} == {a, w, d, n};
    FlushedOne(v1, 8, {a, w, d}, 3, 1, n, v2);
  }

  lemma FlushedOne(v: Version, next: nat, es: set<Entry>, last: nat, snap: nat, n: Entry, v': Version)
    requires Stands(v, next, es, last, snap) && n.sn == last + 1 < MAX_SEQUENCE && snap <= last
    requires FlushedAt(v, FileOf(next + 1, [n]), 1, v')
    ensures Stands(v', next + 2, es + {n}, n.sn, n.sn)
  {
    OneWritten(n);
    hide Stands, FlushedAt, Sorted, BatchEntries, Elements, NoStraddle;
    WrittenAndFlushed(v, next, es, last, snap, [(n.key, n.payload)], [n], n.sn, 1, v');
  }

  // A table that meets the first of two files on level 2 only.
  lemma AboveFirst(f: File, g1: File, g2: File)
    requires f.smallest.key == f.largest.key == g1.smallest.key < g1.largest.key == g2.smallest.key && g1.size == 1
    ensures var v1, v2 := Levels(1, [], 2, [g1, g2]), Levels(1, [f], 2, [g1, g2]);
            FlushedAt(v1, f, 1, v2) && InputsOk(v2, 1, [f], [g1])
  {
    var v1, v2 := Levels(1, [], 2, [g1, g2]), Levels(1, [f], 2, [g1, g2]);
    LevelsHold(1, [], 2, [g1, g2]);
    LevelsHold(1, [f], 2, [g1, g2]);
    hide Levels, Holds, FlushedAt, InputsOk;
    assert [g1] + [g2] == [g1, g2];
    MeetsFirst(g1, [g2], f.smallest.key, f.largest.key);
    RestsAbove(v1, [g1, g2], f, v2);
    TakenWithNext(v2, f, [g1, g2], g1);
  }

  // The merge of the new file takes in the deletion, not the value behind it, and drops the deletion: the
  // value is back.
  lemma StraddlingMergeResurrects(a: Entry, w: Entry, d: Entry, n: Entry)
    requires a.key < w.key == d.key && w.sn == 1 && a.sn == 2 && d.sn == 3 && a.payload.Put? && w.payload.Put? && d.payload.Deletion?
    requires n.key == a.key && n.sn == 4 && n.payload.Put?
    ensures var f, g1, g2, out := FileOf(9, [n]), FileOf(6, [a, d]), FileOf(7, [w]), FileOf(10, [n]);
            var v2, v3 := Levels(1, [f], 2, [g1, g2]), Levels(2, [out, g2], 3, []);
            Stands(v2, 10, {a, w, d, n}, 4, 4)
            && InputsOk(v2, 1, [f], [g1]) && KeptInto(v2, 1, [f], [g1], 4, [n, a, d], [out])
            && Replaced(v2, 1, [f], [g1], [out], v3)
            && Resurrects(InputEntries([f], [g1]), Rest([], None, v2, 1, [f], [g1]), 4, v2, 1, w.key)
            && Reads(VersionEntries(v2), w.key, 4, None) && Reads(VersionEntries(v3), w.key, 4, Some(w.payload.value))
  {
    var f, g1, g2, out := FileOf(9, [n]), FileOf(6, [a, d]), FileOf(7, [w]), FileOf(10, [n]);
    var v2, v3 := Levels(1, [f], 2, [g1, g2]), Levels(2, [out, g2], 3, []);
    WrittenAgain(a, w, d, n);
    LevelsHold(1, [f], 2, [g1, g2]);
    LevelsHold(2, [out, g2], 3, []);
    hide Stands, InputsOk, FlushedAt, Levels, KeptInto, Replaced, Resurrects, Reads, VersionEntries, Rest, Sorted;
    BaseOfTwo(v2, [f], [g1, g2], d.key);
    OnlyNewKept(n, a, d, v2);
    MergedWithout(v2, v3, f, g1, g2, out, n, a, w, d);
    Back(v2, v3, f, g1, g2, out, n, a, w, d);
  }

  lemma BaseOfTwo(v: Version, fs: seq<File>, gs: seq<File>, k: int)
    requires Holds(v, 1, fs, 2, gs)
    ensures BaseLevel(v, 1, k)
  {}

  lemma OnlyNewKept(n: Entry, a: Entry, d: Entry, v: Version)
    requires n.key == a.key < d.key && n.sn == d.sn + 1 && n.payload.Put? && d.payload.Deletion? && BaseLevel(v, 1, d.key)
    ensures Kept([n, a, d], 3, n.sn, v, 1) == [n]
  {
    hide BaseLevel;
    var input := [n, a, d];
    assert !Dropped(input, 0, n.sn, v, 1) && Dropped(input, 1, n.sn, v, 1) && Dropped(input, 2, n.sn, v, 1);
    hide Dropped;
    assert Kept(input, 0, n.sn, v, 1) == [];
    assert Kept(input, 1, n.sn, v, 1) == [] + [n];
  }

  lemma MergedWithout(v2: Version, v3: Version, f: File, g1: File, g2: File, out: File, n: Entry, a: Entry, w: Entry, d: Entry)
    requires Holds(v2, 1, [f], 2, [g1, g2]) && Holds(v3, 2, [out, g2], 3, [])
    requires f == FileOf(9, [n]) && g1 == FileOf(6, [a, d]) && g2 == FileOf(7, [w]) && out == FileOf(10, [n])
    requires n.key == a.key < d.key && n.sn == d.sn + 1 && a.sn < d.sn && Kept([n, a, d], 3, n.sn, v2, 1) == [n]
    ensures KeptInto(v2, 1, [f], [g1], n.sn, [n, a, d], [out]) && Replaced(v2, 1, [f], [g1], [out], v3)
  {
    EntriesOfFiles(f, g1);
    EntriesOfFiles(g1, f);
    EntriesOfFiles(out, f);
    assert Elements([n, a, d]) == Elements([n]) + Elements([a, d]);
    assert Replaced(v2, 1, [f], [g1], [out], v3);
    hide Holds, Replaced, Kept;
    IsKeptInto(v2, 1, [f], [g1], n.sn, [n, a, d], [out]);
  }

  lemma Back(v2: Version, v3: Version, f: File, g1: File, g2: File, out: File, n: Entry, a: Entry, w: Entry, d: Entry)
    requires Holds(v2, 1, [f], 2, [g1, g2]) && Holds(v3, 2, [out, g2], 3, []) && BaseLevel(v2, 1, w.key)
    requires f == FileOf(9, [n]) && g1 == FileOf(6, [a, d]) && g2 == FileOf(7, [w]) && out == FileOf(10, [n])
    requires n.key == a.key < d.key == w.key && n.sn == d.sn + 1 && w.sn < d.sn && w.payload.Put? && d.payload.Deletion?
    ensures Resurrects(InputEntries([f], [g1]), Rest([], None, v2, 1, [f], [g1]), n.sn, v2, 1, w.key)
    ensures Reads(VersionEntries(v2), w.key, n.sn, None) && Reads(VersionEntries(v3), w.key, n.sn, Some(w.payload.value))
  {
    AroundMerge(v2, v3, f, g1, g2, out, n, a, w, d);
    hide Holds, VersionEntries, LevelEntries, OtherEntries, BaseLevel, Resurrects, Reads, InputEntries, Rest;
    ValueBehind(v2, n, a, d, w);
    ValueIsRead(n, a, d, w);
  }

  lemma AroundMerge(v2: Version, v3: Version, f: File, g1: File, g2: File, out: File, n: Entry, a: Entry, w: Entry, d: Entry)
    requires Holds(v2, 1, [f], 2, [g1, g2]) && Holds(v3, 2, [out, g2], 3, []) && g1 != g2
    requires f.entries == [n] && g1.entries == [a, d] && g2.entries == [w] && out.entries == [n]
    ensures InputEntries([f], [g1]) == {n, a, d} && Rest([], None, v2, 1, [f], [g1]) == {w}
    ensures VersionEntries(v2) == {n, a, d, w} && VersionEntries(v3) == {n, w}
  {
    FewElements(n, a, w, d);
    OnlyTheValueLeft(v2, f, g1, g2, w);
    hide Holds, VersionEntries, LevelEntries, OtherEntries, Elements;
    EntriesOfTwo(v2, 1, [f], 2, [g1, g2]);
    EntriesOfTwo(v3, 2, [out, g2], 3, []);
    EntriesOfFiles(f, g1);
    EntriesOfFiles(g1, g2);
    EntriesOfFiles(out, g2);
  }

  lemma FewElements(n: Entry, a: Entry, w: Entry, d: Entry)
    ensures Elements([a, d]) == {a, d} && Elements([w]) == {w} && Elements([n]) == {n} && Elements([]) == {}
  {}

  lemma ValueBehind(v: Version, n: Entry, a: Entry, d: Entry, w: Entry)
    requires n.key == a.key < d.key == w.key && n.sn == d.sn + 1 && w.sn < d.sn && w.payload.Put? && d.payload.Deletion?
    requires BaseLevel(v, 1, w.key)
    ensures Resurrects({n, a, d}, {w}, n.sn, v, 1, w.key)
  {
    hide BaseLevel;
    assert IsNewest({n, a, d} + {w}, w.key, n.sn, d) && IsNewest({w}, w.key, d.sn, w);
  }

  lemma ValueIsRead(n: Entry, a: Entry, d: Entry, w: Entry)
    requires n.key == a.key < d.key == w.key && n.sn == d.sn + 1 && w.sn < d.sn && w.payload.Put? && d.payload.Deletion?
    ensures Reads({n, a, d, w}, w.key, n.sn, None) && Reads({n, w}, w.key, n.sn, Some(w.payload.value))
  {
    assert IsNewest({n, a, d, w}, w.key, n.sn, d);
    assert IsNewest({n, w}, w.key, n.sn, w);
  }

  lemma OnlyTheValueLeft(v2: Version, f: File, g1: File, g2: File, w: Entry)
    requires Holds(v2, 1, [f], 2, [g1, g2]) && g2.entries == [w] && g1 != g2
    ensures OtherEntries(v2, 1, [f], [g1]) == {w}
  {
    assert g2 in v2[2] && g2 !in [g1] && w in g2.entries;
    forall e
      ensures e in OtherEntries(v2, 1, [f], [g1]) <==> e == w
    {
      if e in OtherEntries(v2, 1, [f], [g1]) {
        var l, g :| 0 <= l < NUM_LEVELS && g in v2[l] && !IsInput(1, [f], [g1], l, g) && e in g.entries;
        assert g == g2;
      }
    }
  }

  // What the merge leaves is a database as it must be, but for the value that came back.
  lemma StandsWithValue(a: Entry, w: Entry, d: Entry, n: Entry)
    requires a.key < w.key == d.key && w.sn == 1 && a.sn == 2 && d.sn == 3 && a.payload.Put? && w.payload.Put? && d.payload.Deletion?
    requires n.key == a.key && n.sn == 4 && n.payload.Put?
    ensures Stands(Levels(2, [FileOf(10, [n]), FileOf(7, [w])], 3, []), 11, {n, w}, 4, 4)
  {
    var f, g1, g2, out := FileOf(9, [n]), FileOf(6, [a, d]), FileOf(7, [w]), FileOf(10, [n]);
    var v2, v3 := Levels(1, [f], 2, [g1, g2]), Levels(2, [out, g2], 3, []);
    StraddlingMergeResurrects(a, w, d, n);
    LevelsHold(1, [f], 2, [g1, g2]);
    LevelsHold(2, [out, g2], 3, []);
    hide Stands, InputsOk, Levels, KeptInto, Replaced, Resurrects, Reads, VersionEntries, Rest, Holds, OutputsOk, VersionOrdered, AgeSafe,
      Tree, InputEntries, LevelEntries, Sorted, Elements;
    OnlyOut(v2, v3, f, g1, g2, out, n, a, d);
    AroundMerge(v2, v3, f, g1, g2, out, n, a, w, d);
    FilesOnly(v3);
    MergeLeaves(v2, 10, {a, w, d, n}, 4, 4, 1, [f], [g1], [n, a, d], [out], v3);
  }

  // A merge that may bring keys back stands as of what it leaves.
  lemma MergeLeaves(v: Version, next: nat, history: set<Entry>, last: nat, snap: nat, level: nat, inputs0: seq<File>, inputs1: seq<File>,
                    input: seq<Entry>, outs: seq<File>, v': Version)
    requires Stands(v, next, history, last, snap) && level < NUM_LEVELS && AgeSafe(v, level, inputs0, inputs1, snap)
    requires InputsOk(v, level, inputs0, inputs1) && OutputsOk(inputs0, inputs1, outs, next)
    requires VersionOrdered(v') && Replaced(v, level, inputs0, inputs1, outs, v')
    requires KeptInto(v, level, inputs0, inputs1, snap, input, outs)
    ensures Stands(v', next + |outs|, Tree([], None, v'), last, snap)
  {
    InvTree([], None, v, next, history, last, snap);
    assert TreeOk(v, next);
    hide Inv, TreeOk, FilesAge, NoStraddle, InputsOk, OutputsOk, Replaced, VersionOrdered, KeptInto, AgeSafe, NothingResurrects;
    CompactKeeps([], None, v, next, history, last, snap, level, inputs0, inputs1, input, outs, v');
    CompactKeepsTree(v, next, level, inputs0, inputs1, snap, input, outs, v');
  }

  lemma OnlyOut(v2: Version, v3: Version, f: File, g1: File, g2: File, out: File, n: Entry, a: Entry, d: Entry)
    requires Holds(v2, 1, [f], 2, [g1, g2]) && Holds(v3, 2, [out, g2], 3, []) && out.smallest.key < g2.smallest.key
    requires f == FileOf(9, [n]) && g1 == FileOf(6, [a, d]) && out == FileOf(10, [n]) && n.sn == 4
    ensures OutputsOk([f], [g1], [out], 10) && VersionOrdered(v3) && AgeSafe(v2, 1, [f], [g1], 4)
  {
    EntriesOfFiles(f, g1);
    NothingElsewhere1(v3, 2, [out, g2], 3, []);
    assert v2[1] == [f];
    assert n in InputEntries([f], [g1]);
  }

  // A Get after the merge: the deleted key has its old value again.
  method GetAfterMerge(a: Entry, w: Entry, d: Entry, n: Entry) returns (r: Option<Value>)
    requires a.key < w.key == d.key && w.sn == 1 && a.sn == 2 && d.sn == 3 && a.payload.Put? && w.payload.Put? && d.payload.Deletion?
    requires n.key == a.key && n.sn == 4 && n.payload.Put?
    ensures r == Some(w.payload.value)
    ensures Reads({a, w, d, n}, w.key, 4, None)
  {
    hide Inv, FilesAge, Levels, Reads, Stands;
    StandsWithValue(a, w, d, n);
    var v3 := Levels(2, [FileOf(10, [n]), FileOf(7, [w])], 3, []);
    assert Inv([], None, v3, 11, {n, w}, 4, 4) && FilesAge(v3) by { StandsAs(v3, 11, {n, w}, 4, 4); }
    ValueIsRead(n, a, d, w);
    assert {n, a, d, w} == {a, w, d, n};
    r := DBImpl.Search([], None, v3, w.key, 4, 11, {n, w}, 4, 4);
  }

  lemma StandsAs(v: Version, next: nat, es: set<Entry>, last: nat, snap: nat)
    requires Stands(v, next, es, last, snap)
    ensures Inv([], None, v, next, es, last, snap) && FilesAge(v)
  {
    hide Inv, FilesAge;
  }
}
