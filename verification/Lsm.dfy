/**
 The tree as a whole: memtables, seven levels of files, snapshots.  Writes, memtable switches, flushes,
 moves and compactions each keep every read at every live snapshot.
 */
module Lsm {
  import opened Wrappers
  import opened DbFormat
  import opened Versions
  import opened VersionBuilder
  import opened CompactionInputs
  import opened CompactionWork
  import opened Trees
  import opened TwoLevelIterators
  import opened Merger
  import opened RunIterators
  import opened DbIters

  // ---- The state ----

  ghost function ImmEntries(imm: Option<seq<Entry>>): set<Entry> {
    if imm.Some? then Elements(imm.value) else {}
  }

  ghost function Tree(mem: seq<Entry>, imm: Option<seq<Entry>>, v: Version): set<Entry> {
    Elements(mem) + ImmEntries(imm) + VersionEntries(v)
  }

  // Memtables and files are sorted, the memtables newer than the files, and hold some of what was ever
  // written; every read from `oldest` on finds in them together what it would find in all that was
  // written.  For a search that stops at the first part that answers, the files must be in order of age, too.
  ghost predicate Inv(mem: seq<Entry>, imm: Option<seq<Entry>>, v: Version, next: nat,
                      history: set<Entry>, last: nat, oldest: nat) {
    Sorted(mem) && (imm.Some? ==> Sorted(imm.value)) && TreeOk(v, next)
    && Newer(Elements(mem), ImmEntries(imm) + VersionEntries(v)) && Newer(ImmEntries(imm), VersionEntries(v))
    && Tree(mem, imm, v) <= history && Recorded(history, last)
    && oldest <= last < MAX_SEQUENCE
    && ReadAlike(Tree(mem, imm, v), history, oldest)
  }

  ghost predicate Recorded(history: set<Entry>, last: nat) {
    DistinctSequences(history) && forall e :: e in history ==> e.sn <= last
  }

  // ---- Writes ----

  // The entries of a batch, numbered from `first` on.
  ghost function BatchEntries(batch: seq<(int, Payload)>, first: nat): set<Entry> {
    set i | 0 <= i < |batch| :: Entry(batch[i].0, first + i, batch[i].1)
  }

  lemma BatchNext(batch: seq<(int, Payload)>, i: nat, first: nat)
    requires i < |batch|
    ensures BatchEntries(batch[..i + 1], first)
         == BatchEntries(batch[..i], first) + {Entry(batch[i].0, first + i, batch[i].1)}
  {
    var a, b := batch[..i], batch[..i + 1];
    forall e
      ensures e in BatchEntries(b, first) <==> e in BatchEntries(a, first) || e == Entry(batch[i].0, first + i, batch[i].1)
    {
      if e in BatchEntries(a, first) {
        var j :| 0 <= j < i && e == Entry(a[j].0, first + j, a[j].1);
        assert e == Entry(b[j].0, first + j, b[j].1);
      }
      assert b[i] == batch[i];
    }
  }

  // The memtable with the first n operations of a batch inserted.
  function Inserted(batch: seq<(int, Payload)>, n: nat, first: nat, mem: seq<Entry>): seq<Entry>
    requires n <= |batch|
  {
    if n == 0 then mem else Insert(Inserted(batch, n - 1, first, mem), Entry(batch[n - 1].0, first + n - 1, batch[n - 1].1))
  }

  // WriteBatchInternal::InsertInto: the operations get consecutive sequence numbers.
  method InsertInto(batch: seq<(int, Payload)>, first: nat, mem: seq<Entry>) returns (r: seq<Entry>)
    requires Sorted(mem) && forall e :: e in mem ==> e.sn < first
    ensures Sorted(r) && Elements(r) == Elements(mem) + BatchEntries(batch, first) && r == Inserted(batch, |batch|, first, mem)
  {
    hide Insert, Sorted;
    r := mem;
    var i := 0;
    assert BatchEntries(batch[..0], first) == {};
    while i < |batch|
      invariant i <= |batch| && Sorted(r) && Elements(r) == Elements(mem) + BatchEntries(batch[..i], first)
      invariant r == Inserted(batch, i, first, mem)
    {
      var e := Entry(batch[i].0, first + i, batch[i].1);
      forall f | f in r
        ensures f.Ikey() != e.Ikey()
      {
        assert f in Elements(r);
      }
      InsertSorted(r, e);
      BatchNext(batch, i, first);
      r := Insert(r, e);
      i := i + 1;
    }
    assert batch[..|batch|] == batch;
  }

  // Adding entries newer than everything changes both sides alike.
  lemma AddNewer(a: set<Entry>, b: set<Entry>, more: set<Entry>, from: nat, from': nat)
    requires ReadAlike(a, b, from) && from <= from'
    requires forall e, f :: e in a + b && f in more ==> e.sn < f.sn
    ensures ReadAlike(a + more, b + more, from')
  {
    forall k: int, s: nat, r: Option<Value> | s >= from'
      ensures Reads(a + more, k, s, r) <==> Reads(b + more, k, s, r)
    {
      assert Reads(a, k, s, r) <==> Reads(b, k, s, r);
      AddedReads(a, more, k, s, r);
      AddedReads(b, more, k, s, r);
    }
  }

  lemma AddedReads(a: set<Entry>, more: set<Entry>, k: int, s: nat, r: Option<Value>)
    requires forall e, f :: e in a && f in more ==> e.sn < f.sn
    ensures Reads(a + more, k, s, r) <==> Reads(if NothingVisible(more, k, s) then a else more, k, s, r)
  {
    var part := if NothingVisible(more, k, s) then a else more;
    forall e
      ensures IsNewest(a + more, k, s, e) <==> IsNewest(part, k, s, e)
    {
      if !NothingVisible(more, k, s) {
        var f :| f in more && f.key == k && f.sn <= s;
      }
    }
  }

  lemma WriteKeeps(mem: seq<Entry>, imm: Option<seq<Entry>>, v: Version, next: nat, history: set<Entry>, last: nat, oldest: nat,
                   batch: seq<(int, Payload)>, mem': seq<Entry>, oldest': nat)
    requires Inv(mem, imm, v, next, history, last, oldest)
    requires last + |batch| < MAX_SEQUENCE && oldest <= oldest' <= last + |batch|
    requires Sorted(mem') && Elements(mem') == Elements(mem) + BatchEntries(batch, last + 1)
    ensures Inv(mem', imm, v, next, history + BatchEntries(batch, last + 1), last + |batch|, oldest')
  {
    hide TreeOk, ReadAlike, VersionEntries, Sorted;
    var tree, more := Tree(mem, imm, v), BatchEntries(batch, last + 1);
    assert forall f :: f in tree + history ==> f.sn <= last;
    assert Tree(mem', imm, v) == tree + more;
    assert forall f :: f in ImmEntries(imm) + VersionEntries(v) ==> f in tree;
    AddNewer(tree, history, more, oldest, oldest');
    BatchRecorded(history, last, batch);
  }

  lemma BatchRecorded(history: set<Entry>, last: nat, batch: seq<(int, Payload)>)
    requires Recorded(history, last)
    ensures Recorded(history + BatchEntries(batch, last + 1), last + |batch|)
  {}

  // What a merge leaves alone.
  ghost function Rest(mem: seq<Entry>, imm: Option<seq<Entry>>, v: Version, level: nat, inputs0: seq<File>, inputs1: seq<File>): set<Entry> {
    Elements(mem) + ImmEntries(imm) + OtherEntries(v, level, inputs0, inputs1)
  }

  // A merge keeps every read at a live snapshot exactly if it brings no deleted key back; reads of what it
  // leaves are served in any case.
  lemma CompactKeeps(mem: seq<Entry>, imm: Option<seq<Entry>>, v: Version, next: nat, history: set<Entry>, last: nat, oldest: nat,
                     level: nat, inputs0: seq<File>, inputs1: seq<File>, input: seq<Entry>, outs: seq<File>, v': Version)
    requires Inv(mem, imm, v, next, history, last, oldest)
    requires InputsOk(v, level, inputs0, inputs1) && OutputsOk(inputs0, inputs1, outs, next)
    requires VersionOrdered(v') && Replaced(v, level, inputs0, inputs1, outs, v')
    requires KeptInto(v, level, inputs0, inputs1, oldest, input, outs)
    ensures Inv(mem, imm, v', next + |outs|, history, last, oldest)
       <==> NothingResurrects(InputEntries(inputs0, inputs1), Rest(mem, imm, v, level, inputs0, inputs1), oldest, v, level)
    ensures Inv(mem, imm, v', next + |outs|, Tree(mem, imm, v'), last, oldest)
    ensures VersionEntries(v') <= VersionEntries(v)
  {
    hide InputsOk, OutputsOk, VersionOrdered, Replaced, Kept, VersionEntries, OtherEntries, InputEntries, LevelEntries, ReadAlike,
      TreeOk, FilesAge, NoStraddle, AgeSafe, NothingResurrects;
    CompactKeepsTree(v, next, level, inputs0, inputs1, oldest, input, outs, v');
    var kept := Kept(input, |input|, oldest, v, level);
    assert Elements(kept) <= Elements(input);
    var rest := Rest(mem, imm, v, level, inputs0, inputs1);
    assert Tree(mem, imm, v) == Elements(input) + rest;
    assert Tree(mem, imm, v') == Elements(kept) + rest;
    DropKeepsReads(input, oldest, v, level, rest);
    AlikeBoth(Tree(mem, imm, v), Tree(mem, imm, v'), history, oldest);
    AlikeItself(Tree(mem, imm, v'), oldest);
  }

  lemma AlikeBoth(a: set<Entry>, a': set<Entry>, b: set<Entry>, from: nat)
    requires ReadAlike(a, b, from)
    ensures ReadAlike(a, a', from) <==> ReadAlike(a', b, from)
  {
    hide Reads;
    forall k: int, s: nat, r: Option<Value> | s >= from
      ensures Reads(a, k, s, r) <==> Reads(b, k, s, r)
    {}
  }

  lemma AlikeItself(a: set<Entry>, from: nat)
    ensures ReadAlike(a, a, from)
  {}

  lemma AlikeLater(a: set<Entry>, b: set<Entry>, from: nat, from': nat)
    requires ReadAlike(a, b, from) && from <= from'
    ensures ReadAlike(a, b, from')
  {}

  lemma FlushKeeps(mem: seq<Entry>, imm: seq<Entry>, v: Version, next: nat, history: set<Entry>, last: nat, oldest: nat,
                   f: File, level: nat, v': Version)
    requires Inv(mem, Some(imm), v, next, history, last, oldest) && level < NUM_LEVELS
    requires FileOk(f) && f.number == next && f.entries == imm && NothingMeets(v, level, f)
    requires VersionOrdered(v') && EditedBy(v, FileEdit({}, [(level, f)]), v')
    ensures Inv(mem, None, v', next + 1, history, last, oldest)
    ensures FilesAge(v) ==> FilesAge(v')
    ensures NoStraddle(v) ==> NoStraddle(v')
  {
    hide TreeOk, ReadAlike, VersionEntries, EditedBy, VersionOrdered, FileOk, FilesAge, NoStraddle, NothingMeets, Sorted, Elements;
    FlushKeepsTree(v, next, f, level, v');
    assert Tree(mem, None, v') == Tree(mem, Some(imm), v);
  }

  lemma EmptyFlushKeeps(mem: seq<Entry>, v: Version, next: nat, history: set<Entry>, last: nat, oldest: nat)
    requires Inv(mem, Some([]), v, next, history, last, oldest)
    ensures Inv(mem, None, v, next, history, last, oldest)
  {
    hide TreeOk, ReadAlike, VersionEntries;
    assert Tree(mem, None, v) == Tree(mem, Some([]), v);
  }

  lemma MoveKeeps(mem: seq<Entry>, imm: Option<seq<Entry>>, v: Version, next: nat, history: set<Entry>, last: nat, oldest: nat,
                  level: nat, f: File, v': Version)
    requires Inv(mem, imm, v, next, history, last, oldest) && InputsOk(v, level, [f], [])
    requires VersionOrdered(v') && EditedBy(v, FileEdit({(level, f.number)}, [(level + 1, f)]), v')
    ensures Inv(mem, imm, v', next, history, last, oldest)
    ensures FilesAge(v) ==> MisleadsWhereParted(v, level, [f], [], v')
  {
    hide InputsOk, TreeOk, ReadAlike, VersionEntries, EditedBy, VersionOrdered, FilesAge, NoStraddle, MoveSafe, MisleadsWhereParted, Less,
      Sorted;
    assert f in [f] && f in v[level] && level + 1 < NUM_LEVELS by { InputsInRange(v, level, [f], []); }
    MoveKeepsTree(v, next, level, f, v');
    assert Tree(mem, imm, v') == Tree(mem, imm, v);
    if FilesAge(v) {
      assert Numbered(v, next) by { InvTree(mem, imm, v, next, history, last, oldest); }
      EditMoves(v, next, level, f, v');
      FilesDistinct(mem, imm, v, next, history, last, oldest);
      MoveParts(v, next, level, f, v');
    }
  }

  lemma FilesDistinct(mem: seq<Entry>, imm: Option<seq<Entry>>, v: Version, next: nat, history: set<Entry>, last: nat, oldest: nat)
    requires Inv(mem, imm, v, next, history, last, oldest)
    ensures DistinctSequences(VersionEntries(v))
  {
    hide TreeOk, ReadAlike, VersionEntries, Sorted, Newer;
    assert VersionEntries(v) <= Tree(mem, imm, v);
  }

  // A move is a merge of one file into itself.
  lemma MoveParts(v: Version, next: nat, level: nat, f: File, v': Version)
    requires TreeOk(v, next) && FilesAge(v) && DistinctSequences(VersionEntries(v)) && InputsOk(v, level, [f], [])
    requires TreeOk(v', next) && Moved(v, level, f, v')
    ensures MisleadsWhereParted(v, level, [f], [], v')
  {
    InputsInRange(v, level, [f], []);
    assert Replaced(v, level, [f], [], [f], v');
    assert forall e :: e in f.entries ==> e in InputEntries([f], []);
    hide TreeOk, FilesAge, DistinctSequences, VersionEntries, InputsOk, Replaced, InputEntries, Misleads, Strands;
    forall k: int, s: nat
      ensures Misleads(v', k, s) <==> Strands(v, level, [f], [], VersionEntries(v'), k, s)
    {
      StepMisleads(v, next, level, [f], [], [f], v', next, k, s);
    }
  }

  lemma EmptyInv()
    ensures Inv([], None, [[], [], [], [], [], [], []], 2, {}, 0, 0)
    ensures FilesAge([[], [], [], [], [], [], []]) && NoStraddle([[], [], [], [], [], [], []])
  {
    var v: Version := [[], [], [], [], [], [], []];
    NoFilesOk(v, 2);
    NoEntriesOk(v);
    hide TreeOk, VersionEntries, Newer, ReadAlike, FilesAge, NoStraddle;
    assert Tree([], None, v) == {};
  }

  lemma NoFilesOk(v: Version, next: nat)
    requires forall l :: 0 <= l < NUM_LEVELS ==> v[l] == []
    ensures TreeOk(v, next) && FilesAge(v) && NoStraddle(v)
  {
    hide FileOk, FileNewer, Apart, InOrder, NoneShared, Before;
    assert forall l, f :: 0 <= l < NUM_LEVELS ==> f !in v[l];
  }

  lemma NoEntriesOk(v: Version)
    requires forall l :: 0 <= l < NUM_LEVELS ==> v[l] == []
    ensures VersionEntries(v) == {} && Elements([]) == {} && ImmEntries(None) == {}
    ensures Newer({}, {}) && ReadAlike({}, {}, 0) && Recorded({}, 0)
  {
    hide Reads;
  }

  lemma InvTree(mem: seq<Entry>, imm: Option<seq<Entry>>, v: Version, next: nat, history: set<Entry>, last: nat, oldest: nat)
    requires Inv(mem, imm, v, next, history, last, oldest)
    ensures TreeOk(v, next) && oldest <= last
    ensures VersionOk(v) && VersionOrdered(v) && Numbered(v, next) && Level0InOrder(v[0]) && (FilesAge(v) ==> LevelsInOrder(v))
  {
    hide ReadAlike, FilesAge, LevelsInOrder, Level0InOrder, NoStraddle, UserDisjoint;
    TreeServes(v, next);
  }

  // Files with unused numbers, each its own.
  ghost predicate Unused(news: seq<(nat, File)>, next: nat, next': nat) {
    LevelsInRange(news) && (forall i :: 0 <= i < |news| ==> next <= news[i].1.number < next')
    && forall i, j :: 0 <= i < j < |news| ==> news[i].1.number < news[j].1.number
  }

  lemma UnusedIsFresh(v: Version, next: nat, news: seq<(nat, File)>, next': nat)
    requires Numbered(v, next) && Unused(news, next, next')
    ensures NeverReadded(v, news)
  {
    forall p, f | p in news && f in v[p.0]
      ensures f.number != p.1.number
    {
      var i :| 0 <= i < |news| && news[i] == p;
    }
  }

  lemma MovedIsFresh(v: Version, next: nat, level: nat, f: File)
    requires Numbered(v, next) && level + 1 < NUM_LEVELS && f in v[level]
    ensures NeverReadded(v, [(level + 1, f)])
  {}

  lemma SwitchKeeps(mem: seq<Entry>, v: Version, next: nat, history: set<Entry>, last: nat, oldest: nat, next': nat)
    requires Inv(mem, None, v, next, history, last, oldest) && next <= next'
    ensures Inv([], Some(mem), v, next', history, last, oldest)
  {
    hide ReadAlike, VersionEntries;
    assert Tree([], Some(mem), v) == Tree(mem, None, v);
  }

  // ---- Reads ----

  // A newer part that answers answers for both; one that does not leaves it to the other.
  lemma NewerAnswers(a: set<Entry>, b: set<Entry>, k: int, s: nat, r: Option<Entry>)
    requires Newer(a, b)
    ensures r.Some? && Finds(a, k, s, r) ==> Finds(a + b, k, s, r)
    ensures Finds(a, k, s, None) && Finds(b, k, s, r) ==> Finds(a + b, k, s, r)
  {}

  function Shown(r: Option<Entry>): Option<Value> {
    if r.None? || r.value.payload == Deletion then None else Some(r.value.payload.value)
  }

  lemma FindsReads(entries: set<Entry>, k: int, s: nat, r: Option<Entry>)
    requires DistinctSequences(entries) && Finds(entries, k, s, r)
    ensures Reads(entries, k, s, Shown(r))
  {
    if r.Some? {
      forall e | IsNewest(entries, k, s, e)
        ensures e == r.value
      {
        assert e.sn == r.value.sn;
      }
    }
  }

  // The memtables leave the read to the files, and the first level that answers gives an older version.
  ghost predicate Misled(mem: seq<Entry>, imm: Option<seq<Entry>>, v: Version, k: int, s: nat) {
    NothingVisible(Elements(mem), k, s) && NothingVisible(ImmEntries(imm), k, s) && Misleads(v, k, s)
  }

  // A version of the key, but not the newest visible one.
  ghost predicate Older(entries: set<Entry>, k: int, s: nat, r: Option<Entry>) {
    r.Some? && r.value in entries && r.value.key == k && exists e :: IsNewest(entries, k, s, e) && r.value.sn < e.sn
  }

  // Memtable, immutable memtable, files.
  method FindEntry(mem: seq<Entry>, imm: Option<seq<Entry>>, v: Version, k: int, s: nat, ghost next: nat,
                   ghost history: set<Entry>, ghost last: nat, ghost oldest: nat) returns (found: Option<Entry>)
    requires Inv(mem, imm, v, next, history, last, oldest)
    ensures if Misled(mem, imm, v, k, s) then Older(Tree(mem, imm, v), k, s, found) else Finds(Tree(mem, imm, v), k, s, found)
    ensures FilesAge(v) ==> !Misled(mem, imm, v, k, s)
  {
    InvTree(mem, imm, v, next, history, last, oldest);
    InvParts(mem, imm, v, next, history, last, oldest);
    hide Inv, VersionOk, VersionOrdered, Numbered, TreeOk, LevelsInOrder, Level0InOrder, FilesAge, Tree, Misleads, VersionEntries, Older,
      FirstAnswer, Elements, ImmEntries, Newer, Sorted, Lookup, NothingVisible, IsNewest;
    found := Lookup(mem, k, s);
    MemFinds(mem, k, s);
    NewerAnswers(Elements(mem), ImmEntries(imm) + VersionEntries(v), k, s, found);
    if found.Some? {
      SomeVisible(Elements(mem), k, s, found.value);
      return;
    }
    found := if imm.Some? then Lookup(imm.value, k, s) else None;
    ImmFinds(imm, k, s);
    NewerAnswers(ImmEntries(imm), VersionEntries(v), k, s, found);
    NewerAnswers(Elements(mem), ImmEntries(imm) + VersionEntries(v), k, s, found);
    if found.Some? {
      SomeVisible(ImmEntries(imm), k, s, found.value);
      return;
    }
    found := Versions.Get(v, k, s);
    NewerAnswers(ImmEntries(imm), VersionEntries(v), k, s, found);
    NewerAnswers(Elements(mem), ImmEntries(imm) + VersionEntries(v), k, s, found);
    if Misleads(v, k, s) {
      OlderOfFiles(mem, imm, v, k, s, found);
    }
  }

  lemma InvParts(mem: seq<Entry>, imm: Option<seq<Entry>>, v: Version, next: nat, history: set<Entry>, last: nat, oldest: nat)
    requires Inv(mem, imm, v, next, history, last, oldest)
    ensures Sorted(mem) && (imm.Some? ==> Sorted(imm.value))
    ensures Newer(Elements(mem), ImmEntries(imm) + VersionEntries(v)) && Newer(ImmEntries(imm), VersionEntries(v))
    ensures Tree(mem, imm, v) == Elements(mem) + (ImmEntries(imm) + VersionEntries(v))
    ensures DistinctSequences(Tree(mem, imm, v)) && DistinctSequences(history)
  {
    hide Sorted, Newer, TreeOk, ReadAlike, VersionEntries;
  }

  lemma SomeVisible(es: set<Entry>, k: int, s: nat, e: Entry)
    requires IsNewest(es, k, s, e)
    ensures !NothingVisible(es, k, s)
  {}

  // What a misled search of the files gives is no better with the memtables before it.
  lemma OlderOfFiles(mem: seq<Entry>, imm: Option<seq<Entry>>, v: Version, k: int, s: nat, r: Option<Entry>)
    requires NothingVisible(Elements(mem), k, s) && NothingVisible(ImmEntries(imm), k, s) && !Finds(VersionEntries(v), k, s, r)
    requires r.Some? ==> exists l: nat :: FirstAnswer(v, k, s, l, r.value)
    requires r.None? ==> NothingVisible(VersionEntries(v), k, s)
    ensures Older(Tree(mem, imm, v), k, s, r)
  {
    var l: nat :| FirstAnswer(v, k, s, l, r.value);
    InLevel(v, l, r.value);
    NewestExists(VersionEntries(v), k, s);
    var e :| IsNewest(VersionEntries(v), k, s, e);
    hide VersionEntries, LevelEntries;
    assert IsNewest(Tree(mem, imm, v), k, s, e);
  }

  lemma MemFinds(mem: seq<Entry>, k: int, s: nat)
    requires Sorted(mem)
    ensures Finds(Elements(mem), k, s, Lookup(mem, k, s))
  {
    LookupFindsNewest(mem, k, s);
  }

  lemma ImmFinds(imm: Option<seq<Entry>>, k: int, s: nat)
    requires imm.Some? ==> Sorted(imm.value)
    ensures Finds(ImmEntries(imm), k, s, if imm.Some? then Lookup(imm.value, k, s) else None)
  {
    if imm.Some? {
      LookupFindsNewest(imm.value, k, s);
    }
  }

  // ---- Files made of tables ----

  predicate KeysApart(tables: seq<seq<Entry>>) {
    NoneEmpty(tables)
    && forall i, j :: 0 <= i < j < |tables| ==> tables[i][|tables[i]| - 1].key < tables[j][0].key
  }

  lemma {:induction false} TablesOfRun(tables: seq<seq<Entry>>)
    requires Sorted(Concat(tables))
    ensures forall t :: t in tables ==> Sorted(t)
    ensures forall e :: e in Concat(tables) <==> exists t :: t in tables && e in t
  {
    if tables != [] {
      var front, t := tables[..|tables| - 1], tables[|tables| - 1];
      var c := Concat(front);
      assert Concat(tables) == c + t;
      assert t in tables && forall x :: x in tables <==> x in front || x == t;
      assert c == Concat(tables)[..|c|] && t == Concat(tables)[|c|..];
      TablesOfRun(front);
    }
  }

  // Cut anywhere, a sorted run gives tables one after the other.
  lemma {:induction false} TablesInOrder(tables: seq<seq<Entry>>)
    requires NoneEmpty(tables) && Sorted(Concat(tables))
    ensures forall i, j :: 0 <= i < j < |tables| ==> Less(tables[i][|tables[i]| - 1].Ikey(), tables[j][0].Ikey())
  {
    if tables != [] {
      var front, t := tables[..|tables| - 1], tables[|tables| - 1];
      var c, all := Concat(front), Concat(tables);
      assert all == c + t;
      assert Sorted(c) by {
        assert forall i :: 0 <= i < |c| ==> all[i] == c[i];
      }
      TablesInOrder(front);
      forall i | 0 <= i < |front|
        ensures Less(front[i][|front[i]| - 1].Ikey(), t[0].Ikey())
      {
        var e := front[i][|front[i]| - 1];
        InConcat(front, i, e);
        var x :| 0 <= x < |c| && c[x] == e;
        assert all[x] == e && all[|c|] == t[0];
      }
    }
  }

  // When the kept entries have distinct user keys, no cut parts a key.
  lemma {:induction false} DistinctKeysApart(tables: seq<seq<Entry>>)
    requires NoneEmpty(tables)
    requires CompactionWork.KeysAscend(Concat(tables))
    ensures KeysApart(tables)
  {
    if tables != [] {
      var front, t := tables[..|tables| - 1], tables[|tables| - 1];
      var c, all := Concat(front), Concat(tables);
      assert all == c + t && t == tables[|tables| - 1];
      assert CompactionWork.KeysAscend(c) by {
        assert forall i :: 0 <= i < |c| ==> all[i] == c[i];
      }
      DistinctKeysApart(front);
      forall i | 0 <= i < |front|
        ensures front[i][|front[i]| - 1].key < t[0].key
      {
        var e := front[i][|front[i]| - 1];
        InConcat(front, i, e);
        var x :| 0 <= x < |c| && c[x] == e;
        assert all[x] == e && all[|c|] == t[0] && all[x].key < all[|c|].key;
      }
    }
  }

  lemma {:induction false} InConcat(tables: seq<seq<Entry>>, i: nat, e: Entry)
    requires i < |tables| && e in tables[i]
    ensures e in Concat(tables)
  {
    if i < |tables| - 1 {
      InConcat(tables[..|tables| - 1], i, e);
    }
  }

  // ---- The steps of a compaction ----

  // Different files have no internal key in common.
  lemma FilesDiffer(v: Version, fs: seq<File>, gs: seq<File>)
    requires EntriesOnce(v) && DistinctSequences(VersionEntries(v))
    requires forall f :: f in fs || f in gs ==> exists l :: 0 <= l < NUM_LEVELS && f in v[l]
    requires forall f, g :: f in fs && g in gs ==> f.number != g.number
    ensures KeysDiffer(LevelEntries(fs), LevelEntries(gs))
  {
    forall e, e' | e in LevelEntries(fs) && e' in LevelEntries(gs)
      ensures e.Ikey() != e'.Ikey()
    {
      var f :| f in fs && e in f.entries;
      var g :| g in gs && e' in g.entries;
      var l :| 0 <= l < NUM_LEVELS && f in v[l];
      var m :| 0 <= m < NUM_LEVELS && g in v[m];
      EntriesDiffer(v, l, f, e, m, g, e');
    }
  }

  lemma EntriesDiffer(v: Version, l: nat, f: File, e: Entry, m: nat, g: File, e': Entry)
    requires EntriesOnce(v) && DistinctSequences(VersionEntries(v)) && l < NUM_LEVELS && m < NUM_LEVELS
    requires f in v[l] && e in f.entries && g in v[m] && e' in g.entries && f.number != g.number
    ensures e.Ikey() != e'.Ikey()
  {
    assert NoneShared(f, g);
    assert e in VersionEntries(v) && e' in VersionEntries(v);
  }

  lemma LevelEntriesNext(files: seq<File>, i: nat)
    requires i < |files|
    ensures LevelEntries(files[..i + 1]) == LevelEntries(files[..i]) + Elements(files[i].entries)
    ensures LevelEntries([files[i]]) == Elements(files[i].entries)
  {
    assert files[..i + 1] == files[..i] + [files[i]];
    assert forall f :: f in files[..i + 1] <==> f in files[..i] || f == files[i];
    assert files[i] in [files[i]];
  }

  // The runs of level-0 files, each by itself, behind the runs already there.
  method AddTables(list0: seq<TwoLevelIterator>, ghost runs0: seq<seq<Entry>>, files: seq<File>, ghost v: Version, ghost next: nat)
    returns (list: seq<TwoLevelIterator>, ghost runs: seq<seq<Entry>>)
    requires Serve(list0, runs0) && RunsOk(runs0) && TreeOk(v, next) && DistinctSequences(VersionEntries(v))
    requires Ordered(files) && (forall f :: f in files ==> f in v[0]) && KeysDiffer(Together(runs0), LevelEntries(files))
    ensures Serve(list, runs) && RunsOk(runs) && Together(runs) == Together(runs0) + LevelEntries(files)
    ensures forall it :: it in list ==> it in list0 || fresh(it)
  {
    hide TwoLevelIterator.Ok, TwoLevelIterator.View, RunsOk, Together, VersionOrdered, FilesInOrder, LevelEntries, TreeOk, Ordered,
      KeysDiffer, VersionEntries, Sorted;
    list, runs := list0, runs0;
    var i := 0;
    NoFiles(files);
    while i < |files|
      invariant i <= |files| && Serve(list, runs) && RunsOk(runs)
      invariant Together(runs) == Together(runs0) + LevelEntries(files[..i])
      invariant forall it :: it in list ==> it in list0 || fresh(it)
    {
      NextTable(v, next, files, i, Together(runs0));
      LevelEntriesNext(files, i);
      var it := RunIterator(files[i].entries);
      list, runs := AddRun(list, runs, it);
      i := i + 1;
    }
    assert files[..|files|] == files;
  }

  lemma NoFiles(files: seq<File>)
    ensures LevelEntries(files[..0]) == {}
  {}

  lemma NextTable(v: Version, next: nat, files: seq<File>, i: nat, before: set<Entry>)
    requires TreeOk(v, next) && DistinctSequences(VersionEntries(v)) && i < |files|
    requires Ordered(files) && (forall f :: f in files ==> f in v[0]) && KeysDiffer(before, LevelEntries(files))
    ensures KeysDiffer(before + LevelEntries(files[..i]), Elements(files[i].entries)) && Sorted(files[i].entries)
  {
    assert files[i] in files && files[i] in v[0] && FileOk(files[i]);
    hide VersionOrdered, FilesInOrder, EntriesOnce, Before, Ordered, VersionEntries, Numbered, DistinctSequences, LevelEntries, FileOk,
      AllFilesOk, Sorted;
    LevelEntriesNext(files, i);
    EarlierDiffer(v, next, files, i);
    FilesDiffer(v, files[..i], [files[i]]);
    OneOfFiles(files, i);
    DifferBoth(before, LevelEntries(files[..i]), LevelEntries(files), Elements(files[i].entries));
  }

  lemma OneOfFiles(files: seq<File>, i: nat)
    requires i < |files|
    ensures Elements(files[i].entries) <= LevelEntries(files)
  {
    assert files[i] in files;
  }

  lemma DifferBoth(a: set<Entry>, b: set<Entry>, c: set<Entry>, d: set<Entry>)
    requires KeysDiffer(a, c) && d <= c && KeysDiffer(b, d)
    ensures KeysDiffer(a + b, d)
  {}

  lemma EarlierDiffer(v: Version, next: nat, files: seq<File>, i: nat)
    requires Numbered(v, next) && i < |files| && Ordered(files) && (forall f :: f in files ==> f in v[0])
    ensures forall f, g :: f in files[..i] && g in [files[i]] ==> f.number != g.number
    ensures forall f :: f in files[..i] || f in [files[i]] ==> exists l :: 0 <= l < NUM_LEVELS && f in v[l]
  {
    assert files[i] in files;
    forall f | f in files[..i]
      ensures f.number != files[i].number && f in v[0]
    {
      var j: nat :| j < i && files[j] == f;
      assert files[j] in files && Before(files[j], files[i]);
    }
  }

  // A sorted level's run.
  method AddLevel(list0: seq<TwoLevelIterator>, ghost runs0: seq<seq<Entry>>, files: seq<File>)
    returns (list: seq<TwoLevelIterator>, ghost runs: seq<seq<Entry>>)
    requires Serve(list0, runs0) && RunsOk(runs0) && LevelSorted(files) && (forall f :: f in files ==> FileOk(f))
    requires KeysDiffer(Together(runs0), LevelEntries(files))
    ensures Serve(list, runs) && RunsOk(runs) && Together(runs) == Together(runs0) + LevelEntries(files)
    ensures forall it :: it in list ==> it in list0 || fresh(it)
  {
    hide TwoLevelIterator.Ok, TwoLevelIterator.View, RunsOk, Together, LevelEntries, LevelSorted, FileOk, KeysDiffer;
    var it := LevelIterator(files);
    list, runs := AddRun(list0, runs0, it);
  }

  lemma NothingTogether()
    ensures RunsOk([]) && Together([]) == {} && Serve([], [])
    ensures forall b: set<Entry> :: KeysDiffer({}, b)
  {}

  // VersionSet::MakeInputIterator: level-0 files one by one, those of another level as one run.
  method MakeInputIterator(v: Version, ghost next: nat, level: nat, inputs0: seq<File>, inputs1: seq<File>) returns (it: MergingIterator)
    requires TreeOk(v, next) && DistinctSequences(VersionEntries(v)) && InputsOk(v, level, inputs0, inputs1)
    ensures fresh(it) && forall i :: 0 <= i < |it.children| ==> fresh(it.children[i])
    ensures it.Ok() && Elements(it.view) == InputEntries(inputs0, inputs1)
  {
    hide TwoLevelIterator.Ok, TwoLevelIterator.View, MergingIterator.Ok, MergingIterator.Pos, RunsOk, Together, TreeOk, InputsOk, LevelEntries,
      LevelSorted, Serve, KeysDiffer, FileOk, Ordered, VersionEntries;
    InputRuns(v, next, level, inputs0, inputs1);
    NothingTogether();
    var list: seq<TwoLevelIterator> := [];
    ghost var runs: seq<seq<Entry>> := [];
    if level == 0 {
      list, runs := AddTables(list, runs, inputs0, v, next);
    } else {
      list, runs := AddLevel(list, runs, inputs0);
    }
    assert {} + LevelEntries(inputs0) == LevelEntries(inputs0);
    if inputs1 != [] {
      list, runs := AddLevel(list, runs, inputs1);
    } else {
      NoFiles(inputs1);
    }
    it := MergeRuns(list, runs);
    forall i | 0 <= i < |it.children|
      ensures fresh(it.children[i])
    {
      assert it.children[i] in list;
    }
  }

  lemma InputRuns(v: Version, next: nat, level: nat, inputs0: seq<File>, inputs1: seq<File>)
    requires TreeOk(v, next) && DistinctSequences(VersionEntries(v)) && InputsOk(v, level, inputs0, inputs1)
    ensures level < NUM_LEVELS && Ordered(inputs0) && (forall f :: f in inputs0 ==> f in v[level])
    ensures (level > 0 ==> LevelSorted(inputs0)) && LevelSorted(inputs1)
    ensures forall f :: f in inputs0 || f in inputs1 ==> FileOk(f)
    ensures KeysDiffer(LevelEntries(inputs0), LevelEntries(inputs1))
  {
    hide FileOk, VersionOrdered, EntriesOnce, TakesAllNext, InOrder, LevelSorted, Ordered, VersionEntries, KeysDiffer, LevelEntries;
    if level > 0 {
      InOrderIsSorted(inputs0);
    }
    InOrderIsSorted(inputs1);
    FilesDiffer(v, inputs0, inputs1);
  }

  // All the entries of the inputs in the order the iterator over them delivers.
  method MergeInputs(v: Version, ghost next: nat, level: nat, inputs0: seq<File>, inputs1: seq<File>) returns (input: seq<Entry>)
    requires TreeOk(v, next) && DistinctSequences(VersionEntries(v)) && InputsOk(v, level, inputs0, inputs1)
    ensures Sorted(input) && Elements(input) == InputEntries(inputs0, inputs1)
  {
    hide TreeOk, InputsOk, InputEntries, VersionEntries, MergingIterator.Ok;
    var it := MakeInputIterator(v, next, level, inputs0, inputs1);
    it.ViewSorted();
    input := Drain(it);
  }

  lemma InvInput(mem: seq<Entry>, imm: Option<seq<Entry>>, v: Version, next: nat, history: set<Entry>, last: nat, oldest: nat,
                 level: nat, inputs0: seq<File>, inputs1: seq<File>)
    requires Inv(mem, imm, v, next, history, last, oldest) && InputsOk(v, level, inputs0, inputs1)
    ensures Recorded(history, last) && oldest <= last < MAX_SEQUENCE && DistinctSequences(VersionEntries(v))
    ensures InputEntries(inputs0, inputs1) <= history
  {
    hide TreeOk, ReadAlike, Newer;
    forall e | e in InputEntries(inputs0, inputs1)
      ensures e in history
    {
      var l, f := InputOf(inputs0, inputs1, level, e);
      assert f in v[l];
      assert e in VersionEntries(v) && e in Tree(mem, imm, v);
    }
    assert VersionEntries(v) <= Tree(mem, imm, v);
  }

  // While no snapshot is held, no cut parts a user key.
  lemma NoSnapshotNoStraddle(input: seq<Entry>, snap: nat, v: Version, level: nat, history: set<Entry>, outputs: seq<seq<Entry>>)
    requires Sorted(input) && Elements(input) <= history && Recorded(history, snap)
    requires Concat(outputs) == Kept(input, |input|, snap, v, level) && NoneEmpty(outputs)
    ensures KeysApart(outputs)
  {
    forall e | e in input
      ensures e.sn <= snap
    {
      assert e in Elements(input);
    }
    KeepsOnePerKey(input, snap, v, level);
    DistinctKeysApart(outputs);
  }

  // Each table becomes a file with the next number.
  method FinishOutputs(outputs: seq<seq<Entry>>, next: nat, fileSize: seq<Entry> -> nat) returns (outs: seq<File>)
    requires NoneEmpty(outputs)
    ensures |outs| == |outputs|
    ensures forall i :: 0 <= i < |outs| ==>
              outs[i].number == next + i && outs[i].entries == outputs[i] && outputs[i] != []
              && outs[i].size == fileSize(outputs[i]) && outs[i].smallest == outputs[i][0].Ikey() && outs[i].largest == outputs[i][|outputs[i]| - 1].Ikey()
  {
    outs := [];
    while |outs| < |outputs|
      invariant |outs| <= |outputs|
      invariant forall i :: 0 <= i < |outs| ==>
                  outs[i].number == next + i && outs[i].entries == outputs[i] && outputs[i] != []
                  && outs[i].size == fileSize(outputs[i]) && outs[i].smallest == outputs[i][0].Ikey() && outs[i].largest == outputs[i][|outputs[i]| - 1].Ikey()
    {
      var table := outputs[|outs|];
      outs := outs + [File(next + |outs|, fileSize(table), table[0].Ikey(), table[|table| - 1].Ikey(), table)];
    }
  }

  lemma AllMade(input: seq<Entry>, snap: nat, v: Version, level: nat, rule: CutRule, outputs: seq<seq<Entry>>, outs: seq<File>,
                fileSize: seq<Entry> -> nat)
    requires |outs| == |outputs| && outputs == CutsOf(input, |input|, snap, v, level, rule).1.Tables()
    requires forall i :: 0 <= i < |outs| ==> outs[i].entries == outputs[i] && outs[i].size == fileSize(outputs[i])
    ensures Made(input, snap, v, level, rule, fileSize, outs) && SizesRecorded(outs, fileSize)
  {
    hide CutsOf;
    assert TablesIn(outs) == outputs;
  }

  // AddInputDeletions, and the files InstallCompactionResults adds.
  function InputDeletions(level: nat, inputs0: seq<File>, inputs1: seq<File>): (r: set<(nat, nat)>)
    ensures forall l, n :: (l, n) in r <==>
              (l == level && exists f :: f in inputs0 && f.number == n) || (l == level + 1 && exists f :: f in inputs1 && f.number == n)
    ensures forall p :: p in r ==> p.0 == level || p.0 == level + 1
  {
    (set f | f in inputs0 :: (level, f.number)) + (set f | f in inputs1 :: (level + 1, f.number))
  }

  function AddedAt(level: nat, outs: seq<File>): (r: seq<(nat, File)>)
    ensures |r| == |outs| && forall i :: 0 <= i < |outs| ==> r[i] == (level, outs[i])
  {
    seq(|outs|, i requires 0 <= i < |outs| => (level, outs[i]))
  }

  lemma OutputsAreOk(input: seq<Entry>, outputs: seq<seq<Entry>>, outs: seq<File>, next: nat, v: Version, level: nat, snap: nat,
                     inputs0: seq<File>, inputs1: seq<File>, history: set<Entry>, last: nat)
    requires Sorted(input) && Elements(input) == InputEntries(inputs0, inputs1) && Elements(input) <= history
    requires Recorded(history, last) && last < MAX_SEQUENCE
    requires Concat(outputs) == Kept(input, |input|, snap, v, level) && NoneEmpty(outputs)
    requires |outs| == |outputs| && forall i :: 0 <= i < |outs| ==>
               outs[i].number == next + i && outs[i].entries == outputs[i] && outputs[i] != []
               && outs[i].smallest == outputs[i][0].Ikey() && outs[i].largest == outputs[i][|outputs[i]| - 1].Ikey()
    ensures OutputsOk(inputs0, inputs1, outs, next) && KeptInto(v, level, inputs0, inputs1, snap, input, outs)
    ensures KeysApart(outputs) ==> forall f, g :: f in outs && g in outs && f != g ==> Apart(f, g)
  {
    hide Concat, Kept;
    KeptSorted(input, |input|, snap, v, level);
    TablesOfRun(outputs);
    TablesInOrder(outputs);
    forall i, e | 0 <= i < |outs| && e in outputs[i]
      ensures e in Concat(outputs) && e in InputEntries(inputs0, inputs1) && e.sn <= last
    {
      assert outputs[i] in outputs;
      assert e in Kept(input, |input|, snap, v, level);
      assert e in input && e in Elements(input);
    }
    forall i | 0 <= i < |outs|
      ensures FileOk(outs[i])
    {
      assert outputs[i] in outputs;
      assert outputs[i][0] in outputs[i] && outputs[i][|outputs[i]| - 1] in outputs[i];
    }
    OutputEntries(outputs, outs);
  }

  lemma OutputEntries(outputs: seq<seq<Entry>>, outs: seq<File>)
    requires Sorted(Concat(outputs)) && |outs| == |outputs| && forall i :: 0 <= i < |outs| ==> outs[i].entries == outputs[i]
    ensures LevelEntries(outs) == Elements(Concat(outputs))
  {
    hide Concat;
    TablesOfRun(outputs);
    forall e
      ensures e in LevelEntries(outs) <==> e in Concat(outputs)
    {
      if e in LevelEntries(outs) {
        var f :| f in outs && e in f.entries;
        var i :| 0 <= i < |outs| && outs[i] == f;
        assert outputs[i] in outputs;
      }
      if e in Concat(outputs) {
        var t :| t in outputs && e in t;
        var i :| 0 <= i < |outputs| && outputs[i] == t;
        assert outs[i] in outs;
      }
    }
  }

  lemma EditReplaces(v: Version, next: nat, level: nat, inputs0: seq<File>, inputs1: seq<File>, outs: seq<File>,
                     e: FileEdit, v': Version)
    requires Numbered(v, next) && InputsOk(v, level, inputs0, inputs1) && EditedBy(v, e, v')
    requires e.deletedFiles == InputDeletions(level, inputs0, inputs1) && e.newFiles == AddedAt(level + 1, outs)
    ensures Replaced(v, level, inputs0, inputs1, outs, v')
  {
    hide InputDeletions, AddedAt, FileOk;
    forall l: nat, g | l < NUM_LEVELS
      ensures g in v'[l] <==> (g in v[l] && !IsInput(level, inputs0, inputs1, l, g)) || (l == level + 1 && g in outs)
    {
      if g in v[l] {
        DeletedIsInput(v, next, level, inputs0, inputs1, l, g);
      }
      AddedIsOutput(level + 1, outs, l, g);
    }
  }

  lemma DeletedIsInput(v: Version, next: nat, level: nat, inputs0: seq<File>, inputs1: seq<File>, l: nat, g: File)
    requires Numbered(v, next) && InputsOk(v, level, inputs0, inputs1) && l < NUM_LEVELS && g in v[l]
    ensures (l, g.number) in InputDeletions(level, inputs0, inputs1) <==> IsInput(level, inputs0, inputs1, l, g)
  {
    hide InputDeletions;
  }

  lemma AddedIsOutput(level: nat, outs: seq<File>, l: nat, g: File)
    ensures (l, g) in AddedAt(level, outs) <==> l == level && g in outs
  {
    var added := AddedAt(level, outs);
    if l == level && g in outs {
      var i :| 0 <= i < |outs| && outs[i] == g;
      assert added[i] == (level, g);
    }
  }

  // The size recorded for a file is that of its table.
  ghost predicate SizesRecorded(files: seq<File>, fileSize: seq<Entry> -> nat) {
    forall f :: f in files ==> f.size == fileSize(f.entries)
  }

  ghost predicate Sized(v: Version, fileSize: seq<Entry> -> nat) {
    forall l, f :: 0 <= l < NUM_LEVELS && f in v[l] ==> f.size == fileSize(f.entries)
  }

  function TablesIn(files: seq<File>): (r: seq<seq<Entry>>)
    ensures |r| == |files| && forall i :: 0 <= i < |r| ==> r[i] == files[i].entries
  {
    seq(|files|, i requires 0 <= i < |files| => files[i].entries)
  }

  // The files made of the input: cut by the rule, and each with its size.
  ghost predicate Made(input: seq<Entry>, snap: nat, v: Version, level: nat, rule: CutRule, fileSize: seq<Entry> -> nat, outs: seq<File>) {
    SizesRecorded(outs, fileSize) && TablesIn(outs) == CutsOf(input, |input|, snap, v, level, rule).1.Tables()
  }

  // What a merge leaves: the inputs are gone, and the next level has tables of the entries it keeps.
  ghost predicate Merged(v: Version, level: nat, inputs0: seq<File>, inputs1: seq<File>, snap: nat, rule: CutRule,
                         fileSize: seq<Entry> -> nat, v': Version) {
    exists outs, input ::
      Replaced(v, level, inputs0, inputs1, outs, v') && KeptInto(v, level, inputs0, inputs1, snap, input, outs)
      && Made(input, snap, v, level, rule, fileSize, outs)
  }

  lemma MergedIsSized(v: Version, level: nat, inputs0: seq<File>, inputs1: seq<File>, snap: nat, rule: CutRule,
                      fileSize: seq<Entry> -> nat, v': Version)
    requires Merged(v, level, inputs0, inputs1, snap, rule, fileSize, v') && Sized(v, fileSize)
    ensures Sized(v', fileSize)
  {
    hide KeptInto, CutsOf;
  }

  // All a merge does to a version: what it makes of it, when the levels stay in order of age, when every
  // live snapshot still reads as before, and that what is left is served in any case.
  ghost predicate MergeDone(mem: seq<Entry>, imm: Option<seq<Entry>>, v: Version, v': Version, next': nat, history: set<Entry>, last: nat,
                            level: nat, inputs0: seq<File>, inputs1: seq<File>, snap: nat, rule: CutRule, fileSize: seq<Entry> -> nat)
    requires level < NUM_LEVELS
  {
    Merged(v, level, inputs0, inputs1, snap, rule, fileSize, v') && VersionEntries(v') <= VersionEntries(v)
    && Inv(mem, imm, v', next', Tree(mem, imm, v'), last, snap)
    && (Inv(mem, imm, v', next', history, last, snap)
        <==> NothingResurrects(InputEntries(inputs0, inputs1), Rest(mem, imm, v, level, inputs0, inputs1), snap, v, level))
    && (FilesAge(v) ==> (FilesAge(v') <==> AgeSafe(v, level, inputs0, inputs1, snap)) && MisleadsWhereParted(v, level, inputs0, inputs1, v'))
    && (NoStraddle(v) && snap == last ==> NoStraddle(v'))
  }

  // Merge the inputs, drop what no read needs, write the rest to tables of the next level; the edit
  // replaces the inputs by them.
  method MergeInputsToOutputs(c: Compaction, inputs0: seq<File>, inputs1: seq<File>, snap: nat, maxOutputFileSize: nat,
                              builtSize: seq<Entry> -> nat, fileSize: seq<Entry> -> nat, next: nat,
                              ghost mem: seq<Entry>, ghost imm: Option<seq<Entry>>, ghost history: set<Entry>, ghost last: nat)
    returns (outs: seq<File>, edit: FileEdit)
    requires c.Valid() && (forall k :: c.Behind(k)) && c.Passed() == NOTHING_PASSED && InputsOk(c.version, c.level, inputs0, inputs1)
    requires Inv(mem, imm, c.version, next, history, last, snap)
    modifies c
    ensures EditOk(edit) && Unused(edit.newFiles, next, next + |outs|) && edit.newFiles == AddedAt(c.level + 1, outs)
    ensures SizesRecorded(outs, fileSize)
    ensures var rule := CutRule(c.grandparents, c.maxGrandParentOverlapBytes, maxOutputFileSize, builtSize);
            forall v' :: VersionOrdered(v') && EditedBy(c.version, edit, v') ==>
              MergeDone(mem, imm, c.version, v', next + |outs|, history, last, c.level, inputs0, inputs1, snap, rule, fileSize)
  {
    hide Inv, VersionOk, VersionOrdered, Numbered, TreeOk, EditedBy, NeverReadded, InputsOk, Kept, InputEntries, OutputsOk, KeptInto,
      LevelEntries, Elements, Concat, KeysApart, Replaced, Unused, InputDeletions, AddedAt, VersionEntries, FilesAge, NoStraddle,
      MergeDone, CutBySize, CutsOf, Made;
    InvTree(mem, imm, c.version, next, history, last, snap);
    InvInput(mem, imm, c.version, next, history, last, snap, c.level, inputs0, inputs1);
    var input := MergeInputs(c.version, next, c.level, inputs0, inputs1);
    var outputs := DoCompactionWork(c, input, snap, maxOutputFileSize, builtSize);
    ghost var rule := CutRule(c.grandparents, c.maxGrandParentOverlapBytes, maxOutputFileSize, builtSize);
    outs := FinishOutputs(outputs, next, fileSize);
    AllMade(input, snap, c.version, c.level, rule, outputs, outs, fileSize);
    assert c.level + 1 < NUM_LEVELS by { InputsInRange(c.version, c.level, inputs0, inputs1); }
    edit := FileEdit(InputDeletions(c.level, inputs0, inputs1), AddedAt(c.level + 1, outs));
    AddedAreUnused(c.level + 1, outs, next);
    DeletionsInRange(c.level, inputs0, inputs1);
    if snap == last {
      NoSnapshotNoStraddle(input, snap, c.version, c.level, history, outputs);
    }
    OutputsAreOk(input, outputs, outs, next, c.version, c.level, snap, inputs0, inputs1, history, last);
    forall v' | VersionOrdered(v') && EditedBy(c.version, edit, v')
      ensures MergeDone(mem, imm, c.version, v', next + |outs|, history, last, c.level, inputs0, inputs1, snap, rule, fileSize)
    {
      EditReplaces(c.version, next, c.level, inputs0, inputs1, outs, edit, v');
      MergeIsDone(mem, imm, c.version, v', next, history, last, c.level, inputs0, inputs1, snap, input, outputs, outs, rule, fileSize);
    }
  }

  lemma MergeIsDone(mem: seq<Entry>, imm: Option<seq<Entry>>, v: Version, v': Version, next: nat, history: set<Entry>, last: nat,
                    level: nat, inputs0: seq<File>, inputs1: seq<File>, snap: nat, input: seq<Entry>,
                    outputs: seq<seq<Entry>>, outs: seq<File>, rule: CutRule, fileSize: seq<Entry> -> nat)
    requires Inv(mem, imm, v, next, history, last, snap) && InputsOk(v, level, inputs0, inputs1) && level < NUM_LEVELS
    requires OutputsOk(inputs0, inputs1, outs, next) && KeptInto(v, level, inputs0, inputs1, snap, input, outs)
    requires VersionOrdered(v') && Replaced(v, level, inputs0, inputs1, outs, v')
    requires (snap == last ==> KeysApart(outputs)) && Made(input, snap, v, level, rule, fileSize, outs)
    requires KeysApart(outputs) ==> forall f, g :: f in outs && g in outs && f != g ==> Apart(f, g)
    ensures MergeDone(mem, imm, v, v', next + |outs|, history, last, level, inputs0, inputs1, snap, rule, fileSize)
  {
    InvTree(mem, imm, v, next, history, last, snap);
    assert TreeOk(v, next);
    hide Inv, TreeOk, OutputsOk, KeptInto, VersionOrdered, Replaced, InputsOk, FilesAge, AgeSafe, NoStraddle, Apart, KeysApart;
    hide Made, NothingResurrects, VersionEntries, VersionOk, Numbered, MisleadsWhereParted, LevelsInOrder, Level0InOrder;
    CompactKeeps(mem, imm, v, next, history, last, snap, level, inputs0, inputs1, input, outs, v');
    CompactKeepsTree(v, next, level, inputs0, inputs1, snap, input, outs, v');
    assert Merged(v, level, inputs0, inputs1, snap, rule, fileSize, v');
    if FilesAge(v) {
      FilesDistinct(mem, imm, v, next, history, last, snap);
      MergeParts(v, next, level, inputs0, inputs1, outs, v');
    }
  }

  lemma MergeParts(v: Version, next: nat, level: nat, inputs0: seq<File>, inputs1: seq<File>, outs: seq<File>, v': Version)
    requires TreeOk(v, next) && FilesAge(v) && DistinctSequences(VersionEntries(v)) && InputsOk(v, level, inputs0, inputs1)
    requires TreeOk(v', next + |outs|) && Replaced(v, level, inputs0, inputs1, outs, v') && level < NUM_LEVELS
    requires OutputsOk(inputs0, inputs1, outs, next)
    ensures MisleadsWhereParted(v, level, inputs0, inputs1, v')
  {
    hide TreeOk, FilesAge, DistinctSequences, VersionEntries, InputsOk, Replaced, InputEntries, Misleads, Strands, FileOk, Less;
    forall k: int, s: nat
      ensures Misleads(v', k, s) <==> Strands(v, level, inputs0, inputs1, VersionEntries(v'), k, s)
    {
      StepMisleads(v, next, level, inputs0, inputs1, outs, v', next + |outs|, k, s);
    }
  }

  lemma AddedAreUnused(level: nat, outs: seq<File>, next: nat)
    requires level < NUM_LEVELS && forall i :: 0 <= i < |outs| ==> outs[i].number == next + i
    ensures Unused(AddedAt(level, outs), next, next + |outs|)
  {}

  lemma DeletionsInRange(level: nat, inputs0: seq<File>, inputs1: seq<File>)
    requires level + 1 < NUM_LEVELS
    ensures forall p :: p in InputDeletions(level, inputs0, inputs1) ==> p.0 < NUM_LEVELS
  {}

  // ---- Iterators over the database ----

  // What the levels above level l hold.
  ghost function Above(v: Version, l: nat): set<Entry> {
    set m, f, e | 0 <= m < l && m < NUM_LEVELS && f in v[m] && e in f.entries :: e
  }

  lemma AboveNext(v: Version, l: nat)
    requires l < NUM_LEVELS
    ensures Above(v, l + 1) == Above(v, l) + LevelEntries(v[l]) && Above(v, 0) == {} && Above(v, NUM_LEVELS) == VersionEntries(v)
  {
    assert forall e :: e in Above(v, l + 1) <==> e in Above(v, l) || e in LevelEntries(v[l]);
  }

  lemma NewerDiffers(a: set<Entry>, b: set<Entry>)
    requires Newer(a, b)
    ensures KeysDiffer(a, b)
  {}

  lemma LevelDiffers(v: Version, next: nat, l: nat)
    requires TreeOk(v, next) && DistinctSequences(VersionEntries(v)) && l < NUM_LEVELS
    ensures KeysDiffer(Above(v, l), LevelEntries(v[l])) && (forall f :: f in v[l] ==> FileOk(f)) && Ordered(v[l])
    ensures l > 0 ==> LevelSorted(v[l])
  {
    hide FileOk, VersionOrdered, FilesInOrder, EntriesOnce, DistinctSequences, VersionEntries, LevelSorted, Ordered, AllFilesOk;
    LevelIsSorted(v, next, l);
    forall e, e' | e in Above(v, l) && e' in LevelEntries(v[l])
      ensures e.Ikey() != e'.Ikey()
    {
      var m, f :| 0 <= m < l && f in v[m] && e in f.entries;
      var g :| g in v[l] && e' in g.entries;
      assert f.number != g.number;
      EntriesDiffer(v, m, f, e, l, g, e');
    }
  }

  lemma LevelIsSorted(v: Version, next: nat, l: nat)
    requires TreeOk(v, next) && l < NUM_LEVELS
    ensures Ordered(v[l]) && (l > 0 ==> LevelSorted(v[l])) && forall f :: f in v[l] ==> FileOk(f)
  {
    TreeServes(v, next);
  }

  // What the memtables, the level-0 files and the levels have, each in its place.
  ghost function Gathered(mem: seq<Entry>, imm: Option<seq<Entry>>, v: Version, l: nat): set<Entry> {
    Elements(mem) + ImmEntries(imm) + Above(v, l)
  }

  lemma GatheredNext(mem: seq<Entry>, imm: Option<seq<Entry>>, v: Version, l: nat)
    requires l < NUM_LEVELS
    ensures Gathered(mem, imm, v, 0) == Elements(mem) + ImmEntries(imm)
    ensures Gathered(mem, imm, v, l + 1) == Gathered(mem, imm, v, l) + LevelEntries(v[l])
    ensures Gathered(mem, imm, v, NUM_LEVELS) == Tree(mem, imm, v)
  {
    AboveNext(v, l);
    hide VersionEntries, LevelEntries, Above, Elements, ImmEntries;
  }

  // No internal key is in two of them.
  lemma PartsDiffer(mem: seq<Entry>, imm: Option<seq<Entry>>, v: Version, next: nat, history: set<Entry>, last: nat, oldest: nat, l: nat)
    requires Inv(mem, imm, v, next, history, last, oldest) && l < NUM_LEVELS
    ensures KeysDiffer(Elements(mem), ImmEntries(imm)) && KeysDiffer(Gathered(mem, imm, v, l), LevelEntries(v[l]))
  {
    MemtablesDiffer(mem, imm, v, next, history, last, oldest);
    hide Inv, TreeOk, FileOk, Ordered, LevelSorted, Sorted, DistinctSequences, KeysDiffer, VersionEntries, LevelEntries, Above, Elements,
      ImmEntries;
    LevelDiffers(v, next, l);
    LevelIsPart(v, l);
    AllDiffer(Elements(mem), ImmEntries(imm), VersionEntries(v), Above(v, l), LevelEntries(v[l]));
  }

  lemma AllDiffer(a: set<Entry>, b: set<Entry>, es: set<Entry>, c: set<Entry>, d: set<Entry>)
    requires KeysDiffer(a, b + es) && KeysDiffer(b, es) && KeysDiffer(c, d) && d <= es
    ensures KeysDiffer(a, b) && KeysDiffer(a + b + c, d)
  {}

  lemma LevelIsPart(v: Version, l: nat)
    requires l < NUM_LEVELS
    ensures LevelEntries(v[l]) <= VersionEntries(v)
  {}

  lemma MemtablesDiffer(mem: seq<Entry>, imm: Option<seq<Entry>>, v: Version, next: nat, history: set<Entry>, last: nat, oldest: nat)
    requires Inv(mem, imm, v, next, history, last, oldest)
    ensures TreeOk(v, next) && DistinctSequences(VersionEntries(v)) && Sorted(mem) && (imm.Some? ==> Sorted(imm.value))
    ensures KeysDiffer(Elements(mem), ImmEntries(imm) + VersionEntries(v)) && KeysDiffer(ImmEntries(imm), VersionEntries(v))
  {
    assert VersionEntries(v) <= Tree(mem, imm, v);
    hide ReadAlike, TreeOk, Sorted, VersionEntries;
    assert DistinctSequences(VersionEntries(v));
    NewerDiffers(Elements(mem), ImmEntries(imm) + VersionEntries(v));
    NewerDiffers(ImmEntries(imm), VersionEntries(v));
  }

  // DBImpl::NewInternalIterator, with Version::AddIterators.
  method NewInternalIterator(mem: seq<Entry>, imm: Option<seq<Entry>>, v: Version, ghost next: nat, ghost history: set<Entry>,
                             ghost last: nat, ghost oldest: nat) returns (it: MergingIterator)
    requires Inv(mem, imm, v, next, history, last, oldest)
    ensures fresh(it) && forall i :: 0 <= i < |it.children| ==> fresh(it.children[i])
    ensures it.Ok() && Elements(it.view) == Tree(mem, imm, v)
  {
    hide TwoLevelIterator.Ok, TwoLevelIterator.View, MergingIterator.Ok, MergingIterator.Pos, RunsOk, Together, TreeOk, LevelEntries, Inv, Tree,
      LevelSorted, Serve, KeysDiffer, FileOk, Ordered, VersionEntries, Gathered, Sorted, DistinctSequences;
    MemtablesDiffer(mem, imm, v, next, history, last, oldest);
    PartsDiffer(mem, imm, v, next, history, last, oldest, 0);
    GatheredNext(mem, imm, v, 0);
    LevelDiffers(v, next, 0);
    NothingTogether();
    var it0 := RunIterator(mem);
    var list: seq<TwoLevelIterator>;
    ghost var runs: seq<seq<Entry>>;
    list, runs := AddRun([], [], it0);
    assert {} + Elements(mem) == Elements(mem);
    if imm.Some? {
      var it1 := RunIterator(imm.value);
      list, runs := AddRun(list, runs, it1);
    }
    assert Together(runs) == Gathered(mem, imm, v, 0);
    list, runs := AddTables(list, runs, v[0], v, next);
    var level := 1;
    while level < NUM_LEVELS
      invariant 1 <= level <= NUM_LEVELS && Serve(list, runs) && RunsOk(runs) && Together(runs) == Gathered(mem, imm, v, level)
      invariant forall x :: x in list ==> fresh(x)
    {
      PartsDiffer(mem, imm, v, next, history, last, oldest, level);
      GatheredNext(mem, imm, v, level);
      LevelDiffers(v, next, level);
      if v[level] != [] {
        list, runs := AddLevel(list, runs, v[level]);
      } else {
        NoFiles(v[level]);
      }
      level := level + 1;
    }
    it := MergeRuns(list, runs);
    forall i | 0 <= i < |it.children|
      ensures fresh(it.children[i])
    {
      assert it.children[i] in list;
    }
  }

  // A position at which an iterator over these entries shows key k with value x.
  ghost predicate Shows(view: seq<Entry>, s: nat, k: int, x: Value) {
    exists p: nat :: p < LiveCount(view, s) && ShowsAt(view, s, p, k, x)
  }

  ghost predicate ShowsAt(view: seq<Entry>, s: nat, p: nat, k: int, x: Value)
    requires p < LiveCount(view, s)
  {
    var e := view[LiveList(view, s, |view|)[p]];
    e.key == k && e.payload == Put(x)
  }

  // An iterator shows what a read finds.
  lemma ShownIsRead(view: seq<Entry>, s: nat, k: int, x: Value)
    requires Sorted(view) && DistinctSequences(Elements(view))
    ensures Shows(view, s, k, x) <==> Reads(Elements(view), k, s, Some(x))
  {
    hide Sorted, LiveList, IsLive;
    if Shows(view, s, k, x) {
      var p: nat :| p < LiveCount(view, s) && ShowsAt(view, s, p, k, x);
      LiveIsNewest(view, s, LiveList(view, s, |view|)[p]);
    }
    if Reads(Elements(view), k, s, Some(x)) {
      var e :| IsNewest(Elements(view), k, s, e) && e.payload == Put(x);
      var i: nat :| i < |view| && view[i] == e;
      LiveIsNewest(view, s, i);
      RankOfLive(view, s, i);
      assert ShowsAt(view, s, Rank(view, s, i), k, x);
    }
  }

  // ---- The database ----

  // v' has one file more, of the table's entries, on the level it comes to rest on.
  ghost predicate FlushedInto(v: Version, table: seq<Entry>, limit: nat, fileSize: seq<Entry> -> nat, v': Version) {
    exists level: nat, f ::
      level < NUM_LEVELS && Gains(v, level, f, v') && FileOk(f) && f.entries == table && f.size == fileSize(table)
      && RestsAt(v, f.smallest.key, f.largest.key, limit, level)
  }

  class DBImpl {
    // Options, the size of a table as far as it is built, and that of its finished file.
    const maxGrandParentOverlapBytes: nat
    const expandedCompactionLimit: nat
    const maxOutputFileSize: nat
    const builtSize: seq<Entry> -> nat
    const fileSize: seq<Entry> -> nat

    var mem: seq<Entry>
    var imm: Option<seq<Entry>>
    var version: Version
    var snapshots: seq<nat>
    var lastSequence: nat
    var nextFileNumber: nat

    // Every write so far.
    ghost var history: set<Entry>

    ghost function Oldest(): nat
      reads this
    {
      if snapshots == [] then lastSequence else snapshots[0]
    }

    // What holds of a running database, whatever user keys straddle its files.  FilesAge is a question of
    // its own.
    ghost predicate Valid()
      reads this
    {
      Inv(mem, imm, version, nextFileNumber, history, lastSequence, Oldest()) && Sized(version, fileSize)
      && (forall i, j :: 0 <= i < j < |snapshots| ==> snapshots[i] <= snapshots[j])
      && forall i :: 0 <= i < |snapshots| ==> snapshots[i] <= lastSequence
    }

    // The number a merge drops by is the least at which anyone may still read.
    lemma OldestIsLeast()
      requires Valid()
      ensures Oldest() <= lastSequence && forall s :: s in snapshots ==> Oldest() <= s
      ensures Oldest() == lastSequence || Oldest() in snapshots
    {
      hide Inv;
    }

    constructor (maxGrandParentOverlapBytes: nat, expandedCompactionLimit: nat, maxOutputFileSize: nat,
                 builtSize: seq<Entry> -> nat, fileSize: seq<Entry> -> nat)
      ensures Valid() && history == {} && snapshots == [] && imm == None && FilesAge(version) && NoStraddle(version)
      ensures this.maxGrandParentOverlapBytes == maxGrandParentOverlapBytes && this.maxOutputFileSize == maxOutputFileSize
      ensures this.expandedCompactionLimit == expandedCompactionLimit && this.builtSize == builtSize && this.fileSize == fileSize
    {
      this.maxGrandParentOverlapBytes := maxGrandParentOverlapBytes;
      this.expandedCompactionLimit := expandedCompactionLimit;
      this.maxOutputFileSize := maxOutputFileSize;
      this.builtSize, this.fileSize := builtSize, fileSize;
      mem, imm, version, snapshots := [], None, [[], [], [], [], [], [], []], [];
      lastSequence, nextFileNumber, history := 0, 2, {};
      new;
      EmptyInv();
    }

    // The group's batch: consecutive sequence numbers, into the memtable in order.
    method Write(batch: seq<(int, Payload)>)
      requires Valid() && lastSequence + |batch| < MAX_SEQUENCE
      modifies this
      ensures Valid() && lastSequence == old(lastSequence) + |batch| && snapshots == old(snapshots) && version == old(version)
      ensures history == old(history) + BatchEntries(batch, old(lastSequence) + 1)
    {
      hide Inv, BatchEntries, FilesAge, Sized, Sorted, Inserted, Elements;
      MemIsOld(mem, imm, version, nextFileNumber, history, lastSequence, Oldest());
      ghost var before, oldest, last := mem, Oldest(), lastSequence;
      mem := InsertInto(batch, lastSequence + 1, mem);
      history := history + BatchEntries(batch, lastSequence + 1);
      lastSequence := lastSequence + |batch|;
      WriteKeeps(before, imm, version, nextFileNumber, old(history), last, oldest, batch, mem, Oldest());
    }

    static lemma MemIsOld(mem: seq<Entry>, imm: Option<seq<Entry>>, v: Version, next: nat, history: set<Entry>, last: nat, oldest: nat)
      requires Inv(mem, imm, v, next, history, last, oldest)
      ensures Sorted(mem) && (forall e :: e in mem ==> e.sn <= last) && oldest <= last
    {
      assert forall e :: e in mem ==> e in Elements(mem);
      assert forall e :: e in Elements(mem) ==> e in Tree(mem, imm, v);
    }

    // MakeRoomForWrite, when there is room for an immutable memtable: the log gets a new number.
    method SwitchMemtable()
      requires Valid() && imm == None
      modifies this
      ensures Valid() && history == old(history) && snapshots == old(snapshots) && lastSequence == old(lastSequence)
      ensures imm == Some(old(mem)) && mem == [] && version == old(version)
    {
      hide Inv, FilesAge;
      SwitchKeeps(mem, version, nextFileNumber, history, lastSequence, Oldest(), nextFileNumber + 1);
      nextFileNumber := nextFileNumber + 1;
      imm, mem := Some(mem), [];
    }

    // VersionSet::LogAndApply, as far as the version goes.
    method LogAndApply(e: FileEdit)
      requires EditOk(e) && VersionOrdered(version) && NeverReadded(version, e.newFiles)
      modifies this`version
      ensures VersionOrdered(version) && EditedBy(old(version), e, version)
    {
      EditResult(version, e);
      var builder := new Builder(version);
      builder.Apply(e);
      var v := builder.SaveTo();
      version := v;
    }

    // Write the immutable memtable to a table and put it as deep as nothing in its way allows.
    method CompactMemTable()
      requires Valid() && imm.Some?
      modifies this
      ensures Valid() && history == old(history) && snapshots == old(snapshots) && lastSequence == old(lastSequence)
      ensures imm == None && mem == old(mem)
      ensures if old(imm) == Some([]) then version == old(version)
              else FlushedInto(old(version), old(imm.value), maxGrandParentOverlapBytes, fileSize, version)
      ensures (FilesAge(old(version)) ==> FilesAge(version)) && (NoStraddle(old(version)) ==> NoStraddle(version))
    {
      hide Inv, TreeOk, VersionOk, VersionOrdered, Numbered, FileOk, EditedBy, NeverReadded, FilesAge, NoStraddle;
      var table := imm.value;
      if table == [] {
        EmptyFlushKeeps(mem, version, nextFileNumber, history, lastSequence, Oldest());
        imm := None;
        return;
      }
      var f := File(nextFileNumber, fileSize(table), table[0].Ikey(), table[|table| - 1].Ikey(), table);
      FlushedFileOk(mem, table, version, nextFileNumber, history, lastSequence, Oldest(), f);
      InvTree(mem, imm, version, nextFileNumber, history, lastSequence, Oldest());
      var level := PickLevelForMemTableOutput(version, f.smallest.key, f.largest.key, maxGrandParentOverlapBytes);
      var edit := FileEdit({}, [(level, f)]);
      UnusedIsFresh(version, nextFileNumber, edit.newFiles, nextFileNumber + 1);
      ghost var before := version;
      LogAndApply(edit);
      FlushKeeps(mem, table, before, nextFileNumber, history, lastSequence, Oldest(), f, level, version);
      EditGains(before, level, f, version);
      nextFileNumber := nextFileNumber + 1;
      imm := None;
    }

    static lemma FlushedFileOk(mem: seq<Entry>, table: seq<Entry>, v: Version, next: nat, history: set<Entry>, last: nat,
                               oldest: nat, f: File)
      requires Inv(mem, Some(table), v, next, history, last, oldest) && table != []
      requires f.smallest == table[0].Ikey() && f.largest == table[|table| - 1].Ikey() && f.entries == table
      ensures FileOk(f) && f.smallest.key <= f.largest.key
    {
      var first, last := table[0], table[|table| - 1];
      assert first in Elements(table) && last in Elements(table);
      assert first in Tree(mem, Some(table), v) && last in Tree(mem, Some(table), v);
      FileSpans(f);
    }

    function RuleWith(grandparents: seq<File>): CutRule {
      CutRule(grandparents, maxGrandParentOverlapBytes, maxOutputFileSize, builtSize)
    }

    // No deleted key comes back to a reader at a live snapshot.
    ghost predicate KeepsReads(level: nat, inputs0: seq<File>, inputs1: seq<File>)
      reads this
    {
      NothingResurrects(InputEntries(inputs0, inputs1), Rest(mem, imm, version, level, inputs0, inputs1), Oldest(), version, level)
    }

    // Get is wrong for exactly the keys the step parted from an older version above, at the sequence numbers
    // at which a read comes to the part that went down.
    ghost predicate MisledWhereParted(before: Version, level: nat, inputs0: seq<File>, inputs1: seq<File>)
      requires level < NUM_LEVELS
      reads this
    {
      forall k: int, s: nat :: MisledAt(k, s) <==>
        NothingVisible(Elements(mem), k, s) && NothingVisible(ImmEntries(imm), k, s)
        && Strands(before, level, inputs0, inputs1, VersionEntries(version), k, s)
    }

    // BackgroundCompaction on the files it was given to start from: a move if that is all it takes, else a
    // merge.  A move loses nothing and a merge loses reads exactly if it brings a deleted key back; the
    // levels stay in order of age exactly if the step is safe, and else Get is wrong for the parted keys.
    // Nothing goes wrong as long as no user key straddles two files of a level, which is so for ever if no
    // snapshot is held while merging.
    method BackgroundCompaction(level: nat, start: seq<File>)
      returns (ghost inputs0: seq<File>, ghost inputs1: seq<File>, ghost grandparents: seq<File>, ghost moved: bool)
      requires Valid() && level + 1 < NUM_LEVELS && start != [] && Ordered(start) && forall f :: f in start ==> f in version[level]
      requires level == 0 ==> forall f, g :: f in start && g in version[0] && g !in start ==>
                 g.largest.key < f.smallest.key || f.largest.key < g.smallest.key
      modifies this
      ensures InputsOk(old(version), level, inputs0, inputs1) && (forall f :: f in start ==> f in inputs0) && inputs0 != []
      ensures Chosen(old(version), level, start, expandedCompactionLimit, inputs0, inputs1)
      ensures GrandparentsOf(old(version), level, inputs0, inputs1, grandparents)
      ensures moved <==> |inputs0| == 1 && inputs1 == [] && TotalFileSize(grandparents) <= maxGrandParentOverlapBytes
      ensures if moved then |inputs0| == 1 && inputs1 == [] && Moved(old(version), level, inputs0[0], version)
              else Merged(old(version), level, inputs0, inputs1, old(Oldest()), RuleWith(grandparents), fileSize, version)
      ensures Valid() <==> moved || old(KeepsReads(level, inputs0, inputs1))
      ensures FilesAge(old(version)) ==>
                (FilesAge(version) <==> if moved then MoveSafe(old(version), level, inputs0[0])
                                        else AgeSafe(old(version), level, inputs0, inputs1, Oldest()))
                && MisledWhereParted(old(version), level, inputs0, inputs1)
      ensures FilesAge(old(version)) && NoStraddle(old(version)) ==>
                Valid() && FilesAge(version) && (moved || snapshots == [] ==> NoStraddle(version))
      ensures history == old(history) && snapshots == old(snapshots) && lastSequence == old(lastSequence)
      ensures mem == old(mem) && imm == old(imm)
    {
      hide Inv, VersionOk, VersionOrdered, Numbered, TreeOk, InputsOk, Moved, Merged, FilesAge, NoStraddle, MoveSafe, AgeSafe,
        NothingResurrects, MisledWhereParted, Chosen, GrandparentsOf;
      InvTree(mem, imm, version, nextFileNumber, history, lastSequence, Oldest());
      var in0, in1, in2 := SetupOtherInputs(version, level, start, expandedCompactionLimit);
      inputs0, inputs1, grandparents := in0, in1, in2;
      SomeInput(version, level, in0, in1);
      if |in0| == 1 && |in1| == 0 && TotalFileSize(in2) <= maxGrandParentOverlapBytes {
        TrivialMove(level, in0, in1);
        moved := true;
      } else {
        Compact(level, in0, in1, in2);
        moved := false;
      }
    }

    static lemma SomeInput(v: Version, level: nat, inputs0: seq<File>, inputs1: seq<File>)
      requires InputsOk(v, level, inputs0, inputs1)
      ensures inputs0 != [] && level < NUM_LEVELS
    {}

    method Compact(level: nat, inputs0: seq<File>, inputs1: seq<File>, grandparents: seq<File>)
      requires Valid() && InputsOk(version, level, inputs0, inputs1) && inputs0 != [] && level < NUM_LEVELS
      modifies this
      ensures Merged(old(version), level, inputs0, inputs1, old(Oldest()), RuleWith(grandparents), fileSize, version)
      ensures Valid() <==> old(KeepsReads(level, inputs0, inputs1))
      ensures FilesAge(old(version)) ==>
                (FilesAge(version) <==> AgeSafe(old(version), level, inputs0, inputs1, Oldest()))
                && MisledWhereParted(old(version), level, inputs0, inputs1)
      ensures FilesAge(old(version)) && NoStraddle(old(version)) ==>
                Valid() && FilesAge(version) && (snapshots == [] ==> NoStraddle(version))
      ensures history == old(history) && snapshots == old(snapshots) && lastSequence == old(lastSequence)
      ensures mem == old(mem) && imm == old(imm)
    {
      hide Inv, VersionOk, VersionOrdered, Numbered, TreeOk, EditedBy, NeverReadded, InputsOk, Unused, Merged, FilesAge, NoStraddle,
        AgeSafe, NothingResurrects, VersionEntries, MisleadsWhereParted, Misleads, Strands, NothingVisible;
      InvTree(mem, imm, version, nextFileNumber, history, lastSequence, Oldest());
      var snap := if snapshots == [] then lastSequence else snapshots[0];
      if FilesAge(version) && NoStraddle(version) {
        ApartIsSafe(mem, imm, version, nextFileNumber, history, lastSequence, snap, level, inputs0, inputs1);
      }
      var c := new Compaction(version, level, grandparents, maxGrandParentOverlapBytes);
      var outs, edit := MergeInputsToOutputs(c, inputs0, inputs1, snap, maxOutputFileSize, builtSize, fileSize, nextFileNumber,
                                             mem, imm, history, lastSequence);
      UnusedIsFresh(version, nextFileNumber, edit.newFiles, nextFileNumber + |outs|);
      ghost var before := version;
      LogAndApply(edit);
      nextFileNumber := nextFileNumber + |outs|;
      MergedIsSized(before, level, inputs0, inputs1, snap, RuleWith(grandparents), fileSize, version);
      if FilesAge(before) {
        PartedIsMisled(before, level, inputs0, inputs1);
      }
    }

    lemma PartedIsMisled(before: Version, level: nat, inputs0: seq<File>, inputs1: seq<File>)
      requires level < NUM_LEVELS && MisleadsWhereParted(before, level, inputs0, inputs1, version)
      ensures MisledWhereParted(before, level, inputs0, inputs1)
    {
      hide Misleads, Strands, VersionEntries, NothingVisible;
    }

    // While no user key straddles two files, every merge is safe.
    static lemma ApartIsSafe(mem: seq<Entry>, imm: Option<seq<Entry>>, v: Version, next: nat, history: set<Entry>, last: nat, snap: nat,
                             level: nat, inputs0: seq<File>, inputs1: seq<File>)
      requires Inv(mem, imm, v, next, history, last, snap) && FilesAge(v) && NoStraddle(v)
      requires InputsOk(v, level, inputs0, inputs1) && level < NUM_LEVELS
      ensures AgeSafe(v, level, inputs0, inputs1, snap)
      ensures NothingResurrects(InputEntries(inputs0, inputs1), Rest(mem, imm, v, level, inputs0, inputs1), snap, v, level)
    {
      hide FilesAge, InputsOk, NoStraddle, MergeSafe, AgeSafe, NothingResurrects, FilesInOrder, EntriesOnce, VersionOrdered, Numbered;
      InputsInRange(v, level, inputs0, inputs1);
      NoStraddleIsSafe(v, level, inputs0, inputs1, snap);
      SafeForReads(mem, imm, v, next, history, last, snap, level, inputs0, inputs1);
    }

    // The files a caller can look at before the merge decide.
    static lemma SafeForReads(mem: seq<Entry>, imm: Option<seq<Entry>>, v: Version, next: nat, history: set<Entry>, last: nat, snap: nat,
                              level: nat, inputs0: seq<File>, inputs1: seq<File>)
      requires Inv(mem, imm, v, next, history, last, snap) && FilesAge(v) && level + 1 < NUM_LEVELS
      requires InputsOk(v, level, inputs0, inputs1) && MergeSafe(v, level, inputs0, inputs1, snap)
      ensures AgeSafe(v, level, inputs0, inputs1, snap)
      ensures NothingResurrects(InputEntries(inputs0, inputs1), Rest(mem, imm, v, level, inputs0, inputs1), snap, v, level)
    {
      var above := Elements(mem) + ImmEntries(imm);
      assert DistinctSequences(above + VersionEntries(v)) by {
        assert above + VersionEntries(v) == Tree(mem, imm, v);
      }
      hide FilesAge, InputsOk, MergeSafe, AgeSafe, NothingResurrects, FilesInOrder, EntriesOnce, VersionOrdered, Numbered, OtherEntries,
        VersionEntries, InputEntries, AllFilesOk;
      MergeSafeSuffices(v, level, inputs0, inputs1, snap, above);
    }

    method TrivialMove(level: nat, inputs0: seq<File>, inputs1: seq<File>)
      requires Valid() && InputsOk(version, level, inputs0, inputs1) && |inputs0| == 1 && |inputs1| == 0 && level < NUM_LEVELS
      modifies this`version
      ensures Moved(old(version), level, inputs0[0], version)
      ensures Valid()
      ensures FilesAge(old(version)) ==>
                (FilesAge(version) <==> MoveSafe(old(version), level, inputs0[0]))
                && MisledWhereParted(old(version), level, inputs0, inputs1)
      ensures NoStraddle(old(version)) ==> NoStraddle(version) && MoveSafe(old(version), level, inputs0[0])
    {
      hide Inv, VersionOk, VersionOrdered, Numbered, TreeOk, EditedBy, NeverReadded, FilesAge, NoStraddle, MoveSafe, MisleadsWhereParted,
        InputsOk;
      InvTree(mem, imm, version, nextFileNumber, history, lastSequence, Oldest());
      var f := inputs0[0];
      assert inputs0 == [f] && inputs1 == [];
      var edit := FileEdit({(level, f.number)}, [(level + 1, f)]);
      InputsInRange(version, level, inputs0, inputs1);
      assert IsInput(level, inputs0, inputs1, level, f);
      MovedIsFresh(version, nextFileNumber, level, f);
      ghost var before := version;
      LogAndApply(edit);
      MoveKeeps(mem, imm, before, nextFileNumber, history, lastSequence, Oldest(), level, f, version);
      MoveKeepsTree(before, nextFileNumber, level, f, version);
      EditMoves(before, nextFileNumber, level, f, version);
      if FilesAge(before) {
        PartedIsMisled(before, level, inputs0, inputs1);
      }
    }

    method GetSnapshot() returns (s: nat)
      requires Valid()
      modifies this`snapshots
      ensures Valid() && s == lastSequence && snapshots == old(snapshots) + [s]
    {
      hide Inv, FilesAge;
      s := lastSequence;
      snapshots := snapshots + [s];
    }

    // Release the i-th snapshot of the list.
    method ReleaseSnapshot(i: nat)
      requires Valid() && i < |snapshots|
      modifies this`snapshots
      ensures Valid() && snapshots == old(snapshots[..i] + snapshots[i + 1..])
    {
      hide Inv, FilesAge;
      ghost var oldest := Oldest();
      snapshots := snapshots[..i] + snapshots[i + 1..];
      OldestGrows(mem, imm, version, nextFileNumber, history, lastSequence, oldest, Oldest());
    }

    static lemma OldestGrows(mem: seq<Entry>, imm: Option<seq<Entry>>, v: Version, next: nat, history: set<Entry>, last: nat,
                             oldest: nat, oldest': nat)
      requires Inv(mem, imm, v, next, history, last, oldest) && oldest <= oldest' <= last
      ensures Inv(mem, imm, v, next, history, last, oldest')
    {
      hide TreeOk, Reads;
      AlikeLater(Tree(mem, imm, v), history, oldest, oldest');
    }

    // DBImpl::Get at the current sequence number or at any live snapshot: the newest write with sequence
    // <= s, out of all the writes ever made, unless the files mislead the search.
    method Get(k: int, s: nat) returns (r: Option<Value>)
      requires Valid() && (s in snapshots || s == lastSequence)
      ensures !MisledAt(k, s) ==> Reads(history, k, s, r) && forall r' :: Reads(history, k, s, r') ==> r' == r
      ensures MisledAt(k, s) ==> exists e :: Older(Tree(mem, imm, version), k, s, Some(e)) && r == Shown(Some(e))
      ensures FilesAge(version) ==> !MisledAt(k, s)
    {
      hide Inv, Reads, FilesAge, Older, Misled;
      r := Search(mem, imm, version, k, s, nextFileNumber, history, lastSequence, Oldest());
    }

    ghost predicate MisledAt(k: int, s: nat)
      reads this
    {
      Misled(mem, imm, version, k, s)
    }

    static method Search(mem: seq<Entry>, imm: Option<seq<Entry>>, v: Version, k: int, s: nat, ghost next: nat,
                         ghost history: set<Entry>, ghost last: nat, ghost oldest: nat) returns (r: Option<Value>)
      requires Inv(mem, imm, v, next, history, last, oldest) && s >= oldest
      ensures !Misled(mem, imm, v, k, s) ==> Reads(history, k, s, r) && forall r' :: Reads(history, k, s, r') ==> r' == r
      ensures Misled(mem, imm, v, k, s) ==> exists e :: Older(Tree(mem, imm, v), k, s, Some(e)) && r == Shown(Some(e))
      ensures FilesAge(v) ==> !Misled(mem, imm, v, k, s)
    {
      var found := FindEntry(mem, imm, v, k, s, next, history, last, oldest);
      r := Shown(found);
      InvParts(mem, imm, v, next, history, last, oldest);
      InvReads(mem, imm, v, next, history, last, oldest, k, s, r);
      hide Inv, Reads, FilesAge, Older, Misled, Tree, Newer, Sorted, IsNewest, NothingVisible, DistinctSequences;
      if !Misled(mem, imm, v, k, s) {
        FindsReads(Tree(mem, imm, v), k, s, found);
        forall r' | Reads(history, k, s, r')
          ensures r' == r
        {
          ReadsIsFunction(history, k, s, r, r');
        }
      } else {
        assert found.Some? by { OlderIsSome(Tree(mem, imm, v), k, s, found); }
        assert found == Some(found.value);
      }
    }

    static lemma OlderIsSome(entries: set<Entry>, k: int, s: nat, r: Option<Entry>)
      requires Older(entries, k, s, r)
      ensures r.Some?
    {}

    static lemma InvReads(mem: seq<Entry>, imm: Option<seq<Entry>>, v: Version, next: nat, history: set<Entry>, last: nat, oldest: nat,
                          k: int, s: nat, r: Option<Value>)
      requires Inv(mem, imm, v, next, history, last, oldest) && s >= oldest
      ensures Reads(Tree(mem, imm, v), k, s, r) <==> Reads(history, k, s, r)
    {
      hide TreeOk, Reads, Tree, Sorted, Newer;
    }

    // DBImpl::NewIterator at the current sequence number or a live snapshot.  It shows what Get finds, and
    // does so even where the levels have come out of order of age.
    method NewIterator(s: nat) returns (it: DBIter)
      requires Inv(mem, imm, version, nextFileNumber, history, lastSequence, Oldest()) && s >= Oldest()
      ensures fresh(it) && it.Ok() && it.Pos() == None && it.sequence == s
      ensures forall k: int, x: Value :: Shows(it.View(), s, k, x) <==> Reads(history, k, s, Some(x))
    {
      hide Inv, Reads, Shows, Tree, MergingIterator.Ok, MergingIterator.Pos;
      var internal := NewInternalIterator(mem, imm, version, nextFileNumber, history, lastSequence, Oldest());
      internal.ViewSorted();
      it := new DBIter(internal, s);
      ShownOfTree(mem, imm, version, nextFileNumber, history, lastSequence, Oldest(), internal.view, s);
    }

    static lemma ShownOfTree(mem: seq<Entry>, imm: Option<seq<Entry>>, v: Version, next: nat, history: set<Entry>, last: nat,
                             oldest: nat, view: seq<Entry>, s: nat)
      requires Inv(mem, imm, v, next, history, last, oldest) && s >= oldest && Sorted(view) && Elements(view) == Tree(mem, imm, v)
      ensures forall k: int, x: Value :: Shows(view, s, k, x) <==> Reads(history, k, s, Some(x))
    {
      assert DistinctSequences(Tree(mem, imm, v));
      hide Reads, TreeOk, Sorted, Tree, Shows, DistinctSequences;
      forall k: int, x: Value
        ensures Shows(view, s, k, x) <==> Reads(history, k, s, Some(x))
      {
        ShownIsRead(view, s, k, x);
        assert Reads(Tree(mem, imm, v), k, s, Some(x)) <==> Reads(history, k, s, Some(x));
      }
    }
  }
}
