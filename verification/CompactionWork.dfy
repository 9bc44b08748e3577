/** One compaction: which entries of the merged input are dropped, and where the output is cut. */
module CompactionWork {
  import opened Wrappers
  import opened DbFormat
  import opened Versions
  import opened CompactionInputs

  // ---- Is there anything for a key below the output level? ----

  predicate Covers(f: File, k: int) {
    f.smallest.key <= k <= f.largest.key
  }

  // No file two or more levels down can hold the key.
  ghost predicate BaseLevel(v: Version, level: nat, k: int) {
    forall l, f :: level + 2 <= l < NUM_LEVELS && f in v[l] ==> !Covers(f, k)
  }

  // ---- The drop rule, entry by entry ----

  // Entry i goes if the entry before it hides it from every snapshot, or if it is a deletion that every
  // snapshot sees and that nothing below needs.
  ghost predicate Dropped(input: seq<Entry>, i: nat, snap: nat, v: Version, level: nat)
    requires i < |input|
  {
    (i > 0 && input[i - 1].key == input[i].key && input[i - 1].sn <= snap)
    || (input[i].payload == Deletion && input[i].sn <= snap && BaseLevel(v, level, input[i].key))
  }

  ghost function Kept(input: seq<Entry>, n: nat, snap: nat, v: Version, level: nat): (r: seq<Entry>)
    requires n <= |input|
    ensures forall e :: e in r <==> exists i :: 0 <= i < n && input[i] == e && !Dropped(input, i, snap, v, level)
  {
    if n == 0 then []
    else
      var rest := Kept(input, n - 1, snap, v, level);
      if Dropped(input, n - 1, snap, v, level) then rest else rest + [input[n - 1]]
  }

  lemma {:induction false} KeptSorted(input: seq<Entry>, n: nat, snap: nat, v: Version, level: nat)
    requires n <= |input| && Sorted(input)
    ensures Sorted(Kept(input, n, snap, v, level))
  {
    if n > 0 {
      KeptSorted(input, n - 1, snap, v, level);
      var rest := Kept(input, n - 1, snap, v, level);
      forall j | 0 <= j < |rest|
        ensures Less(rest[j].Ikey(), input[n - 1].Ikey())
      {
        assert rest[j] in rest;
      }
    }
  }

  // ---- What dropping keeps ----

  // Dropping brings a deleted key back: its newest version at the snapshot is a deletion among the input
  // that goes because nothing further down holds the key, and what remains outside is an older value.
  ghost predicate Resurrects(input: set<Entry>, others: set<Entry>, snap: nat, v: Version, level: nat, k: int) {
    exists e, o ::
      IsNewest(input + others, k, snap, e) && e in input && e.payload == Deletion && BaseLevel(v, level, k)
      && IsNewest(others, k, e.sn, o) && o.payload.Put?
  }

  ghost predicate NothingResurrects(input: set<Entry>, others: set<Entry>, snap: nat, v: Version, level: nat) {
    forall k :: !Resurrects(input, others, snap, v, level, k)
  }

  // Dropping entries changes no read at any snapshot from `snap` on, exactly if it brings no key back.
  lemma DropKeepsReads(input: seq<Entry>, snap: nat, v: Version, level: nat, others: set<Entry>)
    requires Sorted(input) && DistinctSequences(Elements(input) + others)
    ensures ReadAlike(Elements(input) + others, Elements(Kept(input, |input|, snap, v, level)) + others, snap)
       <==> NothingResurrects(Elements(input), others, snap, v, level)
  {
    hide Kept, Resurrects, Reads, IsNewest, Sorted, DistinctSequences, Elements;
    var kept := Kept(input, |input|, snap, v, level);
    var a, b := Elements(input) + others, Elements(kept) + others;
    forall k: int, s: nat, r: Option<Value> | s >= snap && !Resurrects(Elements(input), others, snap, v, level, k)
      ensures Reads(a, k, s, r) <==> Reads(b, k, s, r)
    {
      ReadsSame(input, snap, v, level, others, k, s, r);
    }
    forall k | Resurrects(Elements(input), others, snap, v, level, k)
      ensures Reads(a, k, snap, None) && !Reads(b, k, snap, None)
    {
      ReadsDiffer(input, snap, v, level, others, k);
    }
  }

  lemma ReadsSame(input: seq<Entry>, snap: nat, v: Version, level: nat, others: set<Entry>, k: int, s: nat, r: Option<Value>)
    requires Sorted(input) && DistinctSequences(Elements(input) + others) && s >= snap
    requires !Resurrects(Elements(input), others, snap, v, level, k)
    ensures Reads(Elements(input) + others, k, s, r)
       <==> Reads(Elements(Kept(input, |input|, snap, v, level)) + others, k, s, r)
  {
    hide Kept, BaseLevel, Resurrects;
    var kept := Kept(input, |input|, snap, v, level);
    var a, b := Elements(input) + others, Elements(kept) + others;
    assert b <= a;
    NewestExists(a, k, s);
    if NothingVisible(a, k, s) {
      assert NothingVisible(b, k, s);
    } else {
      var e :| IsNewest(a, k, s, e);
      NewestStays(input, snap, v, level, others, k, s, e);
      if e in b {
        assert IsNewest(b, k, s, e);
      } else {
        NothingComesBack(input, snap, v, level, others, k, s, e);
      }
    }
  }

  // What takes the place of a dropped deletion is a deletion, too.
  lemma NothingComesBack(input: seq<Entry>, snap: nat, v: Version, level: nat, others: set<Entry>, k: int, s: nat, e: Entry)
    requires Sorted(input) && DistinctSequences(Elements(input) + others) && s >= snap
    requires !Resurrects(Elements(input), others, snap, v, level, k)
    requires IsNewest(Elements(input) + others, k, s, e)
    requires e !in Elements(Kept(input, |input|, snap, v, level)) + others
    ensures forall o :: IsNewest(Elements(Kept(input, |input|, snap, v, level)) + others, k, s, o) ==> o.payload == Deletion
  {
    NewestStays(input, snap, v, level, others, k, s, e);
    hide Kept, BaseLevel;
    var b := Elements(Kept(input, |input|, snap, v, level)) + others;
    assert IsNewest(Elements(input) + others, k, snap, e);
    forall o | IsNewest(b, k, s, o)
      ensures o.payload == Deletion
    {
      assert IsNewest(others, k, e.sn, o);
    }
  }

  lemma ReadsDiffer(input: seq<Entry>, snap: nat, v: Version, level: nat, others: set<Entry>, k: int)
    requires Sorted(input) && DistinctSequences(Elements(input) + others)
    requires Resurrects(Elements(input), others, snap, v, level, k)
    ensures Reads(Elements(input) + others, k, snap, None)
    ensures !Reads(Elements(Kept(input, |input|, snap, v, level)) + others, k, snap, None)
  {
    hide Kept, BaseLevel;
    var a, b := Elements(input) + others, Elements(Kept(input, |input|, snap, v, level)) + others;
    var e, o :| IsNewest(a, k, snap, e) && e in input && e.payload == Deletion && BaseLevel(v, level, k)
                && IsNewest(others, k, e.sn, o) && o.payload.Put?;
    DeletionGoes(input, snap, v, level, k, e);
    assert e.sn != o.sn;
    forall f | f in b && f.key == k && f.sn <= snap
      ensures f.sn <= o.sn
    {
      assert f in a;
      assert f in others;
    }
    assert IsNewest(b, k, snap, o);
  }

  // A base-level deletion at the snapshot goes with all older entries of its key.
  lemma DeletionGoes(input: seq<Entry>, snap: nat, v: Version, level: nat, k: int, e: Entry)
    requires Sorted(input) && e in input && e.key == k && e.sn <= snap && e.payload == Deletion && BaseLevel(v, level, k)
    ensures forall f :: f in Kept(input, |input|, snap, v, level) && f.key == k ==> f.sn > e.sn
  {
    var i: nat :| i < |input| && input[i] == e;
    hide BaseLevel;
    forall f | f in Kept(input, |input|, snap, v, level) && f.key == k
      ensures f.sn > e.sn
    {
      HiddenIsDropped(input, snap, v, level, i, f);
    }
  }

  // The newest visible entry is kept, or it is a base-level deletion every snapshot sees and of its key
  // only older entries from outside are visible.
  lemma NewestStays(input: seq<Entry>, snap: nat, v: Version, level: nat, others: set<Entry>, k: int, s: nat, e: Entry)
    requires Sorted(input) && s >= snap && DistinctSequences(Elements(input) + others)
    requires IsNewest(Elements(input) + others, k, s, e)
    ensures var b := Elements(Kept(input, |input|, snap, v, level)) + others;
            e in b || (e in input && e.payload == Deletion && e.sn <= snap && BaseLevel(v, level, k)
                       && forall f :: f in b && f.key == k && f.sn <= s ==> f in others && f.sn < e.sn)
  {
    hide Kept, BaseLevel;
    var kept := Kept(input, |input|, snap, v, level);
    var a, b := Elements(input) + others, Elements(kept) + others;
    if e !in b {
      var i: nat :| i < |input| && input[i] == e;
      assert Dropped(input, i, snap, v, level);
      if i > 0 && input[i - 1].key == k && input[i - 1].sn <= snap {
        assert false;
      } else {
        DeletionGoes(input, snap, v, level, k, e);
        forall f | f in b && f.key == k && f.sn <= s
          ensures f in others && f.sn < e.sn
        {
          assert f in a;
        }
      }
    }
  }

  // Below an entry every snapshot sees, all of its key is dropped.
  lemma HiddenIsDropped(input: seq<Entry>, snap: nat, v: Version, level: nat, i: nat, f: Entry)
    requires Sorted(input) && i < |input| && input[i].sn <= snap && f.key == input[i].key
    requires f in Kept(input, |input|, snap, v, level) && Dropped(input, i, snap, v, level)
    ensures f.sn > input[i].sn
  {
    var j :| 0 <= j < |input| && input[j] == f && !Dropped(input, j, snap, v, level);
    if j > i {
      assert false;
    } else {
      assert j != i;
      assert Less(input[j].Ikey(), input[i].Ikey());
    }
  }

  // The merge leaves nothing of a key: its newest entry in the input is a base-level deletion every
  // snapshot sees.
  ghost predicate Wiped(input: set<Entry>, snap: nat, v: Version, level: nat, k: int) {
    exists e :: e in input && e.key == k && (forall f :: f in input && f.key == k ==> f.sn <= e.sn)
                && e.sn <= snap && e.payload == Deletion && BaseLevel(v, level, k)
  }

  lemma WipedLeavesNothing(input: seq<Entry>, snap: nat, v: Version, level: nat, k: int)
    requires Sorted(input) && Wiped(Elements(input), snap, v, level, k)
    ensures forall f :: f in Kept(input, |input|, snap, v, level) ==> f.key != k
  {
    hide Kept, BaseLevel;
    var e :| e in Elements(input) && e.key == k && (forall f :: f in Elements(input) && f.key == k ==> f.sn <= e.sn)
             && e.sn <= snap && e.payload == Deletion && BaseLevel(v, level, k);
    DeletionGoes(input, snap, v, level, k, e);
    assert forall f :: f in Kept(input, |input|, snap, v, level) ==> f in Elements(input);
  }

  // Otherwise the newest entry of the key is kept.
  lemma NewestIsKept(input: seq<Entry>, snap: nat, v: Version, level: nat, e: Entry)
    requires Sorted(input) && !Wiped(Elements(input), snap, v, level, e.key)
    requires e in input && forall f :: f in input && f.key == e.key ==> f.sn <= e.sn
    ensures e in Kept(input, |input|, snap, v, level)
  {
    hide Kept, BaseLevel;
    var i: nat :| i < |input| && input[i] == e;
    assert i > 0 ==> Less(input[i - 1].Ikey(), input[i].Ikey()) && input[i - 1] in input;
    assert e in Elements(input);
    assert !Dropped(input, i, snap, v, level);
  }

  ghost predicate KeysAscend(es: seq<Entry>) {
    forall i, j :: 0 <= i < j < |es| ==> es[i].key < es[j].key
  }

  // With no snapshot older than the input, one entry per user key is left: no cut can then part a key.
  lemma KeepsOnePerKey(input: seq<Entry>, snap: nat, v: Version, level: nat)
    requires Sorted(input) && forall e :: e in input ==> e.sn <= snap
    ensures KeysAscend(Kept(input, |input|, snap, v, level))
  {
    var kept := Kept(input, |input|, snap, v, level);
    KeptSorted(input, |input|, snap, v, level);
    forall i, j | 0 <= i < j < |kept|
      ensures kept[i].key < kept[j].key
    {
      assert Less(kept[i].Ikey(), kept[j].Ikey());
      assert kept[i] in kept && kept[j] in kept;
      var x :| 0 <= x < |input| && input[x] == kept[i] && !Dropped(input, x, snap, v, level);
      var y :| 0 <= y < |input| && input[y] == kept[j] && !Dropped(input, y, snap, v, level);
      NoneBetween(input, x, y);
      assert input[y - 1] in input;
    }
  }

  // The entry just before y is of y's key if an earlier one is.
  lemma NoneBetween(input: seq<Entry>, x: nat, y: nat)
    requires Sorted(input) && x < |input| && y < |input| && Less(input[x].Ikey(), input[y].Ikey())
    ensures x < y && (input[x].key == input[y].key ==> input[y - 1].key == input[y].key)
  {
    if x < y - 1 {
      assert Less(input[x].Ikey(), input[y - 1].Ikey()) && Less(input[y - 1].Ikey(), input[y].Ikey());
    }
  }

  // ---- The cursors of a compaction ----

  lemma TotalFileSizeNext(files: seq<File>, i: nat, j: nat)
    requires i <= j < |files|
    ensures TotalFileSize(files[i..j + 1]) == TotalFileSize(files[i..j]) + files[j].size
    decreases j - i
  {
    if i < j {
      TotalFileSizeNext(files, i + 1, j);
      assert files[i..j + 1][1..] == files[i + 1..j + 1] && files[i..j][1..] == files[i + 1..j];
    } else {
      assert files[i..j + 1] == [files[j]];
    }
  }

  // Where among the grandparents the last key was, whether there was one, and how many bytes of them have been
  // passed since the last stop.
  datatype Passing = Passing(index: nat, seen: bool, bytes: nat)

  const NOTHING_PASSED := Passing(0, false, 0)

  // How many files at the front end before the key.
  function EndBefore(files: seq<File>, key: IKey): (n: nat)
    ensures n <= |files| && (forall i :: 0 <= i < n ==> Less(files[i].largest, key))
    ensures n < |files| ==> !Less(files[n].largest, key)
  {
    if files == [] || !Less(files[0].largest, key) then 0 else 1 + EndBefore(files[1..], key)
  }

  // The bytes passed once the next key is reached.
  function Reached(p: Passing, files: seq<File>, key: IKey): (r: Passing)
    requires p.index <= |files|
    ensures p.index <= r.index <= |files| && r.seen
  {
    var n := p.index + EndBefore(files[p.index..], key);
    Passing(n, true, p.bytes + if p.seen then TotalFileSize(files[p.index..n]) else 0)
  }

  class Compaction {
    const level: nat
    const version: Version
    const grandparents: seq<File>
    const maxGrandParentOverlapBytes: nat
    var levelPtrs: seq<nat>
    var grandparentIndex: nat
    var seenKey: bool
    var overlappedBytes: nat

    ghost predicate Valid()
      reads this
    {
      VersionOk(version) && |levelPtrs| == NUM_LEVELS && grandparentIndex <= |grandparents|
      && forall l :: 0 <= l < NUM_LEVELS ==> levelPtrs[l] <= |version[l]|
    }

    // How far the keys so far have come along the grandparents.
    function Passed(): Passing
      reads this
    {
      Passing(grandparentIndex, seenKey, overlappedBytes)
    }

    // Every file a level pointer has passed lies before k.
    ghost predicate Behind(k: int)
      reads this`levelPtrs
    {
      |levelPtrs| == NUM_LEVELS
      && forall l, i :: 0 <= l < NUM_LEVELS && 0 <= i < levelPtrs[l] && i < |version[l]| ==> version[l][i].largest.key < k
    }

    constructor (v: Version, level: nat, grandparents: seq<File>, maxGrandParentOverlapBytes: nat)
      requires VersionOk(v)
      ensures Valid() && forall k :: Behind(k)
      ensures version == v && this.level == level && this.grandparents == grandparents
      ensures this.maxGrandParentOverlapBytes == maxGrandParentOverlapBytes && Passed() == NOTHING_PASSED
    {
      version, this.level, this.grandparents := v, level, grandparents;
      this.maxGrandParentOverlapBytes := maxGrandParentOverlapBytes;
      levelPtrs := [0, 0, 0, 0, 0, 0, 0];
      grandparentIndex, seenKey, overlappedBytes := 0, false, 0;
    }

    // Asked about keys in ascending order, the cursors answer what a scan of all the levels would.
    method IsBaseLevelForKey(k: int) returns (r: bool)
      requires Valid() && Behind(k)
      modifies this`levelPtrs
      ensures Valid() && forall k' :: k' >= k ==> Behind(k')
      ensures r <==> BaseLevel(version, level, k)
    {
      var lvl := level + 2;
      while lvl < NUM_LEVELS
        invariant Valid() && Behind(k)
        invariant forall l, f :: level + 2 <= l < lvl && l < NUM_LEVELS && f in version[l] ==> !Covers(f, k)
      {
        var files := version[lvl];
        while levelPtrs[lvl] < |files|
          invariant Valid() && Behind(k)
          invariant levelPtrs[lvl] < |files| ==> files[levelPtrs[lvl]] in version[lvl]
          decreases |files| - levelPtrs[lvl]
        {
          var f := files[levelPtrs[lvl]];
          if k <= f.largest.key {
            if k >= f.smallest.key {
              assert f in version[lvl] && Covers(f, k);
              return false;
            }
            break;
          }
          levelPtrs := levelPtrs[lvl := levelPtrs[lvl] + 1];
        }
        NotCovered(files, levelPtrs[lvl], k);
        lvl := lvl + 1;
      }
      r := true;
    }

    static lemma NotCovered(files: seq<File>, p: nat, k: int)
      requires LevelSorted(files) && (forall f :: f in files ==> FileOk(f)) && p <= |files|
      requires forall i :: 0 <= i < p ==> files[i].largest.key < k
      requires p < |files| ==> k < files[p].smallest.key
      ensures forall f :: f in files ==> !Covers(f, k)
    {
      forall f | f in files
        ensures !Covers(f, k)
      {
        var i :| 0 <= i < |files| && files[i] == f;
        if i > p {
          FileSpans(files[p]);
          assert Less(files[p].largest, files[i].smallest);
        }
      }
    }

    // Pass the grandparents that end before the key; stop when the output since the last stop
    // overlaps too many bytes of them.
    method ShouldStopBefore(key: IKey) returns (stop: bool)
      requires Valid()
      modifies this`grandparentIndex, this`seenKey, this`overlappedBytes
      ensures Valid()
      ensures var r := Reached(old(Passed()), grandparents, key);
              stop == (r.bytes > maxGrandParentOverlapBytes) && Passed() == if stop then r.(bytes := 0) else r
    {
      ghost var start := grandparentIndex;
      assert grandparents[start..start] == [];
      while grandparentIndex < |grandparents| && Less(grandparents[grandparentIndex].largest, key)
        invariant start <= grandparentIndex <= |grandparents| && seenKey == old(seenKey)
        invariant forall j :: start <= j < grandparentIndex ==> Less(grandparents[j].largest, key)
        invariant overlappedBytes == old(overlappedBytes)
                  + if old(seenKey) then TotalFileSize(grandparents[start..grandparentIndex]) else 0
      {
        TotalFileSizeNext(grandparents, start, grandparentIndex);
        if seenKey {
          overlappedBytes := overlappedBytes + grandparents[grandparentIndex].size;
        }
        grandparentIndex := grandparentIndex + 1;
      }
      EndIs(grandparents[start..], key, grandparentIndex - start);
      seenKey := true;
      stop := overlappedBytes > maxGrandParentOverlapBytes;
      if stop {
        overlappedBytes := 0;
      }
    }
  }

  lemma EndIs(files: seq<File>, key: IKey, n: nat)
    requires n <= |files| && (forall i :: 0 <= i < n ==> Less(files[i].largest, key)) && (n < |files| ==> !Less(files[n].largest, key))
    ensures EndBefore(files, key) == n
  {}

  // ---- DoCompactionWork ----

  function Concat(tables: seq<seq<Entry>>): seq<Entry> {
    if tables == [] then [] else Concat(tables[..|tables| - 1]) + tables[|tables| - 1]
  }

  predicate NoneEmpty(tables: seq<seq<Entry>>) {
    forall i :: 0 <= i < |tables| ==> tables[i] != []
  }

  lemma ConcatNext(tables: seq<seq<Entry>>, table: seq<Entry>)
    ensures Concat(tables + [table]) == Concat(tables) + table
  {
    assert (tables + [table])[..|tables|] == tables;
  }

  // Tables that are full, and one that is not.
  datatype Cutting = Cutting(full: seq<seq<Entry>>, last: seq<Entry>) {
    function Tables(): seq<seq<Entry>> {
      if last == [] then full else full + [last]
    }
  }

  // Where the cuts fall as long as only the size of the files decides.
  function CutBySize(es: seq<Entry>, maxOutputFileSize: nat, fileSize: seq<Entry> -> nat): Cutting {
    if es == [] then Cutting([], [])
    else
      var c := CutBySize(es[..|es| - 1], maxOutputFileSize, fileSize);
      var table := c.last + [es[|es| - 1]];
      if fileSize(table) >= maxOutputFileSize then Cutting(c.full + [table], []) else Cutting(c.full, table)
  }

  lemma CutNext(es: seq<Entry>, e: Entry, maxOutputFileSize: nat, fileSize: seq<Entry> -> nat)
    ensures var c, table := CutBySize(es, maxOutputFileSize, fileSize), CutBySize(es, maxOutputFileSize, fileSize).last + [e];
            CutBySize(es + [e], maxOutputFileSize, fileSize)
            == if fileSize(table) >= maxOutputFileSize then Cutting(c.full + [table], []) else Cutting(c.full, table)
  {
    assert (es + [e])[..|es|] == es;
  }

  // What decides where a merge cuts its output.
  datatype CutRule = CutRule(grandparents: seq<File>, maxOverlap: nat, maxOutputFileSize: nat, builtSize: seq<Entry> -> nat)

  // The tables made of the first i entries of the input.  An entry that passes too many grandparents ends the
  // table before it, whether or not it is dropped; a kept one that fills its table ends it.
  ghost function CutsOf(input: seq<Entry>, i: nat, snap: nat, v: Version, level: nat, rule: CutRule): (r: (Passing, Cutting))
    requires i <= |input|
    ensures r.0.index <= |rule.grandparents|
  {
    if i == 0 then (NOTHING_PASSED, Cutting([], []))
    else
      var (p, c) := CutsOf(input, i - 1, snap, v, level, rule);
      CutNextOf(p, c, input[i - 1], Dropped(input, i - 1, snap, v, level), rule)
  }

  ghost function CutNextOf(p: Passing, c: Cutting, e: Entry, dropped: bool, rule: CutRule): (r: (Passing, Cutting))
    requires p.index <= |rule.grandparents|
    ensures r.0.index <= |rule.grandparents|
  {
    var q := Reached(p, rule.grandparents, e.Ikey());
    var stop := q.bytes > rule.maxOverlap;
    var c1 := if stop && c.last != [] then Cutting(c.full + [c.last], []) else c;
    var table := c1.last + [e];
    (if stop then q.(bytes := 0) else q,
     if dropped then c1
     else if rule.builtSize(table) >= rule.maxOutputFileSize then Cutting(c1.full + [table], []) else Cutting(c1.full, table))
  }

  // With no grandparents only the sizes of the files decide.
  lemma {:induction false} CutsBySize(input: seq<Entry>, i: nat, snap: nat, v: Version, level: nat, rule: CutRule)
    requires i <= |input| && rule.grandparents == []
    ensures CutsOf(input, i, snap, v, level, rule).1 == CutBySize(Kept(input, i, snap, v, level), rule.maxOutputFileSize, rule.builtSize)
    ensures CutsOf(input, i, snap, v, level, rule).0.bytes == 0
  {
    if i > 0 {
      hide Dropped, CutBySize, Kept, Reached;
      CutsBySize(input, i - 1, snap, v, level, rule);
      var (p, c) := CutsOf(input, i - 1, snap, v, level, rule);
      NothingReached(p, input[i - 1].Ikey());
      var kept := Kept(input, i - 1, snap, v, level);
      assert kept + [] == kept;
      KeptNext(input, i - 1, snap, v, level, kept, []);
      CutNext(kept, input[i - 1], rule.maxOutputFileSize, rule.builtSize);
    } else {
      NothingYet(input, snap, v, level, rule.maxOutputFileSize, rule.builtSize);
    }
  }

  lemma NothingReached(p: Passing, key: IKey)
    requires p.index == 0
    ensures Reached(p, [], key).bytes == p.bytes
  {
    var none: seq<File> := [];
    assert none[0..0] == none;
  }

  // The bytes of the grandparents a table reaches across: those that end between its first key and its last.
  function Crossed(files: seq<File>, table: seq<Entry>): nat
    requires table != []
  {
    var from, to := EndBefore(files, table[0].Ikey()), EndBefore(files, table[|table| - 1].Ikey());
    if from <= to then TotalFileSize(files[from..to]) else 0
  }

  // The count of files passed is that up to the last key.
  ghost predicate Counted(input: seq<Entry>, i: nat, p: Passing, rule: CutRule)
    requires i <= |input|
  {
    p.bytes <= rule.maxOverlap && (i > 0 <==> p.seen)
    && p.index == if i == 0 then 0 else EndBefore(rule.grandparents, input[i - 1].Ikey())
  }

  // What the table being built has crossed so far is in the count.
  ghost predicate InCount(gs: seq<File>, p: Passing, last: seq<Entry>) {
    last != [] ==>
      p.index <= |gs| && EndBefore(gs, last[0].Ikey()) <= p.index && TotalFileSize(gs[EndBefore(gs, last[0].Ikey())..p.index]) <= p.bytes
  }

  ghost predicate Spares(tables: seq<seq<Entry>>, rule: CutRule) {
    forall t :: t in tables ==> t != [] && Crossed(rule.grandparents, t) <= rule.maxOverlap
  }

  ghost predicate Sparing(input: seq<Entry>, i: nat, p: Passing, c: Cutting, rule: CutRule)
    requires i <= |input|
  {
    Counted(input, i, p, rule) && Spares(c.Tables(), rule) && InCount(rule.grandparents, p, c.last) && (i == 0 ==> c.last == [])
  }

  lemma EndsRise(files: seq<File>, a: IKey, b: IKey)
    requires LevelSorted(files) && (forall f :: f in files ==> FileOk(f)) && (a == b || Less(a, b))
    ensures EndBefore(files, a) <= EndBefore(files, b)
  {}

  // Along ascending keys the count of files passed is that from the front.
  lemma EndsBehind(files: seq<File>, n: nat, key: IKey)
    requires LevelSorted(files) && n <= |files| && n <= EndBefore(files, key)
    ensures n + EndBefore(files[n..], key) == EndBefore(files, key)
  {
    EndIs(files[n..], key, EndBefore(files, key) - n);
  }

  lemma TotalSplits(files: seq<File>, i: nat, j: nat, k: nat)
    requires i <= j <= k <= |files|
    ensures TotalFileSize(files[i..k]) == TotalFileSize(files[i..j]) + TotalFileSize(files[j..k])
  {
    assert files[i..k] == files[i..j] + files[j..k];
    TotalIsSum(files[i..j], files[j..k]);
  }

  lemma SparingNext(input: seq<Entry>, i: nat, p: Passing, c: Cutting, dropped: bool, rule: CutRule)
    requires i < |input| && p.index <= |rule.grandparents| && Sorted(input) && Sparing(input, i, p, c, rule)
    requires LevelSorted(rule.grandparents) && forall f :: f in rule.grandparents ==> FileOk(f)
    ensures var (p', c') := CutNextOf(p, c, input[i], dropped, rule); Sparing(input, i + 1, p', c', rule)
  {
    var gs, e := rule.grandparents, input[i];
    CountedNext(input, i, p, c.last, rule);
    hide LevelSorted, FileOk, Sorted, Counted, Reached, EndBefore, InCount, Spares;
    var q := Reached(p, gs, e.Ikey());
    var stop := q.bytes > rule.maxOverlap;
    var q1 := if stop then q.(bytes := 0) else q;
    var c1 := if stop && c.last != [] then Cutting(c.full + [c.last], []) else c;
    NothingCounted(gs, q1);
    assert InCount(gs, q1, c1.last) && c1.Tables() == c.Tables();
    assert q1.index == EndBefore(gs, e.Ikey()) && q1.bytes <= rule.maxOverlap by { CountIs(input, i + 1, q1, rule); }
    TableNext(gs, c1.last, e, q1);
    var table := c1.last + [e];
    NothingCounted(gs, q1);
    SparesNext(c1, table, rule);
  }

  lemma NothingCounted(gs: seq<File>, p: Passing)
    ensures InCount(gs, p, [])
  {}

  lemma CountIs(input: seq<Entry>, i: nat, p: Passing, rule: CutRule)
    requires 0 < i <= |input| && Counted(input, i, p, rule)
    ensures p.index == EndBefore(rule.grandparents, input[i - 1].Ikey()) && p.bytes <= rule.maxOverlap
  {}

  lemma CountedNext(input: seq<Entry>, i: nat, p: Passing, last: seq<Entry>, rule: CutRule)
    requires i < |input| && p.index <= |rule.grandparents| && Sorted(input) && Counted(input, i, p, rule)
    requires LevelSorted(rule.grandparents) && (forall f :: f in rule.grandparents ==> FileOk(f))
    requires InCount(rule.grandparents, p, last) && (i == 0 ==> last == [])
    ensures var q := Reached(p, rule.grandparents, input[i].Ikey());
            Counted(input, i + 1, if q.bytes > rule.maxOverlap then q.(bytes := 0) else q, rule)
            && InCount(rule.grandparents, q, last)
  {
    var gs, key := rule.grandparents, input[i].Ikey();
    Neighbours(input, i);
    if i > 0 {
      EndsRise(gs, input[i - 1].Ikey(), key);
    }
    EndsBehind(gs, p.index, key);
    hide LevelSorted, FileOk, Sorted, EndBefore;
    if last != [] {
      TotalSplits(gs, EndBefore(gs, last[0].Ikey()), p.index, EndBefore(gs, key));
    }
  }

  lemma SparesNext(c: Cutting, table: seq<Entry>, rule: CutRule)
    requires Spares(c.Tables(), rule) && table != [] && Crossed(rule.grandparents, table) <= rule.maxOverlap
    ensures Spares(Cutting(c.full + [table], []).Tables(), rule) && Spares(Cutting(c.full, table).Tables(), rule)
  {
    hide Crossed;
    assert forall t :: t in c.full ==> t in c.Tables();
  }

  // One more entry: what the table crosses is still in the count.
  lemma TableNext(gs: seq<File>, last: seq<Entry>, e: Entry, q: Passing)
    requires q.index == EndBefore(gs, e.Ikey()) && InCount(gs, q, last)
    ensures InCount(gs, q, last + [e]) && Crossed(gs, last + [e]) <= q.bytes
  {
    hide EndBefore;
    var table := last + [e];
    assert table[|table| - 1] == e;
    if last == [] {
      assert table[0] == e && gs[q.index..q.index] == [];
    } else {
      assert table[0] == last[0];
    }
  }

  lemma Neighbours(input: seq<Entry>, i: nat)
    requires Sorted(input) && i < |input|
    ensures i > 0 ==> Less(input[i - 1].Ikey(), input[i].Ikey())
  {}

  // No output reaches across more bytes of the grandparents than it may.
  lemma {:induction false} CutsSpareGrandparents(input: seq<Entry>, i: nat, snap: nat, v: Version, level: nat, rule: CutRule)
    requires i <= |input| && Sorted(input)
    requires LevelSorted(rule.grandparents) && forall f :: f in rule.grandparents ==> FileOk(f)
    ensures var (p, c) := CutsOf(input, i, snap, v, level, rule);
            Sparing(input, i, p, c, rule)
            && forall t :: t in c.Tables() ==> t != [] && Crossed(rule.grandparents, t) <= rule.maxOverlap
  {
    hide Dropped, LevelSorted, FileOk, Sorted, Crossed, EndBefore, CutNextOf, Counted, InCount;
    if i > 0 {
      CutsSpareGrandparents(input, i - 1, snap, v, level, rule);
      var (p, c) := CutsOf(input, i - 1, snap, v, level, rule);
      SparingNext(input, i - 1, p, c, Dropped(input, i - 1, snap, v, level), rule);
    } else {
      NothingCut(input, rule);
    }
  }

  lemma NothingCut(input: seq<Entry>, rule: CutRule)
    ensures Sparing(input, 0, NOTHING_PASSED, Cutting([], []), rule)
  {}

  // Why a table ends before the input does: its file is large enough, or from some entry at or before its first
  // one up to the entry behind its last too many bytes of grandparents are passed.
  ghost predicate HasReason(input: seq<Entry>, t: seq<Entry>, rule: CutRule) {
    rule.builtSize(t) >= rule.maxOutputFileSize || exists a: nat, b: nat :: PassesTooMany(input, t, rule, a, b)
  }

  ghost predicate PassesTooMany(input: seq<Entry>, t: seq<Entry>, rule: CutRule, a: nat, b: nat) {
    a < b < |input| && (forall e :: e in t ==> e in input[a..b]) && PassedBetween(input, rule, a, b) > rule.maxOverlap
  }

  ghost function PassedBetween(input: seq<Entry>, rule: CutRule, a: nat, b: nat): nat
    requires a < |input| && b < |input|
  {
    var from, to := EndBefore(rule.grandparents, input[a].Ikey()), EndBefore(rule.grandparents, input[b].Ikey());
    if from <= to then TotalFileSize(rule.grandparents[from..to]) else 0
  }

  // The count is what has been passed since some entry, and the table being built came after that.
  ghost predicate CountedFrom(input: seq<Entry>, i: nat, p: Passing, c: Cutting, rule: CutRule, a: nat)
    requires 0 < i <= |input|
  {
    a < i && p.bytes == PassedBetween(input, rule, a, i - 1) && p.seen
    && p.index == EndBefore(rule.grandparents, input[i - 1].Ikey()) && (forall e :: e in c.last ==> e in input[a..i])
  }

  ghost predicate Reasoned(input: seq<Entry>, i: nat, p: Passing, c: Cutting, rule: CutRule)
    requires i <= |input|
  {
    (forall t :: t in c.full ==> HasReason(input, t, rule))
    && if i == 0 then p == NOTHING_PASSED && c.last == [] else exists a: nat :: CountedFrom(input, i, p, c, rule, a)
  }

  // No output ends without a reason, but for the last.
  lemma {:induction false} CutsHaveReason(input: seq<Entry>, i: nat, snap: nat, v: Version, level: nat, rule: CutRule)
    requires i <= |input| && Sorted(input)
    requires LevelSorted(rule.grandparents) && forall f :: f in rule.grandparents ==> FileOk(f)
    ensures var (p, c) := CutsOf(input, i, snap, v, level, rule);
            Reasoned(input, i, p, c, rule) && forall t :: t in c.full ==> HasReason(input, t, rule)
  {
    hide Dropped, LevelSorted, FileOk, Sorted, HasReason, EndBefore, CutNextOf, CountedFrom;
    if i > 0 {
      CutsHaveReason(input, i - 1, snap, v, level, rule);
      var (p, c) := CutsOf(input, i - 1, snap, v, level, rule);
      ReasonedNext(input, i - 1, p, c, Dropped(input, i - 1, snap, v, level), rule);
    }
  }

  // With the next key, the count is what has been passed since the same entry, or none if that is the first.
  lemma CountGoesOn(input: seq<Entry>, i: nat, p: Passing, c: Cutting, rule: CutRule) returns (a: nat)
    requires i < |input| && p.index <= |rule.grandparents| && Sorted(input) && Reasoned(input, i, p, c, rule)
    requires LevelSorted(rule.grandparents) && forall f :: f in rule.grandparents ==> FileOk(f)
    ensures var q := Reached(p, rule.grandparents, input[i].Ikey());
            a <= i && q.bytes == PassedBetween(input, rule, a, i) && q.index == EndBefore(rule.grandparents, input[i].Ikey())
            && (forall e :: e in c.last ==> a < i && e in input[a..i]) && (i > 0 ==> a < i)
  {
    var gs, key := rule.grandparents, input[i].Ikey();
    hide HasReason, LevelSorted, FileOk, Sorted, Reached, EndBefore, PassedBetween;
    if i > 0 {
      a :| CountedFrom(input, i, p, c, rule, a);
      CountAdds(input, i, a, p, rule);
      assert forall e :: e in c.last ==> e in input[a..i];
    } else {
      a := 0;
      FirstCount(input, rule);
    }
  }

  lemma FirstCount(input: seq<Entry>, rule: CutRule)
    requires input != [] && LevelSorted(rule.grandparents)
    ensures var q := Reached(NOTHING_PASSED, rule.grandparents, input[0].Ikey());
            q.bytes == 0 == PassedBetween(input, rule, 0, 0) && q.index == EndBefore(rule.grandparents, input[0].Ikey())
  {
    EndsBehind(rule.grandparents, 0, input[0].Ikey());
    NothingBetween(input, rule, 0);
  }

  lemma CountAdds(input: seq<Entry>, i: nat, a: nat, p: Passing, rule: CutRule)
    requires 0 < i < |input| && a < i && Sorted(input) && p.seen
    requires LevelSorted(rule.grandparents) && forall f :: f in rule.grandparents ==> FileOk(f)
    requires p.bytes == PassedBetween(input, rule, a, i - 1) && p.index == EndBefore(rule.grandparents, input[i - 1].Ikey())
    ensures var q := Reached(p, rule.grandparents, input[i].Ikey());
            q.bytes == PassedBetween(input, rule, a, i) && q.index == EndBefore(rule.grandparents, input[i].Ikey())
  {
    var gs, key := rule.grandparents, input[i].Ikey();
    hide EndBefore;
    Neighbours(input, i);
    AscendingEnds(input, a, i - 1, gs);
    hide Sorted, Less;
    EndsRise(gs, input[i - 1].Ikey(), key);
    EndsBehind(gs, p.index, key);
    hide LevelSorted, FileOk;
    TotalSplits(gs, EndBefore(gs, input[a].Ikey()), p.index, EndBefore(gs, key));
  }

  lemma AscendingEnds(input: seq<Entry>, a: nat, b: nat, gs: seq<File>)
    requires a <= b < |input| && Sorted(input) && LevelSorted(gs) && forall f :: f in gs ==> FileOk(f)
    ensures EndBefore(gs, input[a].Ikey()) <= EndBefore(gs, input[b].Ikey())
  {
    EndsRise(gs, input[a].Ikey(), input[b].Ikey());
  }

  lemma ReasonedNext(input: seq<Entry>, i: nat, p: Passing, c: Cutting, dropped: bool, rule: CutRule)
    requires i < |input| && p.index <= |rule.grandparents| && Sorted(input) && Reasoned(input, i, p, c, rule)
    requires LevelSorted(rule.grandparents) && forall f :: f in rule.grandparents ==> FileOk(f)
    ensures var (p', c') := CutNextOf(p, c, input[i], dropped, rule); Reasoned(input, i + 1, p', c', rule)
  {
    var gs, e := rule.grandparents, input[i];
    var a := CountGoesOn(input, i, p, c, rule);
    hide LevelSorted, FileOk, Sorted, Reached, EndBefore, PassedBetween;
    var q := Reached(p, gs, e.Ikey());
    assert forall x :: x in input[a..i + 1] <==> x in input[a..i] || x == e;
    if q.bytes > rule.maxOverlap {
      assert c.last != [] ==> PassesTooMany(input, c.last, rule, a, i);
      NothingBetween(input, rule, i);
      assert input[i..i + 1] == [e];
      var (p', c') := CutNextOf(p, c, e, dropped, rule);
      assert CountedFrom(input, i + 1, p', c', rule, i);
    } else {
      var (p', c') := CutNextOf(p, c, e, dropped, rule);
      assert CountedFrom(input, i + 1, p', c', rule, a);
    }
  }

  lemma NothingBetween(input: seq<Entry>, rule: CutRule, i: nat)
    requires i < |input|
    ensures PassedBetween(input, rule, i, i) == 0
  {
    var n := EndBefore(rule.grandparents, input[i].Ikey());
    assert rule.grandparents[n..n] == [];
  }

  // The loop over the merged input.  The current output table is closed when the grandparents say so
  // or when its file is large enough; where the cuts fall does not change what is kept.
  method DoCompactionWork(c: Compaction, input: seq<Entry>, snap: nat, maxOutputFileSize: nat,
                          builtSize: seq<Entry> -> nat) returns (outputs: seq<seq<Entry>>)
    requires c.Valid() && (forall k :: c.Behind(k)) && c.Passed() == NOTHING_PASSED
    requires Sorted(input) && snap < MAX_SEQUENCE
    modifies c
    ensures Concat(outputs) == Kept(input, |input|, snap, c.version, c.level)
    ensures NoneEmpty(outputs)
    ensures var rule := CutRule(c.grandparents, c.maxGrandParentOverlapBytes, maxOutputFileSize, builtSize);
            outputs == CutsOf(input, |input|, snap, c.version, c.level, rule).1.Tables()
  {
    hide Kept, BaseLevel, Concat, Reached;
    outputs := [];
    var builder: seq<Entry> := [];
    var currentUserKey, hasCurrentUserKey, lastSequenceForKey := 0, false, MAX_SEQUENCE;
    var i := 0;
    ghost var rule := CutRule(c.grandparents, c.maxGrandParentOverlapBytes, maxOutputFileSize, builtSize);
    NothingYet(input, snap, c.version, c.level, maxOutputFileSize, builtSize);
    while i < |input|
      invariant i <= |input| && c.Valid()
      invariant if i == 0 then forall k :: c.Behind(k) else forall k :: k >= input[i - 1].key ==> c.Behind(k)
      invariant hasCurrentUserKey == (i > 0)
      invariant i > 0 ==> currentUserKey == input[i - 1].key && lastSequenceForKey == input[i - 1].sn
      invariant Concat(outputs) + builder == Kept(input, i, snap, c.version, c.level)
      invariant NoneEmpty(outputs)
      invariant CutsOf(input, i, snap, c.version, c.level, rule) == (c.Passed(), Cutting(outputs, builder))
    {
      var e := input[i];
      assert i > 0 ==> Less(input[i - 1].Ikey(), input[i].Ikey());
      var stop := c.ShouldStopBefore(e.Ikey());
      if stop && builder != [] {
        ConcatNext(outputs, builder);
        outputs, builder := outputs + [builder], [];
      }
      if !hasCurrentUserKey || e.key != currentUserKey {
        currentUserKey, hasCurrentUserKey := e.key, true;
        lastSequenceForKey := MAX_SEQUENCE;
      }
      var drop := false;
      if lastSequenceForKey <= snap {
        drop := true;
      } else if e.payload == Deletion && e.sn <= snap {
        drop := c.IsBaseLevelForKey(e.key);
      }
      lastSequenceForKey := e.sn;
      assert drop == Dropped(input, i, snap, c.version, c.level);
      KeptNext(input, i, snap, c.version, c.level, Concat(outputs), builder);
      if !drop {
        builder := builder + [e];
        if builtSize(builder) >= maxOutputFileSize {
          ConcatNext(outputs, builder);
          outputs, builder := outputs + [builder], [];
        }
      }
      i := i + 1;
    }
    if builder != [] {
      ConcatNext(outputs, builder);
      outputs := outputs + [builder];
    }
  }

  lemma NothingYet(input: seq<Entry>, snap: nat, v: Version, level: nat, maxOutputFileSize: nat, fileSize: seq<Entry> -> nat)
    ensures Kept(input, 0, snap, v, level) == [] && Concat([]) == []
    ensures CutBySize([], maxOutputFileSize, fileSize) == Cutting([], [])
  {}

  lemma KeptNext(input: seq<Entry>, i: nat, snap: nat, v: Version, level: nat, done: seq<Entry>, builder: seq<Entry>)
    requires i < |input| && done + builder == Kept(input, i, snap, v, level)
    ensures Kept(input, i + 1, snap, v, level)
         == if Dropped(input, i, snap, v, level) then done + builder else done + (builder + [input[i]])
    ensures Kept(input, i + 1, snap, v, level)
         == if Dropped(input, i, snap, v, level) then Kept(input, i, snap, v, level) else Kept(input, i, snap, v, level) + [input[i]]
    ensures done + (builder + [input[i]]) + [] == done + (builder + [input[i]])
  {
    assert done + (builder + [input[i]]) == (done + builder) + [input[i]];
  }
}
