/**
 A version of the tree: seven levels of table files.  Level 0 files may overlap; the files of every
 other level are sorted and disjoint.
 */
module Versions {
  import opened Wrappers
  import opened DbFormat

  const NUM_LEVELS: nat := 7
  const MAX_MEM_COMPACT_LEVEL: nat := 2

  // A table file.  Tables never change, so what the table holds goes with the metadata.
  datatype File = File(number: nat, size: nat, smallest: IKey, largest: IKey, entries: seq<Entry>)

  ghost predicate FileOk(f: File) {
    |f.entries| > 0 && Sorted(f.entries)
    && f.smallest == f.entries[0].Ikey() && f.largest == f.entries[|f.entries| - 1].Ikey()
    && f.smallest.sn <= MAX_SEQUENCE && f.largest.sn <= MAX_SEQUENCE
  }

  // Files in order, none reaching into the next.
  ghost predicate LevelSorted(files: seq<File>) {
    forall i, j :: 0 <= i < j < |files| ==> Less(files[i].largest, files[j].smallest)
  }

  // ... and none sharing a user key with another.
  ghost predicate UserDisjoint(files: seq<File>) {
    forall i, j :: 0 <= i < j < |files| ==> files[i].largest.key < files[j].smallest.key
  }

  type Version = v: seq<seq<File>> | |v| == NUM_LEVELS witness [[], [], [], [], [], [], []]

  ghost predicate VersionOk(v: Version) {
    (forall l, f :: 0 <= l < NUM_LEVELS && f in v[l] ==> FileOk(f))
    && forall l :: 1 <= l < NUM_LEVELS ==> LevelSorted(v[l])
  }

  ghost function LevelEntries(files: seq<File>): set<Entry> {
    set f, e | f in files && e in f.entries :: e
  }

  ghost function VersionEntries(v: Version): set<Entry> {
    set l, f, e | 0 <= l < NUM_LEVELS && f in v[l] && e in f.entries :: e
  }

  // Every entry of a file lies between its boundaries.
  lemma EntryInRange(f: File, e: Entry)
    requires FileOk(f) && e in f.entries
    ensures !Less(e.Ikey(), f.smallest) && !Less(f.largest, e.Ikey())
    ensures f.smallest.key <= e.key <= f.largest.key
  {
    var i :| 0 <= i < |f.entries| && f.entries[i] == e;
    if i > 0 {
      assert Less(f.entries[0].Ikey(), f.entries[i].Ikey());
    }
    if i < |f.entries| - 1 {
      assert Less(f.entries[i].Ikey(), f.entries[|f.entries| - 1].Ikey());
    }
  }

  lemma FileSpans(f: File)
    requires FileOk(f)
    ensures f.smallest.key <= f.largest.key && !Less(f.largest, f.smallest)
  {
    EntryInRange(f, f.entries[0]);
  }

  // ---- FindFile ----

  // The first file whose largest key is at or after `key`: a binary search.
  method FindFile(files: seq<File>, key: IKey) returns (r: nat)
    requires LevelSorted(files) && forall f :: f in files ==> FileOk(f)
    ensures r <= |files|
    ensures forall i :: 0 <= i < r ==> Less(files[i].largest, key)
    ensures forall i :: r <= i < |files| ==> !Less(files[i].largest, key)
  {
    var left, right := 0, |files|;
    while left < right
      invariant left <= right <= |files|
      invariant forall i :: 0 <= i < left ==> Less(files[i].largest, key)
      invariant forall i :: right <= i < |files| ==> !Less(files[i].largest, key)
    {
      var mid := (left + right) / 2;
      if Less(files[mid].largest, key) {
        forall i | 0 <= i < mid
          ensures Less(files[i].largest, files[mid].largest)
        {
          FileSpans(files[mid]);
        }
        left := mid + 1;
      } else {
        forall i | mid < i < |files|
          ensures Less(files[mid].largest, files[i].largest)
        {
          FileSpans(files[i]);
        }
        right := mid;
      }
    }
    r := right;
  }

  // ---- Overlap with a range of user keys; None stands for an open end ----

  predicate AfterFile(key: Option<int>, f: File) {
    key.Some? && key.value > f.largest.key
  }

  predicate BeforeFile(key: Option<int>, f: File) {
    key.Some? && key.value < f.smallest.key
  }

  predicate Meets(f: File, lo: Option<int>, hi: Option<int>) {
    (lo.Some? ==> lo.value <= f.largest.key) && (hi.Some? ==> f.smallest.key <= hi.value)
  }

  method SomeFileOverlapsRange(disjointSorted: bool, files: seq<File>, lo: Option<int>, hi: Option<int>)
    returns (r: bool)
    requires forall f :: f in files ==> FileOk(f)
    requires disjointSorted ==> LevelSorted(files)
    requires lo.Some? && hi.Some? ==> lo.value <= hi.value
    ensures r <==> exists f :: f in files && Meets(f, lo, hi)
  {
    if !disjointSorted {
      var i := 0;
      while i < |files|
        invariant i <= |files| && forall j :: 0 <= j < i ==> !Meets(files[j], lo, hi)
      {
        var f := files[i];
        if AfterFile(lo, f) || BeforeFile(hi, f) {
        } else {
          assert f in files && Meets(f, lo, hi);
          return true;
        }
        i := i + 1;
      }
      return false;
    }
    var index := 0;
    if lo.Some? {
      index := FindFile(files, IKey(lo.value, MAX_SEQUENCE));
    }
    forall i | 0 <= i < |files|
      ensures AfterFile(lo, files[i]) <==> i < index
    {
      assert FileOk(files[i]);
    }
    if index >= |files| {
      return false;
    }
    r := !BeforeFile(hi, files[index]);
    forall i | index <= i < |files|
      ensures files[index].smallest.key <= files[i].smallest.key
    {
      FileSpans(files[index]);
    }
    if r {
      assert Meets(files[index], lo, hi);
    }
  }

  // ---- Version::Get ----

  // The answer of a sorted list of level-0 files, newest first.
  ghost predicate NewestFirst(files: seq<File>) {
    forall i, j :: 0 <= i < j < |files| ==> files[i].number >= files[j].number
  }

  // Insert into the list of level-0 candidates, as the sort by descending number arranges them.
  function InsertByNumber(files: seq<File>, f: File): (r: seq<File>)
    ensures forall g :: g in r <==> g in files || g == f
  {
    if files == [] then [f]
    else if f.number >= files[0].number then [f] + files
    else
      assert files == [files[0]] + files[1..];
      [files[0]] + InsertByNumber(files[1..], f)
  }

  lemma {:induction false} InsertByNumberSorted(files: seq<File>, f: File)
    requires NewestFirst(files)
    ensures NewestFirst(InsertByNumber(files, f))
  {
    if files != [] && f.number < files[0].number {
      InsertByNumberSorted(files[1..], f);
      var rest := InsertByNumber(files[1..], f);
      forall j | 0 <= j < |rest|
        ensures files[0].number >= rest[j].number
      {
        assert rest[j] in rest;
      }
    }
  }

  // The level-0 files whose range holds the key, newest first.
  method CandidatesAtLevel0(files: seq<File>, k: int) returns (tmp: seq<File>)
    ensures NewestFirst(tmp)
    ensures forall f :: f in tmp <==> f in files && f.smallest.key <= k <= f.largest.key
  {
    tmp := [];
    var i := 0;
    while i < |files|
      invariant i <= |files| && NewestFirst(tmp)
      invariant forall f :: f in tmp <==> f in files[..i] && f.smallest.key <= k <= f.largest.key
    {
      var f := files[i];
      assert files[..i + 1] == files[..i] + [f];
      if k >= f.smallest.key && k <= f.largest.key {
        InsertByNumberSorted(tmp, f);
        tmp := InsertByNumber(tmp, f);
      }
      i := i + 1;
    }
    assert files[..|files|] == files;
  }

  // Every entry of a for some key is newer than every entry of b for it.
  ghost predicate Newer(a: set<Entry>, b: set<Entry>) {
    forall e, f :: e in a && f in b && e.key == f.key ==> e.sn > f.sn
  }

  // A later level-0 file is newer.
  ghost predicate Level0InOrder(files: seq<File>) {
    (forall f, g :: f in files && g in files && f.number > g.number ==> Newer(Elements(f.entries), Elements(g.entries)))
    && forall f, g :: f in files && g in files && f.number == g.number ==> f == g
  }

  // A higher level is newer.
  ghost predicate LevelsInOrder(v: Version) {
    forall l, m :: 0 <= l < m < NUM_LEVELS ==> Newer(LevelEntries(v[l]), LevelEntries(v[m]))
  }

  // The outcome of searching a set of entries.
  ghost predicate Finds(entries: set<Entry>, k: int, s: nat, r: Option<Entry>) {
    match r
    case Some(e) => IsNewest(entries, k, s, e)
    case None => NothingVisible(entries, k, s)
  }

  method SearchLevel0(files: seq<File>, k: int, s: nat) returns (r: Option<Entry>)
    requires Level0InOrder(files) && forall f :: f in files ==> FileOk(f)
    ensures Finds(LevelEntries(files), k, s, r)
  {
    var tmp := CandidatesAtLevel0(files, k);
    var i := 0;
    while i < |tmp|
      invariant i <= |tmp|
      invariant forall j :: 0 <= j < i ==> NothingVisible(Elements(tmp[j].entries), k, s)
    {
      r := Lookup(tmp[i].entries, k, s);
      LookupFindsNewest(tmp[i].entries, k, s);
      if r.Some? {
        Level0Newest(files, tmp, i, k, s, r.value);
        return;
      }
      i := i + 1;
    }
    forall e | e in LevelEntries(files) && e.key == k
      ensures e.sn > s
    {
      var f :| f in files && e in f.entries;
      EntryInRange(f, e);
      assert f in tmp;
      var j :| 0 <= j < |tmp| && tmp[j] == f;
      assert e in Elements(tmp[j].entries);
    }
    r := None;
  }

  lemma Level0Newest(files: seq<File>, tmp: seq<File>, i: nat, k: int, s: nat, e: Entry)
    requires Level0InOrder(files) && forall f :: f in files ==> FileOk(f)
    requires NewestFirst(tmp) && i < |tmp|
    requires forall f :: f in tmp <==> f in files && f.smallest.key <= k <= f.largest.key
    requires forall j :: 0 <= j < i ==> NothingVisible(Elements(tmp[j].entries), k, s)
    requires IsNewest(Elements(tmp[i].entries), k, s, e)
    ensures IsNewest(LevelEntries(files), k, s, e)
  {
    hide Sorted;
    assert tmp[i] in files;
    forall g | g in LevelEntries(files) && g.key == k && g.sn <= s
      ensures g.sn <= e.sn
    {
      var f :| f in files && g in f.entries;
      EntryInRange(f, g);
      assert f in tmp;
      var j :| 0 <= j < |tmp| && tmp[j] == f;
      assert g in Elements(tmp[j].entries);
      if j > i && f.number != tmp[i].number {
        assert Newer(Elements(tmp[i].entries), Elements(f.entries));
      }
    }
  }

  method SearchSortedLevel(files: seq<File>, k: int, s: nat) returns (r: Option<Entry>)
    requires LevelSorted(files) && forall f :: f in files ==> FileOk(f)
    ensures Finds(LevelEntries(files), k, s, r)
  {
    var index := FindFile(files, IKey(k, s));
    // Entries at or after the target are in files[index..]; the first of them is in files[index].
    forall e | e in LevelEntries(files) && e.key == k && e.sn <= s
      ensures index < |files| && exists j :: index <= j < |files| && e in files[j].entries
    {
      var f :| f in files && e in f.entries;
      EntryInRange(f, e);
      var j :| 0 <= j < |files| && files[j] == f;
      assert !Less(f.largest, e.Ikey());
    }
    if index >= |files| {
      return None;
    }
    var f := files[index];
    r := if k < f.smallest.key then None else Lookup(f.entries, k, s);
    FirstOfLevel(files, index, k, s);
  }

  // In a sorted level, the file found decides.
  lemma FirstOfLevel(files: seq<File>, index: nat, k: int, s: nat)
    requires LevelSorted(files) && forall f :: f in files ==> FileOk(f)
    requires index < |files| && !Less(files[index].largest, IKey(k, s))
    requires forall i :: 0 <= i < index ==> Less(files[i].largest, IKey(k, s))
    ensures var f := files[index];
            Finds(LevelEntries(files), k, s, if k < f.smallest.key then None else Lookup(f.entries, k, s))
  {
    var f := files[index];
    assert f in files && FileOk(f);
    var r := if k < f.smallest.key then None else Lookup(f.entries, k, s);
    LookupFindsNewest(f.entries, k, s);
    FileSpans(f);
    forall e | e in LevelEntries(files) && e.key == k && e.sn <= s
      ensures r.Some? && e.sn <= r.value.sn
    {
      var g :| g in files && e in g.entries;
      var j :| 0 <= j < |files| && files[j] == g;
      EntryInRange(g, e);
      if j == index {
        assert e in Elements(f.entries);
      } else if j > index {
        // Something at or after the target is already in f.
        assert Less(f.largest, g.smallest);
        LastEntryVisible(f, k, s, e);
      }
    }
    if r.Some? {
      assert r.value in LevelEntries(files);
    }
  }

  lemma LastEntryVisible(f: File, k: int, s: nat, e: Entry)
    requires FileOk(f) && e.key == k && e.sn <= s
    requires !Less(f.largest, IKey(k, s)) && Less(f.largest, e.Ikey())
    ensures f.smallest.key <= k
    ensures Lookup(f.entries, k, s).Some? && Lookup(f.entries, k, s).value.sn > e.sn
  {
    var last := f.entries[|f.entries| - 1];
    assert last.key == k && e.sn < last.sn <= s;
    FileSpans(f);
    LookupFindsNewest(f.entries, k, s);
    assert last in Elements(f.entries);
  }

  // The first level that answers gives e.
  ghost predicate FirstAnswer(v: Version, k: int, s: nat, l: nat, e: Entry) {
    l < NUM_LEVELS && (forall i :: 0 <= i < l ==> NothingVisible(LevelEntries(v[i]), k, s))
    && IsNewest(LevelEntries(v[l]), k, s, e)
  }

  // ... which is not the newest visible version: that one lies deeper.
  ghost predicate WrongAt(v: Version, k: int, s: nat, l: nat, e: Entry) {
    FirstAnswer(v, k, s, l, e) && !IsNewest(VersionEntries(v), k, s, e)
  }

  ghost predicate Misleads(v: Version, k: int, s: nat) {
    exists l: nat, e :: WrongAt(v, k, s, l, e)
  }

  // Search the levels in turn and stop at the first that answers, whatever lies below it.
  method Get(v: Version, k: int, s: nat) returns (r: Option<Entry>)
    requires VersionOk(v) && Level0InOrder(v[0])
    ensures r.Some? ==> exists l: nat :: FirstAnswer(v, k, s, l, r.value)
    ensures r.None? ==> NothingVisible(VersionEntries(v), k, s)
    ensures Finds(VersionEntries(v), k, s, r) <==> !Misleads(v, k, s)
    ensures LevelsInOrder(v) ==> Finds(VersionEntries(v), k, s, r)
  {
    hide NothingVisible, IsNewest, VersionEntries, LevelEntries, LevelsInOrder, Level0InOrder, Misleads;
    r := SearchLevel0(v[0], k, s);
    var level := 0;
    while r.None? && level + 1 < NUM_LEVELS
      invariant level < NUM_LEVELS && Finds(LevelEntries(v[level]), k, s, r)
      invariant forall l :: 0 <= l < level ==> NothingVisible(LevelEntries(v[l]), k, s)
    {
      level := level + 1;
      r := SearchSortedLevel(v[level], k, s);
    }
    if r.Some? {
      assert FirstAnswer(v, k, s, level, r.value);
      AnswerIsRight(v, level, k, s, r.value);
    } else {
      NoLevelAnswers(v, k, s);
    }
  }

  lemma AnswerIsRight(v: Version, level: nat, k: int, s: nat, e: Entry)
    requires FirstAnswer(v, k, s, level, e)
    ensures Misleads(v, k, s) <==> !IsNewest(VersionEntries(v), k, s, e)
    ensures LevelsInOrder(v) ==> IsNewest(VersionEntries(v), k, s, e)
  {
    if LevelsInOrder(v) {
      LevelAnswers(v, level, k, s, e);
    }
    if !IsNewest(VersionEntries(v), k, s, e) {
      assert WrongAt(v, k, s, level, e);
    } else if Misleads(v, k, s) {
      var l: nat, e' :| WrongAt(v, k, s, l, e');
      OneAnswer(v, k, s, level, e, l, e');
      SameRank(VersionEntries(v), LevelEntries(v[level]), k, s, e, e');
    }
  }

  // Two first answers come from one level.
  lemma OneAnswer(v: Version, k: int, s: nat, l: nat, e: Entry, l': nat, e': Entry)
    requires FirstAnswer(v, k, s, l, e) && FirstAnswer(v, k, s, l', e')
    ensures l == l'
  {}

  lemma SameRank(all: set<Entry>, part: set<Entry>, k: int, s: nat, e: Entry, e': Entry)
    requires IsNewest(all, k, s, e) && IsNewest(part, k, s, e) && IsNewest(part, k, s, e') && e' in all
    ensures IsNewest(all, k, s, e')
  {}

  lemma NoLevelAnswers(v: Version, k: int, s: nat)
    requires forall l :: 0 <= l < NUM_LEVELS ==> NothingVisible(LevelEntries(v[l]), k, s)
    ensures NothingVisible(VersionEntries(v), k, s) && !Misleads(v, k, s)
  {
    forall e | e in VersionEntries(v) && e.key == k
      ensures e.sn > s
    {
      var l, f :| 0 <= l < NUM_LEVELS && f in v[l] && e in f.entries;
      assert e in LevelEntries(v[l]);
    }
  }

  lemma LevelAnswers(v: Version, level: nat, k: int, s: nat, e: Entry)
    requires LevelsInOrder(v) && FirstAnswer(v, k, s, level, e)
    ensures IsNewest(VersionEntries(v), k, s, e)
  {
    var f0 :| f0 in v[level] && e in f0.entries;
    forall g | g in VersionEntries(v) && g.key == k && g.sn <= s
      ensures g.sn <= e.sn
    {
      var l, f :| 0 <= l < NUM_LEVELS && f in v[l] && g in f.entries;
      assert g in LevelEntries(v[l]);
      if l > level {
        assert Newer(LevelEntries(v[level]), LevelEntries(v[l]));
      }
    }
  }
}
