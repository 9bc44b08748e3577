/**
 The files of a version as a tree: what every flush, move and merge keeps of them, and exactly when the
 levels stay in order of age.
 */
module Trees {
  import opened Wrappers
  import opened DbFormat
  import opened Versions
  import opened VersionBuilder
  import opened CompactionInputs
  import opened CompactionWork

  // ---- The files of a version, pair by pair ----

  // No user key is in the range of both.
  ghost predicate Apart(f: File, g: File) {
    f.largest.key < g.smallest.key || g.largest.key < f.smallest.key
  }

  // One lies wholly before the other.  A user key at the border may have versions in both.
  ghost predicate InOrder(f: File, g: File) {
    Less(f.largest, g.smallest) || Less(g.largest, f.smallest)
  }

  // g goes on with the user key f ends with.
  ghost predicate Follows(f: File, g: File) {
    f.largest.key == g.smallest.key && Less(f.largest, g.smallest)
  }

  ghost predicate FileNewer(f: File, g: File) {
    Newer(Elements(f.entries), Elements(g.entries))
  }

  // For every user key, a higher level is newer than a lower one.
  ghost predicate FilesAge(v: Version) {
    forall l, m, f, g :: 0 <= l < m < NUM_LEVELS && f in v[l] && g in v[m] ==> FileNewer(f, g)
  }

  // ... and at level 0 a later file is newer.
  ghost predicate Level0Age(v: Version) {
    forall f, g :: f in v[0] && g in v[0] && f.number > g.number ==> FileNewer(f, g)
  }

  // File numbers are unique, and the next one is new.
  ghost predicate Numbered(v: Version, next: nat) {
    (forall l, f :: 0 <= l < NUM_LEVELS && f in v[l] ==> f.number < next)
    && forall l, m, f, g :: 0 <= l < NUM_LEVELS && 0 <= m < NUM_LEVELS && f in v[l] && g in v[m] && f.number == g.number ==>
         l == m && f == g
  }

  ghost predicate FilesInOrder(v: Version) {
    forall l, f, g :: 1 <= l < NUM_LEVELS && f in v[l] && g in v[l] && f != g ==> InOrder(f, g)
  }

  // No user key has versions in two files of a level.
  ghost predicate NoStraddle(v: Version) {
    forall l, f, g :: 1 <= l < NUM_LEVELS && f in v[l] && g in v[l] && f != g ==> Apart(f, g)
  }

  ghost predicate NoneShared(f: File, g: File) {
    forall e :: e in f.entries ==> e !in g.entries
  }

  // Every entry is in one file only.
  ghost predicate EntriesOnce(v: Version) {
    forall l, m, f, g :: 0 <= l < NUM_LEVELS && 0 <= m < NUM_LEVELS && f in v[l] && g in v[m] && f.number != g.number ==>
      NoneShared(f, g)
  }

  ghost predicate AllFilesOk(v: Version) {
    forall l, f :: 0 <= l < NUM_LEVELS && f in v[l] ==> FileOk(f)
  }

  // What every step keeps of the files, whatever user keys straddle them.
  ghost predicate TreeOk(v: Version, next: nat) {
    AllFilesOk(v) && VersionOrdered(v) && Numbered(v, next) && FilesInOrder(v) && EntriesOnce(v) && Level0Age(v)
  }

  lemma TreeServes(v: Version, next: nat)
    requires TreeOk(v, next)
    ensures VersionOk(v) && Level0InOrder(v[0]) && (FilesAge(v) ==> LevelsInOrder(v))
    ensures NoStraddle(v) ==> forall l :: 1 <= l < NUM_LEVELS ==> UserDisjoint(v[l])
  {
    forall l | 1 <= l < NUM_LEVELS
      ensures LevelSorted(v[l]) && (NoStraddle(v) ==> UserDisjoint(v[l]))
    {
      hide UserDisjoint, LevelSorted, FilesAge, Numbered, Ordered, FileOk, EntriesOnce, InOrder, Apart;
      InOrderIsSorted(v[l]);
    }
    assert forall f, g :: f in v[0] && g in v[0] && f.number == g.number ==> f == g;
    if FilesAge(v) {
      AgedLevels(v);
    }
  }

  lemma AgedLevels(v: Version)
    requires FilesAge(v)
    ensures LevelsInOrder(v)
  {
    forall l, m, e, f | 0 <= l < m < NUM_LEVELS && e in LevelEntries(v[l]) && f in LevelEntries(v[m]) && e.key == f.key
      ensures e.sn > f.sn
    {
      var x :| x in v[l] && e in x.entries;
      var y :| y in v[m] && f in y.entries;
      assert FileNewer(x, y);
      assert e in Elements(x.entries) && f in Elements(y.entries);
    }
  }

  lemma InOrderIsSorted(files: seq<File>)
    requires Ordered(files) && (forall f :: f in files ==> FileOk(f))
    requires forall f, g :: f in files && g in files && f != g ==> InOrder(f, g)
    ensures LevelSorted(files)
    ensures (forall f, g :: f in files && g in files && f != g ==> Apart(f, g)) ==> UserDisjoint(files)
  {
    forall i, j | 0 <= i < j < |files|
      ensures Less(files[i].largest, files[j].smallest)
      ensures Apart(files[i], files[j]) ==> files[i].largest.key < files[j].smallest.key
      ensures files[i] != files[j]
    {
      assert Before(files[i], files[j]);
      assert files[i] in files && files[j] in files && files[i] != files[j];
      FileSpans(files[i]);
      FileSpans(files[j]);
    }
  }

  // ---- Two files of a level ----

  lemma BeforeIsNewer(f: File, g: File)
    requires FileOk(f) && FileOk(g) && Less(f.largest, g.smallest)
    ensures FileNewer(f, g)
  {
    forall e, e' | e in f.entries && e' in g.entries && e.key == e'.key
      ensures e.sn > e'.sn
    {
      EntryInRange(f, e);
      EntryInRange(g, e');
    }
  }

  // Only the border can be in both.
  lemma SharedKeyFollows(f: File, g: File, e: Entry, e': Entry)
    requires FileOk(f) && FileOk(g) && Less(f.largest, g.smallest) && e in f.entries && e' in g.entries && e.key == e'.key
    ensures Follows(f, g) && e.key == f.largest.key
  {
    EntryInRange(f, e);
    EntryInRange(g, e');
  }

  lemma FollowerIsOlder(f: File, g: File)
    requires FileOk(f) && FileOk(g) && Follows(f, g)
    ensures var e, e' := f.entries[|f.entries| - 1], g.entries[0];
            e in f.entries && e' in g.entries && e.key == e'.key == f.largest.key && e.sn > e'.sn
  {}

  // ---- What the search finds ----

  // Searching the levels in turn is right for every key and snapshot exactly if the levels are in order of
  // age.
  lemma SearchIsRight(v: Version, next: nat)
    requires TreeOk(v, next) && DistinctSequences(VersionEntries(v))
    ensures FilesAge(v) <==> forall k: int, s: nat :: !Misleads(v, k, s)
  {
    hide IsNewest, NothingVisible, LevelEntries, VersionEntries, FileOk, EntriesOnce, FilesInOrder, VersionOrdered, Level0Age;
    if FilesAge(v) {
      AgedLevels(v);
      forall k: int, s: nat, l: nat, e
        ensures !WrongAt(v, k, s, l, e)
      {
        if WrongAt(v, k, s, l, e) {
          LevelAnswers(v, l, k, s, e);
          assert false;
        }
      }
    } else {
      var l, m, f, g :| 0 <= l < m < NUM_LEVELS && f in v[l] && g in v[m] && !FileNewer(f, g);
      var e, e' :| e in Elements(f.entries) && e' in Elements(g.entries) && e.key == e'.key && e.sn <= e'.sn;
      OlderAbove(v, next, l, f, e, m, g, e', e'.sn);
      assert Misleads(v, e'.key, e'.sn);
    }
  }

  // An older version in a higher level hides a newer one.
  lemma OlderAbove(v: Version, next: nat, l: nat, f: File, e: Entry, m: nat, g: File, e': Entry, s: nat)
    requires Numbered(v, next) && EntriesOnce(v) && DistinctSequences(VersionEntries(v)) && l < m < NUM_LEVELS
    requires f in v[l] && e in f.entries && g in v[m] && e' in g.entries && e.key == e'.key && e.sn <= e'.sn <= s
    requires s == e'.sn || IsNewest(VersionEntries(v), e'.key, s, e')
    ensures Misleads(v, e'.key, s)
  {
    var k := e'.key;
    assert e in LevelEntries(v[l]) && e' in VersionEntries(v);
    SeenAt(LevelEntries(v[l]), k, s, e);
    hide EntriesOnce, Numbered, DistinctSequences, LevelEntries, NothingVisible, VersionEntries, IsNewest;
    var l0 := FirstToAnswer(v, k, s, l);
    NewestExists(LevelEntries(v[l0]), k, s);
    var e0 :| IsNewest(LevelEntries(v[l0]), k, s, e0);
    NewestIsSeen(LevelEntries(v[l0]), k, s, e0);
    InLevel(v, l0, e0);
    NotInBoth(v, next, l0, e0, m, g, e');
    OlderIsNotNewest(VersionEntries(v), k, s, e0, e');
    assert WrongAt(v, k, s, l0, e0);
  }

  lemma NewestIsSeen(es: set<Entry>, k: int, s: nat, e: Entry)
    requires IsNewest(es, k, s, e)
    ensures e in es && e.key == k && e.sn <= s
  {}

  lemma OlderIsNotNewest(es: set<Entry>, k: int, s: nat, e: Entry, e': Entry)
    requires e in es && e.key == k && e.sn <= s && e' in es && e'.key == k && e'.sn <= s && e.sn != e'.sn
    requires s == e'.sn || IsNewest(es, k, s, e')
    ensures !IsNewest(es, k, s, e)
  {}

  lemma SeenAt(es: set<Entry>, k: int, s: nat, e: Entry)
    requires e in es && e.key == k && e.sn <= s
    ensures !NothingVisible(es, k, s)
  {}

  lemma InLevel(v: Version, l: nat, e: Entry)
    requires l < NUM_LEVELS && e in LevelEntries(v[l])
    ensures e in VersionEntries(v)
  {}

  lemma NotInBoth(v: Version, next: nat, l: nat, e: Entry, m: nat, g: File, e': Entry)
    requires Numbered(v, next) && EntriesOnce(v) && DistinctSequences(VersionEntries(v)) && l < m < NUM_LEVELS
    requires e in LevelEntries(v[l]) && g in v[m] && e' in g.entries
    ensures e.sn != e'.sn
  {
    var f :| f in v[l] && e in f.entries;
    assert NoneShared(f, g);
    assert e in VersionEntries(v) && e' in VersionEntries(v);
  }

  lemma {:induction false} FirstToAnswer(v: Version, k: int, s: nat, l: nat) returns (l0: nat)
    requires l < NUM_LEVELS && !NothingVisible(LevelEntries(v[l]), k, s)
    ensures l0 <= l && !NothingVisible(LevelEntries(v[l0]), k, s)
    ensures forall i :: 0 <= i < l0 ==> NothingVisible(LevelEntries(v[i]), k, s)
  {
    if i: nat :| i < l && !NothingVisible(LevelEntries(v[i]), k, s) {
      l0 := FirstToAnswer(v, k, s, i);
    } else {
      l0 := l;
    }
  }

  // ---- Edits of the version ----

  ghost predicate EditedBy(v: Version, e: FileEdit, v': Version) {
    forall l: nat, f :: l < NUM_LEVELS ==>
      (f in v'[l] <==> (f in v[l] && (l, f.number) !in e.deletedFiles) || (l, f) in e.newFiles)
  }

  lemma EditResult(v: Version, e: FileEdit)
    requires EditOk(e) && VersionOrdered(v) && NeverReadded(v, e.newFiles)
    ensures VersionOrdered(Saved(v, Applied(EMPTY_LEVELS, e)))
    ensures EditedBy(v, e, Saved(v, Applied(EMPTY_LEVELS, e)))
  {
    hide Applied, Saved, NeverReadded, VersionOrdered, Survives;
    var v' := Saved(v, Applied(EMPTY_LEVELS, e));
    var edits := [e];
    LastEdit(v, edits);
    assert edits[..0] == [] && AllNew([]) + e.newFiles == e.newFiles;
    assert AppliedInTurn(v, edits) == v';
    ReplayAtOnce(v, edits);
    NeverReaddedIsOneEach(v, edits);
    forall l: nat, f | l < NUM_LEVELS
      ensures f in v'[l] <==> (f in v[l] && (l, f.number) !in e.deletedFiles) || (l, f) in e.newFiles
    {
      ReplayKeepsSurvivors(v, edits, l, f);
      SurvivesOne(v, e, l, f);
    }
  }

  lemma SurvivesOne(v: Version, e: FileEdit, l: nat, f: File)
    requires l < NUM_LEVELS && NeverReadded(v, e.newFiles)
    ensures Survives(v, [e], l, f) <==> (f in v[l] && (l, f.number) !in e.deletedFiles) || (l, f) in e.newFiles
  {
    assert [e][0] == e;
    assert NotDeletedFrom([e], 1, l, f);
    assert NotDeletedFrom([e], 0, l, f) <==> !Deletes(e, l, f.number);
    forall g | (l, g) in e.newFiles && f in v[l]
      ensures g.number != f.number
    {
      assert f in v[(l, g).0];
    }
  }

  // ---- Flush ----

  // v' is v with f more at one level.
  ghost predicate Gains(v: Version, level: nat, f: File, v': Version) {
    forall l: nat, g :: l < NUM_LEVELS ==> (g in v'[l] <==> g in v[l] || (l == level && g == f))
  }

  ghost predicate NothingMeets(v: Version, level: nat, f: File) {
    level > 0 ==> forall l, g :: 0 <= l <= level && l < NUM_LEVELS && g in v[l] ==> !Meets(g, Some(f.smallest.key), Some(f.largest.key))
  }

  lemma FlushKeepsTree(v: Version, next: nat, f: File, level: nat, v': Version)
    requires TreeOk(v, next) && FileOk(f) && f.number == next && level < NUM_LEVELS
    requires Newer(Elements(f.entries), VersionEntries(v)) && NothingMeets(v, level, f)
    requires VersionOrdered(v') && EditedBy(v, FileEdit({}, [(level, f)]), v')
    ensures TreeOk(v', next + 1) && VersionEntries(v') == VersionEntries(v) + Elements(f.entries)
    ensures FilesAge(v) ==> FilesAge(v')
    ensures NoStraddle(v) ==> NoStraddle(v')
  {
    hide FilesAge, FilesInOrder, NoStraddle, VersionOrdered, VersionEntries, FileOk, AllFilesOk, Numbered, EntriesOnce, NothingMeets,
      Level0Age;
    EditGains(v, level, f, v');
    hide EditedBy, Gains;
    FlushNumbers(v, next, f, level, v');
    NumberedBelow(v, next);
    FlushAge0(v, f, level, v');
    if FilesAge(v) {
      FlushAges(v, f, level, v');
    }
    FlushOrder(v, f, level, v');
    FlushOnce(v, next, f, level, v');
    EntriesGained(v, level, f, v');
  }

  lemma NumberedBelow(v: Version, next: nat)
    requires Numbered(v, next)
    ensures forall g :: g in v[0] ==> g.number < next
  {}

  lemma EditGains(v: Version, level: nat, f: File, v': Version)
    requires level < NUM_LEVELS && EditedBy(v, FileEdit({}, [(level, f)]), v')
    ensures Gains(v, level, f, v')
  {
    forall l: nat, g | l < NUM_LEVELS
      ensures g in v'[l] <==> g in v[l] || (l == level && g == f)
    {
      assert (l, g) in [(level, f)] <==> l == level && g == f;
    }
  }

  lemma FlushNumbers(v: Version, next: nat, f: File, level: nat, v': Version)
    requires AllFilesOk(v) && Numbered(v, next) && FileOk(f) && f.number == next && level < NUM_LEVELS
    requires Gains(v, level, f, v')
    ensures AllFilesOk(v') && Numbered(v', next + 1)
  {
    hide FileOk;
  }

  lemma FlushAges(v: Version, f: File, level: nat, v': Version)
    requires AllFilesOk(v) && FilesAge(v) && FileOk(f) && level < NUM_LEVELS && Gains(v, level, f, v')
    requires Newer(Elements(f.entries), VersionEntries(v)) && NothingMeets(v, level, f)
    ensures FilesAge(v')
  {
    hide Newer, FileOk, Elements, VersionEntries;
    forall l, m, x, y | 0 <= l < m < NUM_LEVELS && x in v'[l] && y in v'[m]
      ensures FileNewer(x, y)
    {
      if x !in v[l] {
        NewerThanFile(f, v, m, y);
      } else if y !in v[m] {
        assert !Meets(x, Some(f.smallest.key), Some(f.largest.key));
        ApartIsNewer(x, f);
      }
    }
  }

  lemma FlushAge0(v: Version, f: File, level: nat, v': Version)
    requires Level0Age(v) && level < NUM_LEVELS && Gains(v, level, f, v')
    requires Newer(Elements(f.entries), VersionEntries(v)) && forall g :: g in v[0] ==> g.number < f.number
    ensures Level0Age(v')
  {
    hide Newer, Elements, VersionEntries;
    forall x, y | x in v'[0] && y in v'[0] && x.number > y.number
      ensures FileNewer(x, y)
    {
      if x !in v[0] {
        NewerThanFile(f, v, 0, y);
      }
    }
  }

  lemma FlushOrder(v: Version, f: File, level: nat, v': Version)
    requires AllFilesOk(v) && FileOk(f) && level < NUM_LEVELS && Gains(v, level, f, v') && NothingMeets(v, level, f)
    ensures FilesInOrder(v) ==> FilesInOrder(v')
    ensures NoStraddle(v) ==> NoStraddle(v')
  {
    hide FileOk;
    forall l, x, y | 1 <= l < NUM_LEVELS && x in v'[l] && y in v'[l] && x != y
      ensures (x in v[l] && y in v[l]) || (Apart(x, y) && InOrder(x, y))
    {
      if x !in v[l] {
        assert !Meets(y, Some(f.smallest.key), Some(f.largest.key));
      } else if y !in v[l] {
        assert !Meets(x, Some(f.smallest.key), Some(f.largest.key));
      }
    }
  }

  lemma FlushOnce(v: Version, next: nat, f: File, level: nat, v': Version)
    requires EntriesOnce(v) && Newer(Elements(f.entries), VersionEntries(v)) && level < NUM_LEVELS && Gains(v, level, f, v')
    ensures EntriesOnce(v')
  {
    hide Newer, VersionEntries;
    forall l, m, x, y | 0 <= l < NUM_LEVELS && 0 <= m < NUM_LEVELS && x in v'[l] && y in v'[m] && x.number != y.number
      ensures NoneShared(x, y)
    {
      if x !in v[l] {
        NewerThanFile(f, v, m, y);
        NewerSharesNone(f, y);
      } else if y !in v[m] {
        NewerThanFile(f, v, l, x);
        NewerSharesNone(f, x);
      }
    }
  }

  lemma NewerSharesNone(f: File, g: File)
    requires FileNewer(f, g)
    ensures NoneShared(f, g) && NoneShared(g, f)
  {
    forall e | e in f.entries
      ensures e !in g.entries
    {
      assert e in Elements(f.entries) && (e in g.entries <==> e in Elements(g.entries));
    }
  }

  lemma EntriesGained(v: Version, level: nat, f: File, v': Version)
    requires level < NUM_LEVELS && Gains(v, level, f, v')
    ensures VersionEntries(v') == VersionEntries(v) + Elements(f.entries)
  {
    forall e
      ensures e in VersionEntries(v') <==> e in VersionEntries(v) || e in Elements(f.entries)
    {
      if e in f.entries {
        assert f in v'[level];
      } else if e in VersionEntries(v) {
        var l, g :| 0 <= l < NUM_LEVELS && g in v[l] && e in g.entries;
        assert g in v'[l];
      }
    }
  }

  lemma NewerThanFile(f: File, v: Version, m: nat, g: File)
    requires m < NUM_LEVELS && g in v[m] && Newer(Elements(f.entries), VersionEntries(v))
    ensures FileNewer(f, g)
  {
    assert forall e :: e in g.entries ==> e in VersionEntries(v);
  }

  lemma ApartIsNewer(f: File, g: File)
    requires FileOk(f) && FileOk(g) && Apart(f, g)
    ensures FileNewer(f, g) && FileNewer(g, f)
  {
    forall e, e' | e in f.entries && e' in g.entries
      ensures e.key != e'.key
    {
      EntryInRange(f, e);
      EntryInRange(g, e');
    }
  }

  // ---- Trivial move ----

  // v' is v with f one level further down.
  ghost predicate Moved(v: Version, level: nat, f: File, v': Version) {
    forall l: nat, g :: l < NUM_LEVELS ==> (g in v'[l] <==> (g in v[l] && g != f) || (l == level + 1 && g == f))
  }

  // No file left on the level goes on with the user key the moved one ends with.
  ghost predicate MoveSafe(v: Version, level: nat, f: File)
    requires level < NUM_LEVELS
  {
    forall g :: g in v[level] && g != f ==> !Follows(f, g)
  }

  // A move keeps the tree and all its entries, and keeps the levels in order of age exactly if it is safe.
  lemma MoveKeepsTree(v: Version, next: nat, level: nat, f: File, v': Version)
    requires TreeOk(v, next) && InputsOk(v, level, [f], [])
    requires VersionOrdered(v') && EditedBy(v, FileEdit({(level, f.number)}, [(level + 1, f)]), v')
    ensures TreeOk(v', next) && VersionEntries(v') == VersionEntries(v)
    ensures FilesAge(v) ==> (FilesAge(v') <==> MoveSafe(v, level, f))
    ensures NoStraddle(v) ==> NoStraddle(v') && MoveSafe(v, level, f)
  {
    assert f in [f] && f in v[level];
    hide FilesAge, FilesInOrder, VersionOrdered, FileOk, InputsOk, AllFilesOk, VersionEntries, EntriesOnce, NoStraddle, MoveSafe;
    EditMoves(v, next, level, f, v');
    hide Numbered, EditedBy, Moved;
    MoveNumbers(v, next, level, f, v');
    if FilesAge(v) {
      MoveAges(v, level, f, v');
    }
    if NoStraddle(v) {
      MoveIsSafe(v, level, f);
    }
    MoveOrder(v, level, f, v');
    MoveOnce(v, level, f, v');
    EntriesMoved(v, level, f, v');
  }

  lemma EditMoves(v: Version, next: nat, level: nat, f: File, v': Version)
    requires Numbered(v, next) && level + 1 < NUM_LEVELS && f in v[level]
    requires EditedBy(v, FileEdit({(level, f.number)}, [(level + 1, f)]), v')
    ensures Moved(v, level, f, v')
  {
    forall l: nat, g | l < NUM_LEVELS
      ensures g in v'[l] <==> (g in v[l] && g != f) || (l == level + 1 && g == f)
    {
      assert (l, g) in [(level + 1, f)] <==> l == level + 1 && g == f;
    }
  }

  lemma MoveNumbers(v: Version, next: nat, level: nat, f: File, v': Version)
    requires AllFilesOk(v) && Numbered(v, next) && level + 1 < NUM_LEVELS && f in v[level] && Moved(v, level, f, v')
    ensures AllFilesOk(v') && Numbered(v', next)
  {
    hide FileOk;
  }

  lemma MoveAges(v: Version, level: nat, f: File, v': Version)
    requires AllFilesOk(v) && FilesAge(v) && FilesInOrder(v) && InputsOk(v, level, [f], []) && Moved(v, level, f, v')
    ensures FilesAge(v') <==> MoveSafe(v, level, f)
  {
    assert f in [f] && f in v[level];
    hide FileOk, Newer;
    if g :| g in v[level] && g != f && Follows(f, g) {
      FollowerIsOlder(f, g);
      assert g in v'[level] && f in v'[level + 1];
      NotNewer(g, f, g.entries[0], f.entries[|f.entries| - 1]);
    } else {
      forall l, m, x, y | 0 <= l < m < NUM_LEVELS && x in v'[l] && y in v'[m]
        ensures FileNewer(x, y)
      {
        if y == f && l == level {
          StaysNewer(v, level, [f], [], x, f);
        }
      }
    }
  }

  lemma NotNewer(f: File, g: File, e: Entry, e': Entry)
    requires e in f.entries && e' in g.entries && e.key == e'.key && e.sn <= e'.sn
    ensures !FileNewer(f, g)
  {
    assert e in Elements(f.entries) && e' in Elements(g.entries);
  }

  // A file left on the level that does not follow an input has nothing older than it.
  lemma StaysNewer(v: Version, level: nat, inputs0: seq<File>, inputs1: seq<File>, x: File, f: File)
    requires AllFilesOk(v) && FilesInOrder(v) && InputsOk(v, level, inputs0, inputs1)
    requires x in v[level] && x !in inputs0 && f in inputs0 && !Follows(f, x)
    ensures FileNewer(x, f)
  {
    hide FileOk, FileNewer;
    assert f in v[level] && f != x;
    if level == 0 {
      assert Apart(f, x);
      ApartIsNewer(x, f);
    } else {
      assert InOrder(f, x);
      if Less(x.largest, f.smallest) {
        BeforeIsNewer(x, f);
      } else {
        assert Apart(f, x);
        ApartIsNewer(x, f);
      }
    }
  }

  lemma MoveIsSafe(v: Version, level: nat, f: File)
    requires AllFilesOk(v) && NoStraddle(v) && InputsOk(v, level, [f], [])
    ensures MoveSafe(v, level, f)
  {
    assert f in [f] && f in v[level];
    forall g | g in v[level] && g != f
      ensures !Follows(f, g)
    {
      assert Apart(f, g);
      ApartNeverFollows(f, g);
    }
  }

  lemma ApartNeverFollows(f: File, g: File)
    requires FileOk(f) && FileOk(g) && Apart(f, g)
    ensures !Follows(f, g)
  {
    FileSpans(f);
    FileSpans(g);
  }

  lemma MoveOrder(v: Version, level: nat, f: File, v': Version)
    requires AllFilesOk(v) && InputsOk(v, level, [f], []) && Moved(v, level, f, v')
    ensures FilesInOrder(v) ==> FilesInOrder(v')
    ensures NoStraddle(v) ==> NoStraddle(v')
  {
    assert f in [f] && f in v[level];
    forall g | g in v[level + 1]
      ensures Apart(f, g) && InOrder(f, g)
    {
      MovedIsApart(v, level, f, g);
    }
    hide InputsOk, FileOk;
  }

  lemma MoveOnce(v: Version, level: nat, f: File, v': Version)
    requires EntriesOnce(v) && level + 1 < NUM_LEVELS && f in v[level] && Moved(v, level, f, v')
    ensures EntriesOnce(v')
  {
    hide NoneShared;
    forall l, m, x, y | 0 <= l < NUM_LEVELS && 0 <= m < NUM_LEVELS && x in v'[l] && y in v'[m] && x.number != y.number
      ensures NoneShared(x, y)
    {
      var lx, ly := if x in v[l] then l else level, if y in v[m] then m else level;
      assert x in v[lx] && y in v[ly];
    }
  }

  lemma EntriesMoved(v: Version, level: nat, f: File, v': Version)
    requires level + 1 < NUM_LEVELS && f in v[level] && Moved(v, level, f, v')
    ensures VersionEntries(v') == VersionEntries(v)
  {
    forall e
      ensures e in VersionEntries(v') <==> e in VersionEntries(v)
    {
      if e in VersionEntries(v) {
        var l, g :| 0 <= l < NUM_LEVELS && g in v[l] && e in g.entries;
        assert if g == f then g in v'[level + 1] else g in v'[l];
      }
    }
  }

  lemma MovedIsApart(v: Version, level: nat, f: File, g: File)
    requires InputsOk(v, level, [f], []) && g in v[level + 1] && FileOk(f) && FileOk(g)
    ensures Apart(f, g) && InOrder(f, g)
  {
    var next := v[level + 1];
    var lo, hi :| TakesAllNext(next, [f], [], lo, hi);
    assert f in [f] && !Meets(g, Some(lo), Some(hi));
    FileSpans(f);
    FileSpans(g);
  }

  // ---- Compaction ----

  ghost predicate IsInput(level: nat, inputs0: seq<File>, inputs1: seq<File>, l: nat, f: File) {
    (l == level && f in inputs0) || (l == level + 1 && f in inputs1)
  }

  // v' is v with the inputs replaced by the outputs.
  ghost predicate Replaced(v: Version, level: nat, inputs0: seq<File>, inputs1: seq<File>, outs: seq<File>, v': Version) {
    forall l: nat, g {:trigger g in v'[l]} {:trigger g in v[l]} :: l < NUM_LEVELS ==>
      (g in v'[l] <==> (g in v[l] && !IsInput(level, inputs0, inputs1, l, g)) || (l == level + 1 && g in outs))
  }

  ghost function OtherEntries(v: Version, level: nat, inputs0: seq<File>, inputs1: seq<File>): set<Entry> {
    set l, f, e | 0 <= l < NUM_LEVELS && f in v[l] && !IsInput(level, inputs0, inputs1, l, f) && e in f.entries :: e
  }

  ghost function InputEntries(inputs0: seq<File>, inputs1: seq<File>): set<Entry> {
    LevelEntries(inputs0) + LevelEntries(inputs1)
  }

  // A file of the next level that is left out lies to one side of all the inputs.
  lemma BesideInputs(v: Version, level: nat, inputs0: seq<File>, inputs1: seq<File>, g: File)
    requires AllFilesOk(v) && FilesInOrder(v) && InputsOk(v, level, inputs0, inputs1)
    requires g in v[level + 1] && g !in inputs1
    ensures (forall f :: f in inputs0 || f in inputs1 ==> Less(g.largest, f.smallest))
         || (forall f :: f in inputs0 || f in inputs1 ==> Less(f.largest, g.smallest))
    ensures forall f :: f in inputs0 ==> Apart(f, g)
    ensures NoStraddle(v) ==> (forall f :: f in inputs0 || f in inputs1 ==> g.largest.key < f.smallest.key)
                              || (forall f :: f in inputs0 || f in inputs1 ==> f.largest.key < g.smallest.key)
  {
    var next := v[level + 1];
    var lo, hi :| TakesAllNext(next, inputs0, inputs1, lo, hi);
    assert !Meets(g, Some(lo), Some(hi));
    forall f | f in inputs1
      ensures InOrder(f, g) && Meets(f, Some(lo), Some(hi)) && (NoStraddle(v) ==> Apart(f, g))
      ensures f.smallest.key <= f.largest.key && g.smallest.key <= g.largest.key
    {
      assert f in v[level + 1];
      FileSpans(f);
      FileSpans(g);
    }
  }

  // What the outputs must be: files of their own numbers, holding input entries only, one after the other,
  // and each entry once.
  ghost predicate OutputsOk(inputs0: seq<File>, inputs1: seq<File>, outs: seq<File>, next: nat) {
    (forall i :: 0 <= i < |outs| ==> FileOk(outs[i]) && outs[i].number == next + i)
    && (forall f, e :: f in outs && e in f.entries ==> e in InputEntries(inputs0, inputs1))
    && forall i, j :: 0 <= i < j < |outs| ==> Less(outs[i].largest, outs[j].smallest)
  }

  lemma InputOf(inputs0: seq<File>, inputs1: seq<File>, level: nat, e: Entry) returns (l: nat, f: File)
    requires e in InputEntries(inputs0, inputs1)
    ensures IsInput(level, inputs0, inputs1, l, f) && e in f.entries
  {
    if e in LevelEntries(inputs0) {
      l := level;
      f :| f in inputs0 && e in f.entries;
    } else {
      l := level + 1;
      f :| f in inputs1 && e in f.entries;
    }
  }

  lemma InputsInRange(v: Version, level: nat, inputs0: seq<File>, inputs1: seq<File>)
    requires InputsOk(v, level, inputs0, inputs1)
    ensures level + 1 < NUM_LEVELS
    ensures forall l: nat, f :: IsInput(level, inputs0, inputs1, l, f) ==> l < NUM_LEVELS && f in v[l]
  {}

  // ---- When a merge keeps the levels in order of age ----

  // Where a file left on the level goes on with the user key an input ends with, nothing of that key is kept.
  ghost predicate AgeSafe(v: Version, level: nat, inputs0: seq<File>, inputs1: seq<File>, snap: nat)
    requires level < NUM_LEVELS
  {
    forall f, g :: f in inputs0 && g in v[level] && g !in inputs0 && Follows(f, g) ==>
      Wiped(InputEntries(inputs0, inputs1), snap, v, level, f.largest.key)
  }

  // What becomes of the inputs.
  ghost predicate KeptInto(v: Version, level: nat, inputs0: seq<File>, inputs1: seq<File>, snap: nat,
                           input: seq<Entry>, outs: seq<File>) {
    Sorted(input) && Elements(input) == InputEntries(inputs0, inputs1)
    && LevelEntries(outs) == Elements(Kept(input, |input|, snap, v, level))
  }

  lemma CompactAges(v: Version, level: nat, inputs0: seq<File>, inputs1: seq<File>, snap: nat, input: seq<Entry>, outs: seq<File>,
                    v': Version)
    requires AllFilesOk(v) && FilesInOrder(v) && FilesAge(v) && InputsOk(v, level, inputs0, inputs1)
    requires KeptInto(v, level, inputs0, inputs1, snap, input, outs) && Replaced(v, level, inputs0, inputs1, outs, v')
    ensures FilesAge(v') <==> AgeSafe(v, level, inputs0, inputs1, snap)
  {
    hide InputsOk, FilesInOrder, FileNewer, AllFilesOk, KeptInto, Wiped, Follows;
    InputsInRange(v, level, inputs0, inputs1);
    if f, g :| f in inputs0 && g in v[level] && g !in inputs0 && Follows(f, g)
               && !Wiped(InputEntries(inputs0, inputs1), snap, v, level, f.largest.key) {
      var out := KeptAboveFollower(v, level, inputs0, inputs1, snap, input, outs, f, g);
      assert g in v'[level] && out in v'[level + 1];
    } else {
      forall l, m, x, y | 0 <= l < m < NUM_LEVELS && x in v'[l] && y in v'[m]
        ensures FileNewer(x, y)
      {
        if !(x in v[l] && !IsInput(level, inputs0, inputs1, l, x)) {
          OutputAge(v, level, inputs0, inputs1, snap, input, outs, x, m, y);
        } else if !(y in v[m] && !IsInput(level, inputs0, inputs1, m, y)) {
          OutputAge(v, level, inputs0, inputs1, snap, input, outs, y, l, x);
        }
      }
    }
  }

  // A kept version of the key goes down and leaves an older one above it.
  lemma KeptAboveFollower(v: Version, level: nat, inputs0: seq<File>, inputs1: seq<File>, snap: nat, input: seq<Entry>,
                          outs: seq<File>, f: File, g: File) returns (out: File)
    requires AllFilesOk(v) && InputsOk(v, level, inputs0, inputs1) && KeptInto(v, level, inputs0, inputs1, snap, input, outs)
    requires f in inputs0 && g in v[level] && g !in inputs0 && Follows(f, g)
    requires !Wiped(InputEntries(inputs0, inputs1), snap, v, level, f.largest.key)
    ensures out in outs && !FileNewer(g, out)
  {
    hide InputsOk, Wiped, Kept, FileNewer, Sorted;
    InputsInRange(v, level, inputs0, inputs1);
    assert IsInput(level, inputs0, inputs1, level, f);
    FollowerIsOlder(f, g);
    var k, last := f.largest.key, f.entries[|f.entries| - 1];
    assert last in LevelEntries(inputs0);
    var top := NewestOf(Elements(input), last);
    NewestIsKept(input, snap, v, level, top);
    assert top in LevelEntries(outs);
    out :| out in outs && top in out.entries;
    NotNewer(g, out, g.entries[0], top);
  }

  lemma {:induction false} NewestOf(es: set<Entry>, e: Entry) returns (top: Entry)
    requires e in es
    ensures top in es && top.key == e.key && e.sn <= top.sn && forall f :: f in es && f.key == e.key ==> f.sn <= top.sn
    decreases |es|
  {
    if f :| f in es && f.key == e.key && f.sn > e.sn {
      top := NewestOf(es - {e}, f);
    } else {
      top := e;
    }
  }

  // An output is older than the files left above it, and newer than what lies below.
  lemma OutputAge(v: Version, level: nat, inputs0: seq<File>, inputs1: seq<File>, snap: nat, input: seq<Entry>, outs: seq<File>,
                  out: File, l: nat, g: File)
    requires AllFilesOk(v) && FilesInOrder(v) && FilesAge(v) && InputsOk(v, level, inputs0, inputs1)
    requires AgeSafe(v, level, inputs0, inputs1, snap) && KeptInto(v, level, inputs0, inputs1, snap, input, outs)
    requires out in outs && l < NUM_LEVELS && l != level + 1 && g in v[l] && !IsInput(level, inputs0, inputs1, l, g)
    ensures l < level + 2 ==> FileNewer(g, out)
    ensures l >= level + 2 ==> FileNewer(out, g)
  {
    hide InputsOk, FilesInOrder, FilesAge, FileOk, InputEntries, IsInput, AgeSafe, Kept;
    forall e, e' | e in out.entries && e' in g.entries && e.key == e'.key
      ensures if l < level + 2 then e'.sn > e.sn else e.sn > e'.sn
    {
      assert e in LevelEntries(outs);
      assert e in Kept(input, |input|, snap, v, level);
      assert e in Elements(input);
      var lf, f := InputOf(inputs0, inputs1, level, e);
      KeptAge(v, level, inputs0, inputs1, snap, input, l, g, e', lf, f, e);
    }
  }

  lemma KeptAge(v: Version, level: nat, inputs0: seq<File>, inputs1: seq<File>, snap: nat, input: seq<Entry>,
                l: nat, g: File, e': Entry, lf: nat, f: File, e: Entry)
    requires AllFilesOk(v) && FilesInOrder(v) && FilesAge(v) && InputsOk(v, level, inputs0, inputs1)
    requires AgeSafe(v, level, inputs0, inputs1, snap) && Sorted(input) && Elements(input) == InputEntries(inputs0, inputs1)
    requires l < NUM_LEVELS && l != level + 1 && g in v[l] && !IsInput(level, inputs0, inputs1, l, g) && e' in g.entries
    requires IsInput(level, inputs0, inputs1, lf, f) && e in f.entries && e.key == e'.key
    requires e in Kept(input, |input|, snap, v, level)
    ensures if l < level + 2 then e'.sn > e.sn else e.sn > e'.sn
  {
    hide InputsOk, FileOk, FilesInOrder, InputEntries, Kept, Wiped, Sorted;
    InputsInRange(v, level, inputs0, inputs1);
    assert f in v[lf];
    assert e in Elements(f.entries) && e' in Elements(g.entries);
    if l == level && lf == level {
      if Follows(f, g) {
        SharedKeyFollows(f, g, e, e');
        WipedLeavesNothing(input, snap, v, level, e.key);
        assert false;
      } else {
        StaysNewer(v, level, inputs0, inputs1, g, f);
      }
    } else if l < lf {
      assert FileNewer(g, f);
    } else {
      assert FileNewer(f, g);
    }
  }

  // ---- When a merge keeps reads ----

  // What a caller can see to be enough: no file left on the level goes on with the user key an input ends
  // with; and where a file left on the next level does, the newest version of that key at the snapshot is
  // not a deletion that goes.
  ghost predicate MergeSafe(v: Version, level: nat, inputs0: seq<File>, inputs1: seq<File>, snap: nat)
    requires level + 1 < NUM_LEVELS
  {
    (forall f, g :: f in inputs0 && g in v[level] && g !in inputs0 ==> !Follows(f, g))
    && forall f, g :: f in inputs1 && g in v[level + 1] && g !in inputs1 && Follows(f, g) ==>
         !DeletedAt(InputEntries(inputs0, inputs1), snap, v, level, f.largest.key)
  }

  ghost predicate DeletedAt(input: set<Entry>, snap: nat, v: Version, level: nat, k: int) {
    exists e :: IsNewest(input, k, snap, e) && e.payload == Deletion && BaseLevel(v, level, k)
  }

  lemma NoStraddleIsSafe(v: Version, level: nat, inputs0: seq<File>, inputs1: seq<File>, snap: nat)
    requires AllFilesOk(v) && NoStraddle(v) && InputsOk(v, level, inputs0, inputs1)
    ensures MergeSafe(v, level, inputs0, inputs1, snap)
  {
    hide FileOk, DeletedAt, InputEntries, TakesAllNext, Follows;
    forall f, g | (f in inputs0 && g in v[level] && g !in inputs0) || (f in inputs1 && g in v[level + 1] && g !in inputs1)
      ensures !Follows(f, g)
    {
      assert Apart(f, g);
      ApartNeverFollows(f, g);
    }
  }

  // `above` are the entries of the memtables.
  lemma MergeSafeSuffices(v: Version, level: nat, inputs0: seq<File>, inputs1: seq<File>, snap: nat, above: set<Entry>)
    requires AllFilesOk(v) && FilesInOrder(v) && FilesAge(v) && InputsOk(v, level, inputs0, inputs1)
    requires Newer(above, VersionEntries(v)) && DistinctSequences(above + VersionEntries(v))
    requires MergeSafe(v, level, inputs0, inputs1, snap)
    ensures AgeSafe(v, level, inputs0, inputs1, snap)
    ensures NothingResurrects(InputEntries(inputs0, inputs1), above + OtherEntries(v, level, inputs0, inputs1), snap, v, level)
  {
    hide InputsOk, FilesInOrder, FilesAge, AllFilesOk, BaseLevel, Wiped, DeletedAt, OtherEntries, InputEntries, Newer;
    var input, others := InputEntries(inputs0, inputs1), above + OtherEntries(v, level, inputs0, inputs1);
    InputsInRange(v, level, inputs0, inputs1);
    forall k | Resurrects(input, others, snap, v, level, k)
      ensures false
    {
      var e, o :| IsNewest(input + others, k, snap, e) && e in input && e.payload == Deletion && BaseLevel(v, level, k)
                  && IsNewest(others, k, e.sn, o) && o.payload.Put?;
      NoneComesBack(v, level, inputs0, inputs1, snap, above, e, o);
    }
  }

  lemma NoneComesBack(v: Version, level: nat, inputs0: seq<File>, inputs1: seq<File>, snap: nat, above: set<Entry>, e: Entry, o: Entry)
    requires AllFilesOk(v) && FilesInOrder(v) && FilesAge(v) && InputsOk(v, level, inputs0, inputs1)
    requires Newer(above, VersionEntries(v)) && DistinctSequences(above + VersionEntries(v))
    requires MergeSafe(v, level, inputs0, inputs1, snap)
    requires e in InputEntries(inputs0, inputs1) && e.payload == Deletion && BaseLevel(v, level, e.key)
    requires IsNewest(InputEntries(inputs0, inputs1) + (above + OtherEntries(v, level, inputs0, inputs1)), e.key, snap, e)
    requires IsNewest(above + OtherEntries(v, level, inputs0, inputs1), e.key, e.sn, o)
    ensures o.payload == Deletion
  {
    hide InputsOk, FilesInOrder, FilesAge, AllFilesOk, BaseLevel, InputEntries;
    InputsInRange(v, level, inputs0, inputs1);
    var lf, f := InputOf(inputs0, inputs1, level, e);
    assert f in v[lf] && e in VersionEntries(v);
    if o.payload != Deletion {
      assert o != e && o in above + VersionEntries(v);
      assert o in OtherEntries(v, level, inputs0, inputs1);
      var l, g :| 0 <= l < NUM_LEVELS && g in v[l] && !IsInput(level, inputs0, inputs1, l, g) && o in g.entries;
      assert IsNewest(InputEntries(inputs0, inputs1), e.key, snap, e);
      OlderOutside(v, level, inputs0, inputs1, snap, lf, f, e, l, g, o);
    }
  }

  // An older version of a deleted key is in no file left out.
  lemma OlderOutside(v: Version, level: nat, inputs0: seq<File>, inputs1: seq<File>, snap: nat, lf: nat, f: File, e: Entry,
                     l: nat, g: File, o: Entry)
    requires AllFilesOk(v) && FilesInOrder(v) && FilesAge(v) && InputsOk(v, level, inputs0, inputs1)
    requires MergeSafe(v, level, inputs0, inputs1, snap) && IsInput(level, inputs0, inputs1, lf, f) && e in f.entries
    requires e.payload == Deletion && BaseLevel(v, level, e.key) && IsNewest(InputEntries(inputs0, inputs1), e.key, snap, e)
    requires l < NUM_LEVELS && g in v[l] && !IsInput(level, inputs0, inputs1, l, g) && o in g.entries && o.key == e.key
    ensures o.sn > e.sn
  {
    hide InputsOk, FilesInOrder, FileOk, InputEntries, IsNewest;
    InputsInRange(v, level, inputs0, inputs1);
    assert e in Elements(f.entries) && o in Elements(g.entries);
    if l >= level + 2 {
      CoveredBelow(v, level, l, g, o);
    } else if l < lf {
      assert FileNewer(g, f);
    } else if l == level {
      assert !Follows(f, g);
      StaysNewer(v, level, inputs0, inputs1, g, f);
    } else {
      BesideInputs(v, level, inputs0, inputs1, g);
      assert lf == level ==> Apart(f, g);
      NextLevelOlder(v, level, inputs0, inputs1, snap, lf, f, e, g, o);
    }
  }

  lemma CoveredBelow(v: Version, level: nat, l: nat, g: File, o: Entry)
    requires FileOk(g) && level + 2 <= l < NUM_LEVELS && g in v[l] && o in g.entries
    ensures !BaseLevel(v, level, o.key)
  {
    EntryInRange(g, o);
    assert Covers(g, o.key);
  }

  lemma NextLevelOlder(v: Version, level: nat, inputs0: seq<File>, inputs1: seq<File>, snap: nat, lf: nat, f: File, e: Entry,
                       g: File, o: Entry)
    requires level + 1 < NUM_LEVELS && FileOk(f) && FileOk(g) && (lf == level ==> Apart(f, g)) && InOrder(f, g)
    requires MergeSafe(v, level, inputs0, inputs1, snap) && IsInput(level, inputs0, inputs1, lf, f) && e in f.entries
    requires e.payload == Deletion && BaseLevel(v, level, e.key) && IsNewest(InputEntries(inputs0, inputs1), e.key, snap, e)
    requires g in v[level + 1] && g !in inputs1 && o in g.entries && o.key == e.key
    ensures o.sn > e.sn
  {
    assert DeletedAt(InputEntries(inputs0, inputs1), snap, v, level, e.key);
    hide FileOk, InputEntries, IsNewest, BaseLevel, DeletedAt;
    if Less(g.largest, f.smallest) {
      BeforeIsNewer(g, f);
      assert o in Elements(g.entries) && e in Elements(f.entries);
    } else {
      SharedKeyFollows(f, g, e, o);
      if lf == level {
        ApartSharesNoKey(f, g, e, o);
      }
    }
  }

  lemma ApartSharesNoKey(f: File, g: File, e: Entry, o: Entry)
    requires FileOk(f) && FileOk(g) && Apart(f, g) && e in f.entries && o in g.entries
    ensures e.key != o.key
  {
    EntryInRange(f, e);
    EntryInRange(g, o);
  }

  // ---- The tree after a merge ----

  lemma OutputBeside(v: Version, level: nat, inputs0: seq<File>, inputs1: seq<File>, outs: seq<File>, next: nat,
                     out: File, g: File)
    requires AllFilesOk(v) && FilesInOrder(v) && InputsOk(v, level, inputs0, inputs1)
    requires OutputsOk(inputs0, inputs1, outs, next) && out in outs
    requires g in v[level + 1] && g !in inputs1
    ensures InOrder(out, g) && (NoStraddle(v) ==> Apart(out, g))
  {
    BesideInputs(v, level, inputs0, inputs1, g);
    var first, last := out.entries[0], out.entries[|out.entries| - 1];
    assert first in out.entries && last in out.entries;
    var l0, f0 := InputOf(inputs0, inputs1, level, first);
    var l1, f1 := InputOf(inputs0, inputs1, level, last);
    assert f0 in v[l0] && f1 in v[l1];
    hide InputsOk, AllFilesOk, FilesInOrder, NoStraddle, InputEntries;
    EntryInRange(f0, first);
    EntryInRange(f1, last);
  }

  lemma CompactOrder(v: Version, level: nat, inputs0: seq<File>, inputs1: seq<File>, outs: seq<File>, next: nat, v': Version)
    requires AllFilesOk(v) && FilesInOrder(v) && InputsOk(v, level, inputs0, inputs1)
    requires OutputsOk(inputs0, inputs1, outs, next) && Replaced(v, level, inputs0, inputs1, outs, v')
    ensures FilesInOrder(v')
    ensures NoStraddle(v) && (forall f, g :: f in outs && g in outs && f != g ==> Apart(f, g)) ==> NoStraddle(v')
  {
    hide InputsOk, AllFilesOk;
    forall l, x, y | 1 <= l < NUM_LEVELS && x in v'[l] && y in v'[l] && x != y
      ensures InOrder(x, y) && (NoStraddle(v) && (x in outs && y in outs ==> Apart(x, y)) ==> Apart(x, y))
    {
      var oldX := x in v[l] && !IsInput(level, inputs0, inputs1, l, x);
      var oldY := y in v[l] && !IsInput(level, inputs0, inputs1, l, y);
      if oldX && !oldY {
        OutputBeside(v, level, inputs0, inputs1, outs, next, y, x);
      } else if oldY && !oldX {
        OutputBeside(v, level, inputs0, inputs1, outs, next, x, y);
      }
    }
  }

  lemma CompactNumbers(v: Version, level: nat, inputs0: seq<File>, inputs1: seq<File>, outs: seq<File>, next: nat, v': Version)
    requires AllFilesOk(v) && Numbered(v, next) && level + 1 < NUM_LEVELS
    requires OutputsOk(inputs0, inputs1, outs, next) && Replaced(v, level, inputs0, inputs1, outs, v')
    ensures AllFilesOk(v') && Numbered(v', next + |outs|)
  {
    hide FileOk, InputEntries;
    forall f | f in outs
      ensures FileOk(f) && next <= f.number < next + |outs|
    {}
  }

  lemma CompactOnce(v: Version, next: nat, level: nat, inputs0: seq<File>, inputs1: seq<File>, outs: seq<File>, v': Version)
    requires AllFilesOk(v) && Numbered(v, next) && EntriesOnce(v) && InputsOk(v, level, inputs0, inputs1)
    requires OutputsOk(inputs0, inputs1, outs, next) && Replaced(v, level, inputs0, inputs1, outs, v')
    ensures EntriesOnce(v')
  {
    hide InputsOk, NoneShared, FileOk, AllFilesOk, InputEntries;
    InputsInRange(v, level, inputs0, inputs1);
    forall l, m, x, y | 0 <= l < NUM_LEVELS && 0 <= m < NUM_LEVELS && x in v'[l] && y in v'[m] && x.number != y.number
      ensures NoneShared(x, y)
    {
      var oldX := x in v[l] && !IsInput(level, inputs0, inputs1, l, x);
      var oldY := y in v[m] && !IsInput(level, inputs0, inputs1, m, y);
      if oldX && !oldY {
        OutputSharesNone(v, next, level, inputs0, inputs1, outs, y, l, x);
      } else if oldY && !oldX {
        OutputSharesNone(v, next, level, inputs0, inputs1, outs, x, m, y);
      } else if !oldX && !oldY {
        OutputsShareNone(inputs0, inputs1, outs, next, x, y);
      }
    }
  }

  lemma OutputSharesNone(v: Version, next: nat, level: nat, inputs0: seq<File>, inputs1: seq<File>, outs: seq<File>,
                         out: File, l: nat, g: File)
    requires Numbered(v, next) && EntriesOnce(v) && OutputsOk(inputs0, inputs1, outs, next) && out in outs
    requires forall m: nat, f :: IsInput(level, inputs0, inputs1, m, f) ==> m < NUM_LEVELS && f in v[m]
    requires l < NUM_LEVELS && g in v[l] && !IsInput(level, inputs0, inputs1, l, g)
    ensures NoneShared(out, g) && NoneShared(g, out)
  {
    hide InputEntries, FileOk;
    forall e | e in out.entries
      ensures e !in g.entries
    {
      var lf, f := InputOf(inputs0, inputs1, level, e);
      assert f in v[lf] && f.number != g.number;
      assert NoneShared(f, g);
    }
  }

  lemma OutputsShareNone(inputs0: seq<File>, inputs1: seq<File>, outs: seq<File>, next: nat, x: File, y: File)
    requires OutputsOk(inputs0, inputs1, outs, next) && x in outs && y in outs && x.number != y.number
    ensures NoneShared(x, y)
  {
    var i: nat, j: nat :| i < |outs| && j < |outs| && outs[i] == x && outs[j] == y;
    hide InputEntries;
    forall e | e in x.entries && e in y.entries
      ensures false
    {
      EntryInRange(x, e);
      EntryInRange(y, e);
    }
  }

  lemma EntriesReplaced(v: Version, level: nat, inputs0: seq<File>, inputs1: seq<File>, outs: seq<File>, v': Version)
    requires InputsOk(v, level, inputs0, inputs1) && Replaced(v, level, inputs0, inputs1, outs, v')
    ensures VersionEntries(v) == OtherEntries(v, level, inputs0, inputs1) + InputEntries(inputs0, inputs1)
    ensures VersionEntries(v') == OtherEntries(v, level, inputs0, inputs1) + LevelEntries(outs)
  {
    forall e
      ensures e in VersionEntries(v) <==> e in OtherEntries(v, level, inputs0, inputs1) || e in InputEntries(inputs0, inputs1)
    {
      if e in InputEntries(inputs0, inputs1) {
        var l, f := InputOf(inputs0, inputs1, level, e);
        assert f in v[l];
      }
    }
    forall e
      ensures e in VersionEntries(v') <==> e in OtherEntries(v, level, inputs0, inputs1) || e in LevelEntries(outs)
    {
      if e in LevelEntries(outs) {
        var f :| f in outs && e in f.entries;
        assert f in v'[level + 1];
      }
    }
  }

  // A merge keeps the tree wherever the output was cut, and keeps the levels in order of age exactly if no
  // kept version goes down past an older one.
  lemma CompactKeepsTree(v: Version, next: nat, level: nat, inputs0: seq<File>, inputs1: seq<File>, snap: nat, input: seq<Entry>,
                         outs: seq<File>, v': Version)
    requires TreeOk(v, next) && InputsOk(v, level, inputs0, inputs1) && OutputsOk(inputs0, inputs1, outs, next)
    requires KeptInto(v, level, inputs0, inputs1, snap, input, outs)
    requires VersionOrdered(v') && Replaced(v, level, inputs0, inputs1, outs, v')
    ensures TreeOk(v', next + |outs|)
    ensures FilesAge(v) ==> (FilesAge(v') <==> AgeSafe(v, level, inputs0, inputs1, snap))
    ensures NoStraddle(v) && (forall f, g :: f in outs && g in outs && f != g ==> Apart(f, g)) ==> NoStraddle(v')
    ensures VersionEntries(v) == OtherEntries(v, level, inputs0, inputs1) + InputEntries(inputs0, inputs1)
    ensures VersionEntries(v') == OtherEntries(v, level, inputs0, inputs1) + LevelEntries(outs)
  {
    InputsInRange(v, level, inputs0, inputs1);
    hide AllFilesOk, FilesInOrder, FilesAge, Numbered, OutputsOk, Replaced, VersionOrdered, VersionEntries, OtherEntries,
      InputEntries, LevelEntries, TakesAllNext, Spans, InputsOk, EntriesOnce, NoStraddle, KeptInto, AgeSafe, Apart;
    if FilesAge(v) {
      CompactAges(v, level, inputs0, inputs1, snap, input, outs, v');
    }
    CompactOrder(v, level, inputs0, inputs1, outs, next, v');
    CompactNumbers(v, level, inputs0, inputs1, outs, next, v');
    CompactOnce(v, next, level, inputs0, inputs1, outs, v');
    EntriesReplaced(v, level, inputs0, inputs1, outs, v');
  }

  // ---- Which reads a step misleads ----

  // Once the inputs have gone down, the newest version of k at s is one of theirs, and a file left on the
  // level goes on with an older version of k.
  ghost predicate Strands(v: Version, level: nat, inputs0: seq<File>, inputs1: seq<File>, left: set<Entry>, k: int, s: nat)
    requires level < NUM_LEVELS
  {
    exists f, g, e :: StrandsAt(v, level, inputs0, inputs1, left, k, s, f, g, e)
  }

  ghost predicate StrandsAt(v: Version, level: nat, inputs0: seq<File>, inputs1: seq<File>, left: set<Entry>, k: int, s: nat,
                            f: File, g: File, e: Entry)
    requires level < NUM_LEVELS
  {
    f in inputs0 && g in v[level] && g !in inputs0 && Follows(f, g) && k == f.largest.key
    && e in InputEntries(inputs0, inputs1) && g.smallest.sn < e.sn && IsNewest(left, k, s, e)
  }

  // The search of v' goes wrong for exactly the keys the step parted, where a read comes to the part that
  // went down.
  ghost predicate MisleadsWhereParted(v: Version, level: nat, inputs0: seq<File>, inputs1: seq<File>, v': Version)
    requires level < NUM_LEVELS
  {
    forall k: int, s: nat :: Misleads(v', k, s) <==> Strands(v, level, inputs0, inputs1, VersionEntries(v'), k, s)
  }

  ghost predicate Step(v: Version, next: nat, level: nat, inputs0: seq<File>, inputs1: seq<File>, outs: seq<File>,
                       v': Version, next': nat) {
    TreeOk(v, next) && FilesAge(v) && DistinctSequences(VersionEntries(v)) && InputsOk(v, level, inputs0, inputs1)
    && TreeOk(v', next') && Replaced(v, level, inputs0, inputs1, outs, v')
    && forall f, e :: f in outs && e in f.entries ==> e in InputEntries(inputs0, inputs1)
  }

  // A move or a merge makes the search of the levels wrong for exactly these keys and snapshots.
  lemma StepMisleads(v: Version, next: nat, level: nat, inputs0: seq<File>, inputs1: seq<File>, outs: seq<File>,
                     v': Version, next': nat, k: int, s: nat)
    requires Step(v, next, level, inputs0, inputs1, outs, v', next') && level < NUM_LEVELS
    ensures Misleads(v', k, s) <==> Strands(v, level, inputs0, inputs1, VersionEntries(v'), k, s)
  {
    hide Step, StrandsAt, VersionEntries, IsNewest;
    if Misleads(v', k, s) {
      var l: nat, e :| WrongAt(v', k, s, l, e);
      HiddenBelow(v', k, s, l, e);
      var m: nat, e' :| l < m < NUM_LEVELS && e' in LevelEntries(v'[m]) && IsNewest(VersionEntries(v'), k, s, e') && e.sn < e'.sn;
      NewestIsSeen(VersionEntries(v'), k, s, e');
      NewestIsSeen(LevelEntries(v'[l]), k, s, e);
      var x :| x in v'[l] && e in x.entries;
      var y :| y in v'[m] && e' in y.entries;
      OnlyByParting(v, next, level, inputs0, inputs1, outs, v', next', l, x, e, m, y, e', s);
    }
    if Strands(v, level, inputs0, inputs1, VersionEntries(v'), k, s) {
      var f, g, e :| StrandsAt(v, level, inputs0, inputs1, VersionEntries(v'), k, s, f, g, e);
      PartedMisleads(v, next, level, inputs0, inputs1, outs, v', next', k, s, f, g, e);
    }
  }

  // The newest version lies below the level that answers wrongly.
  lemma HiddenBelow(v: Version, k: int, s: nat, l: nat, e: Entry)
    requires WrongAt(v, k, s, l, e)
    ensures exists m: nat, e' :: l < m < NUM_LEVELS && e' in LevelEntries(v[m]) && IsNewest(VersionEntries(v), k, s, e') && e.sn < e'.sn
  {
    NewestExists(VersionEntries(v), k, s);
    InLevel(v, l, e);
    var e' :| IsNewest(VersionEntries(v), k, s, e');
    var m, y :| 0 <= m < NUM_LEVELS && y in v[m] && e' in y.entries;
    assert e' in LevelEntries(v[m]);
  }

  lemma OnlyByParting(v: Version, next: nat, level: nat, inputs0: seq<File>, inputs1: seq<File>, outs: seq<File>,
                      v': Version, next': nat, l: nat, x: File, e: Entry, m: nat, y: File, e': Entry, s: nat)
    requires Step(v, next, level, inputs0, inputs1, outs, v', next') && level < NUM_LEVELS
    requires l < m < NUM_LEVELS && x in v'[l] && e in x.entries && y in v'[m] && e' in y.entries && e.key == e'.key && e.sn < e'.sn
    requires IsNewest(VersionEntries(v'), e'.key, s, e')
    ensures Strands(v, level, inputs0, inputs1, VersionEntries(v'), e'.key, s)
  {
    hide InputsOk, FilesInOrder, FileOk, InputEntries, VersionOrdered, Numbered, EntriesOnce, Level0Age, VersionEntries, IsNewest;
    InputsInRange(v, level, inputs0, inputs1);
    assert e in x.entries && e' in y.entries;
    var lx, fx := l, x;
    if !(x in v[l] && !IsInput(level, inputs0, inputs1, l, x)) {
      lx, fx := InputOf(inputs0, inputs1, level, e);
    }
    var ly, fy := m, y;
    if !(y in v[m] && !IsInput(level, inputs0, inputs1, m, y)) {
      ly, fy := InputOf(inputs0, inputs1, level, e');
    }
    assert fx in v[lx] && fy in v[ly];
    OlderIsNotAbove(v, lx, fx, e, ly, fy, e');
    assert lx == l == level && ly == level && m == level + 1;
    if !Follows(fy, x) {
      StaysNewer(v, level, inputs0, inputs1, x, fy);
      assert false;
    }
    SharedKeyFollows(fy, x, e', e);
    EntryInRange(fy, e');
    assert StrandsAt(v, level, inputs0, inputs1, VersionEntries(v'), e'.key, s, fy, x, e');
  }

  lemma OlderIsNotAbove(v: Version, l: nat, f: File, e: Entry, m: nat, g: File, e': Entry)
    requires FilesAge(v) && l < NUM_LEVELS && m < NUM_LEVELS && f in v[l] && g in v[m]
    requires e in f.entries && e' in g.entries && e.key == e'.key && e.sn < e'.sn
    ensures m <= l
  {
    assert l < m ==> FileNewer(f, g);
    assert e in Elements(f.entries) && e' in Elements(g.entries);
  }

  lemma InOneFile(v: Version, next: nat, l: nat, f: File, m: nat, g: File, e: Entry)
    requires Numbered(v, next) && EntriesOnce(v) && l < NUM_LEVELS && m < NUM_LEVELS && f in v[l] && g in v[m]
    requires e in f.entries && e in g.entries
    ensures l == m && f == g
  {
    assert f.number != g.number ==> NoneShared(f, g);
  }

  lemma PartedMisleads(v: Version, next: nat, level: nat, inputs0: seq<File>, inputs1: seq<File>, outs: seq<File>,
                       v': Version, next': nat, k: int, s: nat, f: File, g: File, e: Entry)
    requires Step(v, next, level, inputs0, inputs1, outs, v', next') && level < NUM_LEVELS
    requires StrandsAt(v, level, inputs0, inputs1, VersionEntries(v'), k, s, f, g, e)
    ensures Misleads(v', k, s)
  {
    hide InputsOk, FilesInOrder, InputEntries, VersionOrdered, Level0Age, FilesAge, FileNewer, Numbered, EntriesOnce;
    InputsInRange(v, level, inputs0, inputs1);
    assert e in VersionEntries(v');
    var m, y :| 0 <= m < NUM_LEVELS && y in v'[m] && e in y.entries;
    var lf, ff := InputOf(inputs0, inputs1, level, e);
    assert ff in v[lf];
    if y in v[m] {
      InOneFile(v, next, lf, ff, m, y, e);
    }
    assert m == level + 1 && g in v'[level];
    assert FileOk(g);
    FewerEntries(v, level, inputs0, inputs1, outs, v');
    assert DistinctSequences(VersionEntries(v'));
    hide DistinctSequences, VersionEntries, IsNewest;
    OlderAbove(v', next', level, g, g.entries[0], level + 1, y, e, s);
  }

  lemma FewerEntries(v: Version, level: nat, inputs0: seq<File>, inputs1: seq<File>, outs: seq<File>, v': Version)
    requires InputsOk(v, level, inputs0, inputs1) && Replaced(v, level, inputs0, inputs1, outs, v')
    requires forall f, e :: f in outs && e in f.entries ==> e in InputEntries(inputs0, inputs1)
    ensures VersionEntries(v') <= VersionEntries(v)
  {
    EntriesReplaced(v, level, inputs0, inputs1, outs, v');
    assert forall e :: e in LevelEntries(outs) ==> e in InputEntries(inputs0, inputs1);
  }
}
