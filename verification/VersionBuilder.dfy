/** VersionSet::Builder: applying edits to the files of a version, many at once or one by one. */
module VersionBuilder {
  import opened Wrappers
  import opened DbFormat
  import opened Versions
  import opened Seqs

  // What a VersionEdit does to the files: some to delete and some to add, each with its level.
  datatype FileEdit = FileEdit(deletedFiles: set<(nat, nat)>, newFiles: seq<(nat, File)>)

  ghost predicate EditOk(e: FileEdit) {
    (forall p :: p in e.deletedFiles ==> p.0 < NUM_LEVELS)
    && LevelsInRange(e.newFiles)
  }

  // ---- The order of files within a level ----

  // BySmallestKey: by smallest key, ties broken by file number.
  predicate Before(f: File, g: File) {
    Less(f.smallest, g.smallest) || (f.smallest == g.smallest && f.number < g.number)
  }

  ghost predicate Ordered(files: seq<File>) {
    forall i, j :: 0 <= i < j < |files| ==> Before(files[i], files[j])
  }

  ghost function FileSet(files: seq<File>): set<File> {
    set f | f in files
  }

  // An ordered list is determined by its files.
  lemma {:induction false} OrderedUnique(a: seq<File>, b: seq<File>)
    requires Ordered(a) && Ordered(b) && FileSet(a) == FileSet(b)
    ensures a == b
    decreases |a|
  {
    if b != [] {
      assert b[0] in FileSet(b);
    }
    if a != [] {
      assert a[0] in FileSet(a);
      assert b[0] in FileSet(b);
      FirstIsLeast(a, b[0]);
      FirstIsLeast(b, a[0]);
      forall f
        ensures f in a[1..] <==> f in b[1..]
      {
        TailMembers(a, f);
        TailMembers(b, f);
        assert f in a <==> f in FileSet(a);
        assert f in b <==> f in FileSet(b);
      }
      OrderedUnique(a[1..], b[1..]);
    }
  }

  lemma FirstIsLeast(a: seq<File>, f: File)
    requires Ordered(a) && f in a
    ensures f == a[0] || Before(a[0], f)
  {
    var i :| 0 <= i < |a| && a[i] == f;
  }

  lemma TailMembers(a: seq<File>, f: File)
    requires Ordered(a) && a != []
    ensures f in a[1..] <==> f in a && f != a[0]
  {
    if f in a && f != a[0] {
      var i :| 0 <= i < |a| && a[i] == f;
      assert a[1..][i - 1] == f;
    }
    if f in a[1..] {
      var i :| 0 <= i < |a[1..]| && a[1..][i] == f;
      assert Before(a[0], a[i + 1]);
    }
  }

  // std::set::insert into the added files: nothing happens when an equivalent file is there.
  function InsertFile(files: seq<File>, f: File): (r: seq<File>)
    ensures forall g :: g in r ==> g in files || g == f
    ensures forall g :: g in files ==> g in r
    ensures f in r || exists g :: g in files && g.smallest == f.smallest && g.number == f.number
  {
    if files == [] then [f]
    else if Before(f, files[0]) then [f] + files
    else if Before(files[0], f) then
      assert files == [files[0]] + files[1..];
      [files[0]] + InsertFile(files[1..], f)
    else files
  }

  lemma {:induction false} InsertFileOrdered(files: seq<File>, f: File)
    requires Ordered(files)
    ensures Ordered(InsertFile(files, f))
  {
    if files != [] && !Before(f, files[0]) && Before(files[0], f) {
      InsertFileOrdered(files[1..], f);
      var rest := InsertFile(files[1..], f);
      forall j | 0 <= j < |rest|
        ensures Before(files[0], rest[j])
      {
        assert rest[j] in rest;
        if rest[j] != f {
          var i :| 0 <= i < |files[1..]| && files[1..][i] == rest[j];
          assert Before(files[0], files[i + 1]);
        }
      }
    }
  }

  // ---- One level ----

  // SaveTo for one level: the files of base and added whose numbers are not deleted, in order.
  function SaveLevel(base: seq<File>, added: seq<File>, deleted: set<nat>): (r: seq<File>)
    ensures forall f :: f in r <==> (f in base || f in added) && f.number !in deleted
    decreases |base| + |added|
  {
    if base == [] && added == [] then []
    else if added == [] || (base != [] && !Before(added[0], base[0])) then
      assert base == [base[0]] + base[1..];
      (if base[0].number in deleted then [] else [base[0]]) + SaveLevel(base[1..], added, deleted)
    else
      assert added == [added[0]] + added[1..];
      (if added[0].number in deleted then [] else [added[0]]) + SaveLevel(base, added[1..], deleted)
  }

  // No file of one list is equivalent to a file of the other.
  ghost predicate NoTies(base: seq<File>, added: seq<File>) {
    forall f, g :: f in base && g in added ==> Before(f, g) || Before(g, f)
  }

  lemma {:induction false} SaveLevelOrdered(base: seq<File>, added: seq<File>, deleted: set<nat>)
    requires Ordered(base) && Ordered(added) && NoTies(base, added)
    ensures Ordered(SaveLevel(base, added, deleted))
    decreases |base| + |added|
  {
    hide Before, Ordered;
    if base != [] && (added == [] || !Before(added[0], base[0])) {
      assert base == [base[0]] + base[1..];
      TailOrdered(base);
      SaveLevelOrdered(base[1..], added, deleted);
      var rest := SaveLevel(base[1..], added, deleted);
      forall f | f in rest
        ensures Before(base[0], f)
      {
        if f in base[1..] {
          TailMembers(base, f);
          FirstIsLeast(base, f);
        } else {
          assert base[0] in base && added[0] in added;
          FirstIsLeast(added, f);
          BeforeTransitive(base[0], added[0], f);
        }
      }
      Prepend(base[0], rest);
      assert [] + rest == rest;
    } else if added != [] {
      assert added == [added[0]] + added[1..];
      TailOrdered(added);
      SaveLevelOrdered(base, added[1..], deleted);
      var rest := SaveLevel(base, added[1..], deleted);
      forall f | f in rest
        ensures Before(added[0], f)
      {
        if f in added[1..] {
          TailMembers(added, f);
          FirstIsLeast(added, f);
        } else {
          FirstIsLeast(base, f);
          BeforeTransitive(added[0], base[0], f);
        }
      }
      Prepend(added[0], rest);
      assert [] + rest == rest;
    } else {
      assert Ordered([]) by { Prepend0(); }
    }
  }

  lemma Prepend0()
    ensures Ordered([])
  {}

  lemma Prepend(f: File, rest: seq<File>)
    requires Ordered(rest) && forall g :: g in rest ==> Before(f, g)
    ensures Ordered([f] + rest)
  {
    forall j | 0 <= j < |rest|
      ensures Before(f, rest[j])
    {
      assert rest[j] in rest;
    }
  }

  lemma BeforeTransitive(f: File, g: File, h: File)
    requires Before(f, g) && (g == h || Before(g, h))
    ensures Before(f, h)
  {}

  lemma TailOrdered(a: seq<File>)
    requires Ordered(a) && a != []
    ensures Ordered(a[1..])
  {}

  // The loop of SaveTo: before each added file, the base files up to its upper bound.
  method SaveLevelLoop(base: seq<File>, added: seq<File>, deleted: set<nat>) returns (files: seq<File>)
    ensures files == SaveLevel(base, added, deleted)
  {
    hide SaveLevel;
    files := [];
    var baseIter, addedIter := 0, 0;
    assert base[0..] == base && added[0..] == added;
    while addedIter < |added|
      invariant baseIter <= |base| && addedIter <= |added|
      invariant files + SaveLevel(base[baseIter..], added[addedIter..], deleted) == SaveLevel(base, added, deleted)
    {
      var f := added[addedIter];
      while baseIter < |base| && !Before(f, base[baseIter])
        invariant baseIter <= |base|
        invariant files + SaveLevel(base[baseIter..], added[addedIter..], deleted) == SaveLevel(base, added, deleted)
      {
        TakeBase(files, base, added, deleted, baseIter, addedIter);
        files := MaybeAddFile(files, deleted, base[baseIter]);
        baseIter := baseIter + 1;
      }
      TakeAdded(files, base, added, deleted, baseIter, addedIter);
      files := MaybeAddFile(files, deleted, f);
      addedIter := addedIter + 1;
    }
    while baseIter < |base|
      invariant baseIter <= |base|
      invariant files + SaveLevel(base[baseIter..], added[addedIter..], deleted) == SaveLevel(base, added, deleted)
    {
      TakeBase(files, base, added, deleted, baseIter, addedIter);
      files := MaybeAddFile(files, deleted, base[baseIter]);
      baseIter := baseIter + 1;
    }
    SaveNothing(deleted);
    assert base[baseIter..] == [] && added[addedIter..] == [];
    assert files + [] == files;
  }

  function MaybeAddFile(files: seq<File>, deleted: set<nat>, f: File): seq<File> {
    if f.number in deleted then files else files + [f]
  }

  lemma TakeBase(files: seq<File>, base: seq<File>, added: seq<File>, deleted: set<nat>, i: nat, j: nat)
    requires i < |base| && j <= |added| && (j < |added| ==> !Before(added[j], base[i]))
    ensures files + SaveLevel(base[i..], added[j..], deleted)
         == MaybeAddFile(files, deleted, base[i]) + SaveLevel(base[i + 1..], added[j..], deleted)
  {
    assert base[i..][1..] == base[i + 1..];
    Associate(files, [base[i]], SaveLevel(base[i + 1..], added[j..], deleted));
  }

  lemma TakeAdded(files: seq<File>, base: seq<File>, added: seq<File>, deleted: set<nat>, i: nat, j: nat)
    requires i <= |base| && j < |added| && (i < |base| ==> Before(added[j], base[i]))
    ensures files + SaveLevel(base[i..], added[j..], deleted)
         == MaybeAddFile(files, deleted, added[j]) + SaveLevel(base[i..], added[j + 1..], deleted)
  {
    assert added[j..][1..] == added[j + 1..];
    Associate(files, [added[j]], SaveLevel(base[i..], added[j + 1..], deleted));
  }

  lemma SaveNothing(deleted: set<nat>)
    ensures SaveLevel([], [], deleted) == []
  {}

  // ---- All levels ----

  datatype LevelState = LevelState(deleted: set<nat>, added: seq<File>)

  const NO_CHANGE := LevelState({}, [])
  const EMPTY_LEVELS := [NO_CHANGE, NO_CHANGE, NO_CHANGE, NO_CHANGE, NO_CHANGE, NO_CHANGE, NO_CHANGE]

  type Levels = s: seq<LevelState> | |s| == NUM_LEVELS witness EMPTY_LEVELS

  function DeletedAt(dels: set<(nat, nat)>, level: nat): set<nat> {
    set p | p in dels && p.0 == level :: p.1
  }

  function Delete(levels: Levels, dels: set<(nat, nat)>): Levels {
    seq(NUM_LEVELS, l requires 0 <= l < NUM_LEVELS =>
      LevelState(levels[l].deleted + DeletedAt(dels, l), levels[l].added))
  }

  lemma DeleteNone(levels: Levels)
    ensures Delete(levels, {}) == levels
  {
    forall l | 0 <= l < NUM_LEVELS
      ensures Delete(levels, {})[l] == levels[l]
    {
      assert DeletedAt({}, l) == {};
    }
  }

  lemma DeleteOne(levels: Levels, dels: set<(nat, nat)>, p: (nat, nat))
    requires p.0 < NUM_LEVELS
    ensures var s := Delete(levels, dels)[p.0];
            Delete(levels, dels + {p}) == Delete(levels, dels)[p.0 := LevelState(s.deleted + {p.1}, s.added)]
  {
    forall l | 0 <= l < NUM_LEVELS
      ensures DeletedAt(dels + {p}, l) == DeletedAt(dels, l) + (if l == p.0 then {p.1} else {})
    {
      assert forall n :: n in DeletedAt(dels, l) <==> (l, n) in dels;
      assert forall n :: n in DeletedAt(dels + {p}, l) <==> (l, n) in dels + {p};
    }
    var x := Delete(levels, dels + {p});
    var t := Delete(levels, dels)[p.0];
    var y := Delete(levels, dels)[p.0 := LevelState(t.deleted + {p.1}, t.added)];
    forall l | 0 <= l < NUM_LEVELS
      ensures x[l] == y[l]
    {
      assert x[l].deleted == y[l].deleted;
    }
    assert x == y;
  }

  function AddFile(levels: Levels, level: nat, f: File): Levels
    requires level < NUM_LEVELS
  {
    var s := levels[level];
    levels[level := LevelState(s.deleted - {f.number}, InsertFile(s.added, f))]
  }

  ghost predicate LevelsInRange(news: seq<(nat, File)>) {
    forall p :: p in news ==> p.0 < NUM_LEVELS
  }

  function AddFiles(levels: Levels, news: seq<(nat, File)>): Levels
    requires LevelsInRange(news)
  {
    if news == [] then levels
    else
      var p := news[|news| - 1];
      assert p in news;
      AddFile(AddFiles(levels, news[..|news| - 1]), p.0, p.1)
  }

  // Builder::Apply.
  function Applied(levels: Levels, e: FileEdit): Levels
    requires EditOk(e)
  {
    AddFiles(Delete(levels, e.deletedFiles), e.newFiles)
  }

  // Builder::SaveTo.
  function Saved(base: Version, levels: Levels): Version {
    seq(NUM_LEVELS, l requires 0 <= l < NUM_LEVELS => SaveLevel(base[l], levels[l].added, levels[l].deleted))
  }

  class Builder {
    const base: Version
    var levels: Levels

    constructor (base: Version)
      ensures this.base == base && levels == EMPTY_LEVELS
    {
      this.base := base;
      levels := EMPTY_LEVELS;
    }

    method Apply(e: FileEdit)
      requires EditOk(e)
      modifies this
      ensures levels == Applied(old(levels), e)
    {
      var todo := e.deletedFiles;
      DeleteNone(levels);
      assert e.deletedFiles - todo == {};
      while todo != {}
        invariant todo <= e.deletedFiles && levels == Delete(old(levels), e.deletedFiles - todo)
      {
        var p :| p in todo;
        DeleteOne(old(levels), e.deletedFiles - todo, p);
        assert e.deletedFiles - (todo - {p}) == e.deletedFiles - todo + {p};
        var s := levels[p.0];
        levels := levels[p.0 := LevelState(s.deleted + {p.1}, s.added)];
        todo := todo - {p};
      }
      assert e.deletedFiles - todo == e.deletedFiles;
      ghost var start := levels;
      var i := 0;
      while i < |e.newFiles|
        invariant i <= |e.newFiles| && LevelsInRange(e.newFiles[..i]) && levels == AddFiles(start, e.newFiles[..i])
      {
        var (level, f) := e.newFiles[i];
        assert e.newFiles[..i + 1][..i] == e.newFiles[..i];
        var s := levels[level];
        levels := levels[level := LevelState(s.deleted - {f.number}, InsertFile(s.added, f))];
        i := i + 1;
      }
      assert e.newFiles[..|e.newFiles|] == e.newFiles;
    }

    method SaveTo() returns (v: Version)
      ensures v == Saved(base, levels)
    {
      v := [[], [], [], [], [], [], []];
      var level := 0;
      while level < NUM_LEVELS
        invariant level <= NUM_LEVELS && forall l :: 0 <= l < level ==> v[l] == Saved(base, levels)[l]
      {
        var files := SaveLevelLoop(base[level], levels[level].added, levels[level].deleted);
        v := v[level := files];
        level := level + 1;
      }
    }
  }

  // ---- Replaying a manifest ----

  ghost predicate EditsOk(edits: seq<FileEdit>) {
    forall e :: e in edits ==> EditOk(e)
  }

  lemma EditsOkFront(edits: seq<FileEdit>)
    requires EditsOk(edits) && edits != []
    ensures EditsOk(edits[..|edits| - 1]) && EditOk(edits[|edits| - 1])
  {
    assert edits[|edits| - 1] in edits;
  }

  // As VersionSet::Recover does: every edit goes into one builder.
  function AppliedAll(edits: seq<FileEdit>): Levels
    requires EditsOk(edits)
  {
    if edits == [] then EMPTY_LEVELS
    else
      EditsOkFront(edits);
      Applied(AppliedAll(edits[..|edits| - 1]), edits[|edits| - 1])
  }

  // As LogAndApply did when the edits were made: a builder and a version for each.
  function AppliedInTurn(base: Version, edits: seq<FileEdit>): Version
    requires EditsOk(edits)
  {
    if edits == [] then base
    else
      EditsOkFront(edits);
      Saved(AppliedInTurn(base, edits[..|edits| - 1]), Applied(EMPTY_LEVELS, edits[|edits| - 1]))
  }

  ghost predicate VersionOrdered(v: Version) {
    forall l :: 0 <= l < NUM_LEVELS ==> Ordered(v[l])
  }

  function AllNew(edits: seq<FileEdit>): seq<(nat, File)> {
    if edits == [] then [] else AllNew(edits[..|edits| - 1]) + edits[|edits| - 1].newFiles
  }

  // No file number comes to a level more than once.
  ghost predicate NeverReadded(base: Version, news: seq<(nat, File)>) {
    LevelsInRange(news)
    && (forall i, j :: 0 <= i < j < |news| && news[i].0 == news[j].0 ==> news[i].1.number != news[j].1.number)
    && forall p, f :: p in news && f in base[p.0] ==> f.number != p.1.number
  }

  ghost function NewAt(news: seq<(nat, File)>, level: nat): set<File> {
    set p | p in news && p.0 == level :: p.1
  }

  ghost function Numbers(files: set<File>): set<nat> {
    set f | f in files :: f.number
  }

  ghost predicate FreshAt(news: seq<(nat, File)>, level: nat, files: set<File>) {
    (forall i, j :: 0 <= i < j < |news| && news[i].0 == news[j].0 ==> news[i].1.number != news[j].1.number)
    && forall f, g :: f in NewAt(news, level) && g in files ==> f.number != g.number
  }

  // No two files take each other's place in a set ordered by smallest key and number.
  ghost predicate Tieless(files: set<File>) {
    forall f, g :: f in files && g in files && f.number == g.number && f.smallest == g.smallest ==> f == g
  }

  lemma FreshIsTieless(news: seq<(nat, File)>, level: nat, files: seq<File>)
    requires Ordered(files) && FreshAt(news, level, FileSet(files))
    ensures Tieless(FileSet(files) + NewAt(news, level))
  {
    forall f, g | f in NewAt(news, level) && g in NewAt(news, level) && f.number == g.number
      ensures f == g
    {
      assert (level, f) in news && (level, g) in news;
      var i :| 0 <= i < |news| && news[i] == (level, f);
      var j :| 0 <= j < |news| && news[j] == (level, g);
    }
  }

  // What a run of additions does to one level.
  lemma {:induction false} AddFilesEffect(levels: Levels, news: seq<(nat, File)>, level: nat)
    requires LevelsInRange(news) && level < NUM_LEVELS
    requires Ordered(levels[level].added) && Tieless(FileSet(levels[level].added) + NewAt(news, level))
    ensures Brings(levels[level], news, level, AddFiles(levels, news)[level])
  {
    if news != [] {
      var front, p := news[..|news| - 1], news[|news| - 1];
      assert p in news && news == front + [p];
      hide Brings, InsertFile;
      NewAtSplit(front, [p], level);
      AddFilesEffect(levels, front, level);
      BringsOneMore(levels[level], front, p, level, AddFiles(levels, front)[level]);
    }
  }

  // s' is s after the additions of news.
  ghost predicate Brings(s: LevelState, news: seq<(nat, File)>, level: nat, s': LevelState) {
    Ordered(s'.added) && FileSet(s'.added) == FileSet(s.added) + NewAt(news, level)
    && s'.deleted == s.deleted - Numbers(NewAt(news, level))
  }

  lemma BringsOneMore(s: LevelState, front: seq<(nat, File)>, p: (nat, File), level: nat, s': LevelState)
    requires Brings(s, front, level, s') && Tieless(FileSet(s.added) + NewAt(front + [p], level))
    ensures Brings(s, front + [p], level,
                   if p.0 == level then LevelState(s'.deleted - {p.1.number}, InsertFile(s'.added, p.1)) else s')
  {
    hide InsertFile, Ordered, NewAt, Numbers;
    NewAtSplit(front, [p], level);
    NewAtOne(p, level);
    if p.0 == level {
      forall g | g in s'.added && g.number == p.1.number && g.smallest == p.1.smallest
        ensures g == p.1
      {
        assert g in FileSet(s'.added);
      }
      InsertFileEffect(s'.added, p.1);
    }
  }

  lemma NewAtOne(p: (nat, File), level: nat)
    ensures NewAt([p], level) == if p.0 == level then {p.1} else {}
    ensures Numbers(NewAt([p], level)) == if p.0 == level then {p.1.number} else {}
  {
    assert p in [p];
  }

  lemma InsertFileEffect(files: seq<File>, f: File)
    requires Ordered(files) && forall g :: g in files && g.number == f.number && g.smallest == f.smallest ==> g == f
    ensures Ordered(InsertFile(files, f)) && FileSet(InsertFile(files, f)) == FileSet(files) + {f}
  {
    InsertFileOrdered(files, f);
  }

  lemma NewAtSplit(a: seq<(nat, File)>, b: seq<(nat, File)>, level: nat)
    ensures NewAt(a + b, level) == NewAt(a, level) + NewAt(b, level)
    ensures Numbers(NewAt(a + b, level)) == Numbers(NewAt(a, level)) + Numbers(NewAt(b, level))
  {
    assert forall p :: p in a + b <==> p in a || p in b;
    assert forall f :: f in NewAt(a + b, level) <==> f in NewAt(a, level) || f in NewAt(b, level);
  }

  // ---- What the files are after a run of edits ----

  // The edit takes this number off the level.
  ghost predicate Deletes(e: FileEdit, level: nat, n: nat) {
    (level, n) in e.deletedFiles && forall g :: (level, g) in e.newFiles ==> g.number != n
  }

  // The files of one level, told without a builder: those of the base no edit deletes, and those an edit
  // brings and no later edit deletes.
  ghost predicate Survives(base: Version, edits: seq<FileEdit>, level: nat, f: File)
    requires level < NUM_LEVELS
  {
    (f in base[level] && NotDeletedFrom(edits, 0, level, f))
    || exists i :: 0 <= i < |edits| && (level, f) in edits[i].newFiles && NotDeletedFrom(edits, i + 1, level, f)
  }

  ghost predicate NotDeletedFrom(edits: seq<FileEdit>, from: nat, level: nat, f: File) {
    forall j :: from <= j < |edits| ==> !Deletes(edits[j], level, f.number)
  }

  // ---- The two replays agree ----

  // What both replays keep, level by level: the builder holds the base files and everything added, in
  // order; the version holds those of them whose numbers are not deleted.
  ghost predicate InStep(base: seq<File>, now: seq<File>, s: LevelState, news: set<File>) {
    Ordered(s.added) && FileSet(s.added) == news && Ordered(now)
    && forall f :: f in now <==> (f in base || f in s.added) && f.number !in s.deleted
  }

  lemma NeverReaddedFront(base: Version, a: seq<(nat, File)>, b: seq<(nat, File)>)
    requires NeverReadded(base, a + b)
    ensures NeverReadded(base, a) && LevelsInRange(b)
    ensures forall level :: 0 <= level < NUM_LEVELS ==>
              FreshAt(b, level, NewAt(a, level)) && FreshAt(b, level, FileSet(base[level])) && FreshAt(b, level, {})
  {
    var all := a + b;
    assert forall i :: 0 <= i < |a| ==> a[i] == all[i];
    assert forall p :: p in a || p in b ==> p in all;
    forall i, j | 0 <= i < j < |b| && b[i].0 == b[j].0
      ensures b[i].1.number != b[j].1.number
    {
      assert all[|a| + i] == b[i] && all[|a| + j] == b[j];
    }
    forall level, f, g | 0 <= level < NUM_LEVELS && f in NewAt(b, level) && (g in NewAt(a, level) || g in FileSet(base[level]))
      ensures f.number != g.number
    {
      NewBesideOld(base, a, b, level, f, g);
    }
  }

  lemma NewBesideOld(base: Version, a: seq<(nat, File)>, b: seq<(nat, File)>, level: nat, f: File, g: File)
    requires NeverReadded(base, a + b) && level < NUM_LEVELS
    requires f in NewAt(b, level) && (g in NewAt(a, level) || g in FileSet(base[level]))
    ensures f.number != g.number
  {
    var all := a + b;
    assert (level, f) in b;
    var j :| 0 <= j < |b| && b[j] == (level, f);
    assert all[|a| + j] == (level, f);
    if g in NewAt(a, level) {
      assert (level, g) in a;
      var i :| 0 <= i < |a| && a[i] == (level, g);
      assert all[i].1.number != all[|a| + j].1.number;
    } else {
      assert (level, f) in all && g in base[level];
    }
  }

  // One more edit, on one level.
  lemma StepInStep(base: seq<File>, now: seq<File>, s: LevelState, olds: set<File>,
                   del: set<nat>, news: set<File>, s': LevelState, one: LevelState, now': seq<File>)
    requires InStep(base, now, s, olds)
    requires forall f, g :: f in news && (g in olds || g in base) ==> f.number != g.number
    requires Ordered(s'.added) && FileSet(s'.added) == olds + news && s'.deleted == s.deleted + del - Numbers(news)
    requires Ordered(one.added) && FileSet(one.added) == news && one.deleted == del - Numbers(news)
    requires now' == SaveLevel(now, one.added, one.deleted)
    ensures InStep(base, now', s', olds + news)
  {
    assert forall f :: f in s.added <==> f in olds by {
      assert forall f :: f in s.added <==> f in FileSet(s.added);
    }
    assert forall f :: f in one.added <==> f in news by {
      assert forall f :: f in one.added <==> f in FileSet(one.added);
    }
    assert forall f :: f in s'.added <==> f in olds + news by {
      assert forall f :: f in s'.added <==> f in FileSet(s'.added);
    }
    assert NoTies(now, one.added);
    SaveLevelOrdered(now, one.added, one.deleted);
    assert forall f :: f in news ==> f.number in Numbers(news);
    forall f | f in base || f in olds
      ensures f.number !in Numbers(news)
    {}
  }

  lemma AppliedEffect(levels: Levels, e: FileEdit, level: nat)
    requires EditOk(e) && level < NUM_LEVELS
    requires Ordered(levels[level].added) && Tieless(FileSet(levels[level].added) + NewAt(e.newFiles, level))
    ensures var s := Applied(levels, e)[level];
            Ordered(s.added) && FileSet(s.added) == FileSet(levels[level].added) + NewAt(e.newFiles, level)
            && s.deleted == levels[level].deleted + DeletedAt(e.deletedFiles, level) - Numbers(NewAt(e.newFiles, level))
  {
    AddFilesEffect(Delete(levels, e.deletedFiles), e.newFiles, level);
  }

  lemma LastEdit(base: Version, edits: seq<FileEdit>)
    requires EditsOk(edits) && edits != []
    ensures var front, e := edits[..|edits| - 1], edits[|edits| - 1];
            EditsOk(front) && EditOk(e) && edits == front + [e]
            && AppliedAll(edits) == Applied(AppliedAll(front), e)
            && AppliedInTurn(base, edits) == Saved(AppliedInTurn(base, front), Applied(EMPTY_LEVELS, e))
            && AllNew(edits) == AllNew(front) + e.newFiles
  {
    EditsOkFront(edits);
  }

  lemma {:induction false} ReplaysInStep(base: Version, edits: seq<FileEdit>)
    requires EditsOk(edits) && VersionOrdered(base) && NeverReadded(base, AllNew(edits))
    ensures forall l :: 0 <= l < NUM_LEVELS ==>
              InStep(base[l], AppliedInTurn(base, edits)[l], AppliedAll(edits)[l], NewAt(AllNew(edits), l))
  {
    if edits == [] {
      assert forall l :: NewAt([], l) == {};
      assert FileSet([]) == {};
    } else {
      hide Applied, AppliedAll, AppliedInTurn, SaveLevel, NeverReadded, InStep, AllNew;
      var front, e := edits[..|edits| - 1], edits[|edits| - 1];
      LastEdit(base, edits);
      NeverReaddedFront(base, AllNew(front), e.newFiles);
      ReplaysInStep(base, front);
      forall l: nat | l < NUM_LEVELS
        ensures InStep(base[l], AppliedInTurn(base, edits)[l], AppliedAll(edits)[l], NewAt(AllNew(edits), l))
      {
        NextInStep(base[l], AppliedInTurn(base, front)[l], AppliedAll(front), AllNew(front), e, l);
      }
    }
  }

  lemma NextInStep(base: seq<File>, now: seq<File>, levels: Levels, a: seq<(nat, File)>, e: FileEdit, l: nat)
    requires l < NUM_LEVELS && EditOk(e) && InStep(base, now, levels[l], NewAt(a, l))
    requires FreshAt(e.newFiles, l, NewAt(a, l)) && FreshAt(e.newFiles, l, FileSet(base)) && FreshAt(e.newFiles, l, {})
    ensures var one := Applied(EMPTY_LEVELS, e)[l];
            InStep(base, SaveLevel(now, one.added, one.deleted), Applied(levels, e)[l], NewAt(a + e.newFiles, l))
  {
    hide Applied, SaveLevel;
    var b := e.newFiles;
    FreshIsTieless(b, l, levels[l].added);
    AppliedEffect(levels, e, l);
    assert FileSet([]) == {};
    FreshIsTieless(b, l, []);
    AppliedEffect(EMPTY_LEVELS, e, l);
    NewAtSplit(a, b, l);
    assert forall g :: g in base ==> g in FileSet(base);
    var one := Applied(EMPTY_LEVELS, e)[l];
    StepInStep(base, now, levels[l], NewAt(a, l), DeletedAt(e.deletedFiles, l), NewAt(b, l),
               Applied(levels, e)[l], one, SaveLevel(now, one.added, one.deleted));
  }

  // Replaying every edit into one builder and saving once gives the very version the edits made one by
  // one, each level in order, if no file number came to a level twice.
  lemma ReplayAtOnce(base: Version, edits: seq<FileEdit>)
    requires EditsOk(edits) && VersionOrdered(base) && NeverReadded(base, AllNew(edits))
    ensures Saved(base, AppliedAll(edits)) == AppliedInTurn(base, edits)
    ensures VersionOrdered(AppliedInTurn(base, edits))
  {
    ReplaysInStep(base, edits);
    var levels, now := AppliedAll(edits), AppliedInTurn(base, edits);
    forall l: nat | l < NUM_LEVELS
      ensures SaveLevel(base[l], levels[l].added, levels[l].deleted) == now[l]
    {
      forall f, g | f in base[l] && g in levels[l].added
        ensures f.number != g.number
      {
        assert g in FileSet(levels[l].added);
        assert (l, g) in AllNew(edits);
      }
      SaveLevelOrdered(base[l], levels[l].added, levels[l].deleted);
      OrderedUnique(SaveLevel(base[l], levels[l].added, levels[l].deleted), now[l]);
    }
  }

  // A number names one file, as far as its smallest key tells.
  ghost predicate OneFileEach(base: Version, edits: seq<FileEdit>) {
    EditsOk(edits) && forall level :: 0 <= level < NUM_LEVELS ==> Tieless(FileSet(base[level]) + NewAt(AllNew(edits), level))
  }

  lemma NeverReaddedIsOneEach(base: Version, edits: seq<FileEdit>)
    requires EditsOk(edits) && VersionOrdered(base) && NeverReadded(base, AllNew(edits))
    ensures OneFileEach(base, edits)
  {
    assert [] + AllNew(edits) == AllNew(edits);
    NeverReaddedFront(base, [], AllNew(edits));
    forall level | 0 <= level < NUM_LEVELS
      ensures Tieless(FileSet(base[level]) + NewAt(AllNew(edits), level))
    {
      FreshIsTieless(AllNew(edits), level, base[level]);
    }
  }

  lemma OneEachFront(base: Version, edits: seq<FileEdit>)
    requires OneFileEach(base, edits) && edits != []
    ensures var front, e := edits[..|edits| - 1], edits[|edits| - 1];
            OneFileEach(base, front) && EditOk(e)
            && forall level :: 0 <= level < NUM_LEVELS ==>
                 Tieless(NewAt(e.newFiles, level)) && Tieless(NewAt(AllNew(front), level) + NewAt(e.newFiles, level))
  {
    LastEdit(base, edits);
    var front, e := edits[..|edits| - 1], edits[|edits| - 1];
    forall level | 0 <= level < NUM_LEVELS
      ensures NewAt(AllNew(edits), level) == NewAt(AllNew(front), level) + NewAt(e.newFiles, level)
    {
      NewAtSplit(AllNew(front), e.newFiles, level);
    }
  }

  // Made one by one, the edits leave exactly the files that survive.
  lemma {:induction false} ReplayKeepsSurvivors(base: Version, edits: seq<FileEdit>, level: nat, f: File)
    requires OneFileEach(base, edits) && level < NUM_LEVELS
    ensures f in AppliedInTurn(base, edits)[level] <==> Survives(base, edits, level, f)
  {
    if edits != [] {
      hide Survives, Applied, AppliedAll, AppliedInTurn, SaveLevel, OneFileEach, AllNew;
      var front, e := edits[..|edits| - 1], edits[|edits| - 1];
      assert EditsOk(edits) by { EachIsOk(base, edits); }
      LastEdit(base, edits);
      OneEachFront(base, edits);
      ReplayKeepsSurvivors(base, front, level, f);
      AppliedOne(e, level, f);
      OneMoreEdit(base, front, e, level, f);
    } else {
      assert NotDeletedFrom(edits, 0, level, f);
    }
  }

  lemma EachIsOk(base: Version, edits: seq<FileEdit>)
    requires OneFileEach(base, edits)
    ensures EditsOk(edits)
  {}

  lemma AppliedOne(e: FileEdit, level: nat, f: File)
    requires EditOk(e) && level < NUM_LEVELS && Tieless(NewAt(e.newFiles, level))
    ensures var s := Applied(EMPTY_LEVELS, e)[level];
            (f.number in s.deleted <==> Deletes(e, level, f.number)) && (f in s.added <==> (level, f) in e.newFiles)
  {
    assert FileSet([]) == {} && {} + NewAt(e.newFiles, level) == NewAt(e.newFiles, level);
    AppliedEffect(EMPTY_LEVELS, e, level);
    var s := Applied(EMPTY_LEVELS, e)[level];
    assert f in s.added <==> f in FileSet(s.added);
    NumbersDeleted(e, level, f.number);
  }

  lemma NumbersDeleted(e: FileEdit, level: nat, n: nat)
    ensures n in DeletedAt(e.deletedFiles, level) - Numbers(NewAt(e.newFiles, level)) <==> Deletes(e, level, n)
    ensures n in Numbers(NewAt(e.newFiles, level)) <==> exists g :: (level, g) in e.newFiles && g.number == n
  {
    assert forall g :: g in NewAt(e.newFiles, level) <==> (level, g) in e.newFiles;
  }

  lemma NotDeletedNext(front: seq<FileEdit>, e: FileEdit, from: nat, level: nat, f: File)
    requires from <= |front|
    ensures NotDeletedFrom(front + [e], from, level, f) <==> NotDeletedFrom(front, from, level, f) && !Deletes(e, level, f.number)
  {
    hide Deletes;
    assert (front + [e])[|front|] == e;
    assert forall j :: 0 <= j < |front| ==> (front + [e])[j] == front[j];
  }

  lemma OneMoreEdit(base: Version, front: seq<FileEdit>, e: FileEdit, level: nat, f: File)
    requires level < NUM_LEVELS
    ensures Survives(base, front + [e], level, f) <==>
              (Survives(base, front, level, f) && !Deletes(e, level, f.number)) || (level, f) in e.newFiles
  {
    var edits := front + [e];
    NotDeletedNext(front, e, 0, level, f);
    assert (level, f) in e.newFiles ==> !Deletes(e, level, f.number);
    hide Deletes;
    forall i | 0 <= i < |front|
      ensures edits[i] == front[i]
      ensures NotDeletedFrom(edits, i + 1, level, f) <==> NotDeletedFrom(front, i + 1, level, f) && !Deletes(e, level, f.number)
    {
      NotDeletedNext(front, e, i + 1, level, f);
    }
    assert edits[|front|] == e;
    assert NotDeletedFrom(edits, |front| + 1, level, f);
  }

  // ---- When the two replays have the same files ----

  ghost predicate Known(base: Version, edits: seq<FileEdit>, level: nat, f: File)
    requires level < NUM_LEVELS
  {
    f in base[level] || (level, f) in AllNew(edits)
  }

  // After every edit that deletes the number, a later one brings it back.
  ghost predicate NumberStays(edits: seq<FileEdit>, level: nat, n: nat) {
    forall i :: 0 <= i < |edits| && Deletes(edits[i], level, n) ==> ComesLater(edits, i, level, n)
  }

  ghost predicate ComesLater(edits: seq<FileEdit>, i: nat, level: nat, n: nat) {
    exists j, g :: i < j < |edits| && (level, g) in edits[j].newFiles && g.number == n
  }

  // One builder for all the edits keeps every file it came to know whose number stays.
  lemma {:induction false} ReplayKeepsNumbers(base: Version, edits: seq<FileEdit>, level: nat, f: File)
    requires OneFileEach(base, edits) && level < NUM_LEVELS
    ensures f in Saved(base, AppliedAll(edits))[level] <==> Known(base, edits, level, f) && NumberStays(edits, level, f.number)
  {
    KnownToBuilder(base, edits, level);
    var s := AppliedAll(edits)[level];
    NumberGoes(base, edits, level, f.number);
    assert f in s.added <==> f in FileSet(s.added);
    assert f in NewAt(AllNew(edits), level) <==> (level, f) in AllNew(edits);
  }

  lemma {:induction false} KnownToBuilder(base: Version, edits: seq<FileEdit>, level: nat)
    requires OneFileEach(base, edits) && level < NUM_LEVELS
    ensures var s := AppliedAll(edits)[level]; Ordered(s.added) && FileSet(s.added) == NewAt(AllNew(edits), level)
  {
    if edits == [] {
      assert FileSet([]) == {} && NewAt([], level) == {};
    } else {
      var front, e := edits[..|edits| - 1], edits[|edits| - 1];
      LastEdit(base, edits);
      OneEachFront(base, edits);
      hide Applied, AllNew, AppliedAll, OneFileEach;
      KnownToBuilder(base, front, level);
      AppliedEffect(AppliedAll(front), e, level);
      NewAtSplit(AllNew(front), e.newFiles, level);
    }
  }

  lemma {:induction false} NumberGoes(base: Version, edits: seq<FileEdit>, level: nat, n: nat)
    requires OneFileEach(base, edits) && level < NUM_LEVELS
    ensures n in AppliedAll(edits)[level].deleted <==> !NumberStays(edits, level, n)
  {
    if edits != [] {
      var front, e := edits[..|edits| - 1], edits[|edits| - 1];
      LastEdit(base, edits);
      OneEachFront(base, edits);
      hide Applied, AllNew, AppliedAll, OneFileEach, NumberStays;
      NumberGoes(base, front, level, n);
      KnownToBuilder(base, front, level);
      AppliedEffect(AppliedAll(front), e, level);
      NumbersDeleted(e, level, n);
      NumberStaysNext(front, e, level, n);
    }
  }

  lemma NumberStaysNext(front: seq<FileEdit>, e: FileEdit, level: nat, n: nat)
    ensures NumberStays(front + [e], level, n) <==>
              !Deletes(e, level, n) && (NumberStays(front, level, n) || exists g :: (level, g) in e.newFiles && g.number == n)
  {
    hide Deletes;
    var edits := front + [e];
    assert edits[|front|] == e;
    forall i | 0 <= i < |front|
      ensures edits[i] == front[i]
      ensures ComesLater(edits, i, level, n) <==>
                ComesLater(front, i, level, n) || exists g :: (level, g) in e.newFiles && g.number == n
    {
      if ComesLater(front, i, level, n) {
        var j, g :| i < j < |front| && (level, g) in front[j].newFiles && g.number == n;
        assert (level, g) in edits[j].newFiles;
      }
      if g :| (level, g) in e.newFiles && g.number == n {
        assert (level, g) in edits[|front|].newFiles;
      }
    }
  }

  lemma SurvivorStays(base: Version, edits: seq<FileEdit>, level: nat, f: File)
    requires level < NUM_LEVELS && Survives(base, edits, level, f)
    ensures Known(base, edits, level, f) && NumberStays(edits, level, f.number)
  {
    if !(f in base[level] && NotDeletedFrom(edits, 0, level, f)) {
      var i :| 0 <= i < |edits| && (level, f) in edits[i].newFiles && NotDeletedFrom(edits, i + 1, level, f);
      NewFileIsNew(edits, i, level, f);
    }
  }

  lemma {:induction false} NewFileIsNew(edits: seq<FileEdit>, i: nat, level: nat, f: File)
    requires i < |edits| && (level, f) in edits[i].newFiles
    ensures (level, f) in AllNew(edits)
  {
    if i < |edits| - 1 {
      NewFileIsNew(edits[..|edits| - 1], i, level, f);
    }
  }

  ghost predicate SameFiles(v: Version, v': Version) {
    forall level: nat, f :: level < NUM_LEVELS ==> (f in v[level] <==> f in v'[level])
  }

  // A file is gone, but its number is not: another file came with it.
  ghost predicate Outlived(base: Version, edits: seq<FileEdit>, level: nat, f: File)
    requires level < NUM_LEVELS
  {
    Known(base, edits, level, f) && NumberStays(edits, level, f.number) && !Survives(base, edits, level, f)
  }

  // Replaying every edit into one builder gives each level the files the edits gave it one by one, if and
  // only if no file is outlived by its number.
  lemma ReplaysAgree(base: Version, edits: seq<FileEdit>)
    requires OneFileEach(base, edits)
    ensures SameFiles(Saved(base, AppliedAll(edits)), AppliedInTurn(base, edits))
       <==> forall level: nat, f :: level < NUM_LEVELS ==> !Outlived(base, edits, level, f)
  {
    hide OneFileEach, Known, NumberStays, Survives, Saved, AppliedAll, AppliedInTurn;
    EachIsOk(base, edits);
    forall level: nat, f | level < NUM_LEVELS
      ensures f in AppliedInTurn(base, edits)[level] <==> Survives(base, edits, level, f)
      ensures f in Saved(base, AppliedAll(edits))[level] <==> f in AppliedInTurn(base, edits)[level] || Outlived(base, edits, level, f)
    {
      ReplayKeepsSurvivors(base, edits, level, f);
      ReplayKeepsNumbers(base, edits, level, f);
      if Survives(base, edits, level, f) {
        SurvivorStays(base, edits, level, f);
      }
    }
    if level: nat, f :| level < NUM_LEVELS && Outlived(base, edits, level, f) {
      assert f in Saved(base, AppliedAll(edits))[level] && f !in AppliedInTurn(base, edits)[level];
    }
  }

  // Such a number: deleted, and added again with other boundaries.
  lemma ReaddingBreaksReplay(a: File, b: File)
    requires a.number == b.number && Less(a.smallest, b.smallest)
    ensures var base: Version := [[], [a], [], [], [], [], []];
            var edits := [FileEdit({(1, a.number)}, []), FileEdit({}, [(1, b)])];
            OneFileEach(base, edits) && VersionOrdered(base) && Outlived(base, edits, 1, a)
            && a in Saved(base, AppliedAll(edits))[1] && a !in AppliedInTurn(base, edits)[1]
  {
    var base: Version := [[], [a], [], [], [], [], []];
    var e0, e1 := FileEdit({(1, a.number)}, []), FileEdit({}, [(1, b)]);
    var edits := [e0, e1];
    TwoEdits(base, a, b, e0, e1);
    hide OneFileEach, AllNew, VersionOrdered, Outlived, Saved;
    IsOutlived(base, edits, a, b);
    EachIsOk(base, edits);
    hide AppliedAll, AppliedInTurn;
    OutlivedDiffers(base, edits, 1, a);
  }

  lemma OutlivedDiffers(base: Version, edits: seq<FileEdit>, level: nat, f: File)
    requires OneFileEach(base, edits) && level < NUM_LEVELS && Outlived(base, edits, level, f)
    ensures f in Saved(base, AppliedAll(edits))[level] && f !in AppliedInTurn(base, edits)[level]
  {
    hide OneFileEach, AllNew, Saved, Survives, Known, NumberStays, AppliedAll, AppliedInTurn;
    EachIsOk(base, edits);
    ReplayKeepsSurvivors(base, edits, level, f);
    ReplayKeepsNumbers(base, edits, level, f);
  }

  lemma IsOutlived(base: Version, edits: seq<FileEdit>, a: File, b: File)
    requires base[1] == [a] && |edits| == 2 && edits[0] == FileEdit({(1, a.number)}, []) && edits[1] == FileEdit({}, [(1, b)])
    requires a.number == b.number && Less(a.smallest, b.smallest)
    ensures Outlived(base, edits, 1, a)
  {
    assert (1, b) in edits[1].newFiles && Deletes(edits[0], 1, a.number);
    assert NumberStays(edits, 1, a.number);
    assert !NotDeletedFrom(edits, 0, 1, a);
  }

  lemma TwoEdits(base: Version, a: File, b: File, e0: FileEdit, e1: FileEdit)
    requires base == [[], [a], [], [], [], [], []] && e0 == FileEdit({(1, a.number)}, []) && e1 == FileEdit({}, [(1, b)])
    requires Less(a.smallest, b.smallest)
    ensures OneFileEach(base, [e0, e1]) && VersionOrdered(base)
  {
    assert [e0, e1][..1] == [e0] && [e0][..0] == [];
    assert AllNew([]) == [] && AllNew([e0]) == AllNew([]) + [] && AllNew([e0, e1]) == AllNew([e0]) + [(1, b)];
    assert AllNew([e0, e1]) == [(1, b)];
  }
}
