/** The manifest: a log of version edits, and what replaying it from the start gives. */
module Manifest {
  import opened Wrappers
  import opened DbFormat
  import opened Versions
  import opened VersionBuilder
  import opened Trees
  import opened Lsm

  // An edit as the manifest records it.  The fields that name a number may be absent.
  datatype Record = Record(edit: FileEdit, logNumber: Option<nat>, nextFile: Option<nat>, lastSequence: Option<nat>)

  const EMPTY_VERSION: Version := [[], [], [], [], [], [], []]

  function Edits(records: seq<Record>): (r: seq<FileEdit>)
    ensures |r| == |records| && forall i :: 0 <= i < |r| ==> r[i] == records[i].edit
  {
    seq(|records|, i requires 0 <= i < |records| => records[i].edit)
  }

  // A later record overrides the numbers of an earlier one.
  function Override(a: Option<nat>, b: Option<nat>): Option<nat> {
    if b.Some? then b else a
  }

  function LogNumber(records: seq<Record>): Option<nat> {
    if records == [] then None else Override(LogNumber(records[..|records| - 1]), records[|records| - 1].logNumber)
  }

  function NextFile(records: seq<Record>): Option<nat> {
    if records == [] then None else Override(NextFile(records[..|records| - 1]), records[|records| - 1].nextFile)
  }

  function LastSequence(records: seq<Record>): Option<nat> {
    if records == [] then None else Override(LastSequence(records[..|records| - 1]), records[|records| - 1].lastSequence)
  }

  // r is the last of these numbers that is there.
  ghost predicate IsLast(numbers: seq<Option<nat>>, r: Option<nat>) {
    match r
    case None => forall i :: 0 <= i < |numbers| ==> numbers[i] == None
    case Some(n) => exists i :: 0 <= i < |numbers| && LastAt(numbers, i) && numbers[i] == Some(n)
  }

  ghost predicate LastAt(numbers: seq<Option<nat>>, i: nat)
    requires i < |numbers|
  {
    numbers[i].Some? && forall j :: i < j < |numbers| ==> numbers[j] == None
  }

  lemma LastOfMore(numbers: seq<Option<nat>>, r: Option<nat>, n: Option<nat>)
    requires IsLast(numbers, r)
    ensures IsLast(numbers + [n], Override(r, n))
  {
    var all := numbers + [n];
    if n.Some? {
      assert LastAt(all, |numbers|) && all[|numbers|] == n;
    } else if r.Some? {
      var i :| 0 <= i < |numbers| && LastAt(numbers, i) && numbers[i] == r;
      assert LastAt(all, i) && all[i] == r;
    }
  }

  function NumbersIn(records: seq<Record>, number: Record -> Option<nat>): (r: seq<Option<nat>>)
    ensures |r| == |records| && forall i :: 0 <= i < |r| ==> r[i] == number(records[i])
  {
    seq(|records|, i requires 0 <= i < |records| => number(records[i]))
  }

  // A record that does not name a number leaves the last one named before it.
  lemma {:induction false} LastWins(records: seq<Record>)
    ensures IsLast(NumbersIn(records, (r: Record) => r.logNumber), LogNumber(records))
    ensures IsLast(NumbersIn(records, (r: Record) => r.nextFile), NextFile(records))
    ensures IsLast(NumbersIn(records, (r: Record) => r.lastSequence), LastSequence(records))
  {
    if records != [] {
      hide IsLast;
      var front, r := records[..|records| - 1], records[|records| - 1];
      LastWins(front);
      var log, next, last := (r: Record) => r.logNumber, (r: Record) => r.nextFile, (r: Record) => r.lastSequence;
      LastOfMore(NumbersIn(front, log), LogNumber(front), r.logNumber);
      LastOfMore(NumbersIn(front, next), NextFile(front), r.nextFile);
      LastOfMore(NumbersIn(front, last), LastSequence(front), r.lastSequence);
      assert NumbersIn(records, log) == NumbersIn(front, log) + [r.logNumber];
      assert NumbersIn(records, next) == NumbersIn(front, next) + [r.nextFile];
      assert NumbersIn(records, last) == NumbersIn(front, last) + [r.lastSequence];
    }
  }

  // The version VersionSet::Recover builds: every edit into one builder, saved once.
  function VersionOf(records: seq<Record>): Version
    requires EditsOk(Edits(records))
  {
    Saved(EMPTY_VERSION, AppliedAll(Edits(records)))
  }

  // A file only ever moves down: no level it was added to is below the one it is on.
  ghost predicate Sunk(news: seq<(nat, File)>, v: Version) {
    forall p, l: nat, f :: p in news && l < NUM_LEVELS && f in v[l] && f.number == p.1.number ==> p.0 <= l
  }

  ghost predicate NumbersBelow(news: seq<(nat, File)>, bound: nat) {
    forall p :: p in news ==> p.1.number < bound
  }

  // Records that replay as they were made, all of their file numbers below the bound.
  ghost predicate RecordsOk(records: seq<Record>, bound: nat) {
    var edits := Edits(records);
    EditsOk(edits) && NeverReadded(EMPTY_VERSION, AllNew(edits)) && NumbersBelow(AllNew(edits), bound)
    && Sunk(AllNew(edits), VersionOf(records))
  }

  // ---- One more record ----

  lemma EditsNext(records: seq<Record>, r: Record)
    ensures Edits(records + [r]) == Edits(records) + [r.edit]
  {}

  lemma NumbersNext(records: seq<Record>, r: Record)
    ensures LogNumber(records + [r]) == Override(LogNumber(records), r.logNumber)
    ensures NextFile(records + [r]) == Override(NextFile(records), r.nextFile)
    ensures LastSequence(records + [r]) == Override(LastSequence(records), r.lastSequence)
  {
    var all := records + [r];
    assert all[..|all| - 1] == records && all != [];
    hide Override;
  }

  // No file of the edit comes to a level it was on before.
  ghost predicate ComesNew(news: seq<(nat, File)>, e: FileEdit) {
    (forall i, j :: 0 <= i < j < |e.newFiles| && e.newFiles[i].0 == e.newFiles[j].0 ==>
       e.newFiles[i].1.number != e.newFiles[j].1.number)
    && forall p, q :: p in news && q in e.newFiles && p.0 == q.0 ==> p.1.number != q.1.number
  }

  lemma EmptyVersionOrdered()
    ensures VersionOrdered(EMPTY_VERSION)
  {}

  // Replaying one more record gives what applying its edit to the version gave.
  lemma AppendReplays(records: seq<Record>, bound: nat, r: Record)
    requires RecordsOk(records, bound) && EditOk(r.edit) && ComesNew(AllNew(Edits(records)), r.edit)
    ensures EditsOk(Edits(records + [r]))
    ensures AllNew(Edits(records + [r])) == AllNew(Edits(records)) + r.edit.newFiles
    ensures NeverReadded(EMPTY_VERSION, AllNew(Edits(records + [r])))
    ensures VersionOf(records + [r]) == Saved(VersionOf(records), Applied(EMPTY_LEVELS, r.edit))
    ensures VersionOrdered(VersionOf(records)) && VersionOrdered(VersionOf(records + [r]))
  {
    hide Applied, AppliedAll, AppliedInTurn, AllNew, Saved, VersionOrdered, Ordered, Edits, Sunk;
    var edits, all := Edits(records), Edits(records + [r]);
    EditsNext(records, r);
    assert EditsOk(all);
    assert all[..|all| - 1] == edits;
    LastEdit(EMPTY_VERSION, all);
    AppendNeverReadded(AllNew(edits), r.edit);
    EmptyVersionOrdered();
    ReplayAtOnce(EMPTY_VERSION, edits);
    ReplayAtOnce(EMPTY_VERSION, all);
  }

  lemma AppendNeverReadded(news: seq<(nat, File)>, e: FileEdit)
    requires NeverReadded(EMPTY_VERSION, news) && EditOk(e) && ComesNew(news, e)
    ensures NeverReadded(EMPTY_VERSION, news + e.newFiles)
  {
    var all := news + e.newFiles;
    forall i, j | 0 <= i < j < |all| && all[i].0 == all[j].0
      ensures all[i].1.number != all[j].1.number
    {
      if i < |news| <= j {
        assert all[i] in news && all[j] in e.newFiles;
      }
    }
  }

  // A record whose files all have unused numbers.
  lemma AppendFresh(records: seq<Record>, bound: nat, r: Record, next: nat, next': nat)
    requires RecordsOk(records, bound) && bound <= next <= next'
    requires EditOk(r.edit) && Unused(r.edit.newFiles, next, next')
    requires Numbered(VersionOf(records), next)
    ensures RecordsOk(records + [r], next')
    ensures VersionOf(records + [r]) == Saved(VersionOf(records), Applied(EMPTY_LEVELS, r.edit))
  {
    hide Applied, AppliedAll, AllNew, Saved, VersionOrdered, NeverReadded, Edits;
    var news, v := AllNew(Edits(records)), VersionOf(records);
    forall q | q in r.edit.newFiles
      ensures next <= q.1.number < next'
    {
      var i :| 0 <= i < |r.edit.newFiles| && r.edit.newFiles[i] == q;
    }
    assert ComesNew(news, r.edit);
    AppendReplays(records, bound, r);
    var v' := VersionOf(records + [r]);
    UnusedIsFresh(v, next, r.edit.newFiles, next');
    EditResult(v, r.edit);
    forall p, l: nat, f | p in news + r.edit.newFiles && l < NUM_LEVELS && f in v'[l] && f.number == p.1.number
      ensures p.0 <= l
    {
      FreshSunk(news, v, r.edit, v', next, next', p, l, f);
    }
  }

  lemma FreshSunk(news: seq<(nat, File)>, v: Version, e: FileEdit, v': Version, next: nat, next': nat,
                  p: (nat, File), l: nat, f: File)
    requires Sunk(news, v) && NumbersBelow(news, next) && Unused(e.newFiles, next, next') && EditedBy(v, e, v') && Numbered(v, next)
    requires p in news + e.newFiles && l < NUM_LEVELS && f in v'[l] && f.number == p.1.number
    ensures p.0 <= l
  {
    forall q | q in e.newFiles
      ensures q.1.number >= next
    {
      var i :| 0 <= i < |e.newFiles| && e.newFiles[i] == q;
    }
    if p !in news && (l, f) in e.newFiles {
      var i :| 0 <= i < |e.newFiles| && e.newFiles[i] == p;
      var j :| 0 <= j < |e.newFiles| && e.newFiles[j] == (l, f);
      assert i == j;
    }
  }

  // A record that moves a file one level down.
  lemma AppendMove(records: seq<Record>, bound: nat, r: Record, next: nat, level: nat, f: File)
    requires RecordsOk(records, bound) && Numbered(VersionOf(records), next) && bound <= next
    requires level + 1 < NUM_LEVELS && f in VersionOf(records)[level]
    requires r.edit == FileEdit({(level, f.number)}, [(level + 1, f)])
    ensures RecordsOk(records + [r], next)
    ensures VersionOf(records + [r]) == Saved(VersionOf(records), Applied(EMPTY_LEVELS, r.edit))
  {
    hide Applied, AppliedAll, AllNew, Saved, VersionOrdered, NeverReadded, Edits;
    var news, v := AllNew(Edits(records)), VersionOf(records);
    assert EditOk(r.edit);
    forall p, q | p in news && q in r.edit.newFiles && p.0 == q.0
      ensures p.1.number != q.1.number
    {}
    AppendReplays(records, bound, r);
    var v' := VersionOf(records + [r]);
    MovedIsFresh(v, next, level, f);
    EditResult(v, r.edit);
    EditMoves(v, next, level, f, v');
    assert f.number < next;
    forall p, l: nat, g | p in news + r.edit.newFiles && l < NUM_LEVELS && g in v'[l] && g.number == p.1.number
      ensures p.0 <= l
    {
      MoveSunk(news, v, level, f, v', next, p, l, g);
    }
  }

  lemma MoveSunk(news: seq<(nat, File)>, v: Version, level: nat, f: File, v': Version, next: nat, p: (nat, File), l: nat, g: File)
    requires Sunk(news, v) && Numbered(v, next) && level + 1 < NUM_LEVELS && f in v[level] && Moved(v, level, f, v')
    requires p in news + [(level + 1, f)] && l < NUM_LEVELS && g in v'[l] && g.number == p.1.number
    ensures p.0 <= l
  {
    if p in news {
      if g == f && l == level + 1 {
        assert f in v[level];
      } else {
        assert g in v[l];
      }
    } else {
      if !(g == f && l == level + 1) {
        assert g in v[l] && g != f;
      }
    }
  }

  // ---- A new manifest starts with a snapshot of the version ----

  function FilesUpTo(v: Version, levels: nat): seq<(nat, File)>
    requires levels <= NUM_LEVELS
  {
    if levels == 0 then [] else FilesUpTo(v, levels - 1) + AddedAt(levels - 1, v[levels - 1])
  }

  // VersionSet::WriteSnapshot.
  method WriteSnapshot(v: Version) returns (r: Record)
    ensures r == SnapshotRecord(v)
  {
    var newFiles: seq<(nat, File)> := [];
    var level := 0;
    while level < NUM_LEVELS
      invariant level <= NUM_LEVELS && newFiles == FilesUpTo(v, level)
    {
      var files := v[level];
      var i := 0;
      assert AddedAt(level, files)[..0] == [];
      while i < |files|
        invariant i <= |files| && newFiles == FilesUpTo(v, level) + AddedAt(level, files)[..i]
      {
        newFiles := newFiles + [(level, files[i])];
        i := i + 1;
      }
      assert AddedAt(level, files)[..|files|] == AddedAt(level, files);
      level := level + 1;
    }
    r := Record(FileEdit({}, newFiles), None, None, None);
  }

  function SnapshotRecord(v: Version): Record {
    Record(FileEdit({}, FilesUpTo(v, NUM_LEVELS)), None, None, None)
  }

  lemma {:induction false} FilesUpToMembers(v: Version, levels: nat, l: nat, f: File)
    requires levels <= NUM_LEVELS
    ensures (l, f) in FilesUpTo(v, levels) <==> l < levels && f in v[l]
  {
    if levels > 0 {
      FilesUpToMembers(v, levels - 1, l, f);
      AddedIsOutput(levels - 1, v[levels - 1], l, f);
    }
  }

  lemma {:induction false} FilesUpToOnce(v: Version, levels: nat, next: nat)
    requires levels <= NUM_LEVELS && Numbered(v, next) && VersionOrdered(v)
    ensures forall i, j :: 0 <= i < j < |FilesUpTo(v, levels)| ==>
              FilesUpTo(v, levels)[i].1.number != FilesUpTo(v, levels)[j].1.number
  {
    if levels > 0 {
      var a: seq<(nat, File)>, b: seq<(nat, File)> := FilesUpTo(v, levels - 1), AddedAt(levels - 1, v[levels - 1]);
      var all: seq<(nat, File)> := a + b;
      FilesUpToOnce(v, levels - 1, next);
      forall i, j | 0 <= i < j < |all|
        ensures all[i].1.number != all[j].1.number
      {
        if i < |a| <= j {
          var p := a[i];
          assert p in a && (p.0, p.1) == p;
          FilesUpToMembers(v, levels - 1, p.0, p.1);
        } else if |a| <= i {
          assert Before(v[levels - 1][i - |a|], v[levels - 1][j - |a|]);
        }
      }
    }
  }

  // The snapshot record replays to the version itself.
  lemma SnapshotReplays(v: Version, next: nat)
    requires Numbered(v, next) && VersionOrdered(v)
    ensures RecordsOk([SnapshotRecord(v)], next) && VersionOf([SnapshotRecord(v)]) == v
  {
    hide Applied, AppliedAll, Saved, Survives, Numbered, VersionOrdered, FilesUpTo, EditedBy;
    var r := SnapshotRecord(v);
    var news := r.edit.newFiles;
    EmptyRecords(next);
    SnapshotFresh(v, next);
    AppendReplays([], next, r);
    assert [] + [r] == [r] && [] + news == news;
    var v' := VersionOf([r]);
    EmptyVersionOrdered();
    assert VersionOf([]) == EMPTY_VERSION;
    EditResult(EMPTY_VERSION, r.edit);
    SnapshotMembers(v, v');
    SameVersion(v', v);
    SnapshotSunk(v, next);
  }

  lemma SnapshotMembers(v: Version, v': Version)
    requires EditedBy(EMPTY_VERSION, SnapshotRecord(v).edit, v')
    ensures forall l: nat, f :: l < NUM_LEVELS ==> (f in v'[l] <==> f in v[l])
  {
    hide FilesUpTo;
    forall l: nat, f | l < NUM_LEVELS
      ensures f in v'[l] <==> f in v[l]
    {
      assert EMPTY_VERSION[l] == [];
      FilesUpToMembers(v, NUM_LEVELS, l, f);
    }
  }

  lemma SameVersion(v: Version, v': Version)
    requires VersionOrdered(v) && VersionOrdered(v')
    requires forall l: nat, f :: l < NUM_LEVELS ==> (f in v[l] <==> f in v'[l])
    ensures v == v'
  {
    forall l: nat | l < NUM_LEVELS
      ensures v[l] == v'[l]
    {
      OrderedUnique(v[l], v'[l]);
    }
  }

  lemma EmptyRecords(next: nat)
    ensures RecordsOk([], next) && VersionOf([]) == EMPTY_VERSION && AllNew(Edits([])) == []
  {
    var v := VersionOf([]);
    assert forall l :: 0 <= l < NUM_LEVELS ==> v[l] == EMPTY_VERSION[l];
  }

  lemma SnapshotFresh(v: Version, next: nat)
    requires Numbered(v, next) && VersionOrdered(v)
    ensures var e := SnapshotRecord(v).edit;
            EditOk(e) && ComesNew([], e) && NumbersBelow(e.newFiles, next) && NeverReadded(EMPTY_VERSION, e.newFiles)
  {
    var e := SnapshotRecord(v).edit;
    forall p | p in e.newFiles
      ensures p.0 < NUM_LEVELS && p.1.number < next
    {
      assert (p.0, p.1) == p;
      FilesUpToMembers(v, NUM_LEVELS, p.0, p.1);
    }
    FilesUpToOnce(v, NUM_LEVELS, next);
  }

  lemma SnapshotSunk(v: Version, next: nat)
    requires Numbered(v, next)
    ensures Sunk(FilesUpTo(v, NUM_LEVELS), v)
  {
    forall p, l: nat, f | p in FilesUpTo(v, NUM_LEVELS) && l < NUM_LEVELS && f in v[l] && f.number == p.1.number
      ensures p.0 <= l
    {
      assert (p.0, p.1) == p;
      FilesUpToMembers(v, NUM_LEVELS, p.0, p.1);
    }
  }
}
