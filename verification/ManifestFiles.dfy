/**
 A manifest's bytes and the records of the tree.  The bytes say nothing of what the tables hold; that
 comes from the tables, and files long gone do not matter.
 */
module ManifestFiles {
  import opened Wrappers
  import opened Bytes
  import opened DbFormat
  import opened Versions
  import opened VersionBuilder
  import opened Trees
  import opened Manifest
  import opened Disk
  import Comparators
  import Codec = VersionEditCodec
  import LogFormat
  import LogReader
  import LogScan

  // ---- Records as bytes ----

  function KeyOf(rank: seq<byte> -> int, k: seq<byte>): IKey
    requires Comparators.IsInternal(k)
  {
    IKey(rank(Comparators.UserKey(k)), Comparators.Tag(k) / 256)
  }

  function FileOf(rank: seq<byte> -> int, tables: map<nat, TableFile>, f: Codec.FileMetaData): File
    requires Comparators.IsInternal(f.smallest) && Comparators.IsInternal(f.largest)
  {
    File(f.number, f.fileSize, KeyOf(rank, f.smallest), KeyOf(rank, f.largest), if f.number in tables then tables[f.number].entries else [])
  }

  // A file of the tree, named in a manifest by internal keys of any type, reads back as itself.
  lemma FileReadsBack(rank: seq<byte> -> int, tables: map<nat, TableFile>, f: File, smallest: seq<byte>, largest: seq<byte>, t: nat, t': nat)
    requires f.smallest.sn <= MAX_SEQUENCE && f.largest.sn <= MAX_SEQUENCE && t < 256 && t' < 256
    requires rank(smallest) == f.smallest.key && rank(largest) == f.largest.key
    requires f.number in tables && tables[f.number] == Stored(f)
    ensures FileOf(rank, tables, Codec.FileMetaData(f.number, f.size, Comparators.InternalKey(smallest, f.smallest.sn, t),
                                                    Comparators.InternalKey(largest, f.largest.sn, t'))) == f
  {
    hide Comparators.InternalKey;
    Comparators.InternalKeyParts(smallest, f.smallest.sn, t);
    Comparators.InternalKeyParts(largest, f.largest.sn, t');
  }

  predicate KeysInternal(e: Codec.Fields) {
    forall p :: p in e.newFiles ==> Comparators.IsInternal(p.1.smallest) && Comparators.IsInternal(p.1.largest)
  }

  function RecordOf(rank: seq<byte> -> int, tables: map<nat, TableFile>, e: Codec.Fields): Record
    requires KeysInternal(e)
  {
    Record(FileEdit(e.deletedFiles, seq(|e.newFiles|, i requires 0 <= i < |e.newFiles| =>
                      assert e.newFiles[i] in e.newFiles; (e.newFiles[i].0, FileOf(rank, tables, e.newFiles[i].1)))),
           e.logNumber, e.nextFileNumber, e.lastSequence)
  }

  predicate ComparatorOk(e: Codec.Fields, name: seq<byte>) {
    e.comparator.Some? ==> e.comparator.value == name
  }

  // The file of a manifest with these edits.
  ghost predicate Encoded(crc: LogFormat.Checksum, file: seq<byte>, es: seq<Codec.Fields>, encoded: seq<seq<byte>>) {
    LogFormat.IsChecksum(crc) && file == LogFormat.LogBytes(crc, 0, encoded) && |encoded| == |es|
    && forall i :: 0 <= i < |es| ==> Codec.Encodes(encoded[i], es[i]) && KeysInternal(es[i])
  }

  function RecordsOf(rank: seq<byte> -> int, tables: map<nat, TableFile>, es: seq<Codec.Fields>): seq<Record>
    requires forall i :: 0 <= i < |es| ==> KeysInternal(es[i])
  {
    seq(|es|, i requires 0 <= i < |es| => RecordOf(rank, tables, es[i]))
  }

  // What VersionSet::Recover reads of a manifest, unless it is one of another comparator.
  method ReadRecords(crc: LogFormat.Checksum, file: seq<byte>, name: seq<byte>, rank: seq<byte> -> int, tables: map<nat, TableFile>,
                     ghost es: seq<Codec.Fields>, ghost encoded: seq<seq<byte>>) returns (records: Option<seq<Record>>)
    requires Encoded(crc, file, es, encoded)
    ensures if forall i :: 0 <= i < |es| ==> es[i].comparator in {None, Some(name)} then records == Some(RecordsOf(rank, tables, es)) else records.None?
  {
    hide LogFormat.LogBytes, LogFormat.IsChecksum, Codec.Encodes, RecordOf, Codec.Decoded, LogScan.Read;
    var got, reports := LogReader.ReadAll(crc, file);
    LogScan.WholeFileGivesAll(crc, encoded);
    if reports != [] {
      return None;
    }
    var rs: seq<Record> := [];
    var i := 0;
    while i < |got|
      invariant i <= |got| && rs == RecordsOf(rank, tables, es[..i]) && forall j :: 0 <= j < i ==> ComparatorOk(es[j], name)
    {
      var edit := new Codec.VersionEdit();
      var ok := edit.DecodeFrom(got[i]);
      assert ok && edit.fields == es[i];
      if !ComparatorOk(edit.fields, name) {
        return None;
      }
      rs := rs + [RecordOf(rank, tables, edit.fields)];
      i := i + 1;
    }
    assert es[..|es|] == es;
    records := Some(rs);
  }

  // ---- Files without what they hold ----

  // The file with what its table holds, if the table is there.
  function Trim(tables: map<nat, TableFile>, f: File): File {
    f.(entries := if f.number in tables then tables[f.number].entries else [])
  }

  function TrimFiles(tables: map<nat, TableFile>, fs: seq<File>): (r: seq<File>)
    ensures |r| == |fs| && forall i :: 0 <= i < |fs| ==> r[i] == Trim(tables, fs[i])
  {
    seq(|fs|, i requires 0 <= i < |fs| => Trim(tables, fs[i]))
  }

  function TrimNews(tables: map<nat, TableFile>, news: seq<(nat, File)>): (r: seq<(nat, File)>)
    ensures |r| == |news| && forall i :: 0 <= i < |news| ==> r[i] == (news[i].0, Trim(tables, news[i].1))
  {
    seq(|news|, i requires 0 <= i < |news| => (news[i].0, Trim(tables, news[i].1)))
  }

  function TrimEdit(tables: map<nat, TableFile>, e: FileEdit): FileEdit {
    e.(newFiles := TrimNews(tables, e.newFiles))
  }

  function TrimRecords(tables: map<nat, TableFile>, rs: seq<Record>): seq<Record> {
    seq(|rs|, i requires 0 <= i < |rs| => rs[i].(edit := TrimEdit(tables, rs[i].edit)))
  }

  function TrimState(tables: map<nat, TableFile>, s: LevelState): LevelState {
    LevelState(s.deleted, TrimFiles(tables, s.added))
  }

  function TrimLevels(tables: map<nat, TableFile>, levels: Levels): Levels {
    seq(NUM_LEVELS, l requires 0 <= l < NUM_LEVELS => TrimState(tables, levels[l]))
  }

  function TrimVersion(tables: map<nat, TableFile>, v: Version): Version {
    seq(NUM_LEVELS, l requires 0 <= l < NUM_LEVELS => TrimFiles(tables, v[l]))
  }

  // Nothing the builder does looks at what a file holds.
  lemma {:induction false} InsertTrimmed(tables: map<nat, TableFile>, fs: seq<File>, f: File)
    ensures InsertFile(TrimFiles(tables, fs), Trim(tables, f)) == TrimFiles(tables, InsertFile(fs, f))
  {
    var ts := TrimFiles(tables, fs);
    if fs != [] {
      assert Before(Trim(tables, f), ts[0]) <==> Before(f, fs[0]);
      assert Before(ts[0], Trim(tables, f)) <==> Before(fs[0], f);
      hide Before, Trim;
      assert ts[1..] == TrimFiles(tables, fs[1..]);
      InsertTrimmed(tables, fs[1..], f);
    }
  }

  lemma {:induction false} SaveTrimmed(tables: map<nat, TableFile>, base: seq<File>, added: seq<File>, deleted: set<nat>)
    ensures SaveLevel(TrimFiles(tables, base), TrimFiles(tables, added), deleted) == TrimFiles(tables, SaveLevel(base, added, deleted))
    decreases |base| + |added|
  {
    var b, a := TrimFiles(tables, base), TrimFiles(tables, added);
    assert added != [] && base != [] ==> (Before(a[0], b[0]) <==> Before(added[0], base[0]));
    hide Before, Trim;
    if base == [] && added == [] {
    } else if added == [] || (base != [] && !Before(added[0], base[0])) {
      assert b[1..] == TrimFiles(tables, base[1..]);
      SaveTrimmed(tables, base[1..], added, deleted);
      OneTrimmed(tables, base[0], deleted, SaveLevel(base[1..], added, deleted));
    } else {
      assert a[1..] == TrimFiles(tables, added[1..]);
      SaveTrimmed(tables, base, added[1..], deleted);
      OneTrimmed(tables, added[0], deleted, SaveLevel(base, added[1..], deleted));
    }
  }

  lemma OneTrimmed(tables: map<nat, TableFile>, f: File, deleted: set<nat>, rest: seq<File>)
    ensures Trim(tables, f).number == f.number
    ensures TrimFiles(tables, (if f.number in deleted then [] else [f]) + rest)
         == (if f.number in deleted then [] else [Trim(tables, f)]) + TrimFiles(tables, rest)
  {}

  lemma TrimmedInRange(tables: map<nat, TableFile>, news: seq<(nat, File)>)
    ensures LevelsInRange(news) ==> LevelsInRange(TrimNews(tables, news))
  {
    var ts := TrimNews(tables, news);
    forall p | p in ts && LevelsInRange(news)
      ensures p.0 < NUM_LEVELS
    {
      var i :| 0 <= i < |ts| && ts[i] == p;
      assert news[i] in news;
    }
  }

  lemma {:induction false} AddTrimmed(tables: map<nat, TableFile>, levels: Levels, news: seq<(nat, File)>)
    requires LevelsInRange(news)
    ensures LevelsInRange(TrimNews(tables, news))
    ensures AddFiles(TrimLevels(tables, levels), TrimNews(tables, news)) == TrimLevels(tables, AddFiles(levels, news))
  {
    TrimmedInRange(tables, news);
    if news != [] {
      var front, p := news[..|news| - 1], news[|news| - 1];
      assert p in news;
      assert TrimNews(tables, news)[..|news| - 1] == TrimNews(tables, front);
      AddTrimmed(tables, levels, front);
      hide InsertFile;
      var ls := AddFiles(levels, front);
      InsertTrimmed(tables, ls[p.0].added, p.1);
      assert AddFile(TrimLevels(tables, ls), p.0, Trim(tables, p.1)) == TrimLevels(tables, AddFile(ls, p.0, p.1));
    }
  }

  lemma ApplyTrimmed(tables: map<nat, TableFile>, levels: Levels, e: FileEdit)
    requires EditOk(e)
    ensures EditOk(TrimEdit(tables, e))
    ensures Applied(TrimLevels(tables, levels), TrimEdit(tables, e)) == TrimLevels(tables, Applied(levels, e))
  {
    AddTrimmed(tables, Delete(levels, e.deletedFiles), e.newFiles);
    assert Delete(TrimLevels(tables, levels), e.deletedFiles) == TrimLevels(tables, Delete(levels, e.deletedFiles));
  }

  lemma {:induction false} ReplayTrimmed(tables: map<nat, TableFile>, rs: seq<Record>)
    requires EditsOk(Edits(rs))
    ensures EditsOk(Edits(TrimRecords(tables, rs)))
    ensures AppliedAll(Edits(TrimRecords(tables, rs))) == TrimLevels(tables, AppliedAll(Edits(rs)))
    ensures AllNew(Edits(TrimRecords(tables, rs))) == TrimNews(tables, AllNew(Edits(rs)))
    ensures LogNumber(TrimRecords(tables, rs)) == LogNumber(rs) && NextFile(TrimRecords(tables, rs)) == NextFile(rs)
    ensures LastSequence(TrimRecords(tables, rs)) == LastSequence(rs)
  {
    if rs == [] {
      assert TrimLevels(tables, EMPTY_LEVELS) == EMPTY_LEVELS;
    } else {
      var front, r := rs[..|rs| - 1], rs[|rs| - 1];
      var ts := TrimRecords(tables, rs);
      assert rs == front + [r] && ts == TrimRecords(tables, front) + [r.(edit := TrimEdit(tables, r.edit))];
      EditsNext(front, r);
      assert Edits(rs)[..|rs| - 1] == Edits(front);
      EditsOkFront(Edits(rs));
      ReplayTrimmed(tables, front);
      ReplayTrimmedNext(tables, front, r);
    }
  }

  lemma ReplayTrimmedNext(tables: map<nat, TableFile>, front: seq<Record>, r: Record)
    requires EditsOk(Edits(front)) && EditOk(r.edit) && EditsOk(Edits(TrimRecords(tables, front)))
    requires AppliedAll(Edits(TrimRecords(tables, front))) == TrimLevels(tables, AppliedAll(Edits(front)))
    requires AllNew(Edits(TrimRecords(tables, front))) == TrimNews(tables, AllNew(Edits(front)))
    requires LogNumber(TrimRecords(tables, front)) == LogNumber(front) && NextFile(TrimRecords(tables, front)) == NextFile(front)
    requires LastSequence(TrimRecords(tables, front)) == LastSequence(front)
    ensures var rs, ts := front + [r], TrimRecords(tables, front) + [r.(edit := TrimEdit(tables, r.edit))];
            EditsOk(Edits(rs)) && EditsOk(Edits(ts)) && AppliedAll(Edits(ts)) == TrimLevels(tables, AppliedAll(Edits(rs)))
            && AllNew(Edits(ts)) == TrimNews(tables, AllNew(Edits(rs)))
            && LogNumber(ts) == LogNumber(rs) && NextFile(ts) == NextFile(rs) && LastSequence(ts) == LastSequence(rs)
  {
    hide Applied, TrimLevels;
    var t := r.(edit := TrimEdit(tables, r.edit));
    var fronts := TrimRecords(tables, front);
    ApplyTrimmed(tables, AppliedAll(Edits(front)), r.edit);
    NextReplayed(front, r);
    NextReplayed(fronts, t);
    NumbersNext(front, r);
    NumbersNext(fronts, t);
    assert TrimNews(tables, AllNew(Edits(front)) + r.edit.newFiles)
        == TrimNews(tables, AllNew(Edits(front))) + TrimNews(tables, r.edit.newFiles);
  }

  lemma NextReplayed(rs: seq<Record>, r: Record)
    requires EditsOk(Edits(rs)) && EditOk(r.edit)
    ensures EditsOk(Edits(rs + [r])) && AppliedAll(Edits(rs + [r])) == Applied(AppliedAll(Edits(rs)), r.edit)
    ensures AllNew(Edits(rs + [r])) == AllNew(Edits(rs)) + r.edit.newFiles
  {
    hide Applied;
    EditsNext(rs, r);
    var all := Edits(rs + [r]);
    assert all[..|all| - 1] == Edits(rs);
  }

  lemma VersionTrimmed(tables: map<nat, TableFile>, rs: seq<Record>)
    requires EditsOk(Edits(rs))
    ensures EditsOk(Edits(TrimRecords(tables, rs))) && VersionOf(TrimRecords(tables, rs)) == TrimVersion(tables, VersionOf(rs))
  {
    ReplayTrimmed(tables, rs);
    hide AppliedAll, Edits;
    SavedTrimmed(tables, AppliedAll(Edits(rs)));
  }

  lemma SavedTrimmed(tables: map<nat, TableFile>, levels: Levels)
    ensures Saved(EMPTY_VERSION, TrimLevels(tables, levels)) == TrimVersion(tables, Saved(EMPTY_VERSION, levels))
  {
    hide SaveLevel;
    assert TrimFiles(tables, []) == [];
    forall l | 0 <= l < NUM_LEVELS
      ensures SaveLevel([], TrimFiles(tables, levels[l].added), levels[l].deleted)
           == TrimFiles(tables, SaveLevel([], levels[l].added, levels[l].deleted))
    {
      SaveTrimmed(tables, [], levels[l].added, levels[l].deleted);
    }
    assert forall l :: 0 <= l < NUM_LEVELS ==> EMPTY_VERSION[l] == [];
  }

  // A version whose tables are there is as it was.
  lemma NothingTrimmed(tables: map<nat, TableFile>, v: Version)
    requires TablesThere(v, tables)
    ensures TrimVersion(tables, v) == v
  {
    forall l, i | 0 <= l < NUM_LEVELS && 0 <= i < |v[l]|
      ensures TrimVersion(tables, v)[l][i] == v[l][i]
    {
      assert v[l][i] in v[l];
    }
    assert forall l :: 0 <= l < NUM_LEVELS ==> TrimVersion(tables, v)[l] == v[l];
  }

  // A recoverable disk stays one when its manifest is read with the tables that are there.
  lemma TrimmedIsDurable(current: nat, manifests: map<nat, seq<Record>>, logs: map<nat, Log>, tables: map<nat, TableFile>,
                         history: set<Entry>, oldest: nat)
    requires Durable(current, manifests, logs, tables, history, oldest)
    ensures var rs := TrimRecords(tables, manifests[current]);
            EditsOk(Edits(rs)) && MetaOf(rs) == MetaOf(manifests[current])
            && forall ms: map<nat, seq<Record>> :: current in ms && ms[current] == rs ==> Durable(current, ms, logs, tables, history, oldest)
  {
    hide Complete, LogsOk, TreeOk, AppliedAll, VersionOf, Edits;
    var records := manifests[current];
    var rs := TrimRecords(tables, records);
    ReplayTrimmed(tables, records);
    VersionTrimmed(tables, records);
    NothingTrimmed(tables, VersionOf(records));
    RecordsTrimmed(tables, records, MetaOf(records).value.nextFile);
  }

  lemma RecordsTrimmed(tables: map<nat, TableFile>, rs: seq<Record>, bound: nat)
    requires RecordsOk(rs, bound) && TablesThere(VersionOf(rs), tables)
    ensures RecordsOk(TrimRecords(tables, rs), bound)
  {
    hide AppliedAll, VersionOf, Edits, AllNew;
    ReplayTrimmed(tables, rs);
    VersionTrimmed(tables, rs);
    NothingTrimmed(tables, VersionOf(rs));
    var news, ts := AllNew(Edits(rs)), TrimNews(tables, AllNew(Edits(rs)));
    forall p | p in ts
      ensures exists q :: q in news && q.0 == p.0 && q.1.number == p.1.number
    {
      var i :| 0 <= i < |ts| && ts[i] == p;
      assert news[i] in news;
    }
    TrimmedInRange(tables, news);
  }
}
