/**
 The database over the disk: writing, flushing, compacting and opening again after a crash.  A crash
 may come between any two writes to the disk; what it leaves is a Disk that is Ok, and Open takes any
 such disk back to a database that holds all that was logged.
 */
module Recovery {
  import opened Wrappers
  import opened DbFormat
  import opened Versions
  import opened VersionBuilder
  import opened CompactionInputs
  import opened CompactionWork
  import opened Trees
  import opened Lsm
  import opened Manifest
  import opened Disk

  datatype Options = Options(maxGrandParentOverlapBytes: nat, expandedCompactionLimit: nat, maxOutputFileSize: nat,
                             writeBufferSize: nat, builtSize: seq<Entry> -> nat, fileSize: seq<Entry> -> nat, memoryUsage: seq<Entry> -> nat)
  {
    function RuleWith(grandparents: seq<File>): CutRule {
      CutRule(grandparents, maxGrandParentOverlapBytes, maxOutputFileSize, builtSize)
    }
  }

  // What the logs numbered from `from` up to `to` hold.
  ghost function BetweenEntries(logs: map<nat, Log>, from: nat, to: nat): set<Entry> {
    set k, b, e | k in logs && from <= k < to && b in logs[k] && e in b.Entries() :: e
  }

  // The memtables hold what the live logs hold; all else in memory is what the manifest says, or later.
  ghost predicate LinkedTo(mem: seq<Entry>, imm: Option<seq<Entry>>, v: Version, logNumber: nat, logfileNumber: nat, next: nat,
                           last: nat, m: Meta, logs: map<nat, Log>, history: set<Entry>, oldest: nat) {
    v == m.version && logNumber == m.logNumber && m.nextFile <= next && m.lastSequence <= last
    && logfileNumber in logs && logNumber <= logfileNumber < next && (forall k :: k in logs ==> k <= logfileNumber)
    && Elements(mem) == LogEntries(logs[logfileNumber])
    && ImmEntries(imm) == BetweenEntries(logs, logNumber, logfileNumber)
    && LoggedUpTo(logs, logNumber, last)
    && Inv(mem, imm, v, next, history, last, oldest)
  }

  ghost predicate LoggedUpTo(logs: map<nat, Log>, from: nat, last: nat) {
    forall k, b :: k in logs && k >= from && b in logs[k] ==> b.End() <= last + 1
  }

  lemma LiveIsBoth(logs: map<nat, Log>, from: nat, to: nat)
    requires to in logs && from <= to && forall k :: k in logs ==> k <= to
    ensures LiveEntries(logs, from) == LogEntries(logs[to]) + BetweenEntries(logs, from, to)
    ensures LiveEntries(logs, to) == LogEntries(logs[to])
  {
    hide Batch.Entries;
    assert forall e :: e in LiveEntries(logs, from) <==> e in LogEntries(logs[to]) || e in BetweenEntries(logs, from, to);
  }

  // A later log number for tables that took over what the logs before it hold.
  lemma LogsRetired(logs: map<nat, Log>, from: nat, to: nat, v: Version, v': Version)
    requires LogsOk(logs, from, v) && from <= to
    requires VersionEntries(v') <= VersionEntries(v) + BetweenEntries(logs, from, to)
    ensures LogsOk(logs, to, v')
  {
    hide VersionEntries, Rising, Batch.Entries;
    forall k, e, b | k in logs && k >= to && e in VersionEntries(v') && b in logs[k]
      ensures e.sn < b.first
    {
      assert TablesBefore(v, logs[k]);
      if e in BetweenEntries(logs, from, to) {
        var k0, b0 :| k0 in logs && from <= k0 < to && b0 in logs[k0] && e in b0.Entries();
        assert LogBefore(logs[k0], logs[k]);
        BatchAbove(b0);
      }
    }
  }

  // What it takes to commit a record.
  lemma DurableFromInv(number: nat, manifests: map<nat, seq<Record>>, m: Meta, logs: map<nat, Log>, tables: map<nat, TableFile>,
                       mem: seq<Entry>, imm: Option<seq<Entry>>, history: set<Entry>, oldest: nat)
    requires number in manifests && EditsOk(Edits(manifests[number])) && MetaOf(manifests[number]) == Some(m)
    requires RecordsOk(manifests[number], m.nextFile) && number < m.nextFile && m.logNumber < m.nextFile
    requires TablesThere(m.version, tables) && LogsOk(logs, m.logNumber, m.version)
    requires Inv(mem, imm, m.version, m.nextFile, history, m.lastSequence, oldest)
    requires LiveEntries(logs, m.logNumber) == Elements(mem) + ImmEntries(imm)
    ensures Durable(number, manifests, logs, tables, history, oldest)
  {
    hide RecordsOk, TreeOk, TablesThere, LogsOk, ReadAlike, LiveEntries, VersionEntries, Newer, MetaOf, Edits;
    assert Recoverable(m, logs) == Tree(mem, imm, m.version);
  }

  lemma TablesAfterEdit(v: Version, e: FileEdit, v': Version, tables: map<nat, TableFile>)
    requires TablesThere(v, tables) && EditedBy(v, e, v')
    requires forall p :: p in e.newFiles ==> p.1.number in tables && tables[p.1.number] == Stored(p.1)
    ensures TablesThere(v', tables)
  {
    forall l: nat, f | l < NUM_LEVELS && f in v'[l]
      ensures f.number in tables && tables[f.number] == Stored(f)
    {
      if f !in v[l] {
        assert (l, f) in e.newFiles;
        assert (l, f).1 == f;
      }
    }
  }

  class Db {
    const disk: Disk
    const options: Options

    var mem: seq<Entry>
    var imm: Option<seq<Entry>>
    var version: Version
    var logNumber: nat
    var logfileNumber: nat
    var manifestNumber: nat
    var nextFileNumber: nat
    var lastSequence: nat
    var pendingOutputs: set<nat>

    ghost predicate Linked()
      reads this, disk
    {
      disk.Ok() && manifestNumber == disk.current
      && LinkedTo(mem, imm, version, logNumber, logfileNumber, nextFileNumber, lastSequence, disk.Now(), disk.logs,
                  disk.history, disk.oldest)
    }

    // The state recovery starts a database with.
    constructor (disk: Disk, options: Options, version: Version, logNumber: nat, manifestNumber: nat, nextFileNumber: nat,
                 lastSequence: nat)
      ensures this.disk == disk && this.options == options && mem == [] && imm == None && this.version == version
      ensures this.logNumber == logNumber && logfileNumber == logNumber && this.manifestNumber == manifestNumber
      ensures this.nextFileNumber == nextFileNumber && this.lastSequence == lastSequence && pendingOutputs == {}
    {
      this.disk, this.options, mem, imm, this.version := disk, options, [], None, version;
      this.logNumber, logfileNumber, this.manifestNumber := logNumber, logNumber, manifestNumber;
      this.nextFileNumber, this.lastSequence, pendingOutputs := nextFileNumber, lastSequence, {};
    }

    // Log the batch, then insert it.
    method Write(ops: seq<(int, Payload)>)
      requires Linked() && lastSequence + |ops| < MAX_SEQUENCE
      modifies this`mem, this`lastSequence, disk`logs, disk`history
      ensures Linked() && lastSequence == old(lastSequence) + |ops|
      ensures disk.history == old(disk.history) + BatchEntries(ops, old(lastSequence) + 1)
    {
      hide Durable, Inv, LogsOk, BatchEntries;
      ghost var before, logs, history, last, oldest := mem, disk.logs, disk.history, lastSequence, disk.oldest;
      var b := Batch(lastSequence + 1, ops);
      InvHistory(mem, imm, version, nextFileNumber, history, last, oldest);
      disk.AppendLog(logfileNumber, b);
      // The batch is durable from here on, whether or not the insertion is reached.
      DBImpl.MemIsOld(mem, imm, version, nextFileNumber, history, last, oldest);
      mem := InsertInto(ops, lastSequence + 1, mem);
      lastSequence := lastSequence + |ops|;
      WriteKeeps(before, imm, version, nextFileNumber, history, last, oldest, ops, mem, oldest);
      LogGrows(logs, logfileNumber, b, logNumber, last);
    }

    // DBImpl::Get: of all that was logged, before a crash or after it, the newest write at or below s,
    // unless the files mislead the search.
    method Get(k: int, s: nat) returns (r: Option<Value>)
      requires Linked() && s >= disk.oldest
      ensures !Misled(mem, imm, version, k, s) ==>
                Reads(disk.history, k, s, r) && forall r' :: Reads(disk.history, k, s, r') ==> r' == r
      ensures Misled(mem, imm, version, k, s) ==> exists e :: Older(Tree(mem, imm, version), k, s, Some(e)) && r == Shown(Some(e))
      ensures FilesAge(version) ==> !Misled(mem, imm, version, k, s)
    {
      hide Durable, Inv, Reads, FilesAge, Misled, Older;
      r := DBImpl.Search(mem, imm, version, k, s, nextFileNumber, disk.history, lastSequence, disk.oldest);
    }

    static lemma InvHistory(mem: seq<Entry>, imm: Option<seq<Entry>>, v: Version, next: nat, history: set<Entry>, last: nat, oldest: nat)
      requires Inv(mem, imm, v, next, history, last, oldest)
      ensures (forall e :: e in history ==> e.sn <= last) && oldest <= last < MAX_SEQUENCE
    {}

    static lemma LogGrows(logs: map<nat, Log>, n: nat, b: Batch, from: nat, last: nat)
      requires n in logs && from <= n && LoggedUpTo(logs, from, last) && b.first == last + 1
      ensures var logs' := logs[n := logs[n] + [b]];
              LogEntries(logs'[n]) == LogEntries(logs[n]) + b.Entries()
              && BetweenEntries(logs', from, n) == BetweenEntries(logs, from, n)
              && LoggedUpTo(logs', from, last + |b.ops|)
    {
      hide Batch.Entries;
      var logs' := logs[n := logs[n] + [b]];
      assert forall x :: x in logs'[n] <==> x in logs[n] || x == b;
      assert forall k :: from <= k < n && k in logs' ==> k in logs && logs'[k] == logs[k];
      assert forall e :: e in BetweenEntries(logs', from, n) <==> e in BetweenEntries(logs, from, n);
    }

    // A new log for a new memtable.
    method SwitchMemtable()
      requires Linked() && imm == None
      modifies this`mem, this`imm, this`logfileNumber, this`nextFileNumber, disk`logs
      ensures Linked() && disk.history == old(disk.history)
      ensures imm == Some(old(mem)) && mem == [] && lastSequence == old(lastSequence) && logfileNumber == old(nextFileNumber)
    {
      hide Durable, Inv, LogsOk;
      ghost var logs := disk.logs;
      var newLogNumber := nextFileNumber;
      nextFileNumber := nextFileNumber + 1;
      disk.CreateLog(newLogNumber);
      LogStarts(logs, logfileNumber, newLogNumber, logNumber, lastSequence);
      SwitchKeeps(mem, version, newLogNumber, disk.history, lastSequence, disk.oldest, nextFileNumber);
      logfileNumber := newLogNumber;
      imm, mem := Some(mem), [];
    }

    static lemma LogStarts(logs: map<nat, Log>, n: nat, n': nat, from: nat, last: nat)
      requires n in logs && from <= n < n' && (forall k :: k in logs ==> k <= n) && LoggedUpTo(logs, from, last)
      requires BetweenEntries(logs, from, n) == {}
      ensures var logs' := logs[n' := []];
              LogEntries(logs'[n']) == {} && BetweenEntries(logs', from, n') == LogEntries(logs[n])
              && LoggedUpTo(logs', from, last)
    {
      hide Batch.Entries;
      var logs': map<nat, Log> := logs[n' := []];
      forall e
        ensures e in BetweenEntries(logs', from, n') <==> e in LogEntries(logs[n])
      {
        if e in LogEntries(logs[n]) {
          var b :| b in logs[n] && e in b.Entries();
          assert n in logs' && b in logs'[n];
        }
        if e in BetweenEntries(logs', from, n') {
          var k, b :| k in logs' && from <= k < n' && b in logs'[k] && e in b.Entries();
          if k < n {
            assert e in BetweenEntries(logs, from, n);
          }
        }
      }
    }

    // What a record says once the database has numbered it.
    ghost function RecordFor(e: FileEdit, newLogNumber: nat): Record
      reads this
    {
      Record(e, Some(newLogNumber), Some(nextFileNumber), Some(lastSequence))
    }

    // LogAndApply on an open manifest.  The record is the point of no return: before it the disk holds
    // the old state, after it the new one, of which reads are promised as of history'.
    method LogAndApply(e: FileEdit, newLogNumber: nat, ghost history': set<Entry>, ghost oldest': nat,
                       ghost mem': seq<Entry>, ghost imm': Option<seq<Entry>>)
      requires disk.Ok() && manifestNumber == disk.current && version == disk.Now().version && EditOk(e)
      requires manifestNumber < nextFileNumber && newLogNumber < nextFileNumber
      requires var records := disk.manifests[disk.current] + [RecordFor(e, newLogNumber)];
               EditsOk(Edits(records)) && RecordsOk(records, nextFileNumber)
               && VersionOf(records) == Saved(version, Applied(EMPTY_LEVELS, e))
      requires var v' := Saved(version, Applied(EMPTY_LEVELS, e));
               TablesThere(v', disk.tables) && LogsOk(disk.logs, newLogNumber, v')
               && Inv(mem', imm', v', nextFileNumber, history', lastSequence, oldest')
      requires LiveEntries(disk.logs, newLogNumber) == Elements(mem') + ImmEntries(imm')
      modifies this`version, this`logNumber, disk`manifests, disk`history, disk`oldest
      ensures disk.Ok() && disk.history == history' && disk.oldest == oldest' && disk.current in old(disk.manifests)
      ensures disk.manifests.Keys == old(disk.manifests).Keys
      ensures version == Saved(old(version), Applied(EMPTY_LEVELS, e)) && logNumber == newLogNumber
      ensures disk.Now() == Meta(version, newLogNumber, nextFileNumber, lastSequence)
    {
      hide Durable, Inv, LogsOk, TablesThere, RecordsOk, Saved, Applied, Edits, LiveEntries;
      var builder := new Builder(version);
      builder.Apply(e);
      var v := builder.SaveTo();
      var r := Record(e, Some(newLogNumber), Some(nextFileNumber), Some(lastSequence));
      CurrentExists(disk);
      ghost var records := disk.manifests[disk.current];
      NumbersNext(records, r);
      DurableFromInv(disk.current, disk.manifests[disk.current := records + [r]],
                     Meta(v, newLogNumber, nextFileNumber, lastSequence), disk.logs, disk.tables, mem', imm', history', oldest');
      disk.Commit(r, history', oldest');
      version := v;
      logNumber := newLogNumber;
    }

    static lemma CurrentExists(disk: Disk)
      requires disk.Ok()
      ensures disk.current in disk.manifests && disk.current < disk.Now().nextFile
      ensures EditsOk(Edits(disk.manifests[disk.current]))
    {}

    // What a flush makes of the files.
    static ghost predicate AfterFlush(v: Version, table: seq<Entry>, options: Options, v': Version) {
      (if table == [] then v' == v else FlushedInto(v, table, options.maxGrandParentOverlapBytes, options.fileSize, v'))
      && (FilesAge(v) ==> FilesAge(v')) && (NoStraddle(v) ==> NoStraddle(v'))
    }

    // Write a table for level 0 or, where nothing is in its way, a lower level.  An empty memtable uses
    // up a number and leaves no file.
    method WriteLevel0Table() returns (edit: FileEdit)
      requires Linked() && imm.Some?
      modifies this`nextFileNumber, this`pendingOutputs, disk`tables
      ensures disk.Ok() && nextFileNumber == old(nextFileNumber) + 1 && pendingOutputs == old(pendingOutputs) - {old(nextFileNumber)}
      ensures imm == Some([]) ==> disk.tables == old(disk.tables)
      ensures EditOk(edit) && edit.deletedFiles == {} && Unused(edit.newFiles, old(nextFileNumber), nextFileNumber)
      ensures forall p :: p in edit.newFiles ==> p.1.number in disk.tables && disk.tables[p.1.number] == Stored(p.1)
      ensures TablesThere(version, disk.tables)
      ensures forall v' :: VersionOrdered(v') && EditedBy(version, edit, v') ==>
                Inv(mem, None, v', nextFileNumber, disk.history, lastSequence, disk.oldest)
                && VersionEntries(v') <= VersionEntries(version) + ImmEntries(imm)
                && AfterFlush(version, imm.value, options, v')
    {
      hide Durable, Inv, LogsOk, VersionEntries, TreeOk, Numbered, VersionOk, VersionOrdered, EditedBy, FileOk, FilesAge, NoStraddle;
      var table := imm.value;
      var number := nextFileNumber;
      InvTree(mem, imm, version, number, disk.history, lastSequence, disk.oldest);
      NumbersOff(version, number);
      nextFileNumber := nextFileNumber + 1;
      pendingOutputs := pendingOutputs + {number};
      if table != [] {
        disk.WriteTable(number, TableFile(options.fileSize(table), table));
      }
      pendingOutputs := pendingOutputs - {number};
      TablesAreThere(disk);
      if table == [] {
        edit := FileEdit({}, []);
        NoFlush(mem, version, number, disk.history, lastSequence, disk.oldest);
      } else {
        var f := File(number, options.fileSize(table), table[0].Ikey(), table[|table| - 1].Ikey(), table);
        DBImpl.FlushedFileOk(mem, table, version, number, disk.history, lastSequence, disk.oldest, f);
        var level := PickLevelForMemTableOutput(version, f.smallest.key, f.largest.key, options.maxGrandParentOverlapBytes);
        edit := FileEdit({}, [(level, f)]);
        forall v' | VersionOrdered(v') && EditedBy(version, edit, v')
          ensures Inv(mem, None, v', nextFileNumber, disk.history, lastSequence, disk.oldest)
          ensures VersionEntries(v') <= VersionEntries(version) + ImmEntries(imm)
          ensures FlushedInto(version, table, options.maxGrandParentOverlapBytes, options.fileSize, v')
          ensures (FilesAge(version) ==> FilesAge(v')) && (NoStraddle(version) ==> NoStraddle(v'))
        {
          FlushKeeps(mem, table, version, number, disk.history, lastSequence, disk.oldest, f, level, v');
          FlushEntries(version, level, f, v');
          EditGains(version, level, f, v');
        }
      }
    }

    static lemma NumbersOff(v: Version, next: nat)
      requires Numbered(v, next)
      ensures forall l, f :: 0 <= l < NUM_LEVELS && f in v[l] ==> f.number != next
    {}

    static lemma TablesAreThere(disk: Disk)
      requires disk.Ok()
      ensures TablesThere(disk.Now().version, disk.tables)
    {}

    static lemma FlushEntries(v: Version, level: nat, f: File, v': Version)
      requires level < NUM_LEVELS && EditedBy(v, FileEdit({}, [(level, f)]), v')
      ensures VersionEntries(v') == VersionEntries(v) + Elements(f.entries)
    {
      EditGains(v, level, f, v');
      EntriesGained(v, level, f, v');
    }

    static lemma NoFlush(mem: seq<Entry>, v: Version, next: nat, history: set<Entry>, last: nat, oldest: nat)
      requires Inv(mem, Some([]), v, next, history, last, oldest) && VersionOrdered(v)
      ensures forall v' :: VersionOrdered(v') && EditedBy(v, FileEdit({}, []), v') ==>
                Inv(mem, None, v', next + 1, history, last, oldest) && VersionEntries(v') <= VersionEntries(v) && v' == v
    {
      hide VersionEntries, VersionOrdered, TreeOk, ReadAlike;
      EmptyFlushKeeps(mem, v, next, history, last, oldest);
      SkipNumbers(mem, None, v, next, history, last, oldest, next + 1);
      forall v' | VersionOrdered(v') && EditedBy(v, FileEdit({}, []), v')
        ensures v' == v
      {
        forall l: nat, f | l < NUM_LEVELS
          ensures f in v'[l] <==> f in v[l]
        {
          assert (l, f) !in FileEdit({}, []).newFiles;
        }
        SameVersion(v', v);
      }
    }

    static lemma SkipNumbers(mem: seq<Entry>, imm: Option<seq<Entry>>, v: Version, next: nat, history: set<Entry>, last: nat,
                             oldest: nat, next': nat)
      requires Inv(mem, imm, v, next, history, last, oldest) && next <= next'
      ensures Inv(mem, imm, v, next', history, last, oldest)
    {
      hide VersionEntries, ReadAlike, FilesInOrder, VersionOrdered, AllFilesOk, EntriesOnce;
    }

    // Nothing is on the disk that recovery and the outputs in progress do not need.
    ghost predicate Tidy()
      reads this, disk
    {
      (forall k :: k in disk.tables ==> k in LiveNumbers()) && (forall k :: k in disk.logs ==> k >= logNumber)
      && forall k :: k in disk.manifests ==> k >= manifestNumber
    }

    // Replace the immutable memtable by a table; its log is needed no more.
    method CompactMemTable()
      requires Linked() && imm.Some?
      modifies this, disk
      ensures Linked() && disk.history == old(disk.history) && imm == None && mem == old(mem) && Tidy()
      ensures lastSequence == old(lastSequence) && disk.oldest == old(disk.oldest)
      ensures logNumber == logfileNumber
      ensures if old(imm) == Some([]) then version == old(version)
              else FlushedInto(old(version), old(imm.value), options.maxGrandParentOverlapBytes, options.fileSize, version)
      ensures (FilesAge(old(version)) ==> FilesAge(version)) && (NoStraddle(old(version)) ==> NoStraddle(version))
    {
      hide Durable, Inv, LinkedTo, FilesAge, NoStraddle, FlushedInto, Tidy, LiveNumbers;
      FlushMemTable();
      DeleteObsoleteFiles();
    }

    // The table and the record that names it.
    method FlushMemTable()
      requires Linked() && imm.Some?
      modifies this, disk
      ensures Linked() && disk.history == old(disk.history) && imm == None && mem == old(mem)
      ensures lastSequence == old(lastSequence) && disk.oldest == old(disk.oldest)
      ensures logNumber == logfileNumber
      ensures AfterFlush(old(version), old(imm.value), options, version)
    {
      hide Durable, Inv, LogsOk, VersionEntries, TreeOk, Numbered, VersionOk, VersionOrdered, EditedBy, TablesThere, RecordsOk,
        Saved, Applied, NeverReadded, LiveEntries, BetweenEntries, LogEntries, Unused, LoggedUpTo, AfterFlush, Elements, FileOk, EditOk, Edits;
      ghost var number, m := nextFileNumber, disk.Now();
      InvTree(mem, imm, version, number, disk.history, lastSequence, disk.oldest);
      ManifestServes(disk);
      var edit := WriteLevel0Table();
      assert disk.Now() == m;
      CurrentExists(disk);
      ghost var r := RecordFor(edit, logfileNumber);
      ghost var records := disk.manifests[disk.current];
      AppendFresh(records, m.nextFile, r, number, nextFileNumber);
      UnusedIsFresh(version, number, edit.newFiles, nextFileNumber);
      EditResult(version, edit);
      ghost var v' := Saved(version, Applied(EMPTY_LEVELS, edit));
      TablesAfterEdit(version, edit, v', disk.tables);
      LogsRetired(disk.logs, logNumber, logfileNumber, version, v');
      LiveIsBoth(disk.logs, logNumber, logfileNumber);
      NothingBetween(disk.logs, logfileNumber);
      LogAndApply(edit, logfileNumber, disk.history, disk.oldest, mem, None);
      imm := None;
      LaterLog(disk.logs, m.logNumber, logfileNumber, lastSequence);
    }

    static lemma ManifestServes(disk: Disk)
      requires disk.Ok()
      ensures var m := disk.Now();
              EditsOk(Edits(disk.manifests[disk.current])) && RecordsOk(disk.manifests[disk.current], m.nextFile)
              && VersionOf(disk.manifests[disk.current]) == m.version && disk.current < m.nextFile && m.logNumber < m.nextFile
              && LogsOk(disk.logs, m.logNumber, m.version) && TreeOk(m.version, m.nextFile) && Numbered(m.version, m.nextFile)
    {}

    static lemma NothingBetween(logs: map<nat, Log>, n: nat)
      ensures BetweenEntries(logs, n, n) == {}
    {}

    static lemma LaterLog(logs: map<nat, Log>, from: nat, to: nat, last: nat)
      requires LoggedUpTo(logs, from, last) && from <= to
      ensures LoggedUpTo(logs, to, last)
    {}

    // Keep the logs from the log number on, the current manifest and newer ones, and the tables of the
    // version and of outputs in progress.  Nothing that recovery needs goes.
    method DeleteObsoleteFiles()
      requires Linked()
      modifies disk`logs, disk`manifests, disk`tables
      ensures Linked() && disk.Now() == old(disk.Now())
      ensures disk.logs == map k | k in old(disk.logs) && k >= logNumber :: old(disk.logs)[k]
      ensures disk.manifests == map k | k in old(disk.manifests) && k >= manifestNumber :: old(disk.manifests)[k]
      ensures disk.tables == map k | k in old(disk.tables) && k in LiveNumbers() :: old(disk.tables)[k]
      ensures Tidy()
    {
      hide Durable, Inv, LogsOk, LinkedTo;
      var live := LiveNumbers();
      DeleteLogs();
      DeleteManifests();
      DeleteTables(live);
    }

    function LiveNumbers(): set<nat>
      reads this
    {
      pendingOutputs + set l, f | 0 <= l < NUM_LEVELS && f in version[l] :: f.number
    }

    method DeleteLogs()
      requires Linked()
      modifies disk`logs
      ensures Linked() && disk.Now() == old(disk.Now())
      ensures disk.logs == map k | k in old(disk.logs) && k >= logNumber :: old(disk.logs)[k]
    {
      hide Durable, Inv, LogsOk, BetweenEntries, LogEntries, Elements, ImmEntries;
      ghost var m := disk.Now();
      var todo: set<nat> := disk.logs.Keys;
      while todo != {}
        invariant Linked() && disk.Now() == m
        invariant forall k :: k in disk.logs <==> k in old(disk.logs) && (k >= logNumber || k in todo)
        invariant forall k :: k in disk.logs ==> disk.logs[k] == old(disk.logs)[k]
        decreases |todo|
      {
        var k: nat :| k in todo;
        if k < logNumber {
          ghost var logs := disk.logs;
          disk.DeleteLog(k);
          LogGoes(logs, k, logNumber, logfileNumber, lastSequence);
        }
        todo := todo - {k};
      }
    }

    static lemma LogGoes(logs: map<nat, Log>, k: nat, from: nat, to: nat, last: nat)
      requires k < from
      ensures var logs' := logs - {k};
              BetweenEntries(logs', from, to) == BetweenEntries(logs, from, to)
              && (LoggedUpTo(logs, from, last) ==> LoggedUpTo(logs', from, last))
    {
      hide Batch.Entries, Batch.End;
      var logs' := logs - {k};
      assert forall j :: j >= from ==> (j in logs' <==> j in logs);
      assert forall e :: e in BetweenEntries(logs', from, to) <==> e in BetweenEntries(logs, from, to);
    }

    method DeleteManifests()
      requires Linked()
      modifies disk`manifests
      ensures Linked() && disk.Now() == old(disk.Now())
      ensures disk.manifests == map k | k in old(disk.manifests) && k >= manifestNumber :: old(disk.manifests)[k]
    {
      hide Durable, LinkedTo;
      ghost var m := disk.Now();
      CurrentExists(disk);
      var todo: set<nat> := disk.manifests.Keys;
      while todo != {}
        invariant Linked() && disk.Now() == m && disk.current in disk.manifests
        invariant forall k :: k in disk.manifests <==> k in old(disk.manifests) && (k >= manifestNumber || k in todo)
        invariant forall k :: k in disk.manifests ==> disk.manifests[k] == old(disk.manifests)[k]
        decreases |todo|
      {
        var k: nat :| k in todo;
        if k < manifestNumber {
          disk.DeleteManifest(k);
        }
        todo := todo - {k};
      }
    }

    method DeleteTables(live: set<nat>)
      requires Linked() && forall l, f :: 0 <= l < NUM_LEVELS && f in version[l] ==> f.number in live
      modifies disk`tables
      ensures Linked() && disk.Now() == old(disk.Now())
      ensures disk.tables == map k | k in old(disk.tables) && k in live :: old(disk.tables)[k]
    {
      hide Durable, Inv;
      ghost var m := disk.Now();
      var todo: set<nat> := disk.tables.Keys;
      while todo != {}
        invariant Linked() && disk.Now() == m
        invariant forall k :: k in disk.tables <==> k in old(disk.tables) && (k in live || k in todo)
        invariant forall k :: k in disk.tables ==> disk.tables[k] == old(disk.tables)[k]
        decreases |todo|
      {
        var k: nat :| k in todo;
        if k !in live {
          disk.DeleteTable(k);
        }
        todo := todo - {k};
      }
    }

    // BackgroundCompaction from the files it was given to start with.  Reads are promised from `snap` on
    // afterwards.  A move loses nothing, and a merge loses reads exactly if it brings a deleted key back;
    // whether Get can still search the levels in turn is a question of its own.
    method Compact(level: nat, start: seq<File>, snap: nat)
      returns (ghost inputs0: seq<File>, ghost inputs1: seq<File>, ghost grandparents: seq<File>, ghost moved: bool)
      requires Linked() && level + 1 < NUM_LEVELS && start != [] && Ordered(start) && forall f :: f in start ==> f in version[level]
      requires level == 0 ==> forall f, g :: f in start && g in version[0] && g !in start ==>
                 g.largest.key < f.smallest.key || f.largest.key < g.smallest.key
      requires disk.oldest <= snap <= lastSequence
      modifies this, disk
      ensures InputsOk(old(version), level, inputs0, inputs1) && (forall f :: f in start ==> f in inputs0) && inputs0 != []
      ensures Chosen(old(version), level, start, options.expandedCompactionLimit, inputs0, inputs1)
      ensures GrandparentsOf(old(version), level, inputs0, inputs1, grandparents)
      ensures moved <==> |inputs0| == 1 && inputs1 == [] && TotalFileSize(grandparents) <= options.maxGrandParentOverlapBytes
      ensures if moved then |inputs0| == 1 && inputs1 == [] && Moved(old(version), level, inputs0[0], version)
              else Merged(old(version), level, inputs0, inputs1, snap, options.RuleWith(grandparents), options.fileSize, version)
      ensures Linked() <==> moved || old(KeepsReads(level, inputs0, inputs1, snap))
      ensures FilesAge(old(version)) ==>
                (FilesAge(version) <==> if moved then MoveSafe(old(version), level, inputs0[0])
                                        else AgeSafe(old(version), level, inputs0, inputs1, snap))
                && MisleadsWhereParted(old(version), level, inputs0, inputs1, version)
      ensures FilesAge(old(version)) && NoStraddle(old(version)) ==>
                Linked() && FilesAge(version) && (moved || snap == lastSequence ==> NoStraddle(version))
      ensures disk.history == old(disk.history) && mem == old(mem) && imm == old(imm)
      ensures lastSequence == old(lastSequence) && disk.oldest == if moved then old(disk.oldest) else snap
    {
      hide Durable, Inv, LogsOk, VersionOk, VersionOrdered, Numbered, TreeOk, InputsOk, BetweenEntries, LogEntries, Moved, Merged,
        FilesAge, NoStraddle, MoveSafe, AgeSafe, NothingResurrects, MisleadsWhereParted, Chosen, GrandparentsOf;
      InvTree(mem, imm, version, nextFileNumber, disk.history, lastSequence, disk.oldest);
      var in0, in1, in2 := SetupOtherInputs(version, level, start, options.expandedCompactionLimit);
      inputs0, inputs1, grandparents := in0, in1, in2;
      DBImpl.SomeInput(version, level, in0, in1);
      if |in0| == 1 && |in1| == 0 && TotalFileSize(in2) <= options.maxGrandParentOverlapBytes {
        MoveFile(level, in0, in1);
        moved := true;
      } else {
        MergeFiles(level, in0, in1, in2, snap);
        moved := false;
      }
    }

    ghost predicate KeepsReads(level: nat, inputs0: seq<File>, inputs1: seq<File>, snap: nat)
      reads this
    {
      NothingResurrects(InputEntries(inputs0, inputs1), Rest(mem, imm, version, level, inputs0, inputs1), snap, version, level)
    }

    method MoveFile(level: nat, inputs0: seq<File>, inputs1: seq<File>)
      requires Linked() && InputsOk(version, level, inputs0, inputs1) && |inputs0| == 1 && |inputs1| == 0 && level < NUM_LEVELS
      modifies this`version, this`logNumber, disk`manifests, disk`history, disk`oldest
      ensures Linked() && disk.oldest == old(disk.oldest) && disk.history == old(disk.history)
      ensures Moved(old(version), level, inputs0[0], version)
      ensures FilesAge(old(version)) ==>
                (FilesAge(version) <==> MoveSafe(old(version), level, inputs0[0]))
                && MisleadsWhereParted(old(version), level, inputs0, inputs1, version)
      ensures NoStraddle(old(version)) ==> NoStraddle(version) && MoveSafe(old(version), level, inputs0[0])
    {
      hide Durable, Inv, LogsOk, VersionEntries, TreeOk, Numbered, VersionOk, VersionOrdered, EditedBy, TablesThere, RecordsOk,
        Saved, Applied, NeverReadded, LiveEntries, BetweenEntries, LogEntries, FilesAge, NoStraddle, MoveSafe, MisleadsWhereParted, InputsOk;
      ghost var m := disk.Now();
      var f := inputs0[0];
      assert inputs0 == [f] && inputs1 == [];
      InputsInRange(version, level, inputs0, inputs1);
      assert IsInput(level, inputs0, inputs1, level, f);
      InvTree(mem, imm, version, nextFileNumber, disk.history, lastSequence, disk.oldest);
      ManifestServes(disk);
      CurrentExists(disk);
      TablesAreThere(disk);
      var edit := FileEdit({(level, f.number)}, [(level + 1, f)]);
      ghost var r := RecordFor(edit, logNumber);
      AppendMove(disk.manifests[disk.current], m.nextFile, r, nextFileNumber, level, f);
      MovedIsFresh(version, nextFileNumber, level, f);
      EditResult(version, edit);
      ghost var v' := Saved(version, Applied(EMPTY_LEVELS, edit));
      EditMoves(version, nextFileNumber, level, f, v');
      MovedTable(version, level, f, disk.tables);
      TablesAfterEdit(version, edit, v', disk.tables);
      MoveKeeps(mem, imm, version, nextFileNumber, disk.history, lastSequence, disk.oldest, level, f, v');
      MoveKeepsTree(version, nextFileNumber, level, f, v');
      LogsRetired(disk.logs, logNumber, logNumber, version, v');
      LiveIsBoth(disk.logs, logNumber, logfileNumber);
      LogAndApply(edit, logNumber, disk.history, disk.oldest, mem, imm);
    }

    static lemma MovedTable(v: Version, level: nat, f: File, tables: map<nat, TableFile>)
      requires TablesThere(v, tables) && level < NUM_LEVELS && f in v[level]
      ensures f.number in tables && tables[f.number] == Stored(f)
    {}

    // A merge that keeps reads leaves the disk holding all that was logged, before its record is in the
    // manifest and after.  One that does not leaves it holding what the tree and the memtables hold.
    method MergeFiles(level: nat, inputs0: seq<File>, inputs1: seq<File>, grandparents: seq<File>, snap: nat)
      requires Linked() && InputsOk(version, level, inputs0, inputs1) && disk.oldest <= snap <= lastSequence && level < NUM_LEVELS
      modifies this, disk
      ensures disk.history == old(disk.history) && mem == old(mem) && imm == old(imm)
      ensures lastSequence == old(lastSequence) && disk.oldest == snap && pendingOutputs <= old(pendingOutputs) && Tidy()
      ensures Merged(old(version), level, inputs0, inputs1, snap, options.RuleWith(grandparents), options.fileSize, version)
      ensures Linked() <==> old(KeepsReads(level, inputs0, inputs1, snap))
      ensures LinkedAs(Tree(mem, imm, version))
      ensures FilesAge(old(version)) ==>
                (FilesAge(version) <==> AgeSafe(old(version), level, inputs0, inputs1, snap))
                && MisleadsWhereParted(old(version), level, inputs0, inputs1, version)
      ensures FilesAge(old(version)) && NoStraddle(old(version)) ==>
                Linked() && FilesAge(version) && (snap == lastSequence ==> NoStraddle(version))
    {
      hide Durable, Inv, LogsOk, VersionEntries, TreeOk, VersionOk, InputsOk, Merged, FilesAge, NoStraddle, AgeSafe, NothingResurrects,
        MergeDone, LinkedTo, LinkedAs, Tree, MisleadsWhereParted, LiveNumbers;
      ghost var history, before := disk.history, version;
      if FilesAge(version) && NoStraddle(version) {
        SafeWhenApart(level, inputs0, inputs1, snap);
      }
      MergeAndInstall(level, inputs0, inputs1, grandparents, snap);
      DeleteObsoleteFiles();
      LinkedHolds();
      WhatIsDone(mem, imm, before, version, nextFileNumber, history, lastSequence, level, inputs0, inputs1, snap,
                 options.RuleWith(grandparents), options.fileSize);
      LinkedIff(disk.history, Tree(mem, imm, version));
      // What was logged is more than the disk holds now, if the merge loses reads.
      disk.history := history;
      LinkedIff(Tree(mem, imm, version), history);
      LinkedNow();
    }

    lemma SafeWhenApart(level: nat, inputs0: seq<File>, inputs1: seq<File>, snap: nat)
      requires Linked() && FilesAge(version) && NoStraddle(version) && disk.oldest <= snap <= lastSequence
      requires InputsOk(version, level, inputs0, inputs1) && level < NUM_LEVELS
      ensures KeepsReads(level, inputs0, inputs1, snap) && AgeSafe(version, level, inputs0, inputs1, snap)
    {
      hide Durable, Inv, FilesAge, NoStraddle, InputsOk, NothingResurrects, AgeSafe;
      DBImpl.OldestGrows(mem, imm, version, nextFileNumber, disk.history, lastSequence, disk.oldest, snap);
      DBImpl.ApartIsSafe(mem, imm, version, nextFileNumber, disk.history, lastSequence, snap, level, inputs0, inputs1);
    }

    method MergeAndInstall(level: nat, inputs0: seq<File>, inputs1: seq<File>, grandparents: seq<File>, snap: nat)
      requires Linked() && InputsOk(version, level, inputs0, inputs1) && disk.oldest <= snap <= lastSequence && level < NUM_LEVELS
      modifies this, disk
      ensures Linked() && disk.oldest == snap
      ensures disk.history == if old(KeepsReads(level, inputs0, inputs1, snap)) then old(disk.history) else Tree(mem, imm, version)
      ensures disk.Now() == Meta(version, logNumber, nextFileNumber, lastSequence)
      ensures mem == old(mem) && imm == old(imm) && lastSequence == old(lastSequence) && pendingOutputs <= old(pendingOutputs)
      ensures MergeDone(mem, imm, old(version), version, nextFileNumber, old(disk.history), lastSequence, level, inputs0, inputs1, snap,
                options.RuleWith(grandparents), options.fileSize)
    {
      hide Durable, Inv, LogsOk, VersionEntries, TreeOk, Numbered, VersionOk, VersionOrdered, EditedBy, TablesThere, RecordsOk,
        Saved, Applied, NeverReadded, LiveEntries, BetweenEntries, LogEntries, Unused, InputsOk, Merged, FilesAge, NoStraddle, MergeDone,
        NothingResurrects, Tree;
      ghost var number, history, before := nextFileNumber, disk.history, version;
      ghost var keeps := KeepsReads(level, inputs0, inputs1, snap);
      InvTree(mem, imm, version, nextFileNumber, disk.history, lastSequence, disk.oldest);
      var outs, edit := MergeToTables(level, inputs0, inputs1, grandparents, snap);
      MergedServes(mem, imm, before, nextFileNumber, history, lastSequence, level, inputs0, inputs1, snap, edit,
                   options.RuleWith(grandparents), options.fileSize);
      InstallCompactionResults(edit, number, snap, keeps);
      pendingOutputs := pendingOutputs - (set f | f in outs :: f.number);
    }

    // The outputs are written, under numbers that are pending from before that until the edit is applied.
    method MergeToTables(level: nat, inputs0: seq<File>, inputs1: seq<File>, grandparents: seq<File>, snap: nat)
      returns (outs: seq<File>, edit: FileEdit)
      requires Linked() && InputsOk(version, level, inputs0, inputs1) && disk.oldest <= snap <= lastSequence && level < NUM_LEVELS
      modifies this`nextFileNumber, this`pendingOutputs, disk`tables
      ensures Linked() && disk.Now() == old(disk.Now()) && nextFileNumber >= old(nextFileNumber)
      ensures EditOk(edit) && Unused(edit.newFiles, old(nextFileNumber), nextFileNumber)
      ensures pendingOutputs == old(pendingOutputs) + set f | f in outs :: f.number
      ensures forall p :: p in edit.newFiles ==> p.1.number in disk.tables && disk.tables[p.1.number] == Stored(p.1)
      ensures forall v' :: VersionOrdered(v') && EditedBy(version, edit, v') ==>
                MergeDone(mem, imm, version, v', nextFileNumber, disk.history, lastSequence, level, inputs0, inputs1, snap,
                options.RuleWith(grandparents), options.fileSize)
    {
      hide Durable, Inv, LogsOk, VersionEntries, TreeOk, Numbered, VersionOk, VersionOrdered, EditedBy, TablesThere, RecordsOk,
        LiveEntries, BetweenEntries, LogEntries, Unused, InputsOk, MergeDone, SizesRecorded, Tree, Elements, ImmEntries;
      ghost var number := nextFileNumber;
      InvTree(mem, imm, version, nextFileNumber, disk.history, lastSequence, disk.oldest);
      DBImpl.OldestGrows(mem, imm, version, nextFileNumber, disk.history, lastSequence, disk.oldest, snap);
      var c := new Compaction(version, level, grandparents, options.maxGrandParentOverlapBytes);
      outs, edit := MergeInputsToOutputs(c, inputs0, inputs1, snap, options.maxOutputFileSize, options.builtSize, options.fileSize,
                                         nextFileNumber, mem, imm, disk.history, lastSequence);
      pendingOutputs := pendingOutputs + (set f | f in outs :: f.number);
      WriteOutputs(disk, level + 1, outs, options.fileSize, number);
      nextFileNumber := nextFileNumber + |outs|;
      SkipNumbers(mem, imm, version, number, disk.history, lastSequence, disk.oldest, nextFileNumber);
    }

    // Linked as of another history.
    ghost predicate LinkedAs(history: set<Entry>)
      reads this, disk`current, disk`manifests, disk`logs, disk`tables, disk`oldest
    {
      Durable(disk.current, disk.manifests, disk.logs, disk.tables, history, disk.oldest) && manifestNumber == disk.current
      && MetaOf(disk.manifests[disk.current]) == Some(Meta(version, logNumber, nextFileNumber, lastSequence))
      && LinkedTo(mem, imm, version, logNumber, logfileNumber, nextFileNumber, lastSequence,
                  Meta(version, logNumber, nextFileNumber, lastSequence), disk.logs, history, disk.oldest)
    }

    lemma LinkedHolds()
      requires Linked() && disk.Now() == Meta(version, logNumber, nextFileNumber, lastSequence)
      ensures LinkedAs(disk.history)
    {
      hide RecordsOk, TreeOk, TablesThere, LogsOk, Complete, LinkedTo, Edits;
    }

    lemma LinkedNow()
      requires LinkedAs(Tree(mem, imm, version))
      ensures Linked() <==> LinkedAs(disk.history)
    {
      hide RecordsOk, TreeOk, TablesThere, LogsOk, Complete, LinkedTo, Edits, Inv;
    }

    // With the manifest up to date, being linked as of a history is a question of reads only.
    lemma LinkedIff(other: set<Entry>, history: set<Entry>)
      requires LinkedAs(other)
      ensures LinkedAs(history) <==> Inv(mem, imm, version, nextFileNumber, history, lastSequence, disk.oldest)
    {
      var m := Meta(version, logNumber, nextFileNumber, lastSequence);
      DurableParts(disk.current, disk.manifests, disk.logs, disk.tables, other, disk.oldest, m);
      hide Durable, LogsOk, TablesThere, RecordsOk, Inv, MetaOf, Edits, BetweenEntries, LogEntries, LiveEntries;
      if Inv(mem, imm, version, nextFileNumber, history, lastSequence, disk.oldest) {
        LiveIsBoth(disk.logs, logNumber, logfileNumber);
        DurableFromInv(disk.current, disk.manifests, m, disk.logs, disk.tables, mem, imm, history, disk.oldest);
      }
    }

    static lemma DurableParts(current: nat, manifests: map<nat, seq<Record>>, logs: map<nat, Log>, tables: map<nat, TableFile>,
                              history: set<Entry>, oldest: nat, m: Meta)
      requires Durable(current, manifests, logs, tables, history, oldest) && MetaOf(manifests[current]) == Some(m)
      ensures current in manifests && EditsOk(Edits(manifests[current])) && RecordsOk(manifests[current], m.nextFile)
      ensures current < m.nextFile && m.logNumber < m.nextFile
      ensures TablesThere(m.version, tables) && LogsOk(logs, m.logNumber, m.version)
    {
      hide TablesThere, LogsOk, Complete, RecordsOk, TreeOk, Edits;
    }

    static lemma WhatIsDone(mem: seq<Entry>, imm: Option<seq<Entry>>, v: Version, v': Version, next': nat, history: set<Entry>, last: nat,
                            level: nat, inputs0: seq<File>, inputs1: seq<File>, snap: nat, rule: CutRule, fileSize: seq<Entry> -> nat)
      requires level < NUM_LEVELS && MergeDone(mem, imm, v, v', next', history, last, level, inputs0, inputs1, snap, rule, fileSize)
      ensures Merged(v, level, inputs0, inputs1, snap, rule, fileSize, v')
      ensures Inv(mem, imm, v', next', history, last, snap)
         <==> NothingResurrects(InputEntries(inputs0, inputs1), Rest(mem, imm, v, level, inputs0, inputs1), snap, v, level)
      ensures FilesAge(v) ==>
                (FilesAge(v') <==> AgeSafe(v, level, inputs0, inputs1, snap)) && MisleadsWhereParted(v, level, inputs0, inputs1, v')
      ensures NoStraddle(v) && snap == last ==> NoStraddle(v')
      ensures Inv(mem, imm, v', next', Tree(mem, imm, v'), last, snap) && VersionEntries(v') <= VersionEntries(v)
    {
      hide Merged, Inv, FilesAge, NoStraddle, AgeSafe, NothingResurrects, VersionEntries, MisleadsWhereParted;
    }

    static lemma MergedServes(mem: seq<Entry>, imm: Option<seq<Entry>>, v: Version, next': nat, history: set<Entry>, last: nat,
                              level: nat, inputs0: seq<File>, inputs1: seq<File>, snap: nat, edit: FileEdit, rule: CutRule, fileSize: seq<Entry> -> nat)
      requires level < NUM_LEVELS
      requires forall v' :: VersionOrdered(v') && EditedBy(v, edit, v') ==>
                 MergeDone(mem, imm, v, v', next', history, last, level, inputs0, inputs1, snap, rule, fileSize)
      ensures var keeps := NothingResurrects(InputEntries(inputs0, inputs1), Rest(mem, imm, v, level, inputs0, inputs1), snap, v, level);
              forall v' :: VersionOrdered(v') && EditedBy(v, edit, v') ==>
                Inv(mem, imm, v', next', if keeps then history else Tree(mem, imm, v'), last, snap)
                && VersionEntries(v') <= VersionEntries(v)
    {
      hide MergeDone, VersionOrdered, EditedBy, Inv, VersionEntries, Tree, NothingResurrects;
      var keeps := NothingResurrects(InputEntries(inputs0, inputs1), Rest(mem, imm, v, level, inputs0, inputs1), snap, v, level);
      forall v' | VersionOrdered(v') && EditedBy(v, edit, v')
        ensures Inv(mem, imm, v', next', if keeps then history else Tree(mem, imm, v'), last, snap)
        ensures VersionEntries(v') <= VersionEntries(v)
      {
        WhatIsDone(mem, imm, v, v', next', history, last, level, inputs0, inputs1, snap, rule, fileSize);
      }
    }

    // What was logged stays recoverable if the merge keeps reads; else reads are promised as of what the
    // tree holds.
    method InstallCompactionResults(edit: FileEdit, ghost number: nat, ghost snap: nat, ghost keeps: bool)
      requires Linked() && Numbered(version, number) && disk.Now().nextFile <= number <= nextFileNumber
      requires EditOk(edit) && Unused(edit.newFiles, number, nextFileNumber)
      requires forall p :: p in edit.newFiles ==> p.1.number in disk.tables && disk.tables[p.1.number] == Stored(p.1)
      requires forall v' :: VersionOrdered(v') && EditedBy(version, edit, v') ==>
                 Inv(mem, imm, v', nextFileNumber, if keeps then disk.history else Tree(mem, imm, v'), lastSequence, snap)
                 && VersionEntries(v') <= VersionEntries(version)
      modifies this`version, this`logNumber, disk`manifests, disk`history, disk`oldest
      ensures Linked() && disk.oldest == snap
      ensures disk.history == if keeps then old(disk.history) else Tree(mem, imm, version)
      ensures VersionOrdered(version) && EditedBy(old(version), edit, version)
      ensures disk.Now() == Meta(version, logNumber, nextFileNumber, lastSequence)
    {
      hide Durable, Inv, LogsOk, VersionEntries, TreeOk, Numbered, VersionOk, VersionOrdered, EditedBy, TablesThere, RecordsOk,
        Saved, Applied, NeverReadded, LiveEntries, BetweenEntries, LogEntries, Unused, Tree;
      ghost var m := disk.Now();
      InvTree(mem, imm, version, nextFileNumber, disk.history, lastSequence, disk.oldest);
      ManifestServes(disk);
      CurrentExists(disk);
      TablesAreThere(disk);
      ghost var r := RecordFor(edit, logNumber);
      AppendFresh(disk.manifests[disk.current], m.nextFile, r, number, nextFileNumber);
      UnusedIsFresh(version, number, edit.newFiles, nextFileNumber);
      EditResult(version, edit);
      ghost var v' := Saved(version, Applied(EMPTY_LEVELS, edit));
      TablesAfterEdit(version, edit, v', disk.tables);
      LogsRetired(disk.logs, logNumber, logNumber, version, v');
      LiveIsBoth(disk.logs, logNumber, logfileNumber);
      LogAndApply(edit, logNumber, if keeps then disk.history else Tree(mem, imm, v'), snap, mem, imm);
    }

    static method WriteOutputs(disk: Disk, level: nat, outs: seq<File>, fileSize: seq<Entry> -> nat, ghost next: nat)
      requires SizesRecorded(outs, fileSize)
      requires disk.Ok() && Numbered(disk.Now().version, next) && Unused(AddedAt(level, outs), next, next + |outs|)
      modifies disk`tables
      ensures disk.Ok()
      ensures forall p :: p in AddedAt(level, outs) ==> p.1.number in disk.tables && disk.tables[p.1.number] == Stored(p.1)
    {
      hide Durable, Numbered, AddedAt;
      ghost var m, news := disk.Now(), AddedAt(level, outs);
      var i := 0;
      while i < |outs|
        invariant i <= |outs| && disk.Ok() && disk.Now() == m
        invariant forall j :: 0 <= j < i ==> outs[j].number in disk.tables && disk.tables[outs[j].number] == Stored(outs[j])
      {
        var f := outs[i];
        assert news[i].1 == f && next <= f.number;
        NumberUnused(m.version, next, f.number);
        forall j | 0 <= j < i
          ensures outs[j].number != f.number
        {
          assert news[j].1.number < news[i].1.number;
        }
        disk.WriteTable(f.number, TableFile(fileSize(f.entries), f.entries));
        i := i + 1;
      }
      forall p | p in news
        ensures p.1.number in disk.tables && disk.tables[p.1.number] == Stored(p.1)
      {
        var j :| 0 <= j < |news| && news[j] == p;
      }
    }

    static lemma NumberUnused(v: Version, next: nat, n: nat)
      requires Numbered(v, next) && n >= next
      ensures forall l, f :: 0 <= l < NUM_LEVELS && f in v[l] ==> f.number != n
    {}
  }

  // ---- Opening ----

  // VersionSet::Recover: one builder takes every edit; a later number overrides an earlier one.
  method ReadManifest(records: seq<Record>) returns (m: Option<Meta>)
    requires EditsOk(Edits(records))
    ensures m == MetaOf(records)
  {
    var builder := new Builder(EMPTY_VERSION);
    var logNumber, nextFile, lastSequence: Option<nat> := None, None, None;
    var i := 0;
    assert Edits(records[..0]) == [];
    while i < |records|
      invariant i <= |records| && EditsOk(Edits(records[..i])) && builder.levels == AppliedAll(Edits(records[..i]))
      invariant logNumber == LogNumber(records[..i]) && nextFile == NextFile(records[..i])
      invariant lastSequence == LastSequence(records[..i])
    {
      var r := records[i];
      NextRecord(records, i);
      builder.Apply(r.edit);
      logNumber := Override(logNumber, r.logNumber);
      nextFile := Override(nextFile, r.nextFile);
      lastSequence := Override(lastSequence, r.lastSequence);
      i := i + 1;
    }
    assert records[..|records|] == records;
    if nextFile.None? || logNumber.None? || lastSequence.None? {
      return None;
    }
    var v := builder.SaveTo();
    m := Some(Meta(v, logNumber.value, nextFile.value, lastSequence.value));
  }

  lemma NextRecord(records: seq<Record>, i: nat)
    requires i < |records| && EditsOk(Edits(records)) && EditsOk(Edits(records[..i]))
    ensures EditOk(records[i].edit) && EditsOk(Edits(records[..i + 1]))
    ensures AppliedAll(Edits(records[..i + 1])) == Applied(AppliedAll(Edits(records[..i])), records[i].edit)
    ensures LogNumber(records[..i + 1]) == Override(LogNumber(records[..i]), records[i].logNumber)
    ensures NextFile(records[..i + 1]) == Override(NextFile(records[..i]), records[i].nextFile)
    ensures LastSequence(records[..i + 1]) == Override(LastSequence(records[..i]), records[i].lastSequence)
  {
    hide Applied, AppliedAll;
    var front, r := records[..i], records[i];
    assert records[..i + 1] == front + [r];
    assert Edits(records)[i] in Edits(records) && Edits(records)[i] == r.edit;
    EditsNext(front, r);
    NumbersNext(front, r);
    LastEdit(EMPTY_VERSION, Edits(front) + [r.edit]);
    assert (Edits(front) + [r.edit])[..|front|] == Edits(front);
  }

  // What replaying the logs has built: tables in order of age, each under its own number, on disk.
  ghost predicate Replayed(fs: seq<File>, next0: nat, next: nat, tables: map<nat, TableFile>) {
    (forall i :: 0 <= i < |fs| ==> FileOk(fs[i]) && next0 <= fs[i].number < next)
    && (forall i :: 0 <= i < |fs| ==> fs[i].number in tables && tables[fs[i].number] == Stored(fs[i]))
    && forall i, j :: 0 <= i < j < |fs| ==> fs[i].number < fs[j].number && SnBelow(Elements(fs[i].entries), Elements(fs[j].entries))
  }

  ghost predicate SnBelow(a: set<Entry>, b: set<Entry>) {
    forall e, f :: e in a && f in b ==> e.sn < f.sn
  }

  // One more table, newer than the others.
  lemma ReplayedNext(fs: seq<File>, next0: nat, next: nat, tables: map<nat, TableFile>, f: File, tables': map<nat, TableFile>)
    requires Replayed(fs, next0, next, tables) && next0 <= next && FileOk(f) && f.number == next
    requires tables' == tables[next := Stored(f)] && SnBelow(LevelEntries(fs), Elements(f.entries))
    ensures Replayed(fs + [f], next0, next + 1, tables') && LevelEntries(fs + [f]) == LevelEntries(fs) + Elements(f.entries)
  {
    hide FileOk;
    forall i | 0 <= i < |fs|
      ensures SnBelow(Elements(fs[i].entries), Elements(f.entries))
    {
      assert forall e :: e in fs[i].entries ==> fs[i] in fs && e in LevelEntries(fs);
    }
    assert forall g :: g in fs + [f] <==> g in fs || g == f;
  }

  lemma ReplayedLater(fs: seq<File>, next0: nat, next: nat, tables: map<nat, TableFile>, next': nat)
    requires Replayed(fs, next0, next, tables) && next <= next'
    ensures Replayed(fs, next0, next', tables)
  {
    hide FileOk, SnBelow;
  }

  // The tables that i batches of a log make, each written out once its memtable uses more than the limit, and
  // the memtable that is being filled.
  function TablesOfLog(log: Log, i: nat, options: Options): (seq<seq<Entry>>, Option<seq<Entry>>)
    requires i <= |log|
  {
    if i == 0 then ([], None)
    else
      var (full, mem) := TablesOfLog(log, i - 1, options);
      var table := Inserted(log[i - 1].ops, |log[i - 1].ops|, log[i - 1].first, TableOf(mem));
      if options.memoryUsage(table) > options.writeBufferSize then (full + WrittenOut(table), None) else (full, Some(table))
  }

  // An empty memtable makes no table.
  function WrittenOut(table: seq<Entry>): seq<seq<Entry>> {
    if table == [] then [] else [table]
  }

  // ... with what is left of the last memtable.
  function AllTablesOfLog(log: Log, options: Options): seq<seq<Entry>> {
    var (full, mem) := TablesOfLog(log, |log|, options);
    full + WrittenOut(TableOf(mem))
  }

  // WriteLevel0Table without a version to push the table down in.
  method WriteRecoveredTable(disk: Disk, options: Options, mem: seq<Entry>, fs: seq<File>, ghost next0: nat, next: nat)
    returns (fs': seq<File>, next': nat)
    requires disk.Ok() && Numbered(disk.Now().version, next0) && next0 <= next && Replayed(fs, next0, next, disk.tables)
    requires Sorted(mem) && SnBelow(LevelEntries(fs), Elements(mem)) && forall e :: e in mem ==> e.sn <= MAX_SEQUENCE
    modifies disk`tables
    ensures disk.Ok() && next' == next + 1 && Replayed(fs', next0, next', disk.tables)
    ensures LevelEntries(fs') == LevelEntries(fs) + Elements(mem)
    ensures SizesRecorded(fs, options.fileSize) ==> SizesRecorded(fs', options.fileSize)
    ensures TablesIn(fs') == TablesIn(fs) + WrittenOut(mem)
    ensures disk.tables == if mem == [] then old(disk.tables) else old(disk.tables)[next := TableFile(options.fileSize(mem), mem)]
  {
    hide Durable, Sorted, SnBelow, SizesRecorded, FileOk, LevelEntries, Elements, Replayed, Numbered;
    next' := next + 1;
    if mem == [] {
      NoElements();
      fs' := fs;
      ReplayedLater(fs, next0, next, disk.tables, next');
    } else {
      Db.NumberUnused(disk.Now().version, next0, next);
      ghost var tables := disk.tables;
      disk.WriteTable(next, TableFile(options.fileSize(mem), mem));
      var f := File(next, options.fileSize(mem), mem[0].Ikey(), mem[|mem| - 1].Ikey(), mem);
      assert FileOk(f) by { RecoveredFileOk(f); }
      ReplayedNext(fs, next0, next, tables, f, disk.tables);
      OneMoreRecorded(fs, f, options.fileSize);
      fs' := fs + [f];
    }
  }

  lemma RecoveredFileOk(f: File)
    requires f.entries != [] && Sorted(f.entries) && forall e :: e in f.entries ==> e.sn <= MAX_SEQUENCE
    requires f.smallest == f.entries[0].Ikey() && f.largest == f.entries[|f.entries| - 1].Ikey()
    ensures FileOk(f)
  {
    assert f.entries[0] in f.entries && f.entries[|f.entries| - 1] in f.entries;
  }

  lemma OneMoreRecorded(fs: seq<File>, f: File, fileSize: seq<Entry> -> nat)
    requires f.size == fileSize(f.entries)
    ensures SizesRecorded(fs, fileSize) ==> SizesRecorded(fs + [f], fileSize)
    ensures TablesIn(fs + [f]) == TablesIn(fs) + [f.entries]
  {}

  // The state of a replay: what came before this log and i of its batches are in tables and memtable.
  ghost predicate Replaying(log: Log, i: nat, before: set<Entry>, tables: set<Entry>, mem: Option<seq<Entry>>)
    requires i <= |log|
  {
    tables + ImmEntries(mem) == before + LogEntries(log[..i])
    && (mem.Some? ==> Sorted(mem.value) && SnBelow(tables, Elements(mem.value)))
  }

  function TableOf(mem: Option<seq<Entry>>): seq<Entry> {
    if mem.Some? then mem.value else []
  }

  lemma ReplayStarts(log: Log, before: set<Entry>)
    ensures Replaying(log, 0, before, before, None)
  {
    assert LogEntries(log[..0]) == {};
  }

  lemma LogNext(log: Log, i: nat)
    requires i < |log|
    ensures LogEntries(log[..i + 1]) == LogEntries(log[..i]) + log[i].Entries()
    ensures forall b :: b in log[..i + 1] <==> b in log[..i] || b == log[i]
  {
    hide Batch.Entries;
    assert log[..i + 1] == log[..i] + [log[i]];
    assert forall e :: e in LogEntries(log[..i + 1]) <==> e in LogEntries(log[..i]) || e in log[i].Entries();
  }

  // Everything replayed so far is older than the next batch.
  lemma NextBatchIsNewer(log: Log, i: nat, before: set<Entry>, tables: set<Entry>, mem: Option<seq<Entry>>)
    requires i < |log| && Replaying(log, i, before, tables, mem) && Rising(log)
    requires forall e, b :: e in before && b in log ==> e.sn < b.first
    ensures Sorted(TableOf(mem)) && (forall e :: e in TableOf(mem) ==> e.sn < log[i].first)
    ensures Elements(TableOf(mem)) == ImmEntries(mem) && forall e :: e in tables ==> e.sn < log[i].first
    ensures 0 < log[i].first && log[i].End() <= MAX_SEQUENCE
  {
    hide Batch.Entries;
    assert log[i] in log;
    forall e | e in tables + ImmEntries(mem)
      ensures e.sn < log[i].first
    {
      if e in LogEntries(log[..i]) {
        var b :| b in log[..i] && e in b.Entries();
        var j :| 0 <= j < i && log[j] == b;
        BatchAbove(b);
      }
    }
    assert forall e :: e in TableOf(mem) ==> e in ImmEntries(mem);
  }

  lemma BatchReplayed(log: Log, i: nat, before: set<Entry>, tables: set<Entry>, mem: Option<seq<Entry>>, table: seq<Entry>)
    requires i < |log| && Replaying(log, i, before, tables, mem)
    requires forall e :: e in tables ==> e.sn < log[i].first
    requires Sorted(table) && Elements(table) == ImmEntries(mem) + log[i].Entries()
    ensures Replaying(log, i + 1, before, tables, Some(table))
  {
    hide LogEntries, Batch.Entries, Sorted;
    LogNext(log, i);
    BatchAbove(log[i]);
  }

  lemma TableBelowMax(log: Log, i: nat, before: set<Entry>, tables: set<Entry>, mem: Option<seq<Entry>>)
    requires 0 < i <= |log| && Replaying(log, i, before, tables, mem) && Rising(log)
    requires forall e, b :: e in before && b in log ==> e.sn < b.first
    ensures forall e :: e in TableOf(mem) ==> e.sn <= MAX_SEQUENCE
  {
    hide Batch.Entries;
    forall e | e in ImmEntries(mem)
      ensures e.sn <= MAX_SEQUENCE
    {
      if e in LogEntries(log[..i]) {
        var b :| b in log[..i] && e in b.Entries();
        assert b in log;
        BatchAbove(b);
      } else {
        assert log[0] in log;
      }
    }
    assert forall e :: e in TableOf(mem) ==> e in ImmEntries(mem);
  }

  // RecoverLogFile: replay the batches in order into memtables, each written out when it is full.
  method RecoverLogFile(disk: Disk, options: Options, log: Log, fs0: seq<File>, ghost next0: nat, start: nat, maxSequence0: nat)
    returns (fs: seq<File>, next: nat, maxSequence: nat)
    requires disk.Ok() && Numbered(disk.Now().version, next0) && next0 <= start && Replayed(fs0, next0, start, disk.tables)
    requires Rising(log) && forall e, b :: e in LevelEntries(fs0) && b in log ==> e.sn < b.first
    requires maxSequence0 < MAX_SEQUENCE
    modifies disk`tables
    ensures disk.Ok() && start <= next && Replayed(fs, next0, next, disk.tables)
    ensures LevelEntries(fs) == LevelEntries(fs0) + LogEntries(log)
    ensures maxSequence0 <= maxSequence < MAX_SEQUENCE && forall b :: b in log ==> b.End() <= maxSequence + 1
    ensures SizesRecorded(fs0, options.fileSize) ==> SizesRecorded(fs, options.fileSize)
    ensures TablesIn(fs) == TablesIn(fs0) + AllTablesOfLog(log, options)
  {
    hide Durable, Replayed, Rising, Sorted, Elements, LevelEntries, LogEntries, BatchEntries, SnBelow, Replaying, Numbered, Inserted,
      SizesRecorded;
    ghost var m, before := disk.Now(), LevelEntries(fs0);
    fs, next, maxSequence := fs0, start, maxSequence0;
    var mem: Option<seq<Entry>> := None;
    var i := 0;
    ReplayStarts(log, before);
    while i < |log|
      invariant i <= |log| && disk.Ok() && disk.Now() == m && start <= next && Replayed(fs, next0, next, disk.tables)
      invariant Replaying(log, i, before, LevelEntries(fs), mem) && (mem.Some? ==> i > 0)
      invariant SizesRecorded(fs0, options.fileSize) ==> SizesRecorded(fs, options.fileSize)
      invariant TablesOfLog(log, i, options).1 == mem && TablesIn(fs) == TablesIn(fs0) + TablesOfLog(log, i, options).0
      invariant maxSequence0 <= maxSequence < MAX_SEQUENCE
      invariant forall b :: b in log[..i] ==> b.End() <= maxSequence + 1
    {
      var b := log[i];
      NextBatchIsNewer(log, i, before, LevelEntries(fs), mem);
      var table := InsertInto(b.ops, b.first, TableOf(mem));
      BatchReplayed(log, i, before, LevelEntries(fs), mem, table);
      LogNext(log, i);
      mem := Some(table);
      if b.End() - 1 > maxSequence {
        maxSequence := b.End() - 1;
      }
      i := i + 1;
      if options.memoryUsage(table) > options.writeBufferSize {
        TableBelowMax(log, i, before, LevelEntries(fs), mem);
        ReplayingServes(log, i, before, LevelEntries(fs), mem);
        fs, next := WriteRecoveredTable(disk, options, table, fs, next0, next);
        mem := None;
        TableWritten(log, i, before, LevelEntries(fs));
      }
    }
    assert log[..|log|] == log;
    if mem.Some? {
      TableBelowMax(log, i, before, LevelEntries(fs), mem);
      ReplayingServes(log, i, before, LevelEntries(fs), mem);
      fs, next := WriteRecoveredTable(disk, options, mem.value, fs, next0, next);
    } else {
      ReplayingServes(log, i, before, LevelEntries(fs), mem);
    }
  }

  lemma ReplayingServes(log: Log, i: nat, before: set<Entry>, tables: set<Entry>, mem: Option<seq<Entry>>)
    requires i <= |log| && Replaying(log, i, before, tables, mem)
    ensures tables + Elements(TableOf(mem)) == before + LogEntries(log[..i])
    ensures Sorted(TableOf(mem)) && SnBelow(tables, Elements(TableOf(mem)))
    ensures mem.None? ==> tables == before + LogEntries(log[..i])
  {
    hide LogEntries;
    assert mem.None? ==> Elements(TableOf(mem)) == {};
  }

  lemma TableWritten(log: Log, i: nat, before: set<Entry>, tables: set<Entry>)
    requires i <= |log| && tables == before + LogEntries(log[..i])
    ensures Replaying(log, i, before, tables, None)
  {}

  // ---- The recovered tree ----

  lemma RecoveredTree(v: Version, next0: nat, fs: seq<File>, next: nat, tables: map<nat, TableFile>, v': Version)
    requires TreeOk(v, next0) && Replayed(fs, next0, next, tables) && next0 <= next
    requires SnBelow(VersionEntries(v), LevelEntries(fs))
    requires VersionOrdered(v') && EditedBy(v, FileEdit({}, AddedAt(0, fs)), v')
    ensures TreeOk(v', next) && VersionEntries(v') == VersionEntries(v) + LevelEntries(fs)
    ensures (FilesAge(v) ==> FilesAge(v')) && (NoStraddle(v) ==> NoStraddle(v'))
  {
    hide FilesAge, FilesInOrder, VersionOrdered, VersionEntries, FileOk, AllFilesOk, Numbered, Replayed, SnBelow, LevelEntries,
      EntriesOnce, NoStraddle, Level0Age;
    EditAddsLevel0(v, fs, v');
    hide EditedBy, AddedLevel0;
    RecoveredNumbers(v, next0, fs, next, tables, v');
    RecoveredAge0(v, next0, fs, next, tables, v');
    if FilesAge(v) {
      RecoveredAges(v, next0, fs, next, tables, v');
    }
    RecoveredOnce(v, next0, fs, next, tables, v');
    RecoveredApart(v, fs, v');
    RecoveredEntries(v, fs, v');
  }

  ghost predicate AddedLevel0(v: Version, fs: seq<File>, v': Version) {
    (forall g :: g in v'[0] <==> g in v[0] || g in fs)
    && forall l: nat, g {:trigger g in v'[l]} {:trigger g in v[l]} :: 1 <= l < NUM_LEVELS ==> (g in v'[l] <==> g in v[l])
  }

  lemma EditAddsLevel0(v: Version, fs: seq<File>, v': Version)
    requires EditedBy(v, FileEdit({}, AddedAt(0, fs)), v')
    ensures AddedLevel0(v, fs, v')
  {
    hide AddedAt;
    forall g
      ensures g in v'[0] <==> g in v[0] || g in fs
    {
      AddedIsOutput(0, fs, 0, g);
    }
    forall l: nat, g | 1 <= l < NUM_LEVELS
      ensures g in v'[l] <==> g in v[l]
    {
      AddedIsOutput(0, fs, l, g);
    }
  }

  lemma RecoveredNumbers(v: Version, next0: nat, fs: seq<File>, next: nat, tables: map<nat, TableFile>, v': Version)
    requires AllFilesOk(v) && Numbered(v, next0) && Replayed(fs, next0, next, tables) && next0 <= next
    requires AddedLevel0(v, fs, v')
    ensures AllFilesOk(v') && Numbered(v', next)
  {
    hide FileOk, SnBelow;
    forall f | f in fs
      ensures FileOk(f) && next0 <= f.number < next
    {}
    forall f, g | f in fs && g in fs && f.number == g.number
      ensures f == g
    {}
  }

  lemma RecoveredAges(v: Version, next0: nat, fs: seq<File>, next: nat, tables: map<nat, TableFile>, v': Version)
    requires FilesAge(v) && Numbered(v, next0) && Replayed(fs, next0, next, tables) && AddedLevel0(v, fs, v')
    requires SnBelow(VersionEntries(v), LevelEntries(fs))
    ensures FilesAge(v')
  {
    forall l: nat, f, g | l < NUM_LEVELS && f in fs && g in v[l]
      ensures FileNewer(f, g)
    {
      hide FileNewer, FileOk, Replayed, Numbered;
      RecoveredNewer(v, next0, fs, next, tables, f, l, g);
    }
    hide Replayed, FileNewer, SnBelow, VersionEntries, LevelEntries, Numbered;
  }

  lemma RecoveredAge0(v: Version, next0: nat, fs: seq<File>, next: nat, tables: map<nat, TableFile>, v': Version)
    requires Level0Age(v) && Numbered(v, next0) && Replayed(fs, next0, next, tables) && AddedLevel0(v, fs, v')
    requires SnBelow(VersionEntries(v), LevelEntries(fs))
    ensures Level0Age(v')
  {
    hide FileNewer, FileOk, Replayed, Numbered, SnBelow, VersionEntries, LevelEntries;
    forall f, g | f in v'[0] && g in v'[0] && f.number > g.number
      ensures FileNewer(f, g)
    {
      if f in fs && g in fs {
        RecoveredInOrder(fs, next0, next, tables, f, g);
      } else if f in fs {
        RecoveredNewer(v, next0, fs, next, tables, f, 0, g);
      } else if g in fs {
        RecoveredNewer(v, next0, fs, next, tables, g, 0, f);
      }
    }
  }

  lemma RecoveredNewer(v: Version, next0: nat, fs: seq<File>, next: nat, tables: map<nat, TableFile>, f: File, l: nat, g: File)
    requires Numbered(v, next0) && Replayed(fs, next0, next, tables) && f in fs && l < NUM_LEVELS && g in v[l]
    requires SnBelow(VersionEntries(v), LevelEntries(fs))
    ensures FileNewer(f, g) && f.number > g.number
  {
    hide FileOk;
    assert forall e :: e in g.entries ==> e in VersionEntries(v);
    assert forall e :: e in f.entries ==> e in LevelEntries(fs);
  }

  lemma RecoveredInOrder(fs: seq<File>, next0: nat, next: nat, tables: map<nat, TableFile>, f: File, g: File)
    requires Replayed(fs, next0, next, tables) && f in fs && g in fs && f.number > g.number
    ensures FileNewer(f, g)
  {
    hide FileOk;
    var i :| 0 <= i < |fs| && fs[i] == f;
    var j :| 0 <= j < |fs| && fs[j] == g;
  }

  lemma RecoveredApart(v: Version, fs: seq<File>, v': Version)
    requires AddedLevel0(v, fs, v')
    ensures FilesInOrder(v) ==> FilesInOrder(v')
    ensures NoStraddle(v) ==> NoStraddle(v')
  {
    hide InOrder, Apart;
  }

  lemma RecoveredOnce(v: Version, next0: nat, fs: seq<File>, next: nat, tables: map<nat, TableFile>, v': Version)
    requires EntriesOnce(v) && Numbered(v, next0) && Replayed(fs, next0, next, tables) && AddedLevel0(v, fs, v')
    requires SnBelow(VersionEntries(v), LevelEntries(fs))
    ensures EntriesOnce(v')
  {
    hide Replayed, FileNewer, SnBelow, VersionEntries, LevelEntries, Numbered, NoneShared;
    forall l, m, x, y | 0 <= l < NUM_LEVELS && 0 <= m < NUM_LEVELS && x in v'[l] && y in v'[m] && x.number != y.number
      ensures NoneShared(x, y)
    {
      if x in fs && y in fs {
        if x.number > y.number {
          RecoveredInOrder(fs, next0, next, tables, x, y);
          NewerSharesNone(x, y);
        } else {
          RecoveredInOrder(fs, next0, next, tables, y, x);
          NewerSharesNone(y, x);
        }
      } else if x in fs {
        RecoveredNewer(v, next0, fs, next, tables, x, m, y);
        NewerSharesNone(x, y);
      } else if y in fs {
        RecoveredNewer(v, next0, fs, next, tables, y, l, x);
        NewerSharesNone(y, x);
      }
    }
  }

  lemma RecoveredEntries(v: Version, fs: seq<File>, v': Version)
    requires AddedLevel0(v, fs, v')
    ensures VersionEntries(v') == VersionEntries(v) + LevelEntries(fs)
  {
    forall e
      ensures e in VersionEntries(v') <==> e in VersionEntries(v) || e in LevelEntries(fs)
    {
      if e in LevelEntries(fs) {
        var f :| f in fs && e in f.entries;
        assert f in v'[0];
      } else if e in VersionEntries(v) {
        var l, f :| 0 <= l < NUM_LEVELS && f in v[l] && e in f.entries;
        assert f in v'[l];
      }
    }
  }

  // Reading the recovered tree is reading the history.
  lemma RecoveredInv(m: Meta, logs: map<nat, Log>, history: set<Entry>, oldest: nat, v': Version, next: nat, last: nat)
    requires Complete(m, logs, history, oldest) && TreeOk(v', next) && VersionEntries(v') == Recoverable(m, logs)
    requires m.lastSequence <= last < MAX_SEQUENCE && forall e :: e in LiveEntries(logs, m.logNumber) ==> e.sn <= last
    ensures Inv([], None, v', next, history, last, oldest)
  {
    hide TreeOk, ReadAlike, LiveEntries, VersionEntries;
    assert Tree([], None, v') == VersionEntries(v');
    assert Elements([]) == {};
  }

  // ---- DB::Open ----

  // What some of the logs hold.
  ghost function SomeLogs(logs: map<nat, Log>, numbers: set<nat>): set<Entry> {
    set k, b, e | k in numbers && k in logs && b in logs[k] && e in b.Entries() :: e
  }

  lemma SomeLogsNext(logs: map<nat, Log>, numbers: set<nat>, k: nat)
    requires k in logs
    ensures SomeLogs(logs, numbers + {k}) == SomeLogs(logs, numbers) + LogEntries(logs[k])
    ensures SomeLogs(logs, {}) == {}
  {
    hide Batch.Entries;
    assert forall e :: e in SomeLogs(logs, numbers + {k}) <==> e in SomeLogs(logs, numbers) || e in LogEntries(logs[k]);
  }

  lemma AllLiveLogs(logs: map<nat, Log>, from: nat, numbers: set<nat>)
    requires forall k :: k in numbers <==> k in logs && k >= from
    ensures SomeLogs(logs, numbers) == LiveEntries(logs, from)
  {
    hide Batch.Entries;
    assert forall e :: e in SomeLogs(logs, numbers) <==> e in LiveEntries(logs, from);
  }

  method Least(numbers: set<nat>) returns (k: nat)
    requires numbers != {}
    ensures k in numbers && forall j :: j in numbers ==> k <= j
  {
    var start: nat :| start in numbers;
    k := start;
    var todo := numbers - {start};
    while todo != {}
      invariant todo <= numbers && k in numbers && forall j :: j in numbers && j !in todo ==> k <= j
      decreases |todo|
    {
      var j: nat :| j in todo;
      if j < k {
        k := j;
      }
      todo := todo - {j};
    }
  }

  // The next log in order: everything replayed is older.
  lemma NextLogIsNewer(logs: map<nat, Log>, m: Meta, done: set<nat>, k: nat)
    requires LogsOk(logs, m.logNumber, m.version) && k in logs && k >= m.logNumber
    requires forall j :: j in done ==> j in logs && m.logNumber <= j < k
    ensures Rising(logs[k]) && forall e, b :: e in SomeLogs(logs, done) && b in logs[k] ==> e.sn < b.first
  {
    hide Rising, TablesBefore, Batch.Entries;
    forall e, b | e in SomeLogs(logs, done) && b in logs[k]
      ensures e.sn < b.first
    {
      var j, x :| j in done && j in logs && x in logs[j] && e in x.Entries();
      assert LogBefore(logs[j], logs[k]);
      BatchAbove(x);
    }
  }

  // Of the live logs, those numbered `done` are in tables.
  ghost predicate LogsReplayed(logs: map<nat, Log>, from: nat, done: set<nat>, fs: seq<File>, next: nat, maxSequence: nat) {
    LevelEntries(fs) == SomeLogs(logs, done)
    && (forall k :: k in done ==> k in logs && from <= k < next)
    && forall k, b :: k in done && k in logs && b in logs[k] ==> b.End() <= maxSequence + 1
  }

  lemma LogReplayed(logs: map<nat, Log>, from: nat, done: set<nat>, fs: seq<File>, next: nat, maxSequence: nat, k: nat,
                    fs': seq<File>, next': nat, maxSequence': nat)
    requires LogsReplayed(logs, from, done, fs, next, maxSequence) && k in logs && from <= k
    requires LevelEntries(fs') == LevelEntries(fs) + LogEntries(logs[k]) && next <= next' && k < next'
    requires maxSequence <= maxSequence' && forall b :: b in logs[k] ==> b.End() <= maxSequence' + 1
    ensures LogsReplayed(logs, from, done + {k}, fs', next', maxSequence')
  {
    hide LogEntries, LevelEntries, SomeLogs;
    SomeLogsNext(logs, done, k);
  }

  lemma AllReplayed(logs: map<nat, Log>, from: nat, done: set<nat>, fs: seq<File>, next: nat, maxSequence: nat)
    requires LogsReplayed(logs, from, done, fs, next, maxSequence) && from < next
    requires forall k :: k in done <==> k in logs && k >= from
    ensures LevelEntries(fs) == LiveEntries(logs, from) && LoggedUpTo(logs, from, maxSequence)
    ensures forall k :: k in logs ==> k < next
  {
    AllLiveLogs(logs, from, done);
    hide LevelEntries, LiveEntries, SomeLogs;
  }

  // The logs from the manifest's log number on, in order.
  method ReplayLogs(disk: Disk, options: Options) returns (fs: seq<File>, next: nat, maxSequence: nat)
    requires disk.Ok()
    modifies disk`tables
    ensures disk.Ok()
    ensures var m := disk.Now();
            m.nextFile < next && Replayed(fs, m.nextFile, next, disk.tables)
            && LevelEntries(fs) == LiveEntries(disk.logs, m.logNumber)
            && LoggedUpTo(disk.logs, m.logNumber, maxSequence) && maxSequence < MAX_SEQUENCE
            && forall k :: k in disk.logs ==> k < next
    ensures SizesRecorded(fs, options.fileSize)
  {
    hide Durable, Replayed, LogsOk, LogEntries, SomeLogs, LevelEntries, LiveEntries, Numbered, Rising, LogsReplayed, TreeOk,
      RecordsOk, LoggedUpTo, SizesRecorded, AllTablesOfLog;
    assert SizesRecorded([], options.fileSize) by { NoneToRecord(options.fileSize); }
    ghost var m: Meta, logs: map<nat, Log> := disk.Now(), disk.logs;
    Db.ManifestServes(disk);
    var meta := ReadCurrent(disk);
    fs, next, maxSequence := [], meta.nextFile + 1, 0;
    var todo: set<nat> := set k: nat | k in disk.logs.Keys && k >= meta.logNumber;
    ghost var done: set<nat> := {};
    NothingReplayed(logs, m.logNumber, m.nextFile, next, disk.tables);
    while todo != {}
      invariant disk.Ok() && disk.Now() == m
      invariant forall j, k :: j in done && k in todo ==> j < k
      invariant forall k :: k in done || k in todo <==> k in logs && k >= m.logNumber
      invariant m.nextFile < next && Replayed(fs, m.nextFile, next, disk.tables) && SizesRecorded(fs, options.fileSize)
      invariant LogsReplayed(logs, m.logNumber, done, fs, next, maxSequence) && maxSequence < MAX_SEQUENCE
      decreases |todo|
    {
      var k := Least(todo);
      NextLogIsNewer(logs, m, done, k);
      assert LevelEntries(fs) == SomeLogs(logs, done) by { ReplayedSoFar(logs, m.logNumber, done, fs, next, maxSequence); }
      ghost var fs0, next0, max0 := fs, next, maxSequence;
      fs, next, maxSequence := RecoverLogFile(disk, options, disk.logs[k], fs, m.nextFile, next, maxSequence);
      // MarkFileNumberUsed
      if next <= k {
        ReplayedLater(fs, m.nextFile, next, disk.tables, k + 1);
        next := k + 1;
      }
      LogReplayed(logs, m.logNumber, done, fs0, next0, max0, k, fs, next, maxSequence);
      todo := todo - {k};
      done := done + {k};
    }
    AllReplayed(logs, m.logNumber, done, fs, next, maxSequence);
  }

  lemma ReplayedSoFar(logs: map<nat, Log>, from: nat, done: set<nat>, fs: seq<File>, next: nat, maxSequence: nat)
    requires LogsReplayed(logs, from, done, fs, next, maxSequence)
    ensures LevelEntries(fs) == SomeLogs(logs, done)
  {}

  lemma NothingReplayed(logs: map<nat, Log>, from: nat, next0: nat, next: nat, tables: map<nat, TableFile>)
    ensures Replayed([], next0, next, tables) && LogsReplayed(logs, from, {}, [], next, 0)
  {}

  // The manifest CURRENT names, which an Ok disk has and can read.
  method ReadCurrent(disk: Disk) returns (m: Meta)
    requires disk.Ok()
    ensures m == disk.Now()
  {
    hide TablesThere, LogsOk, Complete, RecordsOk, TreeOk;
    var meta := ReadManifest(disk.manifests[disk.current]);
    m := meta.value;
  }

  // ---- The new manifest ----

  lemma NewManifestReplays(v: Version, next0: nat, edit: FileEdit, newLogNumber: nat, next: nat, last: nat)
    requires Numbered(v, next0) && VersionOrdered(v) && next0 <= next && EditOk(edit) && Unused(edit.newFiles, next0, next)
    ensures var records := [SnapshotRecord(v), Record(edit, Some(newLogNumber), Some(next), Some(last))];
            var v' := Saved(v, Applied(EMPTY_LEVELS, edit));
            EditsOk(Edits(records)) && RecordsOk(records, next) && MetaOf(records) == Some(Meta(v', newLogNumber, next, last))
            && VersionOrdered(v') && EditedBy(v, edit, v')
  {
    hide Numbered, VersionOrdered, RecordsOk, Unused, Saved, Applied, VersionOf, SnapshotRecord, Edits, NeverReadded, EditedBy;
    var r0, r1 := SnapshotRecord(v), Record(edit, Some(newLogNumber), Some(next), Some(last));
    SnapshotReplays(v, next0);
    assert EditsOk(Edits([r0])) by { OkIsEditsOk([r0], next0); }
    AppendFresh([r0], next0, r1, next0, next);
    assert [r0] + [r1] == [r0, r1];
    NumbersNext([r0], r1);
    OkIsEditsOk([r0, r1], next);
    UnusedIsFresh(v, next0, edit.newFiles, next);
    EditResult(v, edit);
  }

  lemma OkIsEditsOk(records: seq<Record>, bound: nat)
    requires RecordsOk(records, bound)
    ensures EditsOk(Edits(records))
  {}

  lemma ReplayedAreUnused(fs: seq<File>, next0: nat, next: nat, tables: map<nat, TableFile>)
    requires Replayed(fs, next0, next, tables)
    ensures Unused(AddedAt(0, fs), next0, next)
    ensures forall p :: p in AddedAt(0, fs) ==> p.0 == 0 && p.1.number in tables && tables[p.1.number] == Stored(p.1)
  {
    hide FileOk, SnBelow;
    var news := AddedAt(0, fs);
    forall p | p in news
      ensures p.0 == 0 && p.1.number in tables && tables[p.1.number] == Stored(p.1)
    {
      var i :| 0 <= i < |news| && news[i] == p;
    }
  }

  lemma OnlyNewLog(logs: map<nat, Log>, n: nat, v: Version, last: nat)
    requires forall k :: k in logs ==> k < n
    ensures var logs': map<nat, Log> := logs[n := []];
            LogsOk(logs', n, v) && LiveEntries(logs', n) == {} && LogEntries(logs'[n]) == {}
            && BetweenEntries(logs', n, n) == {} && LoggedUpTo(logs', n, last)
  {}

  lemma TablesBelowLogs(logs: map<nat, Log>, from: nat, v: Version, last: nat)
    requires LogsOk(logs, from, v) && LoggedUpTo(logs, from, last)
    ensures SnBelow(VersionEntries(v), LiveEntries(logs, from))
    ensures forall e :: e in LiveEntries(logs, from) ==> e.sn <= last
  {
    hide VersionEntries, Rising, Batch.Entries;
    forall e, f | e in VersionEntries(v) && f in LiveEntries(logs, from)
      ensures e.sn < f.sn
    {
      var k, b :| k in logs && k >= from && b in logs[k] && f in b.Entries();
      assert TablesBefore(v, logs[k]);
      BatchAbove(b);
    }
    forall e | e in LiveEntries(logs, from)
      ensures e.sn <= last
    {
      var k, b :| k in logs && k >= from && b in logs[k] && e in b.Entries();
      BatchAbove(b);
    }
  }

  // What the database starts with, and that its record may be committed.
  lemma RecoveredState(m: Meta, logs: map<nat, Log>, tables: map<nat, TableFile>, history: set<Entry>, oldest: nat,
                       fs: seq<File>, next: nat, last: nat, v': Version)
    requires Complete(m, logs, history, oldest) && TreeOk(m.version, m.nextFile) && LogsOk(logs, m.logNumber, m.version)
    requires Replayed(fs, m.nextFile, next, tables) && m.nextFile <= next && TablesThere(m.version, tables)
    requires LevelEntries(fs) == LiveEntries(logs, m.logNumber) && LoggedUpTo(logs, m.logNumber, last)
    requires m.lastSequence <= last < MAX_SEQUENCE
    requires VersionOrdered(v') && EditedBy(m.version, FileEdit({}, AddedAt(0, fs)), v')
    ensures Inv([], None, v', next + 1, history, last, oldest) && VersionEntries(v') == Recoverable(m, logs)
    ensures TablesThere(v', tables)
    ensures (FilesAge(m.version) ==> FilesAge(v')) && (NoStraddle(m.version) ==> NoStraddle(v'))
  {
    hide Complete, TreeOk, LogsOk, Replayed, TablesThere, LevelEntries, LiveEntries, LoggedUpTo, VersionOrdered, EditedBy, Inv,
      SnBelow, VersionEntries, AddedAt, Unused, FilesAge, NoStraddle;
    TablesBelowLogs(logs, m.logNumber, m.version, last);
    RecoveredTree(m.version, m.nextFile, fs, next, tables, v');
    RecoveredInv(m, logs, history, oldest, v', next, last);
    Db.SkipNumbers([], None, v', next, history, last, oldest, next + 1);
    ReplayedAreUnused(fs, m.nextFile, next, tables);
    TablesAfterEdit(m.version, FileEdit({}, AddedAt(0, fs)), v', tables);
  }

  lemma NoneToRecord(fileSize: seq<Entry> -> nat)
    ensures SizesRecorded([], fileSize)
  {}

  // Write the new log and the new manifest, and only then switch CURRENT.
  method StartManifest(disk: Disk, m: Meta, fs: seq<File>, next0: nat, last: nat) returns (v: Version)
    requires disk.Ok() && m == disk.Now() && m.nextFile < next0 && (forall k :: k in disk.logs ==> k < next0)
    requires Replayed(fs, m.nextFile, next0, disk.tables) && LevelEntries(fs) == LiveEntries(disk.logs, m.logNumber)
    requires LoggedUpTo(disk.logs, m.logNumber, last) && m.lastSequence <= last < MAX_SEQUENCE
    modifies disk`logs, disk`manifests, disk`current
    ensures disk.Ok() && disk.current == m.nextFile && disk.Now() == Meta(v, next0, next0 + 1, last)
    ensures disk.logs == old(disk.logs)[next0 := []]
    ensures Inv([], None, v, next0 + 1, disk.history, last, disk.oldest)
    ensures VersionEntries(v) == old(Recoverable(m, disk.logs)) && AddedLevel0(m.version, fs, v)
    ensures (FilesAge(m.version) ==> FilesAge(v)) && (NoStraddle(m.version) ==> NoStraddle(v))
  {
    hide Durable, Replayed, LogsOk, LogEntries, LevelEntries, LiveEntries, Numbered, TreeOk, RecordsOk, Complete, VersionOrdered,
      FilesAge, NoStraddle, VersionEntries, EditedBy, Saved, Applied, NeverReadded, TablesThere, Unused, AddedAt, LoggedUpTo, Inv, BetweenEntries,
      MetaOf, Edits, SnapshotRecord, AddedLevel0;
    ghost var logs := disk.logs;
    Db.ManifestServes(disk);
    Db.TablesAreThere(disk);
    DiskServes(disk);
    ReplayedAreUnused(fs, m.nextFile, next0, disk.tables);
    var edit := FileEdit({}, AddedAt(0, fs));
    UnusedLater(edit.newFiles, m.nextFile, next0, next0 + 1);
    TreeOrdered(m.version, m.nextFile);
    NewManifestReplays(m.version, m.nextFile, edit, next0, next0 + 1, last);
    disk.CreateLog(next0);
    var builder := new Builder(m.version);
    builder.Apply(edit);
    v := builder.SaveTo();
    RecoveredState(m, logs, disk.tables, disk.history, disk.oldest, fs, next0, last, v);
    EditAddsLevel0(m.version, fs, v);
    var snapshot := WriteSnapshot(m.version);
    var record := Record(edit, Some(next0), Some(next0 + 1), Some(last));
    disk.CreateManifest(m.nextFile);
    disk.AppendDraft(m.nextFile, snapshot);
    disk.AppendDraft(m.nextFile, record);
    assert [] + [snapshot] + [record] == [snapshot, record];
    assert disk.manifests[m.nextFile] == [snapshot, record];
    OnlyNewLog(logs, next0, v, last);
    NoElements();
    DurableFromInv(m.nextFile, disk.manifests, Meta(v, next0, next0 + 1, last), disk.logs, disk.tables, [], None,
                   disk.history, disk.oldest);
    disk.SetCurrent(m.nextFile);
  }

  lemma NoElements()
    ensures Elements([]) == {}
  {}

  lemma TreeOrdered(v: Version, next: nat)
    requires TreeOk(v, next)
    ensures VersionOrdered(v) && Numbered(v, next)
  {}

  lemma UnusedLater(news: seq<(nat, File)>, next0: nat, next: nat, next': nat)
    requires Unused(news, next0, next) && next <= next'
    ensures Unused(news, next0, next') && LevelsInRange(news)
  {}

  lemma NewTablesSized(v: Version, fs: seq<File>, v': Version, fileSize: seq<Entry> -> nat)
    requires AddedLevel0(v, fs, v') && SizesRecorded(fs, fileSize)
    ensures forall l, f :: 0 <= l < NUM_LEVELS && f in v'[l] ==> f in v[l] || (l == 0 && f.size == fileSize(f.entries))
  {}

  // DB::Open with reuse_logs off: read the manifest, replay the logs into level-0 tables, start a new log,
  // and write a new manifest that takes in the tables and retires the old logs.  It never finds a table
  // missing; what it opens holds all that was logged, and its last sequence number is no lower than any
  // the history has.
  method Open(disk: Disk, options: Options) returns (db: Db)
    requires disk.Ok()
    modifies disk
    ensures fresh(db) && db.disk == disk && db.Linked() && db.mem == [] && db.imm == None && db.Tidy()
    ensures disk.history == old(disk.history) && disk.oldest == old(disk.oldest)
    ensures VersionEntries(db.version) == old(Recoverable(disk.Now(), disk.logs))
    ensures forall e :: e in disk.history ==> e.sn <= db.lastSequence
    ensures forall l, f :: 0 <= l < NUM_LEVELS && f in db.version[l] ==>
              f in old(disk.Now()).version[l] || (l == 0 && f.size == options.fileSize(f.entries))
    ensures old(FilesAge(disk.Now().version)) ==> FilesAge(db.version)
    ensures old(NoStraddle(disk.Now().version)) ==> NoStraddle(db.version)
  {
    hide FilesAge, NoStraddle, Durable, Replayed, LogsOk, LogEntries, LevelEntries, LiveEntries, Numbered, TreeOk, RecordsOk, Complete, VersionOrdered,
      VersionEntries, TablesThere, LoggedUpTo, Inv, BetweenEntries, AddedLevel0, SizesRecorded;
    var m := ReadCurrent(disk);
    Db.TablesAreThere(disk);
    var missing := MissingTables(disk, m.version);
    assert missing == {};
    var fs, next, maxSequence := ReplayLogs(disk, options);
    DiskServes(disk);
    var lastSequence := if m.lastSequence < maxSequence then maxSequence else m.lastSequence;
    LoggedFurther(disk.logs, m.logNumber, maxSequence, lastSequence);
    ghost var logs := disk.logs;
    var v := StartManifest(disk, m, fs, next, lastSequence);
    NewTablesSized(m.version, fs, v, options.fileSize);
    OnlyNewLog(logs, next, v, lastSequence);
    NoElements();
    db := new Db(disk, options, v, next, m.nextFile, next + 1, lastSequence);
    Db.InvHistory([], None, v, next + 1, disk.history, lastSequence, disk.oldest);
    db.DeleteObsoleteFiles();
  }

  lemma LoggedFurther(logs: map<nat, Log>, from: nat, last: nat, last': nat)
    requires LoggedUpTo(logs, from, last) && last <= last'
    ensures LoggedUpTo(logs, from, last')
  {}

  // VersionSet::AddLiveFiles, of one version.
  function NumbersOf(v: Version): (r: set<nat>)
    ensures forall n :: n in r <==> exists l, f :: 0 <= l < NUM_LEVELS && f in v[l] && f.number == n
  {
    set l, f | 0 <= l < NUM_LEVELS && f in v[l] :: f.number
  }

  // The numbers expected, each crossed off when a file of any kind turns up with it.
  method MissingTables(disk: Disk, v: Version) returns (expected: set<nat>)
    ensures forall n :: n in expected <==>
              (exists l, f :: 0 <= l < NUM_LEVELS && f in v[l] && f.number == n)
              && n !in disk.tables && n !in disk.logs && n !in disk.manifests
    ensures TablesThere(v, disk.tables) ==> expected == {}
  {
    expected := NumbersOf(v);
    var filenames: set<nat> := disk.tables.Keys + disk.logs.Keys + disk.manifests.Keys;
    ghost var all := filenames;
    while filenames != {}
      invariant filenames <= all && expected == NumbersOf(v) - (all - filenames)
      decreases |filenames|
    {
      var number: nat :| number in filenames;
      expected := expected - {number};
      filenames := filenames - {number};
    }
  }

  lemma DiskServes(disk: Disk)
    requires disk.Ok()
    ensures var m := disk.Now();
            Complete(m, disk.logs, disk.history, disk.oldest) && m.lastSequence < MAX_SEQUENCE
  {}
}
