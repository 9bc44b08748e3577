/**
 What is on disk.  Every write to it keeps the disk recoverable, so a crash between any two of them
 finds a manifest, tables and logs that hold all that was logged.
 */
module Disk {
  import opened Wrappers
  import opened DbFormat
  import opened Versions
  import opened VersionBuilder
  import opened Trees
  import opened Lsm
  import opened Manifest

  // A log record: a batch with the sequence number of its first operation.
  datatype Batch = Batch(first: nat, ops: seq<(int, Payload)>) {
    ghost function Entries(): set<Entry> {
      BatchEntries(ops, first)
    }

    // The sequence number after the batch's last.
    function End(): nat {
      first + |ops|
    }
  }

  type Log = seq<Batch>

  // A table file: its size, and what it holds.
  datatype TableFile = TableFile(size: nat, entries: seq<Entry>)

  // The table a file of a version stands for.
  function Stored(f: File): TableFile {
    TableFile(f.size, f.entries)
  }

  ghost function LogEntries(log: Log): set<Entry> {
    set b, e | b in log && e in b.Entries() :: e
  }

  // What the logs from number `from` on hold.
  ghost function LiveEntries(logs: map<nat, Log>, from: nat): set<Entry> {
    set k, b, e | k in logs && k >= from && b in logs[k] && e in b.Entries() :: e
  }

  ghost predicate Rising(log: Log) {
    (forall i, j :: 0 <= i < j < |log| ==> log[i].End() <= log[j].first)
    && forall b :: b in log ==> 0 < b.first && b.End() <= MAX_SEQUENCE
  }

  ghost predicate LogBefore(a: Log, b: Log) {
    forall x, y :: x in a && y in b ==> x.End() <= y.first
  }

  ghost predicate TablesBefore(v: Version, log: Log) {
    forall e, b :: e in VersionEntries(v) && b in log ==> e.sn < b.first
  }

  // Sequence numbers rise along each log and from log to log, above those of the tables.
  ghost predicate LogsOk(logs: map<nat, Log>, from: nat, v: Version) {
    (forall k :: k in logs && k >= from ==> Rising(logs[k]) && TablesBefore(v, logs[k]))
    && forall k, k' :: k in logs && k' in logs && from <= k < k' ==> LogBefore(logs[k], logs[k'])
  }

  ghost predicate TablesThere(v: Version, tables: map<nat, TableFile>) {
    forall l, f :: 0 <= l < NUM_LEVELS && f in v[l] ==> f.number in tables && tables[f.number] == Stored(f)
  }

  // ---- What a manifest says ----

  datatype Meta = Meta(version: Version, logNumber: nat, nextFile: nat, lastSequence: nat)

  // None where VersionSet::Recover reports a missing field.
  function MetaOf(records: seq<Record>): Option<Meta>
    requires EditsOk(Edits(records))
  {
    if NextFile(records).None? || LogNumber(records).None? || LastSequence(records).None? then None
    else Some(Meta(VersionOf(records), LogNumber(records).value, NextFile(records).value, LastSequence(records).value))
  }

  // All that the tables of the manifest and the logs it has not retired hold.
  ghost function Recoverable(m: Meta, logs: map<nat, Log>): set<Entry> {
    VersionEntries(m.version) + LiveEntries(logs, m.logNumber)
  }

  // The recoverable entries answer every read, from `oldest` on, as the whole history would, and no
  // sequence number in it lies above what recovery will find.
  ghost predicate Complete(m: Meta, logs: map<nat, Log>, history: set<Entry>, oldest: nat) {
    oldest <= m.lastSequence && Recoverable(m, logs) <= history && DistinctSequences(history)
    && (forall e :: e in history ==>
          (e.sn <= m.lastSequence || e in LiveEntries(logs, m.logNumber)) && e.sn < MAX_SEQUENCE)
    && ReadAlike(Recoverable(m, logs), history, oldest)
  }

  ghost predicate ManifestOk(number: nat, records: seq<Record>) {
    EditsOk(Edits(records)) && MetaOf(records).Some?
    && var m := MetaOf(records).value;
       RecordsOk(records, m.nextFile) && TreeOk(m.version, m.nextFile)
       && number < m.nextFile && m.logNumber < m.nextFile && m.lastSequence < MAX_SEQUENCE
  }

  ghost predicate Durable(current: nat, manifests: map<nat, seq<Record>>, logs: map<nat, Log>, tables: map<nat, TableFile>,
                          history: set<Entry>, oldest: nat) {
    current in manifests && ManifestOk(current, manifests[current])
    && var m := MetaOf(manifests[current]).value;
       TablesThere(m.version, tables) && LogsOk(logs, m.logNumber, m.version) && Complete(m, logs, history, oldest)
  }

  class Disk {
    // CURRENT, and the files by kind and number.
    var current: nat
    var manifests: map<nat, seq<Record>>
    var logs: map<nat, Log>
    var tables: map<nat, TableFile>

    // Every write ever logged, and the oldest sequence number reads are promised for.
    ghost var history: set<Entry>
    ghost var oldest: nat

    ghost predicate Ok()
      reads this
    {
      Durable(current, manifests, logs, tables, history, oldest)
    }

    ghost function Now(): Meta
      reads this
      requires Ok()
    {
      MetaOf(manifests[current]).value
    }

    // DBImpl::NewDB: the manifest is complete before CURRENT names it.
    constructor ()
      ensures Ok() && history == {} && oldest == 0
      ensures current == 1 && logs == map[] && tables == map[] && manifests == map[1 := [FirstRecord()]]
    {
      hide Durable;
      current, manifests, logs, tables := 1, map[1 := [FirstRecord()]], map[], map[];
      history, oldest := {}, 0;
      new;
      FirstIsDurable();
    }

    // A new table takes no number the manifest names.
    method WriteTable(n: nat, table: TableFile)
      requires Ok() && forall l, f :: 0 <= l < NUM_LEVELS && f in Now().version[l] ==> f.number != n
      modifies this`tables
      ensures Ok() && tables == old(tables)[n := table]
    {
      hide LogsOk, Complete, ManifestOk, TablesThere, MetaOf;
      NewTableIsOk(Now().version, tables, n, table);
      tables := tables[n := table];
    }

    static lemma NewTableIsOk(v: Version, tables: map<nat, TableFile>, n: nat, table: TableFile)
      requires TablesThere(v, tables) && forall l, f :: 0 <= l < NUM_LEVELS && f in v[l] ==> f.number != n
      ensures TablesThere(v, tables[n := table])
    {}

    method CreateLog(n: nat)
      requires Ok() && n !in logs
      modifies this`logs
      ensures Ok() && logs == old(logs)[n := []]
    {
      hide ManifestOk, TablesThere;
      ghost var m := Now();
      NewLogIsOk(logs, n, m, history, oldest);
      logs := logs[n := []];
    }

    // Append a batch to the newest log: from here on it is part of the history.  A crash before all of it
    // is written leaves the log as it was (LogScan.TornAppend).
    method AppendLog(n: nat, b: Batch)
      requires Ok() && n in logs && n >= Now().logNumber && forall k :: k in logs ==> k <= n
      requires forall k, b' :: k in logs && k >= Now().logNumber && b' in logs[k] ==> b'.End() <= b.first
      requires (forall e :: e in history ==> e.sn < b.first) && 0 < b.first && b.End() <= MAX_SEQUENCE
      modifies this`logs, this`history
      ensures Ok() && logs == old(logs)[n := old(logs)[n] + [b]] && history == old(history) + b.Entries()
    {
      hide ManifestOk, TablesThere;
      ghost var m := Now();
      AppendedIsOk(logs, n, b, m, history, oldest);
      logs := logs[n := logs[n] + [b]];
      history := history + b.Entries();
    }

    method CreateManifest(n: nat)
      requires Ok() && n != current
      modifies this`manifests
      ensures Ok() && manifests == old(manifests)[n := []]
    {
      hide ManifestOk, TablesThere, LogsOk, Complete;
      manifests := manifests[n := []];
    }

    // A record for a manifest that CURRENT does not name yet.
    method AppendDraft(n: nat, r: Record)
      requires Ok() && n != current && n in manifests
      modifies this`manifests
      ensures Ok() && manifests == old(manifests)[n := old(manifests)[n] + [r]]
    {
      hide ManifestOk, TablesThere, LogsOk, Complete;
      manifests := manifests[n := manifests[n] + [r]];
    }

    // A record for the current manifest takes effect at once.  Whether the disk is still as it must be is
    // for the one who writes the record to show.
    method Commit(r: Record, ghost history': set<Entry>, ghost oldest': nat)
      requires current in manifests
      modifies this`manifests, this`history, this`oldest
      ensures manifests == old(manifests)[current := old(manifests)[current] + [r]]
      ensures history == history' && oldest == oldest'
    {
      manifests := manifests[current := manifests[current] + [r]];
      history, oldest := history', oldest';
    }

    // SetCurrentFile: a rename switches to another manifest at once.
    method SetCurrent(n: nat)
      modifies this`current
      ensures current == n
    {
      current := n;
    }

    method DeleteTable(n: nat)
      requires Ok() && forall l, f :: 0 <= l < NUM_LEVELS && f in Now().version[l] ==> f.number != n
      modifies this`tables
      ensures Ok() && tables == old(tables) - {n}
    {
      hide LogsOk, Complete, ManifestOk, TablesThere, MetaOf;
      OtherTablesThere(Now().version, tables, n);
      tables := tables - {n};
    }

    static lemma OtherTablesThere(v: Version, tables: map<nat, TableFile>, n: nat)
      requires TablesThere(v, tables) && forall l, f :: 0 <= l < NUM_LEVELS && f in v[l] ==> f.number != n
      ensures TablesThere(v, tables - {n})
    {}

    method DeleteLog(n: nat)
      requires Ok() && n < Now().logNumber
      modifies this`logs
      ensures Ok() && logs == old(logs) - {n}
    {
      hide ManifestOk, TablesThere;
      ghost var m := Now();
      DeletedLogIsOk(logs, n, m, history, oldest);
      logs := logs - {n};
    }

    method DeleteManifest(n: nat)
      requires Ok() && n != current
      modifies this`manifests
      ensures Ok() && manifests == old(manifests) - {n}
    {
      hide ManifestOk, TablesThere, LogsOk, Complete;
      manifests := manifests - {n};
    }
  }

  function FirstRecord(): Record {
    Record(FileEdit({}, []), Some(0), Some(2), Some(0))
  }

  lemma FirstMeta()
    ensures EditsOk(Edits([FirstRecord()])) && AllNew(Edits([FirstRecord()])) == []
    ensures MetaOf([FirstRecord()]) == Some(Meta(EMPTY_VERSION, 0, 2, 0))
    ensures RecordsOk([FirstRecord()], 2)
  {
    hide Applied, AppliedAll, Saved, AllNew, Sunk, NeverReadded;
    EmptyRecords(2);
    AppendReplays([], 2, FirstRecord());
    assert [] + [FirstRecord()] == [FirstRecord()];
    NumbersNext([], FirstRecord());
    var v := VersionOf([FirstRecord()]);
    EmptyVersionOrdered();
    EditResult(EMPTY_VERSION, FirstRecord().edit);
    forall l: nat, f | l < NUM_LEVELS
      ensures f in v[l] <==> f in EMPTY_VERSION[l]
    {
      assert (l, f) !in FirstRecord().edit.newFiles;
    }
    SameVersion(v, EMPTY_VERSION);
    assert Sunk([], EMPTY_VERSION) by { NothingSunk(); }
  }

  lemma NothingSunk()
    ensures Sunk([], EMPTY_VERSION)
  {}

  lemma FirstIsDurable()
    ensures Durable(1, map[1 := [FirstRecord()]], map[], map[], {}, 0)
  {
    FirstMeta();
    var v := EMPTY_VERSION;
    hide Edits, MetaOf, RecordsOk, TreeOk, VersionEntries, ReadAlike, FirstRecord, DistinctSequences;
    assert forall l :: 0 <= l < NUM_LEVELS ==> v[l] == [];
    NoFilesOk(v, 2);
    NoEntriesOk(v);
    assert LiveEntries(map[], 0) == {};
    NoneRecorded();
    var m := Meta(v, 0, 2, 0);
    assert m.version == v && m.logNumber == 0;
    assert Recoverable(m, map[]) == {};
    assert Complete(m, map[], {}, 0);
    assert TablesThere(v, map[]) && LogsOk(map[], 0, v);
  }

  lemma NoneRecorded()
    ensures DistinctSequences({})
  {}

  lemma NewLogIsOk(logs: map<nat, Log>, n: nat, m: Meta, history: set<Entry>, oldest: nat)
    requires n !in logs && LogsOk(logs, m.logNumber, m.version) && Complete(m, logs, history, oldest)
    ensures LogsOk(logs[n := []], m.logNumber, m.version) && Complete(m, logs[n := []], history, oldest)
  {
    hide ReadAlike, DistinctSequences, VersionEntries;
    assert Rising([]) && TablesBefore(m.version, []) && forall log :: LogBefore(log, []) && LogBefore([], log);
    var logs' := logs[n := []];
    assert forall k :: k in logs' && k != n ==> k in logs && logs'[k] == logs[k];
    assert LiveEntries(logs', m.logNumber) == LiveEntries(logs, m.logNumber) by {
      forall e
        ensures e in LiveEntries(logs', m.logNumber) <==> e in LiveEntries(logs, m.logNumber)
      {
        if e in LiveEntries(logs, m.logNumber) {
          var k, b :| k in logs && k >= m.logNumber && b in logs[k] && e in b.Entries();
          assert k in logs' && b in logs'[k];
        }
      }
    }
  }

  lemma DeletedLogIsOk(logs: map<nat, Log>, n: nat, m: Meta, history: set<Entry>, oldest: nat)
    requires n < m.logNumber && LogsOk(logs, m.logNumber, m.version) && Complete(m, logs, history, oldest)
    ensures LogsOk(logs - {n}, m.logNumber, m.version) && Complete(m, logs - {n}, history, oldest)
  {
    hide ReadAlike, DistinctSequences, VersionEntries;
    var logs' := logs - {n};
    assert forall k :: k in logs' ==> k in logs && logs'[k] == logs[k];
    assert LiveEntries(logs', m.logNumber) == LiveEntries(logs, m.logNumber) by {
      forall e
        ensures e in LiveEntries(logs', m.logNumber) <==> e in LiveEntries(logs, m.logNumber)
      {
        if e in LiveEntries(logs, m.logNumber) {
          var k, b :| k in logs && k >= m.logNumber && b in logs[k] && e in b.Entries();
          assert k in logs' && b in logs'[k];
        }
      }
    }
  }

  lemma AppendedIsOk(logs: map<nat, Log>, n: nat, b: Batch, m: Meta, history: set<Entry>, oldest: nat)
    requires LogsOk(logs, m.logNumber, m.version) && Complete(m, logs, history, oldest)
    requires n in logs && n >= m.logNumber && forall k :: k in logs ==> k <= n
    requires forall k, b' :: k in logs && k >= m.logNumber && b' in logs[k] ==> b'.End() <= b.first
    requires (forall e :: e in history ==> e.sn < b.first) && 0 < b.first && b.End() <= MAX_SEQUENCE
    ensures LogsOk(logs[n := logs[n] + [b]], m.logNumber, m.version)
    ensures Complete(m, logs[n := logs[n] + [b]], history + b.Entries(), oldest)
    ensures LiveEntries(logs[n := logs[n] + [b]], m.logNumber) == LiveEntries(logs, m.logNumber) + b.Entries()
  {
    var logs': map<nat, Log> := logs[n := logs[n] + [b]];
    AppendedLive(logs, n, b, m.logNumber);
    AppendedLogs(logs, n, b, m);
    hide LogsOk, LiveEntries, ReadAlike, VersionEntries, Batch.Entries;
    var rec := Recoverable(m, logs);
    assert Recoverable(m, logs') == rec + b.Entries();
    assert forall e :: e in rec ==> e in history;
    BatchAbove(b);
    AddNewer(rec, history, b.Entries(), oldest, oldest);
    AppendedDistinct(history, b);
  }

  lemma BatchAbove(b: Batch)
    ensures forall e :: e in b.Entries() ==> b.first <= e.sn < b.End()
    ensures DistinctSequences(b.Entries())
  {}

  lemma AppendedDistinct(history: set<Entry>, b: Batch)
    requires DistinctSequences(history) && forall e :: e in history ==> e.sn < b.first
    ensures DistinctSequences(history + b.Entries())
  {
    BatchAbove(b);
    hide Batch.Entries;
  }

  lemma AppendedLive(logs: map<nat, Log>, n: nat, b: Batch, from: nat)
    requires n in logs && n >= from
    ensures LiveEntries(logs[n := logs[n] + [b]], from) == LiveEntries(logs, from) + b.Entries()
  {
    hide Batch.Entries;
    var logs': map<nat, Log> := logs[n := logs[n] + [b]];
    forall e
      ensures e in LiveEntries(logs', from) <==> e in LiveEntries(logs, from) || e in b.Entries()
    {
      if e in LiveEntries(logs, from) {
        var k, b' :| k in logs && k >= from && b' in logs[k] && e in b'.Entries();
        assert k in logs' && b' in logs'[k];
      } else if e in b.Entries() {
        assert b in logs'[n];
      }
    }
  }

  lemma AppendedLogs(logs: map<nat, Log>, n: nat, b: Batch, m: Meta)
    requires LogsOk(logs, m.logNumber, m.version) && n in logs && n >= m.logNumber && forall k :: k in logs ==> k <= n
    requires forall k, b' :: k in logs && k >= m.logNumber && b' in logs[k] ==> b'.End() <= b.first
    requires (forall e :: e in VersionEntries(m.version) ==> e.sn < b.first) && 0 < b.first && b.End() <= MAX_SEQUENCE
    ensures LogsOk(logs[n := logs[n] + [b]], m.logNumber, m.version)
  {
    var log := logs[n];
    assert Rising(log + [b]) by {
      forall i, j | 0 <= i < j < |log + [b]|
        ensures (log + [b])[i].End() <= (log + [b])[j].first
      {
        if j == |log| {
          assert log[i] in logs[n];
        }
      }
    }
    forall k | k in logs && m.logNumber <= k < n
      ensures LogBefore(logs[k], log + [b])
    {
      assert LogBefore(logs[k], log);
    }
    assert TablesBefore(m.version, log + [b]) by {
      assert TablesBefore(m.version, log);
    }
    hide Rising, LogBefore, TablesBefore;
  }
}
