/**
 A database directory as bytes.  Reading its tables, logs and manifest gives the disk that recovery works
 on, so opening the bytes gives a database with all that was logged.
 */
module DiskBytes {
  import opened Wrappers
  import opened Bytes
  import opened DbFormat
  import opened Versions
  import opened VersionBuilder
  import opened Trees
  import opened Manifest
  import opened Disk
  import opened Recovery
  import opened LogFiles
  import opened ManifestFiles
  import Codec = VersionEditCodec
  import TableFormat
  import TableBuilders
  import FilterBlocks
  import Tables
  import TableEntries
  import LogFormat
  import LogScan

  // The files by kind and number, and the manifest CURRENT names.
  datatype Files = Files(current: nat, manifests: map<nat, seq<byte>>, logs: map<nat, seq<byte>>, tables: map<nat, seq<byte>>)

  // What the reader was opened with.
  datatype Reading = Reading(crc: LogFormat.Checksum, policy: Option<FilterBlocks.Policy>, compressors: seq<Option<TableFormat.Compressor>>,
                             verify: bool, comparator: seq<byte>)

  // ---- What a file holds ----

  ghost predicate IsTableOf(o: Reading, rank: seq<byte> -> int, keys: set<seq<byte>>, file: seq<byte>, table: TableFile,
                            fm: TableFormat.Format, c: TableBuilders.Contents) {
    TableBuilders.IsTable(o.crc, o.policy, fm, file, c) && Tables.SizesOk(o.policy, fm, file, c)
    && TableFormat.Known(o.compressors, fm.compressor)
    && TableEntries.Ranked(rank, c.shape.es, keys) && table == TableFile(|file|, TableEntries.EntriesOf(rank, c.shape.es))
  }

  ghost predicate TableHolds(o: Reading, rank: seq<byte> -> int, keys: set<seq<byte>>, file: seq<byte>, table: TableFile) {
    exists fm, c :: IsTableOf(o, rank, keys, file, table, fm, c)
  }

  ghost predicate BatchKnown(b: ByteBatch, keys: set<seq<byte>>) {
    BatchFits(b) && forall op :: op in b.ops ==> op.key in keys
  }

  ghost predicate LogHolds(o: Reading, rank: seq<byte> -> int, keys: set<seq<byte>>, file: seq<byte>, log: Log) {
    exists bs, n: nat :: IsLogOf(o, rank, keys, file, log, bs, n)
  }

  ghost predicate IsLogOf(o: Reading, rank: seq<byte> -> int, keys: set<seq<byte>>, file: seq<byte>, log: Log, bs: seq<ByteBatch>, n: nat) {
    (forall b :: b in bs ==> BatchKnown(b, keys)) && HoldsWhole(o.crc, file, bs, n) && log == RankedLog(rank, bs[..n])
  }

  ghost predicate ManifestHolds(o: Reading, rank: seq<byte> -> int, tables: map<nat, TableFile>, file: seq<byte>, records: seq<Record>) {
    exists es, encoded :: IsManifestOf(o, rank, tables, file, records, es, encoded)
  }

  ghost predicate IsManifestOf(o: Reading, rank: seq<byte> -> int, tables: map<nat, TableFile>, file: seq<byte>, records: seq<Record>,
                               es: seq<Codec.Fields>, encoded: seq<seq<byte>>) {
    Encoded(o.crc, file, es, encoded) && (forall i :: 0 <= i < |es| ==> ComparatorOk(es[i], o.comparator))
    && RecordsOf(rank, tables, es) == TrimRecords(tables, records)
  }

  // The directory holds what a disk of the model holds.  A log may end within a batch.
  ghost predicate Holds(o: Reading, rank: seq<byte> -> int, keys: set<seq<byte>>, files: Files, current: nat,
                        manifests: map<nat, seq<Record>>, logs: map<nat, Log>, tables: map<nat, TableFile>) {
    TableEntries.Ranks(rank, keys)
    && files.current == current && current in files.manifests && current in manifests
    && ManifestHolds(o, rank, tables, files.manifests[current], manifests[current])
    && (forall k :: k in logs <==> k in files.logs) && (forall k :: k in logs ==> LogHolds(o, rank, keys, files.logs[k], logs[k]))
    && (forall k :: k in tables <==> k in files.tables)
    && forall k :: k in tables ==> TableHolds(o, rank, keys, files.tables[k], tables[k])
  }

  // ---- Reading it ----

  method ReadTable(o: Reading, rank: seq<byte> -> int, ghost keys: set<seq<byte>>, file: seq<byte>, ghost table: TableFile)
    returns (r: TableFile)
    requires TableHolds(o, rank, keys, file, table)
    ensures r == table
  {
    hide TableBuilders.IsTable, Tables.SizesOk, Tables.TableOk, TableFormat.Known;
    ghost var fm, c :| IsTableOf(o, rank, keys, file, table, fm, c);
    var t := Tables.Open(o.crc, o.policy, o.compressors, o.verify, file, fm, c);
    var bytes := TableEntries.Scan(t, fm, c);
    r := TableFile(|file|, TableEntries.EntriesOf(rank, bytes));
  }

  method ReadTables(o: Reading, rank: seq<byte> -> int, ghost keys: set<seq<byte>>, files: map<nat, seq<byte>>,
                    ghost tables: map<nat, TableFile>) returns (r: map<nat, TableFile>)
    requires (forall k :: k in tables <==> k in files) && forall k :: k in tables ==> TableHolds(o, rank, keys, files[k], tables[k])
    ensures r == tables
  {
    hide TableHolds;
    r := map[];
    var todo := files.Keys;
    while todo != {}
      invariant todo <= files.Keys && r.Keys == files.Keys - todo && forall k :: k in r ==> r[k] == tables[k]
      decreases |todo|
    {
      var k: nat :| k in todo;
      var table := ReadTable(o, rank, keys, files[k], tables[k]);
      r := r[k := table];
      todo := todo - {k};
    }
  }

  method ReadLogs(o: Reading, rank: seq<byte> -> int, ghost keys: set<seq<byte>>, files: map<nat, seq<byte>>, ghost logs: map<nat, Log>)
    returns (r: map<nat, Log>)
    requires (forall k :: k in logs <==> k in files) && forall k :: k in logs ==> LogHolds(o, rank, keys, files[k], logs[k])
    ensures r == logs
  {
    hide IsLogOf;
    r := map[];
    var todo := files.Keys;
    while todo != {}
      invariant todo <= files.Keys && r.Keys == files.Keys - todo && forall k :: k in r ==> r[k] == logs[k]
      decreases |todo|
    {
      var k: nat :| k in todo;
      ghost var bs, n: nat :| IsLogOf(o, rank, keys, files[k], logs[k], bs, n);
      LogIs(o, rank, keys, files[k], logs[k], bs, n);
      var log, ok, m := ReadLog(o.crc, files[k], rank, bs);
      LogScan.WholeIsOne(o.crc, files[k], Reps(bs), n, m);
      r := r[k := log];
      todo := todo - {k};
    }
  }

  lemma LogIs(o: Reading, rank: seq<byte> -> int, keys: set<seq<byte>>, file: seq<byte>, log: Log, bs: seq<ByteBatch>, n: nat)
    requires IsLogOf(o, rank, keys, file, log, bs, n)
    ensures LogFormat.IsChecksum(o.crc) && file <= LogFormat.LogBytes(o.crc, 0, Reps(bs)) && (forall b :: b in bs ==> BatchFits(b))
    ensures HoldsWhole(o.crc, file, bs, n) && log == RankedLog(rank, bs[..n])
  {
    hide LogFormat.IsChecksum, LogFormat.LogBytes;
  }

  // The directory, read into a disk.
  method ReadDisk(o: Reading, rank: seq<byte> -> int, ghost keys: set<seq<byte>>, files: Files, ghost current: nat,
                  ghost manifests: map<nat, seq<Record>>, ghost logs: map<nat, Log>, ghost tables: map<nat, TableFile>,
                  ghost history: set<Entry>, ghost oldest: nat) returns (disk: Disk)
    requires Durable(current, manifests, logs, tables, history, oldest)
    requires Holds(o, rank, keys, files, current, manifests, logs, tables)
    ensures fresh(disk) && disk.Ok() && disk.Now() == MetaOf(manifests[current]).value
    ensures disk.current == current && disk.logs == logs && disk.tables == tables && disk.history == history && disk.oldest == oldest
  {
    hide Durable, TableHolds, LogHolds, IsManifestOf, TableEntries.Ranks, MetaOf, Edits, EditsOk, TrimRecords, RecordsOf, Encoded, ComparatorOk;
    var ts := ReadTables(o, rank, keys, files.tables, tables);
    var ls := ReadLogs(o, rank, keys, files.logs, logs);
    ghost var es, encoded :| IsManifestOf(o, rank, tables, files.manifests[current], manifests[current], es, encoded);
    ManifestIs(o, rank, tables, files.manifests[current], manifests[current], es, encoded);
    var records := ReadRecords(o.crc, files.manifests[files.current], o.comparator, rank, ts, es, encoded);
    assert records == Some(TrimRecords(tables, manifests[current]));
    TrimmedIsDurable(current, manifests, logs, tables, history, oldest);
    assert Durable(current, map[current := records.value], logs, tables, history, oldest);
    disk := new Disk();
    disk.current, disk.manifests, disk.logs, disk.tables := files.current, map[files.current := records.value], ls, ts;
    disk.history, disk.oldest := history, oldest;
  }

  lemma ManifestIs(o: Reading, rank: seq<byte> -> int, tables: map<nat, TableFile>, file: seq<byte>, records: seq<Record>,
                   es: seq<Codec.Fields>, encoded: seq<seq<byte>>)
    requires IsManifestOf(o, rank, tables, file, records, es, encoded)
    ensures Encoded(o.crc, file, es, encoded) && (forall i :: 0 <= i < |es| ==> es[i].comparator in {None, Some(o.comparator)})
    ensures RecordsOf(rank, tables, es) == TrimRecords(tables, records)
  {}

  // Opening a directory of bytes.  If they are those of a disk that holds all that was logged, the database
  // holds it too.
  method Open(o: Reading, rank: seq<byte> -> int, ghost keys: set<seq<byte>>, files: Files, options: Options, ghost current: nat,
              ghost manifests: map<nat, seq<Record>>, ghost logs: map<nat, Log>, ghost tables: map<nat, TableFile>,
              ghost history: set<Entry>, ghost oldest: nat) returns (db: Db)
    requires Durable(current, manifests, logs, tables, history, oldest)
    requires Holds(o, rank, keys, files, current, manifests, logs, tables)
    ensures fresh(db) && fresh(db.disk) && db.Linked() && db.disk.history == history && db.disk.oldest == oldest
    ensures VersionEntries(db.version) == Recoverable(MetaOf(manifests[current]).value, logs)
    ensures FilesAge(MetaOf(manifests[current]).value.version) ==> FilesAge(db.version)
  {
    hide Durable, Holds, FilesAge, VersionEntries, Recoverable;
    var disk := ReadDisk(o, rank, keys, files, current, manifests, logs, tables, history, oldest);
    db := Recovery.Open(disk, options);
  }
}
