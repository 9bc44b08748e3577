/** A log file's bytes and the batches of the tree: what a crash leaves of the one is a beginning of the other. */
module LogFiles {
  import opened Wrappers
  import opened Bytes
  import opened Coding
  import opened WriteBatches
  import opened DbFormat
  import opened Disk
  import LogFormat
  import LogReader
  import LogScan

  // A batch with its user keys as bytes.
  datatype ByteBatch = ByteBatch(first: nat, ops: seq<Op>)

  ghost predicate BatchFits(b: ByteBatch) {
    b.first < TWO_64 && |b.ops| <= MAX_COUNT && forall op :: op in b.ops ==> Fits(op)
  }

  function RankedOp(rank: seq<byte> -> int, op: Op): (int, Payload) {
    match op
    case PutOp(key, value) => (rank(key), Put(value))
    case DeleteOp(key) => (rank(key), Deletion)
  }

  function RankedOps(rank: seq<byte> -> int, ops: seq<Op>): seq<(int, Payload)> {
    seq(|ops|, i requires 0 <= i < |ops| => RankedOp(rank, ops[i]))
  }

  function RankedBatch(rank: seq<byte> -> int, b: ByteBatch): Batch {
    Batch(b.first, RankedOps(rank, b.ops))
  }

  function RankedLog(rank: seq<byte> -> int, bs: seq<ByteBatch>): Log {
    seq(|bs|, i requires 0 <= i < |bs| => RankedBatch(rank, bs[i]))
  }

  // The records of a log of these batches.
  function Reps(bs: seq<ByteBatch>): seq<seq<byte>> {
    seq(|bs|, i requires 0 <= i < |bs| => Rep(bs[i].first, bs[i].ops))
  }

  // The file holds the first n of these batches whole, and perhaps a part of the next.
  ghost predicate HoldsWhole(crc: LogFormat.Checksum, file: seq<byte>, bs: seq<ByteBatch>, n: nat) {
    LogScan.HoldsWhole(crc, file, Reps(bs), n)
  }

  lemma HoldsMost(crc: LogFormat.Checksum, file: seq<byte>, records: seq<seq<byte>>, n: nat)
    requires LogScan.HoldsWhole(crc, file, records, n)
    ensures n <= |records|
  {}

  lemma RepReads(b: ByteBatch)
    requires BatchFits(b)
    ensures var rep := Rep(b.first, b.ops);
            |rep| >= HEADER && ParseOps(rep[HEADER..]) == b.ops && AllParse(rep[HEADER..])
            && LittleEndian(rep[8..12]) == |b.ops| && LittleEndian(rep[..8]) == b.first
  {
    hide OpsBytes, ToLittleEndian, LittleEndian, ParseOps, AllParse;
    RepParts(b.first, b.ops);
    ParseOpsOfBytes(b.ops);
    CountOfRep(b.first, b.ops);
    EightBytes();
    FixedRoundTrip(b.first, 8);
  }

  method ReadBatch(record: seq<byte>, rank: seq<byte> -> int, ghost b: ByteBatch) returns (batch: Batch, ok: bool)
    requires BatchFits(b) && record == Rep(b.first, b.ops)
    ensures ok && batch == RankedBatch(rank, b)
  {
    hide BatchFits, Rep, ParseOps, AllParse, RankedOps, LittleEndian;
    RepReads(b);
    var ops, status := Iterate(record);
    ok := status.Ok?;
    batch := RankedBatch(rank, ByteBatch(LittleEndian(record[..8]), ops));
  }

  // What DBImpl::RecoverLogFile reads of a log: every whole batch, whatever a crash left behind them.
  method ReadLog(crc: LogFormat.Checksum, file: seq<byte>, rank: seq<byte> -> int, ghost bs: seq<ByteBatch>)
    returns (log: Log, ok: bool, ghost n: nat)
    requires LogFormat.IsChecksum(crc) && file <= LogFormat.LogBytes(crc, 0, Reps(bs)) && forall b :: b in bs ==> BatchFits(b)
    ensures ok && HoldsWhole(crc, file, bs, n) && log == RankedLog(rank, bs[..n])
  {
    hide LogFormat.LogBytes, LogFormat.IsChecksum, BatchFits, Rep, RankedBatch, LogScan.HoldsWhole, LogScan.Read;
    var records, reports := LogReader.ReadAll(crc, file);
    n := LogScan.CutLogReads(crc, file, Reps(bs));
    HoldsMost(crc, file, Reps(bs), n);
    log, ok := [], reports == [];
    var i := 0;
    while i < |records|
      invariant i <= |records| && ok && log == RankedLog(rank, bs[..i])
    {
      assert bs[i] in bs && records[i] == Rep(bs[i].first, bs[i].ops);
      var batch, good := ReadBatch(records[i], rank, bs[i]);
      ok := ok && good;
      log := log + [batch];
      i := i + 1;
    }
  }

  // A crash while a batch is being appended leaves the log before it, or the log with it if all of it is
  // there.
  lemma TornBatch(crc: LogFormat.Checksum, bs: seq<ByteBatch>, b: ByteBatch, file: seq<byte>)
    requires LogFormat.IsChecksum(crc)
    requires LogFormat.LogBytes(crc, 0, Reps(bs)) <= file <= LogFormat.LogBytes(crc, 0, Reps(bs + [b]))
    ensures HoldsWhole(crc, file, bs + [b], if file == LogFormat.LogBytes(crc, 0, Reps(bs + [b])) then |bs| + 1 else |bs|)
  {
    hide LogFormat.LogBytes, LogFormat.IsChecksum, Rep, LogScan.HoldsWhole;
    assert Reps(bs + [b]) == Reps(bs) + [Rep(b.first, b.ops)];
    LogScan.TornHolds(crc, Reps(bs), Rep(b.first, b.ops), file);
  }
}
