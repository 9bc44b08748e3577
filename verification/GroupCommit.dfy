/**
 The queue of writers.  The writer at the front leads: it logs and inserts its own batch together with
 those of writers behind it, and then lets them all go.
 */
module GroupCommit {
  import opened Wrappers
  import opened Seqs
  import opened WriteBatches

  // What a writer asks for; no batch is a request to switch the memtable.
  datatype Request = Request(batch: Option<seq<Op>>, sync: bool)

  const MAX_GROUP: nat := 0x10_0000
  const SMALL_BATCH: nat := 0x2_0000

  function ByteSize(ops: seq<Op>): nat {
    HEADER + |OpsBytes(ops)|
  }

  // How large a group may grow, by the size of its leader's batch.
  function MaxSize(size: nat): nat {
    if size <= SMALL_BATCH then size + SMALL_BATCH else MAX_GROUP
  }

  // Where the group ends, having taken i requests of `size` bytes in all: before a sync request under a
  // leader that does not sync, and before one too many.
  function GroupEnd(ws: seq<Request>, i: nat, size: nat, maxSize: nat): (n: nat)
    requires 0 < i <= |ws|
    ensures i <= n <= |ws|
    decreases |ws| - i
  {
    if i == |ws| || (ws[i].sync && !ws[0].sync) then i
    else if ws[i].batch.None? then GroupEnd(ws, i + 1, size, maxSize)
    else if size + ByteSize(ws[i].batch.value) > maxSize then i
    else GroupEnd(ws, i + 1, size + ByteSize(ws[i].batch.value), maxSize)
  }

  function OpsOf(ws: seq<Request>): seq<Op> {
    if ws == [] then []
    else OpsOf(ws[..|ws| - 1]) + (if ws[|ws| - 1].batch.Some? then ws[|ws| - 1].batch.value else [])
  }

  lemma OpsOfNext(ws: seq<Request>, i: nat)
    requires i < |ws|
    ensures OpsOf(ws[..i + 1]) == OpsOf(ws[..i]) + (if ws[i].batch.Some? then ws[i].batch.value else [])
  {
    assert ws[..i + 1][..i] == ws[..i];
  }

  lemma {:induction false} OpsOfConcat(a: seq<Request>, b: seq<Request>)
    ensures OpsOf(a + b) == OpsOf(a) + OpsOf(b)
  {
    if b == [] {
      assert a + b == a;
    } else {
      assert (a + b)[..|a + b| - 1] == a + b[..|b| - 1];
      OpsOfConcat(a, b[..|b| - 1]);
    }
  }

  // The bytes of the batches of some requests, each with its header.
  function TotalBytes(ws: seq<Request>): nat {
    if ws == [] then 0
    else TotalBytes(ws[..|ws| - 1]) + (if ws[|ws| - 1].batch.Some? then ByteSize(ws[|ws| - 1].batch.value) else 0)
  }

  lemma TotalBytesNext(ws: seq<Request>, i: nat)
    requires i < |ws|
    ensures TotalBytes(ws[..i + 1]) == TotalBytes(ws[..i]) + (if ws[i].batch.Some? then ByteSize(ws[i].batch.value) else 0)
  {
    assert ws[..i + 1][..i] == ws[..i];
  }

  // A group of the first n requests keeps to the limits, and is as long as they allow: 128 KB more than a
  // leader's batch of up to 128 KB, 1 MB in all with a larger one; and nothing that is to be synced with a
  // leader that is not.
  ghost predicate Fills(ws: seq<Request>, n: nat)
    requires |ws| > 0 && ws[0].batch.Some?
  {
    var own := ByteSize(ws[0].batch.value);
    var limit := if own <= 131072 then own + 131072 else 1048576;
    0 < n <= |ws|
    && (forall i :: 0 < i < n && ws[i].batch.Some? ==> TotalBytes(ws[..i + 1]) <= limit)
    && (forall i :: 0 < i < n ==> ws[i].sync ==> ws[0].sync)
    && (n < |ws| ==> (ws[n].sync && !ws[0].sync) || (ws[n].batch.Some? && TotalBytes(ws[..n + 1]) > limit))
  }

  lemma {:induction false} GroupFillsFrom(ws: seq<Request>, i: nat, size: nat)
    requires 0 < i <= |ws| && ws[0].batch.Some? && size == TotalBytes(ws[..i])
    requires forall j :: 0 < j < i && ws[j].batch.Some? ==> TotalBytes(ws[..j + 1]) <= MaxSize(ByteSize(ws[0].batch.value))
    requires forall j :: 0 < j < i ==> ws[j].sync ==> ws[0].sync
    ensures Fills(ws, GroupEnd(ws, i, size, MaxSize(ByteSize(ws[0].batch.value))))
    decreases |ws| - i
  {
    hide TotalBytes, ByteSize;
    if i < |ws| {
      TotalBytesNext(ws, i);
      if ws[i].sync && !ws[0].sync {
      } else if ws[i].batch.None? {
        GroupFillsFrom(ws, i + 1, size);
      } else if size + ByteSize(ws[i].batch.value) <= MaxSize(ByteSize(ws[0].batch.value)) {
        GroupFillsFrom(ws, i + 1, size + ByteSize(ws[i].batch.value));
      }
    }
  }

  lemma GroupFills(ws: seq<Request>)
    requires |ws| > 0 && ws[0].batch.Some?
    ensures var size := ByteSize(ws[0].batch.value); Fills(ws, GroupEnd(ws, 1, size, MaxSize(size)))
  {
    TotalBytesNext(ws, 0);
    assert TotalBytes(ws[..0]) == 0;
    GroupFillsFrom(ws, 1, ByteSize(ws[0].batch.value));
  }

  // The limits settle where the group ends.
  lemma OneFills(ws: seq<Request>, n: nat, m: nat)
    requires |ws| > 0 && ws[0].batch.Some? && Fills(ws, n) && Fills(ws, m)
    ensures n == m
  {}

  // No sync request goes with a leader that does not sync.
  lemma {:induction false} GroupKeepsSync(ws: seq<Request>, i: nat, size: nat, maxSize: nat)
    requires 0 < i <= |ws| && forall j :: 0 <= j < i && ws[j].sync ==> ws[0].sync
    ensures forall j :: 0 <= j < GroupEnd(ws, i, size, maxSize) && ws[j].sync ==> ws[0].sync
    decreases |ws| - i
  {
    hide OpsBytes;
    if i == |ws| || (ws[i].sync && !ws[0].sync) {
    } else if ws[i].batch.None? {
      GroupKeepsSync(ws, i + 1, size, maxSize);
    } else if size + ByteSize(ws[i].batch.value) <= maxSize {
      GroupKeepsSync(ws, i + 1, size + ByteSize(ws[i].batch.value), maxSize);
    }
  }

  // What stands for a request in memory.
  datatype Writer = Writer(batch: Option<WriteBatch>, sync: bool)

  ghost predicate Stands(w: Writer, r: Request)
    reads if w.batch.Some? then {w.batch.value} else {}
  {
    w.sync == r.sync && (w.batch.Some? <==> r.batch.Some?)
    && (w.batch.Some? ==> w.batch.value.Valid() && w.batch.value.ops == r.batch.value)
  }

  // BuildBatchGroup: the leader's own batch as long as it is alone, then the spare one, so that no writer's
  // batch is disturbed.
  method BuildBatchGroup(writers: seq<Writer>, ghost ws: seq<Request>, tmpBatch: WriteBatch) returns (result: WriteBatch, n: nat)
    requires |writers| == |ws| > 0 && ws[0].batch.Some? && tmpBatch.Valid() && tmpBatch.ops == []
    requires forall i :: 0 <= i < |writers| ==> writers[i].batch != Some(tmpBatch) && Stands(writers[i], ws[i])
    modifies tmpBatch
    ensures n == GroupEnd(ws, 1, ByteSize(ws[0].batch.value), MaxSize(ByteSize(ws[0].batch.value))) && Fills(ws, n)
    ensures result.Valid() && result.ops == OpsOf(ws[..n])
    ensures Some(result) == writers[0].batch || result == tmpBatch
  {
    hide OpsOf, OpsBytes, Rep, Fits, ByteSize, Fills, WriteBatch.Valid;
    GroupFills(ws);
    var first := writers[0];
    assert Stands(first, ws[0]);
    result := first.batch.value;
    var size: nat := result.ByteSize();
    var maxSize := MaxSize(size);
    n := 1;
    OneRequest(ws);
    SizeOfRep(result);
    while n < |writers|
      invariant 1 <= n <= |writers|
      invariant result.Valid() && result.ops == OpsOf(ws[..n]) && |result.ops| <= size
      invariant result == first.batch.value || result == tmpBatch
      invariant result != tmpBatch ==> tmpBatch.Valid() && tmpBatch.ops == []
      invariant forall i :: 0 <= i < |writers| ==> Stands(writers[i], ws[i])
      invariant GroupEnd(ws, n, size, maxSize)
             == GroupEnd(ws, 1, ByteSize(ws[0].batch.value), MaxSize(ByteSize(ws[0].batch.value)))
    {
      var w := writers[n];
      assert Stands(w, ws[n]);
      if w.sync && !first.sync {
        return;
      }
      OpsOfNext(ws, n);
      if w.batch.Some? {
        SizeOfRep(w.batch.value);
        size := size + w.batch.value.ByteSize();
        if size > maxSize {
          return;
        }
        assert |result.ops| + |w.batch.value.ops| <= size <= MAX_GROUP;
        if result == first.batch.value {
          result := tmpBatch;
          result.Append(first.batch.value);
        }
        result.Append(w.batch.value);
      }
      n := n + 1;
    }
  }

  lemma OneRequest(ws: seq<Request>)
    requires ws != [] && ws[0].batch.Some?
    ensures OpsOf(ws[..1]) == ws[0].batch.value
  {
    assert ws[..1][..0] == [];
  }

  lemma SizeOfRep(b: WriteBatch)
    requires b.Valid()
    ensures b.ByteSize() == ByteSize(b.ops) && |b.ops| <= b.ByteSize()
  {
    OpsTakeBytes(b.ops);
  }

  // ---- The protocol ----

  // A log record: the group's updates, the sequence number of the first, and whether the log was synced.
  datatype LogRecord = LogRecord(first: nat, ops: seq<Op>, synced: bool)

  // How far the leader has come with its group of n writers.
  datatype Stage = Built | Logged | Inserted
  // A leader without a batch logs nothing.
  datatype Leader = Leader(n: nat, first: nat, ops: seq<Op>, synced: bool, logs: bool, stage: Stage)

  function LoggedOps(log: seq<LogRecord>): seq<Op> {
    if log == [] then [] else LoggedOps(log[..|log| - 1]) + log[|log| - 1].ops
  }

  // The records' sequence numbers follow on from `base` without gap or overlap.
  ghost predicate Contiguous(log: seq<LogRecord>, base: nat) {
    forall k :: 0 <= k < |log| ==> log[k].first == base + 1 + |LoggedOps(log[..k])|
  }

  // Updates under consecutive sequence numbers.
  function Numbered(ops: seq<Op>, first: nat): seq<(nat, Op)> {
    seq(|ops|, i requires 0 <= i < |ops| => (first + i, ops[i]))
  }

  // The requests of some writers, and their updates in order.
  function RequestsOf(ids: seq<nat>, requests: map<nat, Request>): seq<Request>
    requires forall id :: id in ids ==> id in requests
  {
    seq(|ids|, i requires 0 <= i < |ids| => requests[ids[i]])
  }

  ghost function IdOps(ids: seq<nat>, requests: map<nat, Request>): seq<Op> {
    if ids == [] then [] else IdOps(ids[..|ids| - 1], requests) + OneOps(ids[|ids| - 1], requests)
  }

  ghost function OneOps(id: nat, requests: map<nat, Request>): seq<Op> {
    if id in requests && requests[id].batch.Some? then requests[id].batch.value else []
  }

  lemma {:induction false} IdOpsConcat(a: seq<nat>, b: seq<nat>, requests: map<nat, Request>)
    ensures IdOps(a + b, requests) == IdOps(a, requests) + IdOps(b, requests)
  {
    if b == [] {
      assert a + b == a;
    } else {
      assert (a + b)[..|a + b| - 1] == a + b[..|b| - 1];
      IdOpsConcat(a, b[..|b| - 1], requests);
    }
  }

  // A new request changes nothing for the others.
  lemma {:induction false} IdOpsStable(ids: seq<nat>, requests: map<nat, Request>, id: nat, r: Request)
    requires id !in ids
    ensures IdOps(ids, requests[id := r]) == IdOps(ids, requests)
  {
    if ids != [] {
      IdOpsStable(ids[..|ids| - 1], requests, id, r);
    }
  }

  lemma {:induction false} IdOpsAreOps(ids: seq<nat>, requests: map<nat, Request>, n: nat)
    requires (forall id :: id in ids ==> id in requests) && n <= |ids|
    ensures IdOps(ids[..n], requests) == OpsOf(RequestsOf(ids, requests)[..n])
  {
    if n > 0 {
      IdOpsAreOps(ids, requests, n - 1);
      assert ids[..n][..n - 1] == ids[..n - 1];
      OpsOfNext(RequestsOf(ids, requests), n - 1);
    }
  }

  lemma LogNext(log: seq<LogRecord>, base: nat, r: LogRecord)
    requires Contiguous(log, base) && r.first == base + 1 + |LoggedOps(log)|
    ensures Contiguous(log + [r], base) && LoggedOps(log + [r]) == LoggedOps(log) + r.ops
  {
    var log' := log + [r];
    assert log'[..|log|] == log;
    forall k | 0 <= k < |log'|
      ensures log'[k].first == base + 1 + |LoggedOps(log'[..k])|
    {
      assert k < |log| ==> log'[..k] == log[..k];
    }
  }

  lemma NumberedConcat(a: seq<Op>, b: seq<Op>, first: nat)
    ensures Numbered(a + b, first) == Numbered(a, first) + Numbered(b, first + |a|)
  {}

  // The writers in order of arrival: those let go, then those waiting.
  ghost predicate Arrivals(queue: seq<nat>, requests: map<nat, Request>, done: set<nat>, arrived: seq<nat>, completed: seq<nat>) {
    arrived == completed + queue && Distinct(arrived)
    && (forall id :: id in requests <==> id in arrived) && (forall id :: id in done <==> id in completed)
  }

  // Every record holds just its members' updates, and was synced if any of them asked for it.
  ghost predicate RecordsOk(log: seq<LogRecord>, members: seq<seq<nat>>, requests: map<nat, Request>) {
    |members| == |log| && forall k :: 0 <= k < |log| ==> RecordOk(log[k], members[k], requests)
  }

  ghost predicate RecordOk(r: LogRecord, ids: seq<nat>, requests: map<nat, Request>) {
    (forall id :: id in ids ==> id in requests) && r.ops == IdOps(ids, requests)
    && forall id :: id in ids && id in requests && requests[id].sync ==> r.synced
  }

  // Of the writers that are due, each with a batch is in one record, and no record holds any other.
  ghost predicate Placed(members: seq<seq<nat>>, due: seq<nat>, requests: map<nat, Request>) {
    (forall j, k, id :: 0 <= j < k < |members| && id in members[j] ==> id !in members[k])
    && (forall k, id :: 0 <= k < |members| && id in members[k] ==> id in due)
    && forall id :: id in due && id in requests && requests[id].batch.Some? ==> exists k :: 0 <= k < |members| && id in members[k]
  }

  lemma PlacedNext(members: seq<seq<nat>>, due: seq<nat>, requests: map<nat, Request>, group: seq<nat>)
    requires Placed(members, due, requests) && forall id :: id in group ==> id !in due
    ensures Placed(members + [group], due + group, requests)
  {
    var members' := members + [group];
    forall id | id in due + group && id in requests && requests[id].batch.Some?
      ensures exists k :: 0 <= k < |members'| && id in members'[k]
    {
      if id in group {
        assert id in members'[|members|];
      } else {
        var k :| 0 <= k < |members| && id in members[k];
        assert id in members'[k];
      }
    }
  }

  lemma PlacedStable(members: seq<seq<nat>>, due: seq<nat>, requests: map<nat, Request>, id: nat, r: Request)
    requires Placed(members, due, requests) && id !in due
    ensures Placed(members, due, requests[id := r])
  {}

  lemma PlacedNull(members: seq<seq<nat>>, due: seq<nat>, requests: map<nat, Request>, id: nat)
    requires Placed(members, due, requests) && id in requests && requests[id].batch.None?
    ensures Placed(members, due + [id], requests)
  {}

  // The leader's group is at the front of the queue.
  ghost predicate GroupOk(l: Leader, queue: seq<nat>, requests: map<nat, Request>) {
    0 < l.n <= |queue| && RecordOk(LogRecord(l.first, l.ops, l.synced), queue[..l.n], requests)
    && (!l.logs ==> l.n == 1 && queue[0] in requests && requests[queue[0]].batch.None? && l.stage == Inserted)
  }

  lemma RecordsStable(log: seq<LogRecord>, members: seq<seq<nat>>, requests: map<nat, Request>, id: nat, r: Request)
    requires RecordsOk(log, members, requests) && id !in requests
    ensures RecordsOk(log, members, requests[id := r])
  {
    forall k | 0 <= k < |log|
      ensures RecordOk(log[k], members[k], requests[id := r])
    {
      RecordStable(log[k], members[k], requests, id, r);
    }
  }

  lemma RecordStable(x: LogRecord, ids: seq<nat>, requests: map<nat, Request>, id: nat, r: Request)
    requires RecordOk(x, ids, requests) && id !in requests
    ensures RecordOk(x, ids, requests[id := r])
  {
    IdOpsStable(ids, requests, id, r);
  }

  class WriteQueue {
    var queue: seq<nat>
    var requests: map<nat, Request>
    var done: set<nat>
    var leader: Option<Leader>
    var log: seq<LogRecord>
    var mem: seq<(nat, Op)>
    var lastSequence: nat

    // The writers in order of arrival, those that were let go first; who went into which record; and the
    // sequence number it all began with.
    ghost var arrived: seq<nat>
    ghost var completed: seq<nat>
    ghost var members: seq<seq<nat>>
    ghost const base: nat

    // The writers whose updates are in the log by now.
    ghost function Due(): seq<nat>
      reads this
    {
      match leader
      case Some(l) => if l.stage != Built && l.logs && l.n <= |queue| then completed + queue[..l.n] else completed
      case None => completed
    }

    // What has been committed, and what the leader is committing.
    ghost predicate Valid()
      reads this
    {
      Arrivals(queue, requests, done, arrived, completed) && RecordsOk(log, members, requests) && Contiguous(log, base)
      && Placed(members, Due(), requests)
      && var before := IdOps(completed, requests);
         lastSequence == base + |before|
         && match leader
            case None => LoggedOps(log) == before && mem == Numbered(before, base + 1)
            case Some(l) =>
              GroupOk(l, queue, requests) && l.first == lastSequence + 1
              && LoggedOps(log) == (if l.stage.Built? then before else before + l.ops)
              && mem == Numbered(if l.stage.Inserted? then before + l.ops else before, base + 1)
    }

    constructor (lastSequence: nat)
      ensures Valid() && queue == [] && this.lastSequence == lastSequence && base == lastSequence && leader == None
    {
      queue, requests, done, leader, log, mem := [], map[], {}, None, [], [];
      this.lastSequence, base := lastSequence, lastSequence;
      arrived, completed, members := [], [], [];
    }

    // A writer joins the queue, whatever the leader is doing.
    method Enqueue(id: nat, r: Request)
      requires Valid() && id !in requests
      modifies this
      ensures Valid() && arrived == old(arrived) + [id] && requests == old(requests)[id := r]
      ensures log == old(log) && mem == old(mem) && done == old(done) && leader == old(leader) && completed == old(completed)
    {
      hide RecordOk, RecordsOk, Contiguous, IdOps, LoggedOps, Placed;
      PlacedStable(members, Due(), requests, id, r);
      RecordsStable(log, members, requests, id, r);
      IdOpsStable(completed, requests, id, r);
      if leader.Some? {
        var l := leader.value;
        RecordStable(LogRecord(l.first, l.ops, l.synced), queue[..l.n], requests, id, r);
        assert (queue + [id])[..l.n] == queue[..l.n];
      }
      queue := queue + [id];
      requests := requests[id := r];
      arrived := arrived + [id];
    }

    // The front writer becomes leader, under the lock, and numbers its group's batch: the very bytes that
    // will be logged.  `writers` is what stands for the queue in memory.
    method BuildGroup(writers: seq<Writer>, tmpBatch: WriteBatch) returns (updates: Option<WriteBatch>)
      requires Valid() && leader == None && queue != [] && |writers| == |queue| && tmpBatch.Valid() && tmpBatch.ops == []
      requires forall i :: 0 <= i < |queue| ==> queue[i] in requests && Stands(writers[i], requests[queue[i]])
      requires forall i :: 0 <= i < |queue| ==> writers[i].batch != Some(tmpBatch)
      modifies this`leader, tmpBatch, if writers[0].batch.Some? then {writers[0].batch.value} else {}
      ensures Valid() && leader.Some? && leader.value.stage == (if updates.None? then Inserted else Built)
      ensures updates.Some? <==> requests[queue[0]].batch.Some?
      ensures leader.value.first == lastSequence + 1 && leader.value.synced == requests[queue[0]].sync
      ensures if updates.Some? then Fills(RequestsOf(queue, requests), leader.value.n) else leader.value.n == 1
      ensures updates.Some? ==> var u := updates.value;
                u.Valid() && u.first == leader.value.first && u.ops == leader.value.ops
                && (u == tmpBatch || Some(u) == writers[0].batch)
    {
      hide RecordsOk, RecordOk, Contiguous, LoggedOps, Distinct, Placed, IdOps, OpsOf, GroupEnd, OpsBytes, Numbered, Rep, Fits, ByteSize, MaxSize, Fills;
      ghost var ws := RequestsOf(queue, requests);
      assert Stands(writers[0], ws[0]);
      if writers[0].batch.None? {
        NullIsOk(queue, requests, lastSequence + 1);
        leader := Some(Leader(1, lastSequence + 1, [], writers[0].sync, false, Inserted));
        assert IdOps(completed, requests) + [] == IdOps(completed, requests);
        updates := None;
      } else {
        ghost var size := ByteSize(ws[0].batch.value);
        GroupKeepsSync(ws, 1, size, MaxSize(size));
        var u, n := BuildBatchGroup(writers, ws, tmpBatch);
        u.SetSequence(lastSequence + 1);
        GroupIsOk(queue, requests, n, lastSequence + 1);
        leader := Some(Leader(n, lastSequence + 1, OpsOf(RequestsOf(queue, requests)[..n]), writers[0].sync, true, Built));
        updates := Some(u);
      }
    }

    static lemma NullIsOk(queue: seq<nat>, requests: map<nat, Request>, first: nat)
      requires queue != [] && queue[0] in requests && requests[queue[0]].batch.None?
      ensures GroupOk(Leader(1, first, [], requests[queue[0]].sync, false, Inserted), queue, requests)
    {
      assert queue[..1] == [queue[0]] && queue[..1][..0] == [];
    }

    static lemma GroupIsOk(queue: seq<nat>, requests: map<nat, Request>, n: nat, first: nat)
      requires (forall id :: id in queue ==> id in requests) && 0 < n <= |queue|
      requires var ws := RequestsOf(queue, requests); forall j :: 0 <= j < n && ws[j].sync ==> ws[0].sync
      ensures var ws := RequestsOf(queue, requests);
              GroupOk(Leader(n, first, OpsOf(ws[..n]), ws[0].sync, true, Built), queue, requests)
    {
      IdOpsAreOps(queue, requests, n);
      forall id | id in queue[..n] && requests[id].sync
        ensures requests[queue[0]].sync
      {
        var j :| 0 <= j < n && queue[j] == id;
        assert RequestsOf(queue, requests)[j].sync;
      }
    }

    // AddRecord, and Sync if the leader asked for it.
    method AppendToLog()
      requires Valid() && leader.Some? && leader.value.stage.Built?
      modifies this`log, this`leader, this`members
      ensures Valid() && leader == Some(old(leader).value.(stage := Logged))
      ensures log == old(log) + [LogRecord(old(leader).value.first, old(leader).value.ops, old(leader).value.synced)]
    {
      hide RecordOk, Contiguous, IdOps, LoggedOps, Placed, Distinct;
      GroupIsNew(queue, leader.value.n, completed, arrived);
      PlacedNext(members, completed, requests, queue[..leader.value.n]);
      var l := leader.value;
      var r := LogRecord(l.first, l.ops, l.synced);
      LogNext(log, base, r);
      log := log + [r];
      members := members + [queue[..l.n]];
      leader := Some(l.(stage := Logged));
    }

    static lemma GroupIsNew(queue: seq<nat>, n: nat, completed: seq<nat>, arrived: seq<nat>)
      requires Distinct(arrived) && arrived == completed + queue && n <= |queue|
      ensures forall id :: id in queue[..n] ==> id !in completed
    {
      forall i, j | 0 <= i < n && 0 <= j < |completed|
        ensures queue[i] != completed[j]
      {
        assert arrived[j] != arrived[|completed| + i];
      }
    }

    // InsertInto the memtable.
    method InsertToMem()
      requires Valid() && leader.Some? && leader.value.stage.Logged?
      modifies this`mem, this`leader
      ensures Valid() && mem == old(mem) + Numbered(old(leader).value.ops, old(leader).value.first)
      ensures leader == Some(old(leader).value.(stage := Inserted))
    {
      hide RecordOk, RecordsOk, Contiguous, IdOps, LoggedOps, Arrivals, Numbered, Placed;
      var l := leader.value;
      NumberedConcat(IdOps(completed, requests), l.ops, base + 1);
      mem := mem + Numbered(l.ops, l.first);
      leader := Some(l.(stage := Inserted));
    }

    static lemma LetGo(queue: seq<nat>, requests: map<nat, Request>, done: set<nat>, arrived: seq<nat>, completed: seq<nat>, n: nat)
      requires Arrivals(queue, requests, done, arrived, completed) && n <= |queue|
      ensures Arrivals(queue[n..], requests, done + (set i | 0 <= i < n :: queue[i]), arrived, completed + queue[..n])
    {
      hide Distinct;
      assert completed + queue == (completed + queue[..n]) + queue[n..];
      ghost var group := queue[..n];
      assert forall id :: id in group <==> exists i :: 0 <= i < n && queue[i] == id;
    }

    // Under the lock again: the sequence number moves on, and the whole group is let go.
    method Finish()
      requires Valid() && leader.Some? && leader.value.stage.Inserted?
      modifies this
      ensures Valid() && leader == None && log == old(log) && mem == old(mem) && requests == old(requests)
      ensures completed == old(completed) + old(queue)[..old(leader).value.n]
    {
      hide RecordsOk, Contiguous, IdOps, LoggedOps, Numbered, Distinct, Placed, Arrivals;
      var l := leader.value;
      if !l.logs {
        PlacedNull(members, completed, requests, queue[0]);
        assert queue[..1] == [queue[0]];
      }
      IdOpsConcat(completed, queue[..l.n], requests);
      LetGo(queue, requests, done, arrived, completed, l.n);
      lastSequence := lastSequence + |l.ops|;
      done := done + (set i | 0 <= i < l.n :: queue[i]);
      completed := completed + queue[..l.n];
      queue := queue[l.n..];
      leader := None;
    }

    // With no leader at work, what is logged and inserted is the batches of the writers let go, each once,
    // in the order they came, under consecutive sequence numbers up to the last.
    lemma Committed()
      requires Valid() && leader == None
      ensures LoggedOps(log) == IdOps(completed, requests) && completed <= arrived && Distinct(arrived)
      ensures mem == Numbered(IdOps(completed, requests), base + 1) && lastSequence == base + |mem|
      ensures forall id :: id in done <==> id in completed
    {}

    // The sequence numbers of one record end where those of the next begin.
    lemma RangesFollow(k: nat)
      requires Valid() && k + 1 < |log|
      ensures log[k + 1].first == log[k].first + |log[k].ops|
    {
      hide RecordsOk, Arrivals, Placed, Numbered, IdOps, GroupOk;
      assert log[..k + 1][..k] == log[..k];
    }

    // Every writer that was let go and had a batch is in exactly one record.
    lemma CommittedOnce(id: nat)
      requires Valid() && leader == None && id in completed && id in requests && requests[id].batch.Some?
      ensures exists k :: 0 <= k < |log| && id in members[k] && forall j :: 0 <= j < |log| && id in members[j] ==> j == k
    {
      var k :| 0 <= k < |members| && id in members[k];
    }

    // A writer that asked for a sync is in no record that was not synced.
    lemma SyncsAreSynced(k: nat, id: nat)
      requires Valid() && k < |log| && id in members[k] && requests[id].sync
      ensures log[k].synced && log[k].ops == IdOps(members[k], requests)
    {
      assert RecordOk(log[k], members[k], requests);
    }
  }
}
