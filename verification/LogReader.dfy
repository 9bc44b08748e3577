/** Reading a log back. */
module LogReader {
  import opened Wrappers
  import opened Bytes
  import opened Seqs
  import opened LogFormat
  import opened LogScan

  class Reader {
    const crc: Checksum
    const file: seq<byte>
    var filePos: nat
    var buffer: seq<byte>
    var eof: bool

    // The sizes reported as corrupted.
    var reports: seq<nat>

    // The next byte to look at.
    ghost function Pos(): int
      reads this`filePos, this`buffer
    {
      filePos - |buffer|
    }

    // The buffer is what is left of the block that was read last; a short read was the last.
    ghost predicate Ok(): (ok: bool)
      reads this`filePos, this`buffer, this`eof
      ensures ok ==> 0 <= Pos() <= |file|
    {
      0 <= Pos() && filePos <= |file| && buffer == file[Pos()..filePos]
      && (eof ==> filePos == |file|) && (!eof ==> filePos % BLOCK_SIZE == 0)
      && (buffer != [] ==> |buffer| <= Leftover(Pos()) && (eof <==> |buffer| < Leftover(Pos())))
    }

    constructor (crc: Checksum, file: seq<byte>)
      ensures Ok() && Pos() == 0 && reports == [] && this.file == file && this.crc == crc
    {
      this.crc, this.file, filePos, buffer, eof, reports := crc, file, 0, [], false, [];
    }

    // Read the next block into the buffer.
    method ReadBlock()
      requires Ok() && !eof && |buffer| < HEADER_SIZE
      modifies this
      ensures Ok() && reports == old(reports) && Pos() == old(filePos)
      ensures |buffer| == Min(BLOCK_SIZE, |file| - old(filePos)) && eof == (|buffer| < BLOCK_SIZE)
    {
      var n := if |file| - filePos < BLOCK_SIZE then |file| - filePos else BLOCK_SIZE;
      buffer := file[filePos..filePos + n];
      BlockStart(filePos);
      filePos := filePos + n;
      if n < BLOCK_SIZE {
        eof := true;
      }
    }

    static lemma BlockStart(pos: nat)
      requires pos % BLOCK_SIZE == 0
      ensures Leftover(pos) == BLOCK_SIZE && (pos + BLOCK_SIZE) % BLOCK_SIZE == 0
    {}

    // Have a whole header in the buffer, past the trailer of a block if need be.
    method FillHeader() returns (ok: bool)
      requires Ok()
      modifies this
      ensures Ok() && reports == old(reports) && ok == (|buffer| >= HEADER_SIZE)
      ensures ok ==> Pos() == old(Pos()) + Trailer(old(Pos()))
      ensures !ok ==> eof && |file| - (old(Pos()) + Trailer(old(Pos()))) < HEADER_SIZE
    {
      ghost var p := Pos();
      while |buffer| < HEADER_SIZE
        invariant Ok() && reports == old(reports)
        invariant Pos() == p + Trailer(p) || (Pos() == p && (|buffer| < HEADER_SIZE || Trailer(p) == 0))
        decreases |file| - filePos, !eof
      {
        if eof {
          return false;
        }
        if buffer == [] {
          BlockStart(filePos);
        }
        ReadBlock();
      }
      ok := true;
    }

    method Consume(n: nat)
      requires Ok() && n <= |buffer|
      modifies this`buffer
      ensures Ok() && Pos() == old(Pos()) + n && buffer == old(buffer)[n..]
    {
      if n < |buffer| {
        LeftoverShrinks(Pos(), n, |buffer|);
      }
      buffer := buffer[n..];
    }

    // ReadPhysicalRecord.
    method ReadPhysicalRecord() returns (t: byte, fragment: seq<byte>)
      requires Ok()
      modifies this
      ensures Ok() && match NextStep(crc, file, old(Pos()))
                      case Found(f) => t == f.t && fragment == f.payload && Pos() == f.next && reports == old(reports)
                      case Damaged(more, next) => t == BAD_RECORD && fragment == [] && Pos() == next && reports == old(reports) + more
                      case AtEnd => t == EOF && Pos() == |file| && reports == old(reports)
    {
      hide Trailer, StoredChecksum, NextStep, Leftover, Ok;
      ghost var p := Pos();
      fragment := [];
      var ok := FillHeader();
      if !ok {
        NoHeader(crc, file, p);
        Consume(|buffer|);
        return EOF, [];
      }
      StepOfBuffer(p);
      var a, b := buffer[4] as int, buffer[5] as int;
      var kind := buffer[6];
      var length := a + 256 * b;
      if HEADER_SIZE + length > |buffer| {
        var size := |buffer|;
        Consume(size);
        if !eof {
          reports := reports + [size];
          return BAD_RECORD, [];
        }
        return EOF, [];
      }
      if kind == 0 && length == 0 {
        Consume(|buffer|);
        return BAD_RECORD, [];
      }
      var expected := StoredChecksum(buffer[..4]);
      if crc(buffer[6..HEADER_SIZE + length]) != expected {
        reports := reports + [|buffer|];
        Consume(|buffer|);
        return BAD_RECORD, [];
      }
      fragment := buffer[HEADER_SIZE..HEADER_SIZE + length];
      t := kind;
      Consume(HEADER_SIZE + length);
    }

    // The step depends on what is in the buffer.
    lemma StepOfBuffer(p: nat)
      requires Ok() && Pos() == p + Trailer(p) && |buffer| >= HEADER_SIZE
      ensures Leftover(Pos()) >= |buffer| && (eof <==> |buffer| < Leftover(Pos()))
      ensures NextStep(crc, file, p) == ShiftBy(HeaderStep(crc, buffer, Leftover(Pos())), Pos())
    {
      hide HeaderStep, Leftover, Trailer;
      var s, room := file[Pos()..], Leftover(Pos());
      BlockAlone(crc, s, room);
      assert s[..|buffer|] == buffer && |buffer| == Min(room, |s|);
    }

    static lemma LeftoverShrinks(q: nat, n: nat, left: nat)
      requires n < left <= Leftover(q)
      ensures Leftover(q + n) == Leftover(q) - n
    {
      DivModUnique(q + n, BLOCK_SIZE, q / BLOCK_SIZE, q % BLOCK_SIZE + n);
    }

    // ReadRecord: the next record, and what is reported before it.
    method ReadRecord() returns (ok: bool, record: seq<byte>)
      requires Ok()
      modifies this
      ensures Ok() && (ok ==> Pos() > old(Pos())) && old(reports) <= reports
      ensures Read(crc, file, old(Pos()), None)
           == if ok then Behind(reports[|old(reports)|..], [record], Read(crc, file, Pos(), None))
              else Outcome([], reports[|old(reports)|..])
    {
      hide NextStep, Ok, Take;
      var scratch: seq<byte> := [];
      var inFragmentedRecord := false;
      ghost var all, before := Read(crc, file, Pos(), None), reports;
      while true
        invariant Ok() && Pos() >= old(Pos()) && before <= reports && (!inFragmentedRecord ==> scratch == [])
        invariant all == Behind(reports[|before|..], [], Read(crc, file, Pos(), BegunIn(inFragmentedRecord, scratch)))
        decreases |file| - Pos()
      {
        ghost var step, begun, had := NextStep(crc, file, Pos()), BegunIn(inFragmentedRecord, scratch), reports;
        var t, fragment := ReadPhysicalRecord();
        if t == EOF {
          return false, [];
        }
        ghost var taken, more := Take(begun, t, fragment), reports[|had|..];
        LostAt6(begun);
        assert step.Found? ==> more + taken.reports == taken.reports;
        ok, inFragmentedRecord, scratch := TakeFragment(t, fragment, inFragmentedRecord, scratch);
        BehindBehind(had[|before|..], more + taken.reports, [], taken.records, Read(crc, file, Pos(), taken.scratch));
        assert reports[|before|..] == had[|before|..] + (more + taken.reports) && [] + taken.records == taken.records;
        if ok {
          return true, scratch;
        }
      }
    }

    // A record that is complete is left in `scratch'`.
    method TakeFragment(t: byte, fragment: seq<byte>, inFragmentedRecord: bool, scratch: seq<byte>)
      returns (ok: bool, inFragmentedRecord': bool, scratch': seq<byte>)
      requires t != EOF && (!inFragmentedRecord ==> scratch == [])
      modifies this`reports
      ensures !inFragmentedRecord' && !ok ==> scratch' == []
      ensures var taken := Take(BegunIn(inFragmentedRecord, scratch), t, fragment);
              reports == old(reports) + taken.reports
              && if ok then taken.records == [scratch'] && taken.scratch == None
                 else taken.records == [] && taken.scratch == BegunIn(inFragmentedRecord', scratch')
    {
      ok, inFragmentedRecord', scratch' := false, inFragmentedRecord, scratch;
      if t == FULL || t == FIRST {
        if inFragmentedRecord && scratch != [] {
          reports := reports + [|scratch|];
        }
        ok, inFragmentedRecord', scratch' := t == FULL, true, fragment;
      } else if t == MIDDLE || t == LAST {
        if !inFragmentedRecord {
          reports := reports + [|fragment|];
        } else {
          ok, scratch' := t == LAST, scratch + fragment;
        }
      } else if t == BAD_RECORD {
        if inFragmentedRecord {
          reports := reports + [|scratch|];
          inFragmentedRecord', scratch' := false, [];
        }
      } else {
        reports := reports + [|fragment| + if inFragmentedRecord then |scratch| else 0];
        inFragmentedRecord', scratch' := false, [];
      }
    }
  }

  // Damage is handled like a fragment of type 6 with nothing in it.
  lemma LostAt6(scratch: Option<seq<byte>>)
    ensures Take(scratch, BAD_RECORD, []) == Taken([], Lost(scratch), None)
  {}

  lemma BehindBehind(a: seq<nat>, b: seq<nat>, r: seq<seq<byte>>, s: seq<seq<byte>>, o: Outcome)
    ensures Behind(a, r, Behind(b, s, o)) == Behind(a + b, r + s, o)
  {
    Associate(a, b, o.reports);
    Associate(r, s, o.records);
  }

  function BegunIn(inFragmentedRecord: bool, scratch: seq<byte>): Option<seq<byte>> {
    if inFragmentedRecord then Some(scratch) else None
  }

  lemma NothingSoFar(o: Outcome)
    ensures Behind([], [], o) == o
  {}

  lemma OnlyReports(a: seq<nat>, b: seq<nat>, records: seq<seq<byte>>)
    ensures Behind(a, records, Outcome([], b)) == Outcome(records, a + b)
  {}

  // The loop of a reader.
  method ReadAll(crc: Checksum, file: seq<byte>) returns (records: seq<seq<byte>>, reports: seq<nat>)
    ensures Outcome(records, reports) == Read(crc, file, 0, None)
  {
    hide Read, Reader.Ok, Behind;
    var reader := new Reader(crc, file);
    records := [];
    NothingSoFar(Read(crc, file, 0, None));
    while true
      invariant reader.Ok() && reader.crc == crc && reader.file == file
      invariant Read(crc, file, 0, None) == Behind(reader.reports, records, Read(crc, file, reader.Pos(), None))
      decreases |file| - reader.Pos()
    {
      ghost var had := reader.reports;
      var ok, record := reader.ReadRecord();
      ghost var more := reader.reports[|had|..];
      assert had + more == reader.reports;
      if !ok {
        OnlyReports(had, more, records);
        return records, reader.reports;
      }
      BehindBehind(had, more, records, [record], Read(crc, file, reader.Pos(), None));
      records := records + [record];
    }
  }
}
