/** Appending records to a log. */
module LogWriter {
  import opened Bytes
  import opened Seqs
  import opened LogFormat

  class Writer {
    const crc: Checksum
    var dest: seq<byte>
    var blockOffset: nat

    ghost predicate Valid()
      reads this
    {
      IsChecksum(crc) && blockOffset <= BLOCK_SIZE && blockOffset % BLOCK_SIZE == |dest| % BLOCK_SIZE
    }

    // A writer may go on where a file ends.
    constructor (crc: Checksum, dest: seq<byte>)
      requires IsChecksum(crc)
      ensures Valid() && this.dest == dest && this.crc == crc
    {
      this.crc, this.dest := crc, dest;
      blockOffset := |dest| % BLOCK_SIZE;
    }

    // One fragment at a time, at least one even if there is no data.
    method AddRecord(data: seq<byte>)
      requires Valid()
      modifies this
      ensures Valid() && dest == old(dest) + RecordBytes(crc, |old(dest)|, data, true)
    {
      hide RecordBytes, Physical;
      var left, begin := data, true;
      while true
        invariant Valid() && (!begin ==> |dest| % BLOCK_SIZE == 0 && blockOffset == BLOCK_SIZE)
        invariant dest + RecordBytes(crc, |dest|, left, begin) == old(dest) + RecordBytes(crc, |old(dest)|, data, true)
        decreases |left|, if begin then 1 else 0
      {
        ghost var start, pos := dest, |dest|;
        SwitchBlock();
        var avail := BLOCK_SIZE - blockOffset - HEADER_SIZE;
        var fragmentLength := if |left| < avail then |left| else avail;
        var end := |left| == fragmentLength;
        var t := if begin && end then FULL else if begin then FIRST else if end then LAST else MIDDLE;
        OneFragment(crc, start, left, begin);
        EmitPhysicalRecord(t, left[..fragmentLength]);
        if end {
          break;
        }
        FragmentFills(pos, left);
        left := left[fragmentLength..];
        begin := false;
      }
    }

    // Fill up a block that has no room for a header.
    method SwitchBlock()
      requires Valid()
      modifies this
      ensures Valid() && dest == old(dest) + Zeros(Trailer(|old(dest)|))
      ensures BLOCK_SIZE - blockOffset == Leftover(|dest|) >= HEADER_SIZE
    {
      var leftover := BLOCK_SIZE - blockOffset;
      if leftover < HEADER_SIZE {
        if leftover > 0 {
          dest := dest + Zeros(leftover);
        }
        blockOffset := 0;
      }
    }

    method EmitPhysicalRecord(t: byte, payload: seq<byte>)
      requires Valid() && |payload| < 0x1_0000 && blockOffset + HEADER_SIZE + |payload| <= BLOCK_SIZE
      modifies this
      ensures Valid() && dest == old(dest) + Physical(crc, t, payload)
      ensures blockOffset == old(blockOffset) + HEADER_SIZE + |payload|
    {
      var n := |payload|;
      var header := ToLittleEndian(Mask(crc([t] + payload)), 4) + [n % 256, n / 256, t];
      OffsetMoves(blockOffset, |dest|, HEADER_SIZE + n);
      Associate(dest, header, payload);
      dest := dest + header;
      dest := dest + payload;
      blockOffset := blockOffset + HEADER_SIZE + n;
    }
  }

  lemma OffsetMoves(a: nat, b: nat, n: nat)
    requires a % BLOCK_SIZE == b % BLOCK_SIZE
    ensures (a + n) % BLOCK_SIZE == (b + n) % BLOCK_SIZE
  {}

  // The fragment that comes next, and what it leaves.
  lemma OneFragment(crc: Checksum, dest: seq<byte>, left: seq<byte>, begin: bool)
    requires IsChecksum(crc)
    ensures var pos := |dest|;
            var n := FragmentLength(pos, left);
            var dest' := dest + Zeros(Trailer(pos)) + Physical(crc, FragmentType(begin, n == |left|), left[..n]);
            dest + RecordBytes(crc, pos, left, begin)
            == if n == |left| then dest' else dest' + RecordBytes(crc, |dest'|, left[n..], false)
  {
    hide Physical;
    var pos := |dest|;
    var n := FragmentLength(pos, left);
    var a, b := Zeros(Trailer(pos)), Physical(crc, FragmentType(begin, n == |left|), left[..n]);
    Associate(dest, a, b);
    if n < |left| {
      FragmentFills(pos, left);
      Associate(dest, a + b, RecordBytes(crc, pos + |a| + HEADER_SIZE + n, left[n..], false));
    }
  }

  // A log of records, from an empty file or behind what a file already holds.
  method AddRecords(w: Writer, records: seq<seq<byte>>)
    requires w.Valid()
    modifies w
    ensures w.Valid() && w.dest == old(w.dest) + LogBytes(w.crc, |old(w.dest)|, records)
  {
    hide RecordBytes;
    var i := 0;
    while i < |records|
      invariant i <= |records| && w.Valid()
      invariant w.dest == old(w.dest) + LogBytes(w.crc, |old(w.dest)|, records[..i])
    {
      ghost var pos := |old(w.dest)|;
      w.AddRecord(records[i]);
      assert records[..i + 1] == records[..i] + [records[i]];
      LogBytesConcat(w.crc, pos, records[..i], [records[i]]);
      OneRecord(w.crc, pos + |LogBytes(w.crc, pos, records[..i])|, records[i]);
      i := i + 1;
    }
    assert records[..|records|] == records;
  }

  lemma OneRecord(crc: Checksum, pos: nat, data: seq<byte>)
    requires IsChecksum(crc)
    ensures LogBytes(crc, pos, [data]) == RecordBytes(crc, pos, data, true)
  {
    hide RecordBytes;
    assert [data][1..] == [];
    var r := RecordBytes(crc, pos, data, true);
    assert r + [] == r;
  }
}
