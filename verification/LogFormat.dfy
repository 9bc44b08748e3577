/**
 The log: records cut into fragments, so that no fragment crosses a boundary between blocks of 32 KB and
 every one has a header of its own.
 */
module LogFormat {
  import opened Bytes
  import opened Seqs
  import opened Coding

  const BLOCK_SIZE: nat := 32768
  const HEADER_SIZE: nat := 7

  const FULL: byte := 1
  const FIRST: byte := 2
  const MIDDLE: byte := 3
  const LAST: byte := 4

  // The checksum of some bytes: any function will do.
  type Checksum = seq<byte> -> nat

  // ---- Masking of stored checksums ----

  const MASK_DELTA: nat := 0xa282_ead8

  // What is stored in place of a checksum: its halves swapped at bit 15, and shifted by MASK_DELTA.
  function Mask(crc: nat): (m: nat)
    requires crc < TWO_32
    ensures m < TWO_32
  {
    (crc / 0x8000 + crc % 0x8000 * 0x2_0000 + MASK_DELTA) % TWO_32
  }

  function Unmask(masked: nat): (crc: nat)
    requires masked < TWO_32
    ensures crc < TWO_32
  {
    var rot := (masked + TWO_32 - MASK_DELTA) % TWO_32;
    rot / 0x2_0000 + rot % 0x2_0000 * 0x8000
  }

  lemma MaskRoundTrip(crc: nat)
    requires crc < TWO_32
    ensures Unmask(Mask(crc)) == crc
  {
    var rot := crc / 0x8000 + crc % 0x8000 * 0x2_0000;
    assert rot < TWO_32;
    assert (Mask(crc) + TWO_32 - MASK_DELTA) % TWO_32 == rot;
    DivModUnique(rot, 0x2_0000, crc % 0x8000, crc / 0x8000);
  }

  lemma UnmaskRoundTrip(masked: nat)
    requires masked < TWO_32
    ensures Mask(Unmask(masked)) == masked
  {
    var rot := (masked + TWO_32 - MASK_DELTA) % TWO_32;
    var crc := Unmask(masked);
    DivModUnique(crc, 0x8000, rot % 0x2_0000, rot / 0x2_0000);
    assert crc / 0x8000 + crc % 0x8000 * 0x2_0000 == rot;
  }

  // ---- Physical records ----

  ghost predicate IsChecksum(crc: Checksum) {
    forall s :: crc(s) < TWO_32
  }

  // Checksum, length, type, payload.
  function Physical(crc: Checksum, t: byte, payload: seq<byte>): (s: seq<byte>)
    requires IsChecksum(crc) && |payload| < 0x1_0000
    ensures |s| == HEADER_SIZE + |payload|
  {
    ToLittleEndian(Mask(crc([t] + payload)), 4) + [|payload| % 256, |payload| / 256, t] + payload
  }

  // A fragment: the checksum of type and payload, turned by 15 bits and moved by a constant, in four bytes, the
  // payload's length in two, the type in one, and the payload.
  lemma FragmentFormat(crc: Checksum, t: byte, payload: seq<byte>)
    requires IsChecksum(crc) && |payload| < 0x1_0000
    ensures var c := crc([t] + payload);
            Physical(crc, t, payload)
            == ToLittleEndian((c / 32768 + c % 32768 * 131072 + 2726488792) % 0x1_0000_0000, 4)
               + [|payload| % 256, |payload| / 256, t] + payload
  {}

  lemma PhysicalParts(crc: Checksum, t: byte, payload: seq<byte>)
    requires IsChecksum(crc) && |payload| < 0x1_0000
    ensures var s := Physical(crc, t, payload);
            (s[4] as int) + 256 * (s[5] as int) == |payload| && s[6] == t && s[HEADER_SIZE..] == payload
            && LittleEndian(s[..4]) < TWO_32 && Unmask(LittleEndian(s[..4])) == crc([t] + payload)
  {
    hide Mask, Unmask, ToLittleEndian, LittleEndian;
    var m := Mask(crc([t] + payload));
    var head := ToLittleEndian(m, 4);
    var s := Physical(crc, t, payload);
    assert s[..4] == head;
    FourBytes();
    FixedRoundTrip(m, 4);
    MaskRoundTrip(crc([t] + payload));
  }

  // ---- Records ----

  // What is left of the block at a file position.
  function Leftover(pos: nat): (n: nat)
    ensures 1 <= n <= BLOCK_SIZE && (pos + n) % BLOCK_SIZE == 0
  {
    LeftoverEnds(pos);
    BLOCK_SIZE - pos % BLOCK_SIZE
  }

  lemma LeftoverEnds(pos: nat)
    ensures (pos + (BLOCK_SIZE - pos % BLOCK_SIZE)) % BLOCK_SIZE == 0
  {
    var q := pos / BLOCK_SIZE;
    DivModUnique(pos + (BLOCK_SIZE - pos % BLOCK_SIZE), BLOCK_SIZE, q + 1, 0);
  }

  // Bytes of zeros before the next header, when the block has no room for one.
  function Trailer(pos: nat): (n: nat)
    ensures n < HEADER_SIZE && Leftover(pos + n) >= HEADER_SIZE
  {
    if Leftover(pos) < HEADER_SIZE then Leftover(pos) else 0
  }

  function Min(a: nat, b: nat): nat {
    if a < b then a else b
  }

  // How much of the data the first fragment takes.
  function FragmentLength(pos: nat, data: seq<byte>): (n: nat)
    ensures n <= |data| && n <= BLOCK_SIZE - HEADER_SIZE
  {
    Min(|data|, Leftover(pos + Trailer(pos)) - HEADER_SIZE)
  }

  function FragmentType(begin: bool, end: bool): byte {
    if begin && end then FULL else if begin then FIRST else if end then LAST else MIDDLE
  }

  // A record, or the rest of one, as it is written at a file position.
  function RecordBytes(crc: Checksum, pos: nat, data: seq<byte>, begin: bool): (s: seq<byte>)
    requires IsChecksum(crc)
    ensures |s| >= HEADER_SIZE
    decreases |data|, if (pos + Trailer(pos)) % BLOCK_SIZE == 0 then 0 else 1
  {
    var n := FragmentLength(pos, data);
    var next := pos + Trailer(pos) + HEADER_SIZE + n;
    var head := Zeros(Trailer(pos)) + Physical(crc, FragmentType(begin, n == |data|), data[..n]);
    if n == |data| then head
    else
      FragmentFills(pos, data);
      head + RecordBytes(crc, next, data[n..], false)
  }

  // A record in blocks of 32768 bytes, fragments of which have seven bytes of header: type 1 where it fits the
  // block, and else 2, then 3 as often as need be, then 4; zeros where a block has no room for a header.
  lemma RecordFormat(crc: Checksum, pos: nat, data: seq<byte>, begin: bool)
    requires IsChecksum(crc)
    ensures var room := 32768 - pos % 32768;
            if room < 7 then RecordBytes(crc, pos, data, begin) == Zeros(room) + RecordBytes(crc, pos + room, data, begin)
            else if |data| <= room - 7 then RecordBytes(crc, pos, data, begin) == Physical(crc, if begin then 1 else 4, data)
            else RecordBytes(crc, pos, data, begin)
                 == Physical(crc, if begin then 2 else 3, data[..room - 7]) + RecordBytes(crc, pos + room, data[room - 7..], false)
  {
    hide Physical, Zeros, RecordBytes;
    if 32768 - pos % 32768 < 7 {
      SkipsTrailer(crc, pos, data, begin);
    } else {
      NoTrailer(crc, pos, data, begin);
    }
  }

  lemma NoTrailer(crc: Checksum, pos: nat, data: seq<byte>, begin: bool)
    requires IsChecksum(crc) && Trailer(pos) == 0
    ensures var n := FragmentLength(pos, data);
            RecordBytes(crc, pos, data, begin)
            == if n == |data| then Physical(crc, FragmentType(begin, true), data)
               else Physical(crc, FragmentType(begin, false), data[..n]) + RecordBytes(crc, pos + HEADER_SIZE + n, data[n..], false)
  {
    hide Physical, Zeros, Leftover;
    NoZeros();
    var n := FragmentLength(pos, data);
    var head := Physical(crc, FragmentType(begin, n == |data|), data[..n]);
    assert Zeros(0) + head == head && (n == |data| ==> data[..n] == data);
  }

  lemma SkipsTrailer(crc: Checksum, pos: nat, data: seq<byte>, begin: bool)
    requires IsChecksum(crc) && Trailer(pos) > 0
    ensures var next := pos + Trailer(pos);
            RecordBytes(crc, pos, data, begin) == Zeros(Trailer(pos)) + RecordBytes(crc, next, data, begin)
  {
    hide Physical, Zeros;
    NoZeros();
    var next := pos + Trailer(pos);
    LeftoverEnds(pos);
    assert Trailer(next) == 0;
    var n := FragmentLength(pos, data);
    assert n == FragmentLength(next, data);
    var head := Physical(crc, FragmentType(begin, n == |data|), data[..n]);
    assert Zeros(0) + head == head;
    if n < |data| {
      Associate(Zeros(Trailer(pos)), head, RecordBytes(crc, next + HEADER_SIZE + n, data[n..], false));
    }
  }

  lemma NoZeros()
    ensures Zeros(0) == []
  {}

  // A fragment that does not end the record fills its block.
  lemma FragmentFills(pos: nat, data: seq<byte>)
    requires FragmentLength(pos, data) < |data|
    ensures var next := pos + Trailer(pos) + HEADER_SIZE + FragmentLength(pos, data);
            next % BLOCK_SIZE == 0 && Trailer(next) == 0
    ensures FragmentLength(pos, data) == 0 ==> (pos + Trailer(pos)) % BLOCK_SIZE != 0
  {
  }

  // The records one after the other, from a file position on.
  function LogBytes(crc: Checksum, pos: nat, records: seq<seq<byte>>): seq<byte>
    requires IsChecksum(crc)
    decreases |records|
  {
    if records == [] then []
    else
      var first := RecordBytes(crc, pos, records[0], true);
      first + LogBytes(crc, pos + |first|, records[1..])
  }

  lemma {:induction false} LogBytesConcat(crc: Checksum, pos: nat, a: seq<seq<byte>>, b: seq<seq<byte>>)
    requires IsChecksum(crc)
    ensures LogBytes(crc, pos, a + b) == LogBytes(crc, pos, a) + LogBytes(crc, pos + |LogBytes(crc, pos, a)|, b)
    decreases |a|
  {
    hide RecordBytes;
    if a == [] {
      assert a + b == b;
    } else {
      assert (a + b)[1..] == a[1..] + b;
      var first := RecordBytes(crc, pos, a[0], true);
      LogBytesConcat(crc, pos + |first|, a[1..], b);
      Associate(first, LogBytes(crc, pos + |first|, a[1..]),
                LogBytes(crc, pos + |LogBytes(crc, pos, a)|, b));
    }
  }
}
