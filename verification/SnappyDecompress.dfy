/**
 The Snappy decompressor into a flat array: the branch-free fast loop, the tag loop with its refills
 from a source that hands out its bytes in pieces of any size, and the array writer.  Together they
 accept exactly the streams the byte-at-a-time decoder accepts, and produce its output.
 */
module SnappyDecompress {
  import opened Wrappers
  import opened Bytes
  import opened SnappyFormat
  import Seqs
  import opened SnappyBits
  import opened SnappyCopy
  import Varint = SnappyVarint
  import opened SnappySource

  const SLOP_BYTES: nat := 64
  const MAXIMUM_TAG_LENGTH: nat := 5

  // ---- Steps of the reference decoder ----

  // The reading of a literal of n bytes, from wherever its bytes start.
  function DecodeLiteral(s: seq<byte>, n: nat, out: seq<byte>): (r: Option<seq<byte>>)
    ensures r.Some? ==> |r.value| >= |out| + n
  {
    if |s| < n then None else Decode(s[n..], out + s[..n])
  }

  lemma DecodeLiteralSplit(a: seq<byte>, b: seq<byte>, n: nat, out: seq<byte>)
    requires |a| <= n
    ensures DecodeLiteral(a + b, n, out) == DecodeLiteral(b, n - |a|, out + a)
  {
    hide Decode;
    if n <= |a + b| {
      assert (a + b)[n..] == b[n - |a|..];
      assert out + (a + b)[..n] == out + a + b[..n - |a|];
    }
  }

  lemma LiteralTag(s: seq<byte>, out: seq<byte>, h: nat, n: nat)
    requires ParseTag(s) == Some(Literal(h, n))
    ensures Decode(s, out) == DecodeLiteral(s[h..], n, out)
  {
    hide ParseTag;
    if h + n <= |s| {
      assert s[h..][n..] == s[h + n..] && s[h..][..n] == s[h..h + n];
    }
  }

  lemma LoadOneTwo(s: seq<byte>, i: nat)
    requires i + 4 <= |s|
    ensures Load(s, i, 4) % 256 == s[i]
    ensures Load(s, i, 4) % 65536 == Load(s, i, 2) == (s[i] as int) + 256 * (s[i + 1] as int)
  {
    LoadWindow(s, i, 4);
    WindowShorter(Load(s, i, 4), s, i, 4, 2);
    WindowShift(Load(s, i, 4), s, i, 3);
    assert Pow256(2) == 256 * Pow256(1) && Pow256(1) == 256 * Pow256(0);
    LoadSplit(s, i, 1);
    LoadSplit(s, i + 1, 0);
    assert s[i + 2..i + 2] == [];
  }

  // ---- The tag table ----

  function MakeEntry(len: int, offset: int): int {
    len - 256 * offset
  }

  // kLengthMinusOffset: length less 256 times the high bits of the offset; literals carry a
  // spurious offset of 256; long literals and four-byte offsets are 0xff.
  function LengthMinusOffset(tag: byte): int {
    var data, kind := tag / 4, tag % 4;
    if kind == 3 then 0xff
    else if kind == 2 then MakeEntry(data + 1, 0)
    else if kind == 1 then MakeEntry(data % 8 + 4, data / 8)
    else if data < 60 then MakeEntry(data + 1, 1)
    else 0xff
  }

  // ExtractOffset: the offset bytes of a copy-1 or copy-2, zero for the other kinds.
  function ExtractOffset(val: nat, kind: nat): nat {
    if kind == 1 then val % 256 else if kind == 2 then val % 65536 else 0
  }

  lemma EntryLength(tag: byte)
    ensures LengthMinusOffset(tag) % 256 ==
            if tag % 4 == 3 || (tag % 4 == 0 && tag / 4 >= 60) then 0xff
            else if tag % 4 == 1 then tag / 4 % 8 + 4
            else tag / 4 + 1
  {
    LowByte(tag / 4 + 1, 0);
    LowByte(tag / 4 + 1, 1);
    LowByte(tag / 4 % 8 + 4, tag / 4 / 8);
  }

  lemma LowByte(len: nat, offset: int)
    requires len < 256
    ensures (len - 256 * offset) % 256 == len
  {}

  // What the table and the next four bytes say about the tag at s[i - 1].
  lemma TableMatchesTag(s: seq<byte>, i: nat, rest: seq<byte>)
    requires 1 <= i && i + 4 <= |s|
    ensures var t := ParseTag(s[i - 1..] + rest);
            var kind := s[i - 1] % 4;
            var entry := LengthMinusOffset(s[i - 1]) - ExtractOffset(Load(s, i, 4), kind);
            var len := LengthMinusOffset(s[i - 1]) % 256;
            if kind == 1 || kind == 2 then
              t == Some(Copy(kind + 1, len, len - entry)) && 0 < len <= 64
            else if kind == 0 && s[i - 1] / 4 < 60 then
              t == Some(Literal(1, len)) && 0 < len == s[i - 1] / 4 + 1 <= 60 && entry == len - 256
            else
              len == 0xff && entry > 0
  {
    var u := s[i - 1..] + rest;
    var tag := s[i - 1];
    EntryLength(tag);
    LoadOneTwo(s, i);
    assert u[0] == tag && u[1] == s[i];
    if tag % 4 == 2 {
      assert u[1..3] == s[i..i + 2];
      assert tag / 4 + 1 <= 64;
    } else if tag % 4 == 1 {
      assert tag / 32 == tag / 4 / 8;
    }
  }

  // ---- The fast loop ----

  // From `ip` in s, with `rest` still to come and `out` produced, decoding ends in `goal`.
  ghost predicate Resumable(s: seq<byte>, ip: nat, rest: seq<byte>, out: seq<byte>,
                            goal: Option<seq<byte>>) {
    ip <= |s| && Decode(s[ip..] + rest, out) == goal
  }

  lemma LiteralPass(s: seq<byte>, ip: nat, len: nat, rest: seq<byte>, out: seq<byte>,
                    goal: Option<seq<byte>>)
    requires 1 <= ip && ip + len <= |s|
    requires ParseTag(s[ip - 1..] + rest) == Some(Literal(1, len))
    requires Resumable(s, ip - 1, rest, out, goal)
    ensures Resumable(s, ip + len, rest, out + s[ip..ip + len], goal)
  {
    hide Decode, ParseTag;
    var here := s[ip - 1..] + rest;
    LiteralTagStep(here, out, 1, len);
    assert here[1 + len..] == s[ip + len..] + rest;
    assert here[1..1 + len] == s[ip..ip + len];
  }

  lemma CopyPass(s: seq<byte>, ip: nat, kind: nat, offset: nat, len: nat, rest: seq<byte>,
                 out: seq<byte>, goal: Option<seq<byte>>)
    requires 1 <= ip && kind <= 2 && ip + kind <= |s|
    requires ParseTag(s[ip - 1..] + rest) == Some(Copy(kind + 1, len, offset)) && 0 < offset <= |out|
    requires Resumable(s, ip - 1, rest, out, goal)
    ensures Resumable(s, ip + kind, rest, Extend(out, offset, len), goal)
  {
    hide Decode, ParseTag;
    var here := s[ip - 1..] + rest;
    CopyTagStep(here, out, kind + 1, len, offset);
    assert here[kind + 1..] == s[ip + kind..] + rest;
  }

  method MemCopy64(s: seq<byte>, ip: nat, dst: array<byte>, op: nat, ghost len: nat)
    requires ip + 64 <= |s| && op + 64 <= dst.Length && len <= 64
    modifies dst
    ensures dst[..op + len] == old(dst[..op]) + s[ip..ip + len]
  {
    forall i | op <= i < op + 64 {
      dst[i] := s[ip + (i - op)];
    }
  }

  // One pass of the unrolled loop: `ip` is just past the tag.  Stops at long literals, four-byte
  // offsets and copies it cannot make, leaving everything as it was.
  method BranchlessStep(s: seq<byte>, ip: nat, tag: byte, dst: array<byte>, op: nat,
                        ghost rest: seq<byte>, ghost goal: Option<seq<byte>>)
    returns (ok: bool, nextIp: nat, nextTag: byte, nextOp: nat)
    requires 1 <= ip && ip + 65 <= |s| && tag == s[ip - 1]
    requires op + 64 <= dst.Length
    requires Resumable(s, ip - 1, rest, dst[..op], goal)
    modifies dst
    ensures ok ==> ip < nextIp <= ip + 61 && op < nextOp <= op + 64 && nextTag == s[nextIp - 1]
                   && Resumable(s, nextIp - 1, rest, dst[..nextOp], goal)
    ensures !ok ==> dst[..op] == old(dst[..op])
  {
    hide Resumable, ParseTag, Load, LittleEndian, LengthMinusOffset, Extend, Decode;
    var lenMinOffset := LengthMinusOffset(tag);
    TableMatchesTag(s, ip, rest);
    // AdvanceToNextTag.
    var kind: nat := tag % 4;
    nextTag := if kind == 0 then s[ip + 1 + tag / 4] else s[ip + kind];
    nextIp := if kind == 0 then ip + 2 + tag / 4 else ip + 1 + kind;
    var next := Load(s, ip, 4);
    var len := lenMinOffset % 256;
    lenMinOffset := lenMinOffset - ExtractOffset(next, kind);
    nextOp := op + len;
    ghost var out := dst[..op];
    if lenMinOffset > 0 {
      if len >= 0x80 {
        return false, ip, tag, op;
      }
      var delta := op + lenMinOffset - len;
      if delta < 0 {
        return false, ip, tag, op;
      }
      ok := Copy64BytesWithPatternExtension(dst, op, len - lenMinOffset, len);
      if ok {
        CopyPass(s, ip, kind, len - lenMinOffset, len, rest, out, goal);
      } else {
        assert dst[..op] == dst[..][..op];
      }
      return;
    }
    ok := true;
    var delta := op + lenMinOffset - len;
    if delta < 0 {
      // The spurious offset of literals comes here while op is still below 256.
      if kind != 0 {
        return false, ip, tag, op;
      }
      MemCopy64(s, ip, dst, op, len);
      LiteralPass(s, ip, len, rest, out, goal);
    } else if kind != 0 {
      MemMove64FromSelf(dst, op, op - delta, len);
      CopyPass(s, ip, kind, op - delta, len, rest, out, goal);
    } else {
      MemCopy64(s, ip, dst, op, len);
      LiteralPass(s, ip, len, rest, out, goal);
    }
  }

  // DecompressBranchless: decode while there is room to read and write 64 bytes at a time, twice.
  method DecompressBranchless(s: seq<byte>, ip0: nat, dst: array<byte>, op0: nat, opLimitMinSlop: int,
                              ghost rest: seq<byte>, ghost goal: Option<seq<byte>>)
    returns (ip: nat, op: nat)
    requires opLimitMinSlop <= dst.Length - (if dst.Length < 63 then dst.Length else 63)
    requires op0 <= dst.Length && Resumable(s, ip0, rest, dst[..op0], goal)
    modifies dst
    ensures ip0 <= ip && op0 <= op <= dst.Length && Resumable(s, ip, rest, dst[..op], goal)
  {
    hide Resumable;
    ip, op := ip0, op0;
    var opLimit := opLimitMinSlop - SLOP_BYTES;
    if 2 * (SLOP_BYTES + 1) < |s| - ip && op < opLimit {
      var ipLimitMinSlop := |s| - 2 * SLOP_BYTES - 1;
      ip := ip + 1;
      var tag := s[ip - 1];
      while true
        invariant ip0 < ip < ipLimitMinSlop && op0 <= op < opLimit
        invariant tag == s[ip - 1] && Resumable(s, ip - 1, rest, dst[..op], goal)
        decreases |s| - ip
      {
        var ok, nextIp, nextTag, nextOp := BranchlessStep(s, ip, tag, dst, op, rest, goal);
        if !ok {
          break;
        }
        ip, tag, op := nextIp, nextTag, nextOp;
        ok, nextIp, nextTag, nextOp := BranchlessStep(s, ip, tag, dst, op, rest, goal);
        if !ok {
          break;
        }
        ip, tag, op := nextIp, nextTag, nextOp;
        if !(ip < ipLimitMinSlop && op < opLimit) {
          break;
        }
      }
      ip := ip - 1;
    }
  }

  // ---- The writer ----

  // SnappyArrayWriter::Append.
  method Append(buf: seq<byte>, ip: nat, len: nat, dst: array<byte>, op: nat) returns (ok: bool)
    requires ip + len <= |buf| && op <= dst.Length
    modifies dst
    ensures ok <==> op + len <= dst.Length
    ensures ok ==> dst[..op + len] == old(dst[..op]) + buf[ip..ip + len]
  {
    if dst.Length - op < len {
      return false;
    }
    forall i | op <= i < op + len {
      dst[i] := buf[ip + (i - op)];
    }
    ok := true;
  }

  // SnappyArrayWriter::TryFastAppend: sixteen bytes at once, when both sides have the room.
  method TryFastAppend(buf: seq<byte>, ip: nat, available: nat, len: nat, dst: array<byte>, op: nat)
    returns (ok: bool)
    requires ip + available <= |buf| && op <= dst.Length
    modifies dst
    ensures ok ==> len <= 16 && available >= 16 + MAXIMUM_TAG_LENGTH && op + len <= dst.Length
                   && dst[..op + len] == old(dst[..op]) + buf[ip..ip + len]
    ensures !ok ==> dst[..op] == old(dst[..op])
  {
    if len <= 16 && available >= 16 + MAXIMUM_TAG_LENGTH && dst.Length - op >= 16 {
      forall i | op <= i < op + 16 {
        dst[i] := buf[ip + (i - op)];
      }
      ok := true;
    } else {
      ok := false;
    }
  }

  // SnappyArrayWriter::AppendFromSelf: 64 bytes at once when there is room and no overlap.
  method AppendFromSelf(dst: array<byte>, op: nat, offset: nat, len: nat) returns (ok: bool)
    requires 0 < len <= 64 && op <= dst.Length
    modifies dst
    ensures ok <==> 0 < offset <= op && op + len <= dst.Length
    ensures ok ==> dst[..op + len] == Extend(old(dst[..op]), offset, len)
  {
    hide Extend;
    if op < offset {
      return false;
    }
    var opLimitMinSlop := OpLimitMinSlop(dst.Length);
    if op >= opLimitMinSlop || offset < len {
      if op + len > dst.Length || offset == 0 {
        return false;
      }
      IncrementalCopy(dst, op - offset, op, op + len);
      return true;
    }
    MemMove64FromSelf(dst, op, offset, len);
    ok := true;
  }

  // Where a whole slop no longer fits before the end of an output of this length.
  function OpLimitMinSlop(length: nat): int {
    length - (if length < SLOP_BYTES - 1 then length else SLOP_BYTES - 1)
  }

  // CalculateNeeded: how many bytes a tag takes, itself included.
  function CalculateNeeded(tag: byte): nat {
    if tag % 4 == 0 && tag >= 60 * 4 then tag / 4 - 58
    else 0x05030201 / Pow256(tag % 4) % 256
  }

  lemma NeededBytes(s: seq<byte>)
    requires s != []
    ensures 1 <= CalculateNeeded(s[0]) <= 5
    ensures ParseTag(s).Some? <==> |s| >= CalculateNeeded(s[0])
  {
    assert Pow256(0) == 1 && Pow256(1) == 256 && Pow256(2) == 65536 && Pow256(3) == 16777216;
    assert 0x05030201 / 1 % 256 == 1 && 0x05030201 / 256 % 256 == 2;
    assert 0x05030201 / 65536 % 256 == 3 && 0x05030201 / 16777216 % 256 == 5;
  }

  // A literal tag at s[i].
  lemma LiteralTagOf(s: seq<byte>, i: nat, c: byte, k: nat)
    requires i + 5 <= |s| && c == s[i] && c % 4 == 0
    requires k == if c / 4 < 60 then 0 else c / 4 - 59
    ensures 1 + k == CalculateNeeded(c)
    ensures c / 4 < 60 ==> ParseTag(s[i..] + []) == Some(Literal(1, c / 4 + 1))
    ensures c / 4 >= 60 ==>
      ParseTag(s[i..] + []) == Some(Literal(1 + k, (Load(s, i + 1, 4) % Pow256(k) + 1) % TWO_32))
  {
    assert Pow256(0) == 1;
    var u := s[i..] + [];
    if c / 4 >= 60 {
      LoadWindow(s, i + 1, 4);
      WindowShorter(Load(s, i + 1, 4), s, i + 1, 4, k);
      assert u[1..1 + k] == s[i + 1..i + 1 + k];
    }
  }

  // ---- The tag loop ----

  class SnappyDecompressor {
    const source: Source
    // The bytes being read: a piece of the source, or the five bytes of scratch.
    var buf: seq<byte>
    var ip: nat
    var ipLimit: nat
    var ipLimitMinMaxTag: int
    var peeked: nat
    var eof: bool
    var scratch: seq<byte>

    constructor (source: Source)
      ensures this.source == source && fresh(this)
      ensures Valid() && Rest() == source.rest && !eof
    {
      this.source := source;
      buf, ip, ipLimit, ipLimitMinMaxTag, peeked, eof := [], 0, 0, 0, 0, false;
      scratch := [0, 0, 0, 0, 0];
    }

    ghost predicate Valid()
      reads this, source
    {
      ip <= ipLimit <= |buf| && peeked <= |source.rest| && |scratch| == MAXIMUM_TAG_LENGTH
      && if |buf| == MAXIMUM_TAG_LENGTH && peeked == 0 then true
         else ipLimit == |buf| == peeked && buf == source.rest[..peeked]
    }

    // The input not yet consumed.
    ghost function Rest(): seq<byte>
      reads this, source
      requires Valid()
    {
      buf[ip..ipLimit] + source.rest[peeked..]
    }

    // A whole tag is in the buffer, and five bytes can be read from it.
    ghost predicate TagReady()
      reads this
    {
      ip < ipLimit && ip + MAXIMUM_TAG_LENGTH <= |buf| && ipLimit <= |buf|
      && CalculateNeeded(buf[ip]) <= ipLimit - ip
    }

    // Below this limit five more bytes are certainly there.
    ghost predicate LimitSafe()
      reads this
    {
      ipLimitMinMaxTag <= ip || ipLimitMinMaxTag <= ipLimit - (MAXIMUM_TAG_LENGTH - 1)
    }

    method ResetLimit()
      requires ip <= ipLimit
      modifies this`ipLimitMinMaxTag
      ensures LimitSafe()
    {
      ipLimitMinMaxTag := ipLimit - (if ipLimit - ip < MAXIMUM_TAG_LENGTH - 1 then ipLimit - ip
                                     else MAXIMUM_TAG_LENGTH - 1);
    }

    // Fetch the next piece of the source when the current one is used up.
    method NextPiece() returns (ok: bool)
      requires Valid() && ip == ipLimit && !eof
      modifies this, source
      ensures Valid() && scratch == old(scratch)
      ensures ok ==> !eof && Rest() == old(Rest()) && ip < ipLimit
      ensures !ok ==> eof && old(Rest()) == []
    {
      source.Skip(peeked);
      var piece := source.Peek();
      peeked := |piece|;
      eof := piece == [];
      buf := piece;
      ip, ipLimit := 0, |piece|;
      ok := !eof;
    }

    // Gather `needed` bytes in the scratch buffer from this piece and the next ones.
    method Stitch(needed: nat) returns (ok: bool)
      requires Valid() && ipLimit - ip < needed <= MAXIMUM_TAG_LENGTH && !eof
      modifies this, source
      ensures !eof
      ensures ok <==> needed <= |old(Rest())|
      ensures ok ==> Valid() && Rest() == old(Rest()) && ip == 0 && ipLimit == needed
                     && |buf| == MAXIMUM_TAG_LENGTH
    {
      ghost var all := Rest();
      var nbuf := ipLimit - ip;
      scratch := buf[ip..ipLimit] + scratch[nbuf..];
      source.Skip(peeked);
      peeked := 0;
      while nbuf < needed
        invariant nbuf <= needed && |scratch| == MAXIMUM_TAG_LENGTH && peeked == 0 && !eof
        invariant scratch[..nbuf] + source.rest == all
        decreases needed - nbuf
      {
        var piece := source.Peek();
        if piece == [] {
          return false;
        }
        var toAdd := if needed - nbuf < |piece| then needed - nbuf else |piece|;
        assert piece[..toAdd] == source.rest[..toAdd];
        ghost var before, after := scratch[..nbuf], source.rest;
        scratch := scratch[..nbuf] + piece[..toAdd] + scratch[nbuf + toAdd..];
        nbuf := nbuf + toAdd;
        source.Skip(toAdd);
        assert scratch[..nbuf] == before + after[..toAdd];
        assert after == after[..toAdd] + after[toAdd..];
      }
      buf := scratch;
      ip, ipLimit := 0, needed;
      ok := true;
    }

    // Keep what is left of a short piece in the scratch buffer, where a whole tag can be read.
    method MoveToScratch()
      requires Valid() && !eof && ip < ipLimit && ipLimit - ip < MAXIMUM_TAG_LENGTH
      modifies this, source
      ensures Valid() && !eof && Rest() == old(Rest())
      ensures ip == 0 && ipLimit == old(ipLimit - ip) && |buf| == MAXIMUM_TAG_LENGTH && buf[0] == old(buf[ip])
    {
      ghost var all := Rest();
      var nbuf := ipLimit - ip;
      scratch := buf[ip..ipLimit] + scratch[nbuf..];
      source.Skip(peeked);
      peeked := 0;
      buf := scratch;
      ip, ipLimit := 0, nbuf;
      assert buf[..nbuf] + source.rest == all && Rest() == buf[..nbuf] + source.rest;
    }

    // RefillTag: make the next tag contiguous and safe to read, or report why it cannot be.
    method RefillTag() returns (ok: bool)
      requires Valid() && !eof
      modifies this, source
      ensures ok ==> Valid() && !eof && Rest() == old(Rest()) && TagReady()
      ensures !ok ==> if eof then old(Rest()) == [] else old(Rest()) != [] && ParseTag(old(Rest())).None?
    {
      hide ParseTag, CalculateNeeded;
      if ip == ipLimit {
        ok := NextPiece();
        if !ok {
          return;
        }
      }
      NeededBytes(Rest());
      assert Rest()[0] == buf[ip];
      var needed := CalculateNeeded(buf[ip]);
      var nbuf := ipLimit - ip;
      if nbuf < needed {
        ghost var all := Rest();
        ok := Stitch(needed);
        if ok {
          assert Rest() == all && Rest()[0] == buf[0];
        }
      } else if nbuf < MAXIMUM_TAG_LENGTH {
        MoveToScratch();
        ok := true;
      } else {
        ok := true;
      }
    }

    // MAYBE_REFILL.
    method MaybeRefill() returns (ok: bool)
      requires Valid() && !eof && LimitSafe()
      modifies this, source
      ensures ok ==> Valid() && !eof && LimitSafe() && Rest() == old(Rest()) && TagReady()
      ensures !ok ==> if eof then old(Rest()) == [] else old(Rest()) != [] && ParseTag(old(Rest())).None?
    {
      hide ParseTag, CalculateNeeded;
      if ip >= ipLimitMinMaxTag {
        ok := RefillTag();
        if ok {
          ResetLimit();
        }
      } else {
        NeededBytes(buf[ip..]);
        ok := true;
      }
    }

    // With the tag at ip complete, the input parses as the buffer alone does.
    lemma TagInBuffer(needed: nat)
      requires Valid() && TagReady() && needed == CalculateNeeded(buf[ip])
      ensures ip + needed <= ipLimit && ParseTag(Rest()).Some?
      ensures ParseTag(buf[ip..] + []) == ParseTag(Rest())
      ensures Rest() == buf[ip..ip + needed] + (buf[ip + needed..ipLimit] + source.rest[peeked..])
      ensures Rest()[0] == buf[ip]
    {
      hide ParseTag, CalculateNeeded;
      NeededBytes(buf[ip..]);
      var a := buf[ip..ip + needed];
      assert a[0] == buf[ip] == buf[ip..][0];
      NeededBytes(a);
      assert buf[ip..ipLimit] == a + buf[ip + needed..ipLimit];
      Seqs.Associate(a, buf[ip + needed..ipLimit], source.rest[peeked..]);
      ParseTagOfPrefix(a, buf[ip + needed..ipLimit] + source.rest[peeked..]);
      ParseTagOfPrefix(a, buf[ip + needed..]);
      assert buf[ip..] + [] == a + buf[ip + needed..];
    }

    // The length of the literal at ip, and the bytes its tag takes.
    lemma LiteralTagAt(c: byte, k: nat)
      requires Valid() && TagReady() && c == buf[ip] && c % 4 == 0
      requires k == if c / 4 < 60 then 0 else c / 4 - 59
      ensures ip + 1 + k <= ipLimit && 1 + k == CalculateNeeded(c)
      ensures c / 4 < 60 ==> ParseTag(Rest()) == Some(Literal(1, c / 4 + 1))
      ensures c / 4 >= 60 ==>
        ParseTag(Rest()) == Some(Literal(1 + k, (Load(buf, ip + 1, 4) % Pow256(k) + 1) % TWO_32))
    {
      hide ParseTag, CalculateNeeded, Load;
      TagInBuffer(CalculateNeeded(c));
      LiteralTagOf(buf, ip, c, k);
    }

    // Take n bytes from the current piece as consumed.
    method Advance(n: nat)
      requires Valid() && ip + n <= ipLimit
      modifies this`ip
      ensures Valid() && ip == old(ip) + n && Rest() == old(Rest())[n..]
    {
      ip := ip + n;
    }

    // No output of dst.Length bytes comes of this input.
    static ghost predicate Fails(goal: Option<seq<byte>>, dst: array<byte>) {
      goal.None? || |goal.value| > dst.Length
    }

    static lemma LiteralFills(rest: seq<byte>, n: nat, out: seq<byte>)
      ensures DecodeLiteral(rest, n, out).Some? ==> |DecodeLiteral(rest, n, out).value| >= |out| + n
      ensures rest == [] && n > 0 ==> DecodeLiteral(rest, n, out).None?
    {}

    // Skip what is left of the current piece and look at the next.
    method DropPiece() returns (m: nat)
      requires Valid()
      modifies this, source
      ensures Valid() && LimitSafe() && eof == old(eof)
      ensures Rest() == old(source.rest[peeked..]) && (m == 0 ==> Rest() == [])
      ensures source.rest == old(source.rest[peeked..]) && peeked == m
    {
      source.Skip(peeked);
      var piece := source.Peek();
      m := |piece|;
      buf, ip, peeked := piece, 0, m;
      ipLimit := m;
      ResetLimit();
    }

    // The part of a literal that lies in pieces used up before its end.
    method AppendPieces(dst: array<byte>, op0: nat, n0: nat, ghost goal: Option<seq<byte>>)
      returns (ok: bool, op: nat, n: nat)
      requires Valid() && !eof && LimitSafe() && op0 <= dst.Length
      requires DecodeLiteral(Rest(), n0, dst[..op0]) == goal
      modifies this, source, dst
      ensures !eof && op <= dst.Length
      ensures !ok ==> Fails(goal, dst)
      ensures ok ==> Valid() && LimitSafe() && ip + n <= ipLimit
                     && DecodeLiteral(Rest(), n, dst[..op]) == goal
      ensures ok ==> |Rest()| <= old(|Rest()|)
    {
      hide Decode, DecodeLiteral;
      op, n := op0, n0;
      while ipLimit - ip < n
        invariant Valid() && !eof && LimitSafe() && op <= dst.Length
        invariant DecodeLiteral(Rest(), n, dst[..op]) == goal
        invariant |Rest()| <= old(|Rest()|)
        decreases |source.rest|, if peeked == 0 then 1 else 0
      {
        var avail := ipLimit - ip;
        ghost var piece, after, out := buf[ip..ipLimit], source.rest[peeked..], dst[..op];
        DecodeLiteralSplit(piece, after, n, out);
        LiteralFills(Rest(), n, out);
        ok := Append(buf, ip, avail, dst, op);
        if !ok {
          return;
        }
        n, op := n - avail, op + avail;
        var m := DropPiece();
        if m == 0 {
          LiteralFills(after, n, dst[..op]);
          return false, op, n;
        }
      }
      ok := true;
    }

    // n bytes of the buffer, appended, complete a literal.
    lemma LiteralInBuffer(n: nat, out: seq<byte>)
      requires Valid() && ip + n <= ipLimit
      ensures n <= |Rest()|
      ensures DecodeLiteral(Rest(), n, out) == Decode(Rest()[n..], out + buf[ip..ip + n])
    {
      hide Decode;
      Seqs.SliceOfConcat(buf[ip..ipLimit], source.rest[peeked..], 0, n);
      assert buf[ip..ipLimit][..n] == buf[ip..ip + n];
    }

    // The rest of the input after the tag of a literal, and the length it announces.
    method LiteralLength() returns (n: nat, ghost h: nat)
      requires Valid() && TagReady() && buf[ip] % 4 == 0
      modifies this`ip
      ensures Valid() && old(ip) < ip <= old(ip) + 5
      ensures h == ip - old(ip) && Rest() == old(Rest())[h..]
      ensures old(ParseTag(Rest())) == Some(Literal(h, n))
    {
      hide ParseTag, CalculateNeeded, Load;
      var c := buf[ip];
      n := c / 4 + 1;
      LiteralTagAt(c, if c / 4 < 60 then 0 else c / 4 - 59);
      ghost var all := Rest();
      Advance(1);
      h := 1;
      if n >= 61 {
        var lengthBytes := n - 60;
        n := (Load(buf, ip, 4) % Pow256(lengthBytes) + 1) % TWO_32;
        Advance(lengthBytes);
        h := 1 + lengthBytes;
        assert Rest() == all[h..];
      }
    }

    // A literal: the fast path, or its pieces and its end.
    method HandleLiteral(dst: array<byte>, op0: nat, ghost goal: Option<seq<byte>>)
      returns (more: bool, op: nat)
      requires Valid() && !eof && LimitSafe() && TagReady() && buf[ip] % 4 == 0 && op0 <= dst.Length
      requires Decode(Rest(), dst[..op0]) == goal
      modifies this, source, dst
      ensures op <= dst.Length
      ensures more ==> Valid() && !eof && LimitSafe() && TagReady() && |Rest()| < old(|Rest()|)
                       && Decode(Rest(), dst[..op]) == goal
      ensures !more ==> if eof then goal == Some(dst[..op]) else Fails(goal, dst)
    {
      hide Decode, DecodeLiteral, ParseTag, CalculateNeeded;
      op := op0;
      // TryFastAppend declines every length that is not in the tag byte, so it may be tried first.
      var len: nat := buf[ip] / 4 + 1;
      ghost var all := Rest();
      var n;
      ghost var h;
      n, h := LiteralLength();
      LiteralTag(all, dst[..op], h, n);
      if len < 61 {
        LiteralInBufferIf(n, dst[..op]);
        more := TryFastAppend(buf, ip, ipLimit - ip, n, dst, op);
        if more {
          Advance(n);
          op := op + n;
          NeededBytes(buf[ip..]);
          return;
        }
      }
      more, op, n := AppendPieces(dst, op, n, goal);
      if more {
        more, op := FinishLiteral(dst, op, n, goal);
      }
    }

    lemma LiteralInBufferIf(n: nat, out: seq<byte>)
      requires Valid()
      ensures ip + n <= ipLimit ==> n <= |Rest()|
      ensures ip + n <= ipLimit ==>
        DecodeLiteral(Rest(), n, out) == Decode(Rest()[n..], out + buf[ip..ip + n])
    {
      hide Decode, DecodeLiteral;
      if ip + n <= ipLimit {
        LiteralInBuffer(n, out);
      }
    }

    method FinishLiteral(dst: array<byte>, op0: nat, n: nat, ghost goal: Option<seq<byte>>)
      returns (more: bool, op: nat)
      requires Valid() && !eof && LimitSafe() && op0 <= dst.Length && ip + n <= ipLimit
      requires DecodeLiteral(Rest(), n, dst[..op0]) == goal
      modifies this, source, dst
      ensures op <= dst.Length
      ensures more ==> Valid() && !eof && LimitSafe() && TagReady() && |Rest()| <= old(|Rest()|)
                       && Decode(Rest(), dst[..op]) == goal
      ensures !more ==> if eof then goal == Some(dst[..op]) else Fails(goal, dst)
    {
      hide ParseTag, CalculateNeeded, Decode, DecodeLiteral;
      op := op0;
      LiteralFills(Rest(), n, dst[..op]);
      LiteralInBuffer(n, dst[..op]);
      more := Append(buf, ip, n, dst, op);
      if !more {
        return;
      }
      Advance(n);
      op := op + n;
      ghost var rest := Rest();
      assert Decode(rest, dst[..op]) == goal;
      more := MaybeRefill();
      if !more {
        NothingMore(rest, dst[..op]);
      }
    }

    static lemma NothingMore(rest: seq<byte>, out: seq<byte>)
      ensures rest == [] ==> Decode(rest, out) == Some(out)
      ensures rest != [] && ParseTag(rest).None? ==> Decode(rest, out).None?
    {
      hide ParseTag;
    }

    // The copy at ip, for offsets of one or two bytes: its length and offset.
    lemma ShortCopyAt(c: byte)
      requires Valid() && TagReady() && c == buf[ip] && (c % 4 == 1 || c % 4 == 2)
      ensures ip + 1 + c % 4 <= ipLimit
      ensures var entry := LengthMinusOffset(c);
              var length := entry % 256;
              var offset := Load(buf, ip + 1, 4) % Pow256(c % 4) - entry + length;
              0 < length <= 64 && 0 <= offset && ParseTag(Rest()) == Some(Copy(1 + c % 4, length, offset))
    {
      hide ParseTag, CalculateNeeded, Load, LengthMinusOffset;
      TagInBuffer(CalculateNeeded(c));
      TableMatchesTag(buf, ip + 1, []);
      NeededOfCopy(c);
      assert Pow256(0) == 1 && Pow256(1) == 256 && Pow256(2) == 65536;
      assert buf[ip + 1 - 1..] == buf[ip..];
    }

    static lemma NeededOfCopy(c: byte)
      ensures c % 4 == 1 || c % 4 == 2 ==> CalculateNeeded(c) == 1 + c % 4
      ensures c % 4 == 3 ==> CalculateNeeded(c) == 5
    {
      assert Pow256(0) == 1 && Pow256(1) == 256 && Pow256(2) == 65536 && Pow256(3) == 16777216;
    }

    lemma LongCopyAt(c: byte)
      requires Valid() && TagReady() && c == buf[ip] && c % 4 == 3
      ensures ip + 5 <= ipLimit
      ensures ParseTag(Rest()) == Some(Copy(5, c / 4 + 1, Load(buf, ip + 1, 4)))
    {
      hide CalculateNeeded, LittleEndian;
      NeededOfCopy(c);
      TagInBuffer(5);
      var u := buf[ip..] + [];
      assert u[1..5] == buf[ip + 1..ip + 5];
    }

    static lemma CopyOutcome(rest: seq<byte>, out: seq<byte>, h: nat, n: nat, offset: nat)
      requires ParseTag(rest) == Some(Copy(h, n, offset))
      ensures if 0 < offset <= |out| then Decode(rest, out) == Decode(rest[h..], Extend(out, offset, n))
              else Decode(rest, out).None?
      ensures Decode(rest, out).Some? ==> |Decode(rest, out).value| >= |out| + n
    {
      hide ParseTag;
    }

    // A copy with an offset of four bytes.
    method LongCopy(dst: array<byte>, op0: nat, ghost goal: Option<seq<byte>>)
      returns (ok: bool, op: nat)
      requires Valid() && TagReady() && buf[ip] % 4 == 3 && op0 <= dst.Length
      requires Decode(Rest(), dst[..op0]) == goal
      modifies this`ip, dst
      ensures Valid() && ip == old(ip) + 5 && op <= dst.Length && |Rest()| < old(|Rest()|)
      ensures ok ==> Decode(Rest(), dst[..op]) == goal
      ensures !ok ==> Fails(goal, dst)
    {
      hide ParseTag, CalculateNeeded, Decode, Load, Extend;
      LongCopyAt(buf[ip]);
      var offset, length := Load(buf, ip + 1, 4), buf[ip] / 4 + 1;
      CopyOutcome(Rest(), dst[..op0], 5, length, offset);
      Advance(5);
      ok := AppendFromSelf(dst, op0, offset, length);
      op := if ok then op0 + length else op0;
    }

    // A copy with an offset of one or two bytes; also returns the word after the tag, shifted to the
    // next tag.
    method ShortCopy(dst: array<byte>, op0: nat, ghost goal: Option<seq<byte>>)
      returns (ok: bool, op: nat, preload: nat)
      requires Valid() && TagReady() && (buf[ip] % 4 == 1 || buf[ip] % 4 == 2) && op0 <= dst.Length
      requires Decode(Rest(), dst[..op0]) == goal
      modifies this`ip, dst
      ensures Valid() && ip == old(ip) + 1 + buf[old(ip)] % 4 && op <= dst.Length && |Rest()| < old(|Rest()|)
      ensures ip < |buf| && preload % 256 == buf[ip]
      ensures ok ==> Decode(Rest(), dst[..op]) == goal
      ensures !ok ==> Fails(goal, dst)
    {
      hide ParseTag, CalculateNeeded, Decode, Load, LengthMinusOffset, Extend;
      var c := buf[ip];
      ShortCopyAt(c);
      var entry := LengthMinusOffset(c);
      preload := Load(buf, ip + 1, 4);
      var trailer := preload % Pow256(c % 4);
      var length := entry % 256;
      var offset := trailer - entry + length;
      CopyOutcome(Rest(), dst[..op0], 1 + c % 4, length, offset);
      ShiftedPreload(buf, ip + 1, c % 4);
      Advance(1 + c % 4);
      preload := preload / Pow256(c % 4);
      ok := AppendFromSelf(dst, op0, offset, length);
      op := if ok then op0 + length else op0;
    }

    // A copy of any kind.  When enough bytes are certainly left, the next tag is taken from the word
    // already loaded.
    method HandleCopy(dst: array<byte>, op0: nat, ghost goal: Option<seq<byte>>)
      returns (more: bool, op: nat, preload: nat)
      requires Valid() && !eof && LimitSafe() && TagReady() && buf[ip] % 4 != 0 && op0 <= dst.Length
      requires Decode(Rest(), dst[..op0]) == goal
      modifies this, source, dst
      ensures op <= dst.Length
      ensures more ==> Valid() && !eof && LimitSafe() && TagReady() && |Rest()| < old(|Rest()|)
                       && Decode(Rest(), dst[..op]) == goal && preload % 256 == buf[ip]
      ensures !more ==> if eof then goal == Some(dst[..op]) else Fails(goal, dst)
    {
      hide ParseTag, CalculateNeeded, Decode;
      preload := 0;
      if buf[ip] % 4 == 3 {
        more, op := LongCopy(dst, op0, goal);
      } else {
        more, op, preload := ShortCopy(dst, op0, goal);
        if more && ip < ipLimitMinMaxTag {
          NeededBytes(buf[ip..]);
          return;
        }
      }
      if more {
        ghost var rest := Rest();
        more := MaybeRefill();
        if more {
          preload := buf[ip];
        } else {
          NothingMore(rest, dst[..op]);
        }
      }
    }

    static lemma ShiftedPreload(s: seq<byte>, i: nat, kind: nat)
      requires i + 4 <= |s| && 1 <= kind <= 2
      ensures Load(s, i, 4) / Pow256(kind) % 256 == s[i + kind]
    {
      LoadWindow(s, i, 4);
      var data := Load(s, i, 4);
      WindowShift(data, s, i, 3);
      WindowShift(data / 256, s, i + 1, 2);
      WindowShift(data / 256 / 256, s, i + 2, 1);
      assert Pow256(0) == 1 && Pow256(1) == 256 && Pow256(2) == 65536;
    }

    // DecompressAllTags: the whole of the input, as far as it can be decoded into dst.
    method DecompressAllTags(dst: array<byte>) returns (op: nat)
      requires Valid() && !eof
      modifies this, source, dst
      ensures op <= dst.Length
      ensures if eof then old(Decode(Rest(), [])) == Some(dst[..op])
              else Fails(old(Decode(Rest(), [])), dst)
    {
      hide ParseTag, CalculateNeeded, Decode;
      ghost var goal := Decode(Rest(), []);
      op := 0;
      ResetLimit();
      ghost var rest := Rest();
      assert dst[..0] == [];
      var more := MaybeRefill();
      if !more {
        NothingMore(rest, []);
        return;
      }
      var preload: nat := buf[ip];
      while true
        invariant Valid() && !eof && LimitSafe() && TagReady() && preload % 256 == buf[ip]
        invariant op <= dst.Length && Decode(Rest(), dst[..op]) == goal
        decreases |Rest()|
      {
        more, op := FastLoop(dst, op, goal);
        if !more {
          return;
        }
        if buf[ip] % 4 == 0 {
          more, op := HandleLiteral(dst, op, goal);
          if !more {
            return;
          }
          preload := buf[ip];
        } else {
          more, op, preload := HandleCopy(dst, op, goal);
          if !more {
            return;
          }
        }
      }
    }

    // The branch-free loop over the current piece, and the refill after it.
    method FastLoop(dst: array<byte>, op0: nat, ghost goal: Option<seq<byte>>)
      returns (more: bool, op: nat)
      requires Valid() && !eof && LimitSafe() && op0 <= dst.Length
      requires Decode(Rest(), dst[..op0]) == goal
      modifies this, source, dst
      ensures op <= dst.Length
      ensures more ==> Valid() && !eof && LimitSafe() && TagReady() && |Rest()| <= old(|Rest()|)
                       && Decode(Rest(), dst[..op]) == goal
      ensures !more ==> if eof then goal == Some(dst[..op]) else Fails(goal, dst)
    {
      hide ParseTag, CalculateNeeded, Decode;
      ghost var after := source.rest[peeked..];
      assert buf[..ipLimit][ip..] == buf[ip..ipLimit];
      var next;
      next, op := DecompressBranchless(buf[..ipLimit], ip, dst, op0, OpLimitMinSlop(dst.Length), after, goal);
      assert buf[..ipLimit][next..] == buf[next..ipLimit];
      ip := next;
      ghost var rest := Rest();
      more := MaybeRefill();
      if !more {
        NothingMore(rest, dst[..op]);
      }
    }
  }

  // RawUncompress into a buffer of exactly the announced length: succeeds on precisely the streams
  // the byte-at-a-time decoder takes to that length, and leaves its output in the buffer.
  method UncompressTags(source: Source, dst: array<byte>) returns (ok: bool)
    modifies source, dst
    ensures ok <==> old(Decode(source.rest, [])).Some? && |old(Decode(source.rest, [])).value| == dst.Length
    ensures ok ==> old(Decode(source.rest, [])) == Some(dst[..])
  {
    hide Decode;
    var decompressor := new SnappyDecompressor(source);
    var op := decompressor.DecompressAllTags(dst);
    ok := decompressor.eof && op == dst.Length;
    assert dst[..dst.Length] == dst[..];
  }

  // Uncompress, from the length to the last tag.
  method RawUncompress(compressed: seq<byte>) returns (r: Option<seq<byte>>)
    ensures r == Uncompressed(compressed)
  {
    hide Decode, Varint.Decode;
    var length := Varint.ReadUncompressedLength(compressed);
    if length.None? {
      return None;
    }
    var source := new Source(compressed[length.value.1..]);
    var dst := new byte[length.value.0];
    var ok := UncompressTags(source, dst);
    r := if ok then Some(dst[..]) else None;
  }
}
