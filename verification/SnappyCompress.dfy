/**
 The Snappy compressor over arrays: the hash table, the output pointer and the writes past it are
 those of the source.  The hash function is a parameter: nothing below depends on which it is.
 */
module SnappyCompress {
  import opened Wrappers
  import opened Bytes
  import opened SnappyFormat
  import opened Varints
  import SnappyVarint
  import opened SnappySource
  import opened SnappyBits
  import opened SnappyMatch
  import opened SnappyGreedy
  import Seqs

  type word16 = x: int | 0 <= x < 65536

  function MaxCompressedLength(n: nat): nat {
    32 + n + n / 6
  }

  // ---- The stream written so far ----

  // dst[from..to] holds tags that, decoded after any `prefix`, append s[..n].
  ghost predicate Emitted(stream: seq<byte>, s: seq<byte>, n: nat, prefix: seq<byte>) {
    n <= |s| && Decode(stream, prefix) == Some(prefix + s[..n])
  }

  // Size of the stream after a copy (or at the very start), in sixths of a byte.
  ghost predicate AfterCopy(size: int, n: nat) {
    (size == 0 && n == 0) || 6 * size + 5 <= 7 * n
  }

  // ... and between a literal and the copy that follows it.
  ghost predicate AfterLiteral(size: int, n: nat) {
    6 * size <= 7 * n + 5
  }

  function LiteralSize(len: nat): nat
    requires 0 < len <= BLOCK_SIZE
  {
    len + |LiteralHeader(len - 1)|
  }

  lemma LiteralSizes(len: nat)
    requires 0 < len <= BLOCK_SIZE
    ensures LiteralSize(len) == len + (if len <= 60 then 1 else if len <= 256 then 2 else 3)
  {}

  lemma LiteralKeepsSize(size: int, n: nat, len: nat)
    requires AfterCopy(size, n) && 0 < len <= BLOCK_SIZE
    ensures AfterLiteral(size + LiteralSize(len), n + len)
  {
    LiteralSizes(len);
  }

  lemma CopyKeepsSize(size: int, n: nat, offset: nat, len: nat)
    requires AfterLiteral(size, n) && 4 <= len && offset < 65536
    ensures AfterCopy(size + |CopyTags(offset, len)|, n + len)
  {
    CopyTagsSize(offset, len);
  }

  lemma EmitStep(stream: seq<byte>, t: seq<byte>, s: seq<byte>, n: nat, m: nat, prefix: seq<byte>)
    requires Emitted(stream, s, n, prefix) && m <= |s|
    requires Decode(t, prefix + s[..n]) == Some(prefix + s[..m])
    ensures Emitted(stream + t, s, m, prefix)
  {
    hide Decode;
    DecodeConcat(stream, t, prefix);
  }

  lemma LiteralStep(stream: seq<byte>, s: seq<byte>, n: nat, m: nat, prefix: seq<byte>)
    requires Emitted(stream, s, n, prefix) && n < m <= |s| <= BLOCK_SIZE
    ensures Emitted(stream + (LiteralHeader(m - n - 1) + s[n..m]), s, m, prefix)
  {
    hide Decode, LiteralHeader;
    LiteralDecodes(s[n..m], prefix + s[..n]);
    Seqs.SplitAt(s, n, m);
    Seqs.Associate(prefix, s[..n], s[n..m]);
    EmitStep(stream, LiteralHeader(m - n - 1) + s[n..m], s, n, m, prefix);
  }

  lemma CopyStep(stream: seq<byte>, s: seq<byte>, candidate: nat, n: nat, len: nat, prefix: seq<byte>)
    requires Emitted(stream, s, n, prefix) && candidate < n && n + len <= |s| <= BLOCK_SIZE && 4 <= len
    requires Agree(s, candidate, n, len)
    ensures Emitted(stream + CopyTags(n - candidate, len), s, n + len, prefix)
  {
    hide Decode, CopyTags;
    SlicesAgree(s, candidate, n, len);
    ExtendMatch(prefix, s, candidate, n, len);
    CopyTagsDecode(n - candidate, len, prefix + s[..n]);
    EmitStep(stream, CopyTags(n - candidate, len), s, n, n + len, prefix);
  }

  // ---- Emitters ----

  // LittleEndian::Store32: four bytes of v at dst[op..].
  method Store32(dst: array<byte>, op: nat, v: nat)
    requires op + 4 <= dst.Length && v < TWO_32
    modifies dst
    ensures dst[op..op + 4] == ToLittleEndian(v, 4)
    ensures forall j :: 0 <= j < dst.Length && !(op <= j < op + 4) ==> dst[j] == old(dst[j])
  {
    dst[op] := v % 256;
    dst[op + 1] := v / 256 % 256;
    dst[op + 2] := v / 256 / 256 % 256;
    dst[op + 3] := v / 256 / 256 / 256 % 256;
    BytesOfWord(v);
    assert dst[op..op + 4] == [dst[op], dst[op + 1], dst[op + 2], dst[op + 3]];
  }

  lemma BytesOfWord(v: nat)
    ensures ToLittleEndian(v, 4)
         == [v % 256, v / 256 % 256, v / 256 / 256 % 256, v / 256 / 256 / 256 % 256]
  {
    var v1 := v / 256;
    var v2 := v1 / 256;
    var v3 := v2 / 256;
    assert ToLittleEndian(v3, 1) == [v3 % 256] + ToLittleEndian(v3 / 256, 0);
    assert ToLittleEndian(v2, 2) == [v2 % 256] + ToLittleEndian(v3, 1);
    assert ToLittleEndian(v1, 3) == [v1 % 256] + ToLittleEndian(v2, 2);
  }

  lemma {:induction false} ToLittleEndianPrefix(v: nat, n: nat, m: nat)
    requires n <= m
    ensures ToLittleEndian(v, m)[..n] == ToLittleEndian(v, n)
    decreases n
  {
    if n > 0 {
      ToLittleEndianPrefix(v / 256, n - 1, m - 1);
      var t := ToLittleEndian(v / 256, m - 1);
      assert ([v % 256] + t)[..n] == [v % 256] + t[..n - 1];
    }
  }

  // Bits::Log2Floor(n) / 8 + 1 is the number of bytes n needs.
  method SizeBytes(n: nat) returns (count: nat)
    requires 0 < n < TWO_32
    ensures count == LiteralSizeBytes(n)
  {
    var log := Log2FloorNonZero(n);
    count := log / 8 + 1;
    LogBounds(n, log);
  }

  lemma {:induction false} Pow2Monotone(a: nat, b: nat)
    requires a <= b
    ensures Pow2(a) <= Pow2(b)
    decreases b - a
  {
    if a < b {
      Pow2Monotone(a, b - 1);
    }
  }

  lemma LogBounds(n: nat, log: nat)
    requires 0 < n < TWO_32 && Pow2(log) <= n < Pow2(log + 1)
    ensures log / 8 + 1 == LiteralSizeBytes(n)
  {
    assert Pow2(8) == 0x100;
    PowAdd(8, 8);
    PowAdd(8, 16);
    PowAdd(8, 24);
    assert Pow2(16) == 0x1_0000 && Pow2(24) == 0x100_0000 && Pow2(32) == TWO_32;
    if log >= 32 { Pow2Monotone(32, log); }
    if log >= 24 { Pow2Monotone(24, log); } else { Pow2Monotone(log + 1, 24); }
    if log >= 16 { Pow2Monotone(16, log); } else { Pow2Monotone(log + 1, 16); }
    if log >= 8 { Pow2Monotone(8, log); } else { Pow2Monotone(log + 1, 8); }
  }

  // Copy s[lit..lit + n] to dst[op..].
  method CopyBytes(s: seq<byte>, lit: nat, n: nat, dst: array<byte>, op: nat)
    requires lit + n <= |s| && op + n <= dst.Length
    modifies dst
    ensures dst[op..op + n] == s[lit..lit + n]
    ensures forall j :: 0 <= j < dst.Length && !(op <= j < op + n) ==> dst[j] == old(dst[j])
  {
    forall i | op <= i < op + n {
      dst[i] := s[lit + (i - op)];
    }
  }

  lemma HeadAndRest(dst: array<byte>, i: nat, j: nat)
    requires i < j <= dst.Length
    ensures dst[i..j] == [dst[i]] + dst[i + 1..j]
  {}

  // The tag of a literal of n + 1 bytes; a long length is stored in four bytes whatever its size.
  method EmitLiteralHeader(dst: array<byte>, op: nat, n: nat) returns (p: nat)
    requires n < BLOCK_SIZE && op + |LiteralHeader(n)| + 1 <= dst.Length
    requires n >= 60 ==> op + 5 <= dst.Length
    modifies dst
    ensures p == op + |LiteralHeader(n)|
    ensures dst[op..p] == LiteralHeader(n)
    ensures forall j :: 0 <= j < op ==> dst[j] == old(dst[j])
  {
    if n < 60 {
      dst[op] := 4 * n;
      p := op + 1;
    } else {
      var count := SizeBytes(n);
      dst[op] := 4 * (59 + count);
      Store32(dst, op + 1, n);
      ToLittleEndianPrefix(n, count, 4);
      p := op + 1 + count;
      assert dst[op + 1..p] == dst[op + 1..op + 5][..count];
      HeadAndRest(dst, op, p);
    }
  }

  // The fast path of EmitLiteral: sixteen bytes are copied whatever the length, so the input and the
  // output must both have that much room.
  method EmitShortLiteral(s: seq<byte>, lit: nat, len: nat, dst: array<byte>, op: nat) returns (next: nat)
    requires 0 < len <= 16 && lit + 16 <= |s| && op + 17 <= dst.Length
    modifies dst
    ensures next == op + LiteralSize(len)
    ensures dst[op..next] == LiteralHeader(len - 1) + s[lit..lit + len]
    ensures forall j :: 0 <= j < op ==> dst[j] == old(dst[j])
  {
    dst[op] := 4 * (len - 1);
    CopyBytes(s, lit, 16, dst, op + 1);
    next := op + 1 + len;
    assert dst[op + 1..next] == dst[op + 1..op + 17][..len];
    assert s[lit..lit + len] == s[lit..lit + 16][..len];
    HeadAndRest(dst, op, next);
  }

  method EmitLongLiteral(s: seq<byte>, lit: nat, len: nat, dst: array<byte>, op: nat) returns (next: nat)
    requires 0 < len <= BLOCK_SIZE && lit + len <= |s|
    requires op + LiteralSize(len) <= dst.Length
    modifies dst
    ensures next == op + LiteralSize(len)
    ensures dst[op..next] == LiteralHeader(len - 1) + s[lit..lit + len]
    ensures forall j :: 0 <= j < op ==> dst[j] == old(dst[j])
  {
    LiteralSizes(len);
    hide LiteralHeader;
    var p := EmitLiteralHeader(dst, op, len - 1);
    ghost var header := dst[op..p];
    CopyBytes(s, lit, len, dst, p);
    next := p + len;
    assert dst[op..p] == header;
    TwoParts(dst, op, p, next);
  }

  lemma TwoParts(dst: array<byte>, i: nat, j: nat, k: nat)
    requires i <= j <= k <= dst.Length
    ensures dst[i..k] == dst[i..j] + dst[j..k]
  {}

  // Append a literal.
  method EmitLiteral(s: seq<byte>, lit: nat, len: nat, dst: array<byte>, op: nat,
                     allowFastPath: bool)
    returns (next: nat)
    requires 0 < len <= BLOCK_SIZE && lit + len <= |s|
    requires op + LiteralSize(len) <= dst.Length
    requires allowFastPath ==> lit + 16 <= |s| && op + 17 <= dst.Length
    modifies dst
    ensures next == op + LiteralSize(len)
    ensures dst[..next] == old(dst[..op]) + (LiteralHeader(len - 1) + s[lit..lit + len])
  {
    if allowFastPath && len <= 16 {
      next := EmitShortLiteral(s, lit, len, dst, op);
    } else {
      next := EmitLongLiteral(s, lit, len, dst, op);
    }
    assert dst[..op] == old(dst[..op]);
    assert dst[..next] == dst[..op] + dst[op..next];
  }

  // Append a copy.  Four bytes are stored of which two or three are kept.
  method EmitCopyAtMost64(dst: array<byte>, op: nat, offset: nat, len: nat)
    returns (next: nat)
    requires 4 <= len <= 64 && 0 < offset < 65536
    requires op + 4 <= dst.Length
    modifies dst
    ensures next == op + |CopyTag(offset, len)|
    ensures dst[..next] == old(dst[..op]) + CopyTag(offset, len)
  {
    var u;
    if len < 12 {
      // The two alternatives of the branch-free sum.
      var copy1 := 1 - 4 * 4 + offset / 256 % 8 * 32;
      var copy2 := 2 - 1 * 4;
      u := len * 4 + offset * 256 + (if offset < 2048 then copy1 else copy2);
      next := op + (if offset < 2048 then 2 else 3);
    } else {
      u := 2 + (len - 1) * 4 + offset * 256;
      next := op + 3;
    }
    CopyTagBytes(offset, len, u);
    Store32(dst, op, u);
    assert dst[op..next] == dst[op..op + 4][..next - op];
    assert dst[..op] == old(dst[..op]);
    assert dst[..next] == dst[..op] + dst[op..next];
  }

  lemma CopyTagBytes(offset: nat, len: nat, u: int)
    requires 4 <= len <= 64 && 0 < offset < 65536
    requires u == if len < 12 && offset < 2048
                  then len * 4 + offset * 256 + (1 - 4 * 4 + offset / 256 % 8 * 32)
                  else 2 + (len - 1) * 4 + offset * 256
    ensures 0 <= u < TWO_32
    ensures ToLittleEndian(u, 4)[..|CopyTag(offset, len)|] == CopyTag(offset, len)
  {
    BytesOfWord(u);
    var low := u - offset * 256;
    assert 0 <= low < 256;
    assert u % 256 == low && u / 256 == offset;
    if len < 12 && offset < 2048 {
      assert offset / 256 % 8 == offset / 256;
    } else {
      assert offset / 256 % 256 == offset / 256;
    }
  }

  // Append a match of any length, in pieces that never leave fewer than four bytes.
  method EmitCopy(dst: array<byte>, op0: nat, offset: nat, len0: nat, lenLessThan12: bool)
    returns (op: nat)
    requires 4 <= len0 <= BLOCK_SIZE && 0 < offset < 65536
    requires lenLessThan12 ==> len0 < 12
    requires op0 + |CopyTags(offset, len0)| + 2 <= dst.Length
    modifies dst
    ensures op == op0 + |CopyTags(offset, len0)|
    ensures dst[..op] == old(dst[..op0]) + CopyTags(offset, len0)
  {
    op := op0;
    if lenLessThan12 {
      op := EmitCopyAtMost64(dst, op, offset, len0);
      return;
    }
    var len := len0;
    ghost var final := dst[..op0] + CopyTags(offset, len0);
    while len >= 68
      invariant 4 <= len <= len0
      invariant op0 <= op && op + |CopyTags(offset, len)| == op0 + |CopyTags(offset, len0)|
      invariant dst[..op] + CopyTags(offset, len) == final
    {
      CopyTagsSize(offset, len - 64);
      Seqs.Associate(dst[..op], CopyTag(offset, 64), CopyTags(offset, len - 64));
      op := EmitCopyAtMost64(dst, op, offset, 64);
      len := len - 64;
    }
    if len > 64 {
      Seqs.Associate(dst[..op], CopyTag(offset, 60), CopyTag(offset, len - 60));
      op := EmitCopyAtMost64(dst, op, offset, 60);
      len := len - 60;
    }
    op := EmitCopyAtMost64(dst, op, offset, len);
  }

  // ---- Searching for a match ----

  // Every table entry is a position before ip.
  ghost predicate TableBelow(table: array<word16>, ip: nat)
    reads table
  {
    Below(table[..], ip)
  }

  lemma LowWord(data: nat, s: seq<byte>, i: nat, n: nat)
    requires n >= 4 && Window(data, s, i, n)
    ensures data % TWO_32 == Load(s, i, 4)
  {
    WindowShorter(data, s, i, n, 4);
    assert Pow256(4) == 256 * Pow256(3) && Pow256(3) == 256 * Pow256(2);
    assert Pow256(2) == 256 * Pow256(1) && Pow256(1) == 256 * Pow256(0);
  }

  lemma SameWordAgrees(s: seq<byte>, i: nat, j: nat)
    requires i + 4 <= |s| && j + 4 <= |s|
    ensures Load(s, i, 4) == Load(s, j, 4) <==> Agree(s, i, j, 4)
    ensures Load(s, j, 4) < TWO_32
  {
    LoadsAgree(s, i, j, 4);
    LittleEndianBound(s[j..j + 4]);
    BytesAsBits(4);
    Pow2Of32();
  }

  // Look one word up: is there an earlier copy of the four bytes at ip?
  method Probe(s: seq<byte>, table: array<word16>, hash: nat -> nat, ip: nat, dword: nat)
    returns (found: bool, candidate: nat)
    requires HashesInto(hash, table.Length) && ip + 4 <= |s| && ip < BLOCK_SIZE
    requires dword == Load(s, ip, 4) && TableBelow(table, ip)
    modifies table
    ensures candidate < ip && TableBelow(table, ip + 1)
    ensures found <==> Agree(s, candidate, ip, 4)
    ensures candidate == old(table[..])[hash(Word(s, ip))] && table[..] == Enter(s, old(table[..]), hash, ip)
  {
    SameWordAgrees(s, ip, ip);
    var h := hash(dword);
    ghost var before := table[..];
    candidate := table[h];
    table[h] := ip;
    assert table[..] == Enter(s, before, hash, ip);
    SameWordAgrees(s, candidate, ip);
    found := Load(s, candidate, 4) == dword;
  }

  // A scan from ip with this skip has come to `at`: it found a match there, or goes on from there, with the skip
  // as much larger as it has come further by strides of one.
  ghost predicate ScansTo(s: seq<byte>, table: seq<nat>, hash: nat -> nat, ip: nat, skip: nat, limit: nat,
                          found: bool, at: nat, candidate: nat, table': seq<nat>)
    requires HashesInto(hash, |table|) && limit + INPUT_MARGIN == |s| && skip >= 32 && Below(table, ip) && ip <= at
  {
    |table'| == |table|
    && if found then ScanFrom(s, table, hash, ip, skip, limit) == Hit(at, candidate, table')
       else Below(table', at) && ScanFrom(s, table, hash, ip, skip, limit) == ScanFrom(s, table', hash, at, skip + (at - ip), limit)
  }

  lemma StrideOfOne(s: seq<byte>, table: seq<nat>, hash: nat -> nat, ip: nat, skip: nat, limit: nat, at: nat, table1: seq<nat>)
    requires HashesInto(hash, |table|) && limit + INPUT_MARGIN == |s| && skip >= 32 && Below(table, ip) && ip <= at < limit
    requires ScansTo(s, table, hash, ip, skip, limit, false, at, 0, table1) && skip + (at - ip) < 64
    ensures var candidate := table1[hash(Word(s, at))];
            var found := Agree(s, candidate, at, 4);
            ScansTo(s, table, hash, ip, skip, limit, found, if found then at else at + 1, candidate, Enter(s, table1, hash, at))
  {
    hide Enter, Agree, Word;
  }

  lemma ScanStep(s: seq<byte>, table: seq<nat>, hash: nat -> nat, ip: nat, skip: nat, limit: nat)
    requires HashesInto(hash, |table|) && limit + INPUT_MARGIN == |s| && skip >= 32 && Below(table, ip) && ip + skip / 32 <= limit
    ensures var candidate, table' := table[hash(Word(s, ip))], Enter(s, table, hash, ip);
            ScanFrom(s, table, hash, ip, skip, limit)
            == if Agree(s, candidate, ip, 4) then Hit(ip, candidate, table')
               else ScanFrom(s, table', hash, ip + skip / 32, skip + skip / 32, limit)
  {}

  lemma ScanStarts(s: seq<byte>, table: seq<nat>, hash: nat -> nat, ip: nat, skip: nat, limit: nat)
    requires HashesInto(hash, |table|) && limit + INPUT_MARGIN == |s| && skip >= 32 && Below(table, ip)
    ensures ScansTo(s, table, hash, ip, skip, limit, false, ip, 0, table)
  {}

  // Without a match it does not matter what the candidate was.
  lemma ScanIsAt(s: seq<byte>, table: seq<nat>, hash: nat -> nat, ip: nat, skip: nat, limit: nat, at: nat, candidate: nat, table': seq<nat>)
    requires HashesInto(hash, |table|) && limit + INPUT_MARGIN == |s| && skip >= 32 && Below(table, ip) && ip <= at
    requires ScansTo(s, table, hash, ip, skip, limit, false, at, candidate, table')
    ensures ScansTo(s, table, hash, ip, skip, limit, false, at, 0, table')
  {}

  // The unrolled search of the next sixteen positions.
  method Probe16(s: seq<byte>, table: array<word16>, hash: nat -> nat, ip: nat, preload: nat, data0: nat)
    returns (found: bool, i: nat, candidate: nat, data: nat)
    requires HashesInto(hash, table.Length) && ip + 31 <= |s| <= BLOCK_SIZE
    requires preload == Load(s, ip, 4) && data0 == Load(s, ip, 8)
    requires TableBelow(table, ip)
    modifies table
    ensures found ==> i < 16 && candidate < ip + i && Agree(s, candidate, ip + i, 4)
                      && TableBelow(table, ip + i + 1)
    ensures !found ==> i == 16 && TableBelow(table, ip + 16) && data == Load(s, ip + 16, 8)
    ensures ScansTo(s, old(table[..]), hash, ip, 32, |s| - INPUT_MARGIN, found, ip + i, candidate, table[..])
  {
    hide Window, Load, Agree, HashesInto, Pow256, LittleEndian, ScansTo, Enter, Below;
    ghost var limit, before := |s| - INPUT_MARGIN, table[..];
    assert ScansTo(s, before, hash, ip, 32, limit, false, ip, 0, before) by { ScanStarts(s, before, hash, ip, 32, limit); }
    data := data0;
    var j := 0;
    while j < 4
      invariant 0 <= j <= 4 && data == Load(s, ip + 4 * j, 8)
      invariant TableBelow(table, ip + 4 * j) && ScansTo(s, before, hash, ip, 32, limit, false, ip + 4 * j, 0, table[..])
    {
      var k := 0;
      LoadWindow(s, ip + 4 * j, 8);
      while k < 4
        invariant 0 <= k <= 4 && Window(data, s, ip + 4 * j + k, 8 - k)
        invariant TableBelow(table, ip + 4 * j + k) && ScansTo(s, before, hash, ip, 32, limit, false, ip + 4 * j + k, 0, table[..])
      {
        i := 4 * j + k;
        var dword := if i == 0 then preload else data % TWO_32;
        LowWord(data, s, ip + i, 8 - k);
        StrideOfOne(s, before, hash, ip, 32, limit, ip + i, table[..]);
        found, candidate := Probe(s, table, hash, ip + i, dword);
        if found {
          return;
        }
        ScanIsAt(s, before, hash, ip, 32, limit, ip + i + 1, candidate, table[..]);
        WindowShift(data, s, ip + i, 7 - k);
        data := data / 256;
        k := k + 1;
      }
      data := Load(s, ip + 4 * j + 4, 8);
      j := j + 1;
    }
    found, i, candidate := false, 16, 0;
  }

  // Step 1 of the main loop: scan forward from nextEmit for a four-byte match, in growing strides
  // once the first positions have failed; give up when the stride would pass ipLimit.
  method FindCandidate(s: seq<byte>, table: array<word16>, hash: nat -> nat, nextEmit: nat,
                       preload: nat, ipLimit: nat)
    returns (found: bool, isShort: bool, ip: nat, candidate: nat)
    requires HashesInto(hash, table.Length) && ipLimit + INPUT_MARGIN == |s| <= BLOCK_SIZE
    requires nextEmit <= ipLimit && preload == Load(s, nextEmit + 1, 4)
    requires TableBelow(table, nextEmit + 1)
    modifies table
    ensures found ==> nextEmit < ip <= ipLimit && candidate < ip && Agree(s, candidate, ip, 4)
                      && TableBelow(table, ip + 1)
    ensures found && isShort ==> ip - nextEmit <= 16
    ensures ScanFrom(s, old(table[..]), hash, nextEmit + 1, 32, ipLimit) == if found then Hit(ip, candidate, table[..]) else Miss
  {
    hide Enter, Below, HashesInto, Agree, Load, LittleEndian, ScanFrom;
    ip := nextEmit + 1;
    var data := Load(s, ip, 8);
    var skip := 32;
    if ipLimit - ip >= 16 {
      var i;
      found, i, candidate, data := Probe16(s, table, hash, ip, preload, data);
      if found {
        return true, true, ip + i, candidate;
      }
      ip := ip + 16;
      skip := skip + 16;
    }
    found, ip, candidate := ScanRest(s, table, hash, ip, skip, data, ipLimit);
    isShort := false;
  }

  // The scan in strides.
  method ScanRest(s: seq<byte>, table: array<word16>, hash: nat -> nat, start: nat, skip0: nat, data0: nat, ipLimit: nat)
    returns (found: bool, ip: nat, candidate: nat)
    requires HashesInto(hash, table.Length) && ipLimit + INPUT_MARGIN == |s| <= BLOCK_SIZE
    requires 0 < start <= ipLimit + 1 && skip0 >= 32 && data0 == Load(s, start, 8) && TableBelow(table, start)
    modifies table
    ensures found ==> start <= ip <= ipLimit && candidate < ip && Agree(s, candidate, ip, 4) && TableBelow(table, ip + 1)
    ensures ScanFrom(s, old(table[..]), hash, start, skip0, ipLimit) == if found then Hit(ip, candidate, table[..]) else Miss
  {
    hide Enter, Below, HashesInto, Agree, Load, LittleEndian, ScanFrom, Window;
    ip := start;
    var data, skip := data0, skip0;
    ghost var scan := ScanFrom(s, table[..], hash, ip, skip, ipLimit);
    LoadWindow(s, ip, 8);
    LowWord(data, s, ip, 8);
    while true
      invariant start <= ip <= ipLimit + 1 && skip >= 32
      invariant data % TWO_32 == Load(s, ip, 4)
      invariant TableBelow(table, ip) && scan == ScanFrom(s, table[..], hash, ip, skip, ipLimit)
      decreases |s| - ip
    {
      var stride := skip / 32;
      var nextIp := ip + stride;
      if nextIp > ipLimit {
        ScanEnds(s, table[..], hash, ip, skip, ipLimit);
        return false, ip, 0;
      }
      ScanStep(s, table[..], hash, ip, skip, ipLimit);
      skip := skip + stride;
      found, candidate := Probe(s, table, hash, ip, data % TWO_32);
      if found {
        return true, ip, candidate;
      }
      BelowLater(table[..], ip + 1, nextIp);
      LoadWindow(s, nextIp, 4);
      data := Load(s, nextIp, 4);
      LowWord(data, s, nextIp, 4);
      ip := nextIp;
    }
  }

  lemma BelowLater(table: seq<nat>, ip: nat, later: nat)
    requires Below(table, ip) && ip <= later
    ensures Below(table, later)
  {}

  lemma ScanEnds(s: seq<byte>, table: seq<nat>, hash: nat -> nat, ip: nat, skip: nat, limit: nat)
    requires HashesInto(hash, |table|) && limit + INPUT_MARGIN == |s| && skip >= 32 && Below(table, ip) && ip + skip / 32 > limit
    ensures ScanFrom(s, table, hash, ip, skip, limit) == Miss
  {}

  lemma RoomForCopy(size: int, n: nat, offset: nat, len: nat, total: nat)
    requires AfterLiteral(size, n) && 4 <= len && offset < 65536 && n + len <= total
    ensures size + |CopyTags(offset, len)| + 2 <= MaxCompressedLength(total)
  {
    CopyKeepsSize(size, n, offset, len);
  }

  // The first op bytes of dst are `stream`.
  ghost predicate Holds(dst: array<byte>, op: nat, stream: seq<byte>)
    reads dst
  {
    op <= dst.Length && dst[..op] == stream
  }

  // Append the copy of `matched` bytes from candidate.
  method AppendMatch(s: seq<byte>, dst: array<byte>, op0: nat, ip: nat, candidate: nat, matched: nat,
                     lessThan12: bool, ghost prefix: seq<byte>, ghost stream0: seq<byte>)
    returns (op: nat, ghost stream: seq<byte>)
    requires |s| <= BLOCK_SIZE && MaxCompressedLength(|s|) <= dst.Length
    requires candidate < ip && 4 <= matched && ip + matched <= |s| && Agree(s, candidate, ip, matched)
    requires lessThan12 ==> matched < 12
    requires Holds(dst, op0, stream0) && Emitted(stream0, s, ip, prefix) && AfterLiteral(op0, ip)
    modifies dst
    ensures Holds(dst, op, stream) && Emitted(stream, s, ip + matched, prefix)
    ensures AfterCopy(op, ip + matched) && stream == stream0 + CopyTags(ip - candidate, matched)
  {
    hide Emitted, CopyTags;
    RoomForCopy(op0, ip, ip - candidate, matched, |s|);
    CopyKeepsSize(op0, ip, ip - candidate, matched);
    stream := stream0 + CopyTags(ip - candidate, matched);
    CopyStep(stream0, s, candidate, ip, matched, prefix);
    op := EmitCopy(dst, op0, ip - candidate, matched, lessThan12);
  }

  // The length of the match at ip, four bytes of which are known.
  method MatchLength(s: seq<byte>, ip: nat, candidate: nat, data0: nat)
    returns (matched: nat, lessThan12: bool, data: nat)
    requires candidate < ip && Agree(s, candidate, ip, 4)
    ensures 4 <= matched && ip + matched <= |s| && Agree(s, candidate, ip, matched)
    ensures lessThan12 ==> matched < 12
    ensures matched == Longest(s, candidate, ip)
    ensures ip + matched + 8 <= |s| ==> data == Load(s, ip + matched, 8)
  {
    var n;
    n, lessThan12, data := FindMatchLength64(s, candidate + 4, ip + 4, |s|, data0);
    MatchGrows(s, candidate, ip, 4, n);
    matched := 4 + n;
    LongestIs(s, candidate, ip, matched);
  }

  // After a match: enter the position before ip in the table, then probe at ip.
  method ProbeAfterMatch(s: seq<byte>, table: array<word16>, hash: nat -> nat, ip: nat, data: nat)
    returns (again: bool, candidate: nat)
    requires HashesInto(hash, table.Length) && 0 < ip && ip + 8 <= |s| <= BLOCK_SIZE
    requires data == Load(s, ip, 8) && TableBelow(table, ip)
    modifies table
    ensures candidate < ip && TableBelow(table, ip + 1)
    ensures again <==> Agree(s, candidate, ip, 4)
    ensures var entered := Enter(s, old(table[..]), hash, ip - 1);
            candidate == entered[hash(Word(s, ip))] && table[..] == Enter(s, entered, hash, ip)
  {
    ghost var before := table[..];
    LoadWindow(s, ip, 8);
    LowWord(data, s, ip, 8);
    SameWordAgrees(s, ip, ip - 1);
    table[hash(Load(s, ip - 1, 4))] := ip - 1;
    assert table[..] == Enter(s, before, hash, ip - 1);
    again, candidate := Probe(s, table, hash, ip, data % TWO_32);
  }

  // The next scan can start from the five bytes already loaded.
  lemma NextPreload(data: nat, s: seq<byte>, ip: nat)
    requires ip + 8 <= |s| && data == Load(s, ip, 8)
    ensures data / 256 % TWO_32 == Load(s, ip + 1, 4)
  {
    LoadWindow(s, ip, 8);
    WindowShift(data, s, ip, 7);
    LowWord(data / 256, s, ip + 1, 7);
  }

  lemma CopiesStep(s: seq<byte>, table: seq<nat>, hash: nat -> nat, ip: nat, candidate: nat, limit: nat)
    requires HashesInto(hash, |table|) && limit + INPUT_MARGIN == |s| <= BLOCK_SIZE && candidate < ip <= limit
    requires Below(table, ip + 1) && Agree(s, candidate, ip, 4)
    ensures var matched := Longest(s, candidate, ip);
            var ip' := ip + matched;
            var run := Copies(s, table, hash, ip, candidate, limit);
            matched >= 4
            && var tags := CopyTags(ip - candidate, matched);
               if ip' >= limit then run == Run(tags, ip', table)
               else
                 var entered := Enter(s, table, hash, ip' - 1);
                 var next, table' := entered[hash(Word(s, ip'))], Enter(s, entered, hash, ip');
                 if Agree(s, next, ip', 4) then
                   next < ip' && Below(table', ip' + 1)
                   && var more := Copies(s, table', hash, ip', next, limit); run == Run(tags + more.tags, more.ip, more.table)
                 else run == Run(tags, ip', table')
  {
    hide CopyTags, Agree, Longest;
    LongestAtLeast(s, candidate, ip, 4);
    BelowLater(table, ip + 1, ip + Longest(s, candidate, ip));
    BelowLater(table, ip + 1, ip + Longest(s, candidate, ip) + 1);
  }

  // Step 3: emit the match at ip0, then every further match that starts where the last one ended.
  method EmitMatches(s: seq<byte>, dst: array<byte>, op0: nat, table: array<word16>,
                     hash: nat -> nat, ip0: nat, candidate0: nat, ipLimit: nat,
                     ghost prefix: seq<byte>, ghost stream0: seq<byte>)
    returns (ip: nat, op: nat, exhausted: bool, preload: nat, ghost stream: seq<byte>)
    requires HashesInto(hash, table.Length) && ipLimit + INPUT_MARGIN == |s| <= BLOCK_SIZE
    requires candidate0 < ip0 <= ipLimit && Agree(s, candidate0, ip0, 4)
    requires TableBelow(table, ip0 + 1)
    requires MaxCompressedLength(|s|) <= dst.Length
    requires Holds(dst, op0, stream0) && Emitted(stream0, s, ip0, prefix) && AfterLiteral(op0, ip0)
    modifies dst, table
    ensures ip0 < ip <= |s| && (exhausted <==> ip >= ipLimit)
    ensures Holds(dst, op, stream) && Emitted(stream, s, ip, prefix) && AfterCopy(op, ip)
    ensures var run := Copies(s, old(table[..]), hash, ip0, candidate0, ipLimit);
            stream == stream0 + run.tags && ip == run.ip && (!exhausted ==> table[..] == run.table)
    ensures !exhausted ==> ip < ipLimit && preload == Load(s, ip + 1, 4) && TableBelow(table, ip + 1)
  {
    hide Emitted, Load, Copies, Enter, HashesInto, Below, Agree, CopyTags;
    ip, op, stream := ip0, op0, stream0;
    ghost var run := Copies(s, table[..], hash, ip0, candidate0, ipLimit);
    var candidate: nat, data: nat := candidate0, 0;
    while true
      invariant candidate < ip <= ipLimit && ip0 <= ip && Agree(s, candidate, ip, 4)
      invariant TableBelow(table, ip + 1)
      invariant Holds(dst, op, stream) && Emitted(stream, s, ip, prefix) && AfterLiteral(op, ip)
      invariant var rest := Copies(s, table[..], hash, ip, candidate, ipLimit);
                stream0 + run.tags == stream + rest.tags && run.ip == rest.ip && run.table == rest.table
      decreases |s| - ip
    {
      CopiesStep(s, table[..], hash, ip, candidate, ipLimit);
      ghost var rest := Copies(s, table[..], hash, ip, candidate, ipLimit);
      ghost var done, candidate0' := stream, candidate;
      var matched, lessThan12;
      matched, lessThan12, data := MatchLength(s, ip, candidate, data);
      op, stream := AppendMatch(s, dst, op, ip, candidate, matched, lessThan12, prefix, stream);
      ip := ip + matched;
      if ip >= ipLimit {
        return ip, op, true, 0, stream;
      }
      var again;
      BelowLater(table[..], ip - matched + 1, ip);
      again, candidate := ProbeAfterMatch(s, table, hash, ip, data);
      if again {
        ghost var more := Copies(s, table[..], hash, ip, candidate, ipLimit);
        Seqs.Associate(done, CopyTags(ip - matched - candidate0', matched), more.tags);
      }
      if !again {
        NextPreload(data, s, ip);
        return ip, op, false, data / 256 % TWO_32, stream;
      }
    }
  }

  // ---- One fragment ----

  // Size of a whole fragment of n bytes.
  ghost predicate FragmentBound(size: int, n: nat) {
    6 * size <= 7 * n + 5 && (n >= 6 ==> 6 * size <= 7 * n)
  }

  lemma RoomForLiteral(size: int, n: nat, len: nat, total: nat)
    requires AfterCopy(size, n) && 0 < len && n + len <= total <= BLOCK_SIZE
    ensures size + LiteralSize(len) <= MaxCompressedLength(total)
    ensures n + 16 <= total ==> size + 17 <= MaxCompressedLength(total)
    ensures n + len == total ==> FragmentBound(size + LiteralSize(len), total)
  {
    LiteralSizes(len);
  }

  // Step 2: the literal from n up to m.
  method EmitUnmatched(s: seq<byte>, dst: array<byte>, op0: nat, n: nat, m: nat, allowFastPath: bool,
                       ghost prefix: seq<byte>, ghost stream0: seq<byte>)
    returns (op: nat, ghost stream: seq<byte>)
    requires n < m <= |s| <= BLOCK_SIZE && MaxCompressedLength(|s|) <= dst.Length
    requires allowFastPath ==> n + 16 <= |s|
    requires Holds(dst, op0, stream0) && Emitted(stream0, s, n, prefix) && AfterCopy(op0, n)
    modifies dst
    ensures Holds(dst, op, stream) && Emitted(stream, s, m, prefix) && AfterLiteral(op, m)
    ensures m == |s| ==> FragmentBound(op, m)
    ensures stream == stream0 + LiteralOf(s, n, m)
  {
    hide Emitted, LiteralHeader;
    RoomForLiteral(op0, n, m - n, |s|);
    LiteralKeepsSize(op0, n, m - n);
    stream := stream0 + (LiteralHeader(m - n - 1) + s[n..m]);
    LiteralStep(stream0, s, n, m, prefix);
    op := EmitLiteral(s, n, m - n, dst, op0, allowFastPath);
  }

  // The main loop: a literal, then matches, until the input margin is reached.
  method CompressMatches(s: seq<byte>, dst: array<byte>, table: array<word16>,
                         hash: nat -> nat, ghost prefix: seq<byte>)
    returns (ip: nat, op: nat, ghost stream: seq<byte>)
    requires INPUT_MARGIN <= |s| <= BLOCK_SIZE && HashesInto(hash, table.Length)
    requires TableBelow(table, 1)
    requires MaxCompressedLength(|s|) <= dst.Length
    requires Emitted([], s, 0, prefix)
    modifies dst, table
    ensures ip <= |s| && Holds(dst, op, stream) && Emitted(stream, s, ip, prefix) && AfterCopy(op, ip)
    ensures stream + Remainder(s, ip) == TagsFrom(s, old(table[..]), hash, 0)
  {
    hide Emitted, ScanFrom, Copies, HashesInto, Below, LiteralOf;
    ghost var all := TagsFrom(s, table[..], hash, 0);
    ip, op, stream := 0, 0, [];
    assert dst[..0] == [];
    var ipLimit := |s| - INPUT_MARGIN;
    var preload := Load(s, 1, 4);
    while true
      invariant ip <= ipLimit
      invariant Holds(dst, op, stream) && Emitted(stream, s, ip, prefix) && AfterCopy(op, ip)
      invariant preload == Load(s, ip + 1, 4) && TableBelow(table, ip + 1)
      invariant all == stream + TagsFrom(s, table[..], hash, ip)
      decreases |s| - ip
    {
      ghost var done, n := stream, ip;
      var found, isShort, at, candidate := FindCandidate(s, table, hash, ip, preload, ipLimit);
      if !found {
        return;
      }
      ghost var run := Copies(s, table[..], hash, at, candidate, ipLimit);
      op, stream := EmitUnmatched(s, dst, op, ip, at, true, prefix, stream);
      var exhausted;
      ip, op, exhausted, preload, stream :=
        EmitMatches(s, dst, op, table, hash, at, candidate, ipLimit, prefix, stream);
      TagsSoFar(s, hash, done, n, at, run, all);
      assert stream == done + LiteralOf(s, n, at) + run.tags;
      if exhausted {
        return;
      }
    }
  }

  // What is left at the end.
  function Remainder(s: seq<byte>, ip: nat): seq<byte>
    requires ip <= |s| <= BLOCK_SIZE
  {
    if ip < |s| then LiteralOf(s, ip, |s|) else []
  }

  lemma TagsSoFar(s: seq<byte>, hash: nat -> nat, done: seq<byte>, n: nat, at: nat, run: Run, all: seq<byte>)
    requires HashesInto(hash, |run.table|) && INPUT_MARGIN <= |s| <= BLOCK_SIZE && n < at && run.ip <= |s| && at <= |s|
    requires run.ip + INPUT_MARGIN < |s| ==> Below(run.table, run.ip + 1)
    requires all == done + (LiteralOf(s, n, at) + (run.tags + TagsAfter(s, run, hash)))
    ensures all == done + LiteralOf(s, n, at) + run.tags + TagsAfter(s, run, hash)
  {
    Seqs.Associate(done, LiteralOf(s, n, at), run.tags + TagsAfter(s, run, hash));
    Seqs.Associate(done + LiteralOf(s, n, at), run.tags, TagsAfter(s, run, hash));
  }

  // dst[..op] becomes tags that reproduce s.  The table must come in zeroed; the buffer must have
  // room for MaxCompressedLength(|s|), which also covers every write past the output pointer.
  method CompressFragment(s: seq<byte>, dst: array<byte>, table: array<word16>,
                          hash: nat -> nat, ghost prefix: seq<byte>)
    returns (op: nat)
    requires |s| <= BLOCK_SIZE && HashesInto(hash, table.Length)
    requires forall h :: 0 <= h < table.Length ==> table[h] == 0
    requires MaxCompressedLength(|s|) <= dst.Length
    modifies dst, table
    ensures op <= dst.Length && Emitted(dst[..op], s, |s|, prefix)
    ensures FragmentBound(op, |s|)
    ensures dst[..op] == FragmentTags(s, old(table[..]), hash)
  {
    hide Emitted, TagsFrom;
    var ip: nat := 0;
    op := 0;
    ghost var stream: seq<byte> := [];
    assert dst[..0] == [];
    NothingEmitted(s, prefix);
    if |s| >= INPUT_MARGIN {
      ip, op, stream := CompressMatches(s, dst, table, hash, prefix);
    }
    if ip < |s| {
      op, stream := EmitUnmatched(s, dst, op, ip, |s|, false, prefix, stream);
    }
  }

  lemma NothingEmitted(s: seq<byte>, prefix: seq<byte>)
    ensures Emitted([], s, 0, prefix)
  {
    assert prefix + s[..0] == prefix;
  }

  // ---- The whole input ----

  const MIN_HASH_TABLE_SIZE: nat := 256
  const MAX_HASH_TABLE_SIZE: nat := 16384

  // From `size` on, doubled until it is large enough or as large as it may be.
  function DoubledFor(size: nat, n: nat): (r: nat)
    requires 0 < size <= MAX_HASH_TABLE_SIZE
    ensures r >= size
    decreases MAX_HASH_TABLE_SIZE - size
  {
    if size >= n || size * 2 > MAX_HASH_TABLE_SIZE then size else DoubledFor(size * 2, n)
  }

  function TableSize(n: nat): (r: nat)
    ensures r >= 256
  {
    DoubledFor(256, n)
  }

  lemma {:induction false} DoubledTo(a: nat, b: nat, n: nat)
    requires 8 <= a <= b <= 14 && n <= Pow2(b) && (a < b ==> Pow2(b - 1) < n) && Pow2(14) == 16384
    ensures 0 < Pow2(a) <= 16384 && DoubledFor(Pow2(a), n) == Pow2(b)
    decreases b - a
  {
    Pow2Monotone(a, 14);
    if a < b {
      Pow2Monotone(a, b - 1);
      assert Pow2(a + 1) == 2 * Pow2(a);
      Pow2Monotone(a + 1, b);
      Pow2Monotone(b, 14);
      DoubledTo(a + 1, b, n);
    }
  }

  method CalculateTableSize(inputSize: nat) returns (size: nat)
    ensures size == TableSize(inputSize) && size <= MAX_HASH_TABLE_SIZE
  {
    assert Pow2(8) == 256;
    PowAdd(8, 6);
    assert Pow2(6) == 64 && Pow2(14) == 16384;
    if inputSize > MAX_HASH_TABLE_SIZE {
      LargestTable(inputSize);
      return MAX_HASH_TABLE_SIZE;
    }
    if inputSize < MIN_HASH_TABLE_SIZE {
      return MIN_HASH_TABLE_SIZE;
    }
    var log := Log2FloorNonZero(inputSize - 1);
    size := 2 * Pow2(log);
    assert size == Pow2(log + 1);
    if log >= 14 {
      Pow2Monotone(14, log);
    } else {
      Pow2Monotone(log + 1, 14);
    }
    AtLeast7(log);
    DoubledTo(8, log + 1, inputSize);
  }

  lemma AtLeast7(log: nat)
    requires Pow2(log + 1) > 255
    ensures log >= 7
  {
    assert Pow2(7) == 128;
    if log < 7 {
      Pow2Monotone(log + 1, 7);
    }
  }

  lemma LargestTable(n: nat)
    requires n > 16384
    ensures TableSize(n) == 16384
  {
    assert DoubledFor(16384, n) == 16384 && DoubledFor(8192, n) == 16384 && DoubledFor(4096, n) == 16384;
    assert DoubledFor(2048, n) == 16384 && DoubledFor(1024, n) == 16384 && DoubledFor(512, n) == 16384;
  }

  // The hash function of a table size.
  ghost predicate HashesAll(hash: (nat, nat) -> nat) {
    forall x: nat, size: nat :: x < TWO_32 && size > 0 ==> hash(x, size) < size
  }

  function Zeroed(n: nat): (r: seq<nat>)
    ensures |r| == n && forall h :: 0 <= h < n ==> r[h] == 0
  {
    seq(n, _ => 0)
  }

  // The tags of one block, and of all of them.
  ghost function BlockTags(block: seq<byte>, hash: (nat, nat) -> nat): seq<byte>
    requires |block| <= BLOCK_SIZE && HashesAll(hash)
  {
    var size := TableSize(|block|);
    FragmentTags(block, Zeroed(size), x => hash(x, size))
  }

  ghost function StreamTags(input: seq<byte>, hash: (nat, nat) -> nat): seq<byte>
    requires HashesAll(hash)
  {
    if input == [] then []
    else
      var size := if |input| < 65536 then |input| else 65536;
      BlockTags(input[..size], hash) + StreamTags(input[size..], hash)
  }

  // HashBytes: masking with a power of two less one is a remainder.  An empty table takes nothing.
  function HashBytes(bytes: nat, tableSize: nat): (h: nat)
    ensures tableSize > 0 ==> h < tableSize
  {
    if tableSize == 0 then 0 else (0x1e35a7bd * bytes % TWO_32) / 0x4_0000 % tableSize
  }

  // One fragment, compressed into a scratch buffer of its own.
  method CompressBlock(fragment: seq<byte>, hash: (nat, nat) -> nat, ghost prefix: seq<byte>)
    returns (tags: seq<byte>)
    requires |fragment| <= BLOCK_SIZE && HashesAll(hash)
    ensures Emitted(tags, fragment, |fragment|, prefix)
    ensures FragmentBound(|tags|, |fragment|) && tags == BlockTags(fragment, hash)
  {
    hide Emitted, FragmentTags;
    var tableSize := CalculateTableSize(|fragment|);
    var table := new word16[tableSize](_ => 0);
    assert table[..] == Zeroed(tableSize);
    var dest := new byte[MaxCompressedLength(|fragment|)];
    var end := CompressFragment(fragment, dest, table, x => hash(x, tableSize), prefix);
    tags := dest[..end];
  }

  // The next block of the input: where it lies if one piece has all of it, else copied together from as many
  // pieces as it takes.  `pending` bytes of it have still to be skipped.
  method ReadFragment(reader: Source, size: nat) returns (fragment: seq<byte>, pending: nat)
    requires 0 < size <= |reader.rest|
    modifies reader
    ensures fragment == old(reader.rest)[..size]
    ensures pending <= |reader.rest| && reader.rest[pending..] == old(reader.rest)[size..]
  {
    ghost var all := reader.rest;
    var piece := reader.Peek();
    if |piece| >= size {
      return piece[..size], size;
    }
    fragment, pending := piece, 0;
    reader.Skip(|piece|);
    while |fragment| < size
      invariant |fragment| <= size && fragment == all[..|fragment|] && reader.rest == all[|fragment|..]
      decreases size - |fragment|
    {
      piece := reader.Peek();
      var n := if |piece| < size - |fragment| then |piece| else size - |fragment|;
      assert piece[..n] == reader.rest[..n];
      assert all[|fragment|..][..n] == all[|fragment|..|fragment| + n];
      Seqs.SplitAt(all, |fragment|, |fragment| + n);
      assert all[|fragment|..][n..] == all[|fragment| + n..];
      fragment := fragment + piece[..n];
      reader.Skip(n);
    }
  }

  // The loop of Compress: one block after another.
  method CompressBlocks(reader: Source, writer: Sink, hash: (nat, nat) -> nat) returns (written: nat, ghost tags: seq<byte>)
    requires HashesAll(hash)
    modifies reader, writer
    ensures reader.rest == [] && writer.written == old(writer.written) + tags && written == |tags|
    ensures tags == StreamTags(old(reader.rest), hash)
    ensures Emitted(tags, old(reader.rest), |old(reader.rest)|, []) && 6 * |tags| <= 7 * |old(reader.rest)| + 5
  {
    hide Emitted, BlockTags, HashesAll, FragmentBound;
    ghost var input := reader.rest;
    assert input[0..] == input;
    tags, written := [], 0;
    var n := |reader.rest|;
    ghost var at: nat := 0;
    NothingEmitted(input, []);
    while n > 0
      invariant at + n == |input| && at <= |input| && reader.rest == input[at..]
      invariant writer.written == old(writer.written) + tags && written == |tags|
      invariant Emitted(tags, input, at, []) && StreamTags(input, hash) == tags + StreamTags(input[at..], hash)
      invariant 6 * |tags| <= 7 * at + (if n > 0 then 0 else 5)
    {
      var size := if n < BLOCK_SIZE then n else BLOCK_SIZE;
      var fragment, pending := ReadFragment(reader, size);
      assert input[at..][..size] == input[at..at + size] && input[at..][size..] == input[at + size..];
      var block := CompressBlock(fragment, hash, input[..at]);
      BlockStep(tags, block, input, at, size);
      BoundOf(|block|, size);
      Seqs.Associate(tags, block, StreamTags(input[at + size..], hash));
      writer.Append(block);
      Seqs.Associate(old(writer.written), tags, block);
      written := written + |block|;
      tags := tags + block;
      at := at + size;
      n := n - size;
      reader.Skip(pending);
    }
  }

  // Compress: the length, then the blocks.  `hash(x, size)` may be any function into the table.
  method Compress(reader: Source, writer: Sink, hash: (nat, nat) -> nat) returns (written: nat)
    requires |reader.rest| < TWO_32 && HashesAll(hash)
    modifies reader, writer
    ensures writer.written == old(writer.written) + VarintBytes(|old(reader.rest)|) + StreamTags(old(reader.rest), hash)
    ensures reader.rest == [] && |old(writer.written)| + written == |writer.written| && old(writer.written) <= writer.written
    ensures Uncompressed(writer.written[|old(writer.written)|..]) == Some(old(reader.rest))
    ensures written <= 32 + |old(reader.rest)| + |old(reader.rest)| / 6
  {
    hide Emitted;
    ghost var input, before := reader.rest, writer.written;
    var ulength := VarintBytes(|reader.rest|);
    writer.Append(ulength);
    ghost var tags;
    written, tags := CompressBlocks(reader, writer, hash);
    written := written + |ulength|;
    WholeStream(input, tags);
    Seqs.Associate(before, ulength, tags);
    assert writer.written[|before|..] == ulength + tags;
  }

  // With the library's own hash function.
  method CompressWithHashBytes(reader: Source, writer: Sink) returns (written: nat)
    requires |reader.rest| < TWO_32
    modifies reader, writer
    ensures reader.rest == [] && |old(writer.written)| + written == |writer.written| && old(writer.written) <= writer.written
    ensures HashesAll(HashBytes)
    ensures writer.written == old(writer.written) + VarintBytes(|old(reader.rest)|) + StreamTags(old(reader.rest), HashBytes)
    ensures Uncompressed(writer.written[|old(writer.written)|..]) == Some(old(reader.rest))
    ensures written <= 32 + |old(reader.rest)| + |old(reader.rest)| / 6
  {
    assert HashesAll(HashBytes);
    written := Compress(reader, writer, HashBytes);
  }

  lemma BoundOf(size: int, n: nat)
    requires FragmentBound(size, n)
    ensures 6 * size <= 7 * n + 5 && (n >= 6 ==> 6 * size <= 7 * n)
  {}

  lemma BlockStep(tags: seq<byte>, block: seq<byte>, input: seq<byte>, at: nat, size: nat)
    requires at + size <= |input| && Emitted(tags, input, at, [])
    requires Emitted(block, input[at..at + size], size, input[..at])
    ensures Emitted(tags + block, input, at + size, [])
  {
    hide Decode;
    assert [] + input[..at] == input[..at];
    Seqs.SplitAt(input, at, at + size);
    assert input[at..at + size][..size] == input[at..at + size];
    assert [] + input[..at + size] == input[..at + size];
    EmitStep(tags, block, input, at, at + size, []);
  }

  lemma WholeStream(input: seq<byte>, tags: seq<byte>)
    requires |input| < TWO_32
    requires Emitted(tags, input, |input|, []) && 6 * |tags| <= 7 * |input| + 5
    ensures Uncompressed(VarintBytes(|input|) + tags) == Some(input)
    ensures |VarintBytes(|input|) + tags| <= MaxCompressedLength(|input|)
  {
    var header := VarintBytes(|input|);
    SnappyVarint.RoundTrip(|input|, tags);
    assert (header + tags)[|header|..] == tags;
    assert [] + input[..|input|] == input;
  }

  ghost predicate OneByteOver(s: seq<byte>) {
    forall i :: 0 <= i < |s| ==> s[i] == s[0]
  }

  lemma PartsOver(s: seq<byte>, n: nat)
    requires OneByteOver(s) && n <= |s|
    ensures OneByteOver(s[..n]) && OneByteOver(s[n..])
  {}

  // One byte over and over compresses about twentyfold, whatever the hash.
  lemma {:induction false} RunsCompress(input: seq<byte>, hash: (nat, nat) -> nat)
    requires HashesAll(hash) && OneByteOver(input)
    ensures 20 * |StreamTags(input, hash)| <= |input| + 100 * (|input| / 65536) + 400
    decreases |input|
  {
    if input != [] {
      var size := if |input| < 65536 then |input| else 65536;
      var block, rest := input[..size], input[size..];
      PartsOver(input, size);
      hide BlockTags, HashesAll, OneByteOver;
      RunBlock(block, hash);
      RunsCompress(rest, hash);
      assert size < 65536 ==> |StreamTags(rest, hash)| == 0;
      RunsAdd(|input|, size, |BlockTags(block, hash)|, |StreamTags(rest, hash)|);
    }
  }

  lemma RunsAdd(n: nat, size: nat, block: nat, rest: nat)
    requires size == (if n < 65536 then n else 65536) && 20 * block <= size + (if size < 65536 then 400 else 100)
    requires 20 * rest <= n - size + 100 * ((n - size) / 65536) + 400 && (size < 65536 ==> rest == 0)
    ensures 20 * (block + rest) <= n + 100 * (n / 65536) + 400
  {
    assert n >= 65536 ==> n / 65536 == 1 + (n - 65536) / 65536;
  }

  lemma RunBlock(block: seq<byte>, hash: (nat, nat) -> nat)
    requires HashesAll(hash) && 0 < |block| <= 65536 && OneByteOver(block)
    ensures 20 * |BlockTags(block, hash)| <= |block| + if |block| < 65536 then 400 else 100
  {
    var size := TableSize(|block|);
    assert HashesInto(x => hash(x, size), size);
    if |block| >= 18 {
      RunIsSmall(block, Zeroed(size), x => hash(x, size));
    } else {
      FewBytes(block, Zeroed(size), x => hash(x, size));
    }
  }

  lemma FewBytes(s: seq<byte>, table: seq<nat>, hash: nat -> nat)
    requires 0 < |s| < 18 && HashesInto(hash, |table|) && Below(table, 1)
    ensures |FragmentTags(s, table, hash)| <= 20
  {
    hide ScanFrom, HashesInto, Below, Copies, LiteralOf, TagsAfter;
    ShortLiteral(s, 0, |s|);
    if |s| >= INPUT_MARGIN {
      var r := ScanFrom(s, table, hash, 1, 32, |s| - INPUT_MARGIN);
      if r.Hit? {
        FewAfterHit(s, r.table, hash, r.at, r.candidate);
        ShortLiteral(s, 0, r.at);
      }
    }
  }

  lemma FewAfterHit(s: seq<byte>, table: seq<nat>, hash: nat -> nat, at: nat, candidate: nat)
    requires INPUT_MARGIN <= |s| < 18 && HashesInto(hash, |table|) && Below(table, at + 1) && Agree(s, candidate, at, 4)
    requires candidate < at < |s| - INPUT_MARGIN
    ensures var run := Copies(s, table, hash, at, candidate, |s| - INPUT_MARGIN); |run.tags + TagsAfter(s, run, hash)| <= 16
  {
    hide HashesInto, Below, CopyTags, Agree, LiteralOf;
    LongestAtLeast(s, candidate, at, 4);
    var matched := Longest(s, candidate, at);
    var run := Copies(s, table, hash, at, candidate, |s| - INPUT_MARGIN);
    assert run.tags == CopyTags(at - candidate, matched) && run.ip == at + matched;
    CopyTagsSize(at - candidate, matched);
    if run.ip < |s| {
      ShortLiteral(s, run.ip, |s|);
    }
  }

  lemma ShortLiteral(s: seq<byte>, n: nat, m: nat)
    requires n < m <= |s| <= 60
    ensures |LiteralOf(s, n, m)| == m - n + 1
  {}
}
