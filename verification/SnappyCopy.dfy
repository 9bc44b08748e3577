/**
 The overlapping-copy routines of the Snappy decompressor, on an array.  Each is measured against
 `Extend`, the copy of one byte at a time: bytes before the destination never change, bytes past the
 end of the copy are slop.
 */
module SnappyCopy {
  import opened Bytes
  import opened SnappyFormat

  // The first `end` bytes of a are those of r.
  ghost predicate AgreesUpTo(a: array<byte>, r: seq<byte>, end: nat)
    reads a
  {
    end <= a.Length && end <= |r| && forall k :: 0 <= k < end ==> a[k] == r[k]
  }

  // r continues its first op bytes with period d.
  ghost predicate Periodic(r: seq<byte>, op: nat, d: nat) {
    0 < d <= op <= |r| && forall k :: op <= k < |r| ==> r[k] == r[k - d]
  }

  // The buffer as a byte-at-a-time copy would leave it, all the way to its end.
  ghost function Continued(a: seq<byte>, op: nat, d: nat): (r: seq<byte>)
    requires 0 < d <= op <= |a|
    ensures |r| == |a| && r[..op] == a[..op]
  {
    Extend(a[..op], d, |a| - op)
  }

  lemma ContinuedIsPeriodic(a: seq<byte>, op: nat, d: nat)
    requires 0 < d <= op <= |a|
    ensures Periodic(Continued(a, op, d), op, d)
  {
    forall k | op <= k < |a|
      ensures Continued(a, op, d)[k] == Continued(a, op, d)[k - d]
    {
      ExtendIsPeriodic(a[..op], d, |a| - op, k - op);
    }
  }

  lemma ContinuedPrefix(a: seq<byte>, op: nat, d: nat, len: nat)
    requires 0 < d <= op && op + len <= |a|
    ensures Continued(a, op, d)[..op + len] == Extend(a[..op], d, len)
  {
    ExtendTwice(a[..op], d, len, |a| - op - len);
  }

  // Going back any number of periods.
  lemma {:induction false} PeriodMultiple(r: seq<byte>, op: nat, d: nat, c: nat, k: nat)
    requires Periodic(r, op, d) && k < |r| && k + d >= op + c * d
    ensures c * d <= k && r[k] == r[k - c * d]
    decreases c
  {
    if c > 0 {
      assert c * d == (c - 1) * d + d;
      PeriodMultiple(r, op, d, c - 1, k);
    }
  }

  method IncrementalCopySlow(a: array<byte>, src0: nat, op0: nat, opLimit: nat, ghost r: seq<byte>,
                             ghost start: nat, ghost d: nat, ghost c: nat)
    requires opLimit <= a.Length == |r|
    requires Periodic(r, start, d) && op0 - src0 == c * d > 0 && start <= src0 + d
    requires AgreesUpTo(a, r, op0)
    modifies a
    ensures AgreesUpTo(a, r, if op0 < opLimit then opLimit else op0)
  {
    var src, op := src0, op0;
    while op < opLimit
      invariant op0 <= op && src == op - c * d && (op <= opLimit || op == op0)
      invariant AgreesUpTo(a, r, op)
    {
      PeriodMultiple(r, start, d, c, op);
      a[op] := a[src];
      op, src := op + 1, src + 1;
    }
  }

  // Eight bytes through a temporary: the source is read before the destination is written.
  method UnalignedCopy64(a: array<byte>, src: nat, op: nat, ghost r: seq<byte>,
                         ghost start: nat, ghost d: nat, ghost c: nat)
    requires op + 8 <= a.Length == |r|
    requires Periodic(r, start, d) && op - src == c * d > 0 && start <= src + d
    requires AgreesUpTo(a, r, op)
    modifies a
    ensures AgreesUpTo(a, r, op + (if c * d < 8 then c * d else 8))
  {
    forall i | op <= i < op + 8 {
      a[i] := a[i - (op - src)];
    }
    forall k | op <= k < op + (if c * d < 8 then c * d else 8)
      ensures a[k] == r[k]
    {
      PeriodMultiple(r, start, d, c, k);
    }
  }

  // Two eight-byte copies; the distance must be at least eight.
  method ConditionalUnalignedCopy128(a: array<byte>, src: nat, op: nat, ghost r: seq<byte>,
                                     ghost start: nat, ghost d: nat, ghost c: nat)
    requires op + 16 <= a.Length == |r|
    requires Periodic(r, start, d) && op - src == c * d >= 8 && start <= src + d
    requires AgreesUpTo(a, r, op)
    modifies a
    ensures AgreesUpTo(a, r, op + 16)
  {
    UnalignedCopy64(a, src, op, r, start, d, c);
    UnalignedCopy64(a, src + 8, op + 8, r, start, d, c);
  }

  // Double the pattern until it is at least eight bytes long; eleven bytes of room suffice.
  method ExpandPattern(a: array<byte>, src: nat, op0: nat, ghost r: seq<byte>)
    returns (op: nat, ghost c: nat)
    requires op0 + 11 <= a.Length == |r| && 0 < op0 - src < 8
    requires Periodic(r, op0, op0 - src) && AgreesUpTo(a, r, op0)
    modifies a
    ensures op0 <= op <= a.Length && op - src == c * (op0 - src) >= 8
    ensures AgreesUpTo(a, r, op)
  {
    ghost var d := op0 - src;
    op, c := op0, 1;
    var patternSize := op0 - src;
    while patternSize < 8
      invariant patternSize == op - src == c * d
      invariant c == 1 || c == 2 || c == 4 || c == 8
      invariant op0 <= op <= a.Length && AgreesUpTo(a, r, op)
      decreases 8 - patternSize
    {
      UnalignedCopy64(a, src, op, r, op0, d, c);
      op := op + patternSize;
      patternSize := patternSize * 2;
      c := c * 2;
    }
  }

  // At most four sixteen-byte blocks, when slop remains after the limit.
  method CopyFourBlocks(a: array<byte>, src: nat, op: nat, opLimit: nat, ghost r: seq<byte>,
                        ghost start: nat, ghost d: nat, ghost c: nat)
    requires op < opLimit && opLimit + 15 <= a.Length == |r| && opLimit - op <= 64
    requires Periodic(r, start, d) && op - src == c * d >= 8 && start <= src + d
    requires AgreesUpTo(a, r, op)
    modifies a
    ensures AgreesUpTo(a, r, opLimit)
  {
    ConditionalUnalignedCopy128(a, src, op, r, start, d, c);
    if op + 16 < opLimit {
      ConditionalUnalignedCopy128(a, src + 16, op + 16, r, start, d, c);
    }
    if op + 32 < opLimit {
      ConditionalUnalignedCopy128(a, src + 32, op + 32, r, start, d, c);
    }
    if op + 48 < opLimit {
      ConditionalUnalignedCopy128(a, src + 48, op + 48, r, start, d, c);
    }
  }

  // The last branch: blocks while they fit in the buffer, then eight bytes, then single bytes.
  method CopyTowardsEnd(a: array<byte>, src0: nat, op0: nat, opLimit: nat, ghost r: seq<byte>,
                        ghost start: nat, ghost d: nat, ghost c: nat)
    requires opLimit <= a.Length == |r|
    requires Periodic(r, start, d) && op0 - src0 == c * d >= 8 && start <= src0 + d
    requires AgreesUpTo(a, r, op0)
    modifies a
    ensures AgreesUpTo(a, r, if op0 < opLimit then opLimit else op0)
  {
    var src, op := src0, op0;
    var opEnd := a.Length - 16;
    while op < opEnd
      invariant op0 <= op && op - src == c * d && src0 <= src
      invariant AgreesUpTo(a, r, op)
    {
      ConditionalUnalignedCopy128(a, src, op, r, start, d, c);
      op, src := op + 16, src + 16;
    }
    if op >= opLimit {
      return;
    }
    if op <= a.Length - 8 {
      UnalignedCopy64(a, src, op, r, start, d, c);
      op, src := op + 8, src + 8;
    }
    IncrementalCopySlow(a, src, op, opLimit, r, start, d, c);
  }

  // The portable IncrementalCopy: the buffer ends at a.Length.
  method IncrementalCopy(a: array<byte>, src: nat, op: nat, opLimit: nat)
    requires src < op < opLimit <= a.Length && opLimit - op <= 64
    modifies a
    ensures a[..opLimit] == Extend(old(a[..op]), op - src, opLimit - op)
  {
    ghost var d := op - src;
    ghost var r := Continued(a[..], op, d);
    ContinuedIsPeriodic(a[..], op, d);
    ContinuedPrefix(a[..], op, d, opLimit - op);
    assert a[..][..op] == a[..op] && AgreesUpTo(a, r, op) by {
      assert a[..][..op] == r[..op];
      assert forall k :: 0 <= k < op ==> a[k] == a[..][..op][k] && r[k] == r[..op][k];
    }
    assert 1 * d == d;
    IncrementalCopyInto(a, src, op, opLimit, r);
    assert a[..opLimit] == r[..opLimit];
  }

  // The branches of IncrementalCopy.
  method IncrementalCopyInto(a: array<byte>, src: nat, op: nat, opLimit: nat, ghost r: seq<byte>)
    requires src < op < opLimit <= a.Length == |r| && opLimit - op <= 64
    requires Periodic(r, op, op - src) && AgreesUpTo(a, r, op)
    modifies a
    ensures AgreesUpTo(a, r, opLimit)
  {
    ghost var d, c := op - src, 1;
    var p := op;
    if op - src < 8 {
      if op <= a.Length - 11 {
        p, c := ExpandPattern(a, src, op, r);
        if p >= opLimit {
          return;
        }
      } else {
        IncrementalCopySlow(a, src, op, opLimit, r, op, d, 1);
        return;
      }
    }
    if opLimit <= a.Length - 15 {
      CopyFourBlocks(a, src, p, opLimit, r, op, d, c);
    } else {
      CopyTowardsEnd(a, src, p, opLimit, r, op, d, c);
    }
  }

  // memcpy of sixteen bytes from `offset` back, where offset >= 16.
  method MemCopy16(a: array<byte>, op: nat, offset: nat, ghost r: seq<byte>,
                   ghost start: nat, ghost d: nat, ghost c: nat)
    requires op + 16 <= a.Length == |r|
    requires Periodic(r, start, d) && offset == c * d >= 16 && offset <= op && start + offset <= op + d
    requires AgreesUpTo(a, r, op)
    modifies a
    ensures AgreesUpTo(a, r, op + 16)
  {
    forall i | op <= i < op + 16 {
      a[i] := a[i - offset];
    }
    forall k | op <= k < op + 16
      ensures a[k] == r[k]
    {
      PeriodMultiple(r, start, d, c, k);
    }
  }

  // The portable Copy64BytesWithPatternExtension: sixty-four bytes of the pattern, of which the
  // caller will keep any number `len`.
  method Copy64BytesWithPatternExtension(a: array<byte>, op: nat, offset: nat, ghost len: nat)
    returns (ok: bool)
    requires offset <= op && op + 64 <= a.Length && len <= 64
    modifies a
    ensures ok <==> offset != 0
    ensures !ok ==> a[..] == old(a[..])
    ensures ok ==> a[..op + len] == Extend(old(a[..op]), offset, len)
  {
    if offset == 0 {
      return false;
    }
    ghost var r := Continued(a[..], op, offset);
    ContinuedIsPeriodic(a[..], op, offset);
    ContinuedPrefix(a[..], op, offset, len);
    assert a[..][..op] == a[..op] && AgreesUpTo(a, r, op) by {
      assert a[..][..op] == r[..op];
      assert forall k :: 0 <= k < op ==> a[k] == a[..][..op][k] && r[k] == r[..op][k];
    }
    Copy64Into(a, op, offset, r);
    assert a[..op + len] == r[..op + len];
    ok := true;
  }

  method Copy64Into(a: array<byte>, op: nat, offset: nat, ghost r: seq<byte>)
    requires 0 < offset <= op && op + 64 <= a.Length == |r|
    requires Periodic(r, op, offset) && AgreesUpTo(a, r, op)
    modifies a
    ensures AgreesUpTo(a, r, op + 64)
  {
    if offset < 16 {
      // A short period: byte by byte until sixteen bytes hold whole periods.
      var i := 0;
      while i < 16
        invariant 0 <= i <= 16 && AgreesUpTo(a, r, op + i)
      {
        a[op + i] := a[op + i - offset];
        i := i + 1;
      }
      // A multiple of the pattern that is at least 16.
      var c := 16 / offset + 1;
      var multiple := c * offset;
      MultipleAtLeast16(offset);
      MemCopy16(a, op + 16, multiple, r, op, offset, c);
      MemCopy16(a, op + 32, multiple, r, op, offset, c);
      MemCopy16(a, op + 48, multiple, r, op, offset, c);
    } else {
      assert 1 * offset == offset;
      MemCopy16(a, op, offset, r, op, offset, 1);
      MemCopy16(a, op + 16, offset, r, op, offset, 1);
      MemCopy16(a, op + 32, offset, r, op, offset, 1);
      MemCopy16(a, op + 48, offset, r, op, offset, 1);
    }
  }

  lemma MultipleAtLeast16(offset: nat)
    requires 0 < offset < 16
    ensures 16 <= (16 / offset + 1) * offset <= 16 + offset
  {
    assert 16 == (16 / offset) * offset + 16 % offset;
    assert (16 / offset + 1) * offset == (16 / offset) * offset + offset;
  }

  // memmove of 64 bytes from `offset` back: right for the first `offset` of them.
  method MemMove64FromSelf(a: array<byte>, op: nat, offset: nat, len: nat)
    requires 0 < len <= offset <= op && op + 64 <= a.Length && len <= 64
    modifies a
    ensures a[..op + len] == Extend(old(a[..op]), offset, len)
  {
    forall i | op <= i < op + 64 {
      a[i] := a[i - offset];
    }
    ghost var out := old(a[..op]);
    ghost var r := a[..op + len];
    assert out <= r;
    forall k | |out| <= k < |r|
      ensures r[k] == r[k - offset]
    {
      assert a[k] == old(a[k - offset]) && a[k - offset] == old(a[k - offset]);
    }
    ExtendUnique(out, offset, len, r);
  }
}
