/**
 The Snappy tag format: what a compressed tag stream means, one byte at a time, and what the
 compressor's tag emitters write.  `Decode` is the reference every fast path is measured against.
 */
module SnappyFormat {
  import opened Wrappers
  import opened Bytes
  import Seqs
  import Varint = SnappyVarint

  // The two kinds of element: bytes taken from the stream, or bytes copied from `offset` back.
  // `header` counts the bytes of the tag itself.
  datatype Tag =
    | Literal(header: nat, length: nat)
    | Copy(header: nat, length: nat, offset: nat)

  // The tag at the head of `s`, or None when `s` ends inside it.
  function ParseTag(s: seq<byte>): (t: Option<Tag>)
    ensures t.Some? ==> 1 <= t.value.header <= |s|
  {
    if |s| == 0 then None
    else
      var c := s[0];
      match c % 4
      case 0 =>
        if c / 4 < 60 then
          Some(Literal(1, c / 4 + 1))
        else
          var extra := c / 4 - 59;
          if |s| < 1 + extra then None
          // The length is computed in 32 bits: four 0xff bytes give a literal of length zero.
          else Some(Literal(1 + extra, (LittleEndian(s[1..1 + extra]) + 1) % TWO_32))
      case 1 =>
        if |s| < 2 then None else Some(Copy(2, (c / 4) % 8 + 4, (c / 32) * 256 + s[1]))
      case 2 =>
        if |s| < 3 then None else Some(Copy(3, c / 4 + 1, LittleEndian(s[1..3])))
      case _ =>
        if |s| < 5 then None else Some(Copy(5, c / 4 + 1, LittleEndian(s[1..5])))
  }

  // Append n bytes to `out`, each a copy of the byte `offset` positions before it.
  function Extend(out: seq<byte>, offset: nat, n: nat): (r: seq<byte>)
    requires 0 < offset <= |out|
    ensures |r| == |out| + n && out <= r
    decreases n
  {
    if n == 0 then out else Extend(out + [out[|out| - offset]], offset, n - 1)
  }

  // The output after all the tags of `s` have been applied to `out`; None if any tag is
  // truncated, copies from before the start, or copies from offset zero.
  function Decode(s: seq<byte>, out: seq<byte>): (r: Option<seq<byte>>)
    ensures r.Some? ==> out <= r.value
    decreases |s|
  {
    if s == [] then Some(out)
    else
      match ParseTag(s)
      case None => None
      case Some(Literal(h, n)) =>
        if |s| < h + n then None else Decode(s[h + n..], out + s[h..h + n])
      case Some(Copy(h, n, offset)) =>
        if offset == 0 || offset > |out| then None else Decode(s[h..], Extend(out, offset, n))
  }

  // Decoding a whole compressed buffer, byte at a time: the length, then tags that must produce
  // exactly that many bytes.
  function Uncompressed(comp: seq<byte>): Option<seq<byte>> {
    match Varint.Decode(comp, 0)
    case None => None
    case Some((length, n)) =>
      match Decode(comp[n..], [])
      case None => None
      case Some(out) => if |out| == length then Some(out) else None
  }

  lemma ParseTagOfPrefix(a: seq<byte>, b: seq<byte>)
    requires ParseTag(a).Some?
    ensures ParseTag(a + b) == ParseTag(a)
  {
    var s := a + b;
    assert s[0] == a[0];
    var c := a[0];
    if c % 4 == 0 && c / 4 >= 60 {
      assert s[1..1 + (c / 4 - 59)] == a[1..1 + (c / 4 - 59)];
    } else if c % 4 == 2 {
      assert s[1..3] == a[1..3];
    } else if c % 4 == 3 {
      assert s[1..5] == a[1..5];
    }
  }

  lemma DecodeNothing(out: seq<byte>)
    ensures Decode([], out) == Some(out)
  {}

  // One tag of Decode.
  lemma LiteralTagStep(s: seq<byte>, out: seq<byte>, h: nat, n: nat)
    requires ParseTag(s) == Some(Literal(h, n)) && h + n <= |s|
    ensures Decode(s, out) == Decode(s[h + n..], out + s[h..h + n])
  {
    hide ParseTag;
  }

  lemma CopyTagStep(s: seq<byte>, out: seq<byte>, h: nat, n: nat, offset: nat)
    requires ParseTag(s) == Some(Copy(h, n, offset)) && 0 < offset <= |out|
    ensures Decode(s, out) == Decode(s[h..], Extend(out, offset, n))
  {
    hide ParseTag;
  }

  // What a decodable stream must start with.
  lemma DecodableHead(s: seq<byte>, out: seq<byte>)
    requires Decode(s, out).Some? && s != []
    ensures ParseTag(s).Some?
    ensures ParseTag(s).value.Literal? ==> ParseTag(s).value.header + ParseTag(s).value.length <= |s|
    ensures ParseTag(s).value.Copy? ==> 0 < ParseTag(s).value.offset <= |out|
  {
    hide ParseTag;
  }

  // A tag stream can be decoded piece by piece.
  lemma {:induction false} DecodeConcat(a: seq<byte>, b: seq<byte>, out: seq<byte>)
    requires Decode(a, out).Some?
    ensures Decode(a + b, out) == Decode(b, Decode(a, out).value)
    decreases |a|
  {
    hide *;
    if a == [] {
      DecodeNothing(out);
      assert a + b == b;
    } else {
      DecodableHead(a, out);
      ParseTagOfPrefix(a, b);
      match ParseTag(a).value
      case Literal(h, n) =>
        LiteralTagStep(a, out, h, n);
        LiteralTagStep(a + b, out, h, n);
        Seqs.DropOfConcat(a, b, h + n);
        Seqs.SliceOfConcat(a, b, h, h + n);
        DecodeConcat(a[h + n..], b, out + a[h..h + n]);
      case Copy(h, n, offset) =>
        CopyTagStep(a, out, h, n, offset);
        CopyTagStep(a + b, out, h, n, offset);
        Seqs.DropOfConcat(a, b, h);
        DecodeConcat(a[h..], b, Extend(out, offset, n));
    }
  }

  lemma {:induction false} ExtendTwice(out: seq<byte>, offset: nat, n: nat, m: nat)
    requires 0 < offset <= |out|
    ensures Extend(Extend(out, offset, n), offset, m) == Extend(out, offset, n + m)
    decreases n
  {
    if n > 0 {
      ExtendTwice(out + [out[|out| - offset]], offset, n - 1, m);
    }
  }

  // Extending repeats the last `offset` bytes periodically.
  lemma {:induction false} ExtendIsPeriodic(out: seq<byte>, offset: nat, n: nat, k: nat)
    requires 0 < offset <= |out| && k < n
    ensures Extend(out, offset, n)[|out| + k] == Extend(out, offset, n)[|out| + k - offset]
    decreases n
  {
    var longer := out + [out[|out| - offset]];
    if k == 0 {
      assert longer <= Extend(longer, offset, n - 1);
      assert Extend(longer, offset, n - 1)[|out|] == longer[|out|];
      assert Extend(longer, offset, n - 1)[|out| - offset] == longer[|out| - offset];
    } else {
      ExtendIsPeriodic(longer, offset, n - 1, k - 1);
    }
  }

  // ... and that determines the result.
  lemma {:induction false} ExtendUnique(out: seq<byte>, offset: nat, n: nat, r: seq<byte>)
    requires 0 < offset <= |out| && out <= r && |r| == |out| + n
    requires forall k :: |out| <= k < |r| ==> r[k] == r[k - offset]
    ensures r == Extend(out, offset, n)
    decreases n
  {
    if n > 0 {
      assert r[|out|] == r[|out| - offset];
      ExtendUnique(out + [out[|out| - offset]], offset, n - 1, r);
    }
  }

  // ---- What the compressor emits ----

  function LiteralSizeBytes(n: nat): (count: nat)
    requires n < TWO_32
    ensures 1 <= count <= 4 && n < Pow256(count)
  {
    assert Pow256(4) == 256 * Pow256(3) && Pow256(3) == 256 * Pow256(2);
    assert Pow256(2) == 256 * Pow256(1) && Pow256(1) == 256 * Pow256(0) && Pow256(0) == 1;
    if n < 0x100 then 1 else if n < 0x1_0000 then 2 else if n < 0x100_0000 then 3 else 4
  }

  // The bytes in front of a literal of n + 1 bytes.
  function LiteralHeader(n: nat): (h: seq<byte>)
    requires n < TWO_32
    ensures 1 <= |h| <= 5
  {
    if n < 60 then [4 * n]
    else [4 * (59 + LiteralSizeBytes(n))] + ToLittleEndian(n, LiteralSizeBytes(n))
  }

  // One copy of 4 to 64 bytes.
  function CopyTag(offset: nat, len: nat): (t: seq<byte>)
    requires 4 <= len <= 64 && offset < 65536
    ensures 2 <= |t| <= 3
  {
    if len < 12 && offset < 2048 then
      [1 + 4 * (len - 4) + 32 * (offset / 256), offset % 256]
    else
      [2 + 4 * (len - 1), offset % 256, offset / 256]
  }

  // A copy of any length from 4 up, split so that no piece is shorter than 4 or longer than 64.
  function CopyTags(offset: nat, len: nat): (t: seq<byte>)
    requires 4 <= len && offset < 65536
    decreases len
  {
    if len >= 68 then CopyTag(offset, 64) + CopyTags(offset, len - 64)
    else if len > 64 then CopyTag(offset, 60) + CopyTag(offset, len - 60)
    else CopyTag(offset, len)
  }

  // Every four bytes of a match cost at most three bytes of tags.
  lemma {:induction false} CopyTagsSize(offset: nat, len: nat)
    requires 4 <= len && offset < 65536
    ensures 2 <= |CopyTags(offset, len)| && 4 * |CopyTags(offset, len)| <= 3 * len
    decreases len
  {
    if len >= 68 {
      CopyTagsSize(offset, len - 64);
    }
  }

  lemma LiteralHeaderParses(n: nat, d: seq<byte>)
    requires n < TWO_32 && |d| == n + 1
    ensures ParseTag(LiteralHeader(n) + d) == Some(Literal(|LiteralHeader(n)|, (n + 1) % TWO_32))
  {
    hide ToLittleEndian, LittleEndian, Pow256, LiteralSizeBytes;
    var h := LiteralHeader(n);
    var s := h + d;
    assert s[0] == h[0];
    if n >= 60 {
      LongLiteralParses(n, d);
    } else {
      FirstByte(0, n);
    }
  }

  lemma LongLiteralParses(n: nat, d: seq<byte>)
    requires 60 <= n < TWO_32 && |d| == n + 1
    ensures ParseTag(LiteralHeader(n) + d) == Some(Literal(|LiteralHeader(n)|, (n + 1) % TWO_32))
  {
    hide ToLittleEndian, LittleEndian, Pow256, LiteralSizeBytes;
    var s, count := LiteralHeader(n) + d, LiteralSizeBytes(n);
    assert s[0] == LiteralHeader(n)[0];
    FirstByte(0, 59 + count);
    assert s[1..1 + count] == ToLittleEndian(n, count);
    LittleEndianRoundTrip(n, count);
    SmallMod(n, Pow256(count));
  }

  lemma FirstByte(kind: nat, x: nat)
    requires kind < 4 && x < 64
    ensures (kind + 4 * x) % 4 == kind && (kind + 4 * x) / 4 == x
  {}

  lemma LiteralDecodes(d: seq<byte>, out: seq<byte>)
    requires 0 < |d| < TWO_32
    ensures Decode(LiteralHeader(|d| - 1) + d, out) == Some(out + d)
  {
    var h := LiteralHeader(|d| - 1);
    LiteralHeaderParses(|d| - 1, d);
    SmallMod(|d|, TWO_32);
    assert (h + d)[|h|..|h| + |d|] == d && (h + d)[|h| + |d|..] == [];
  }

  lemma CopyOneByteOffset(len: nat, offset: nat)
    requires 4 <= len < 12 && offset < 2048
    ensures var c := 1 + 4 * (len - 4) + 32 * (offset / 256);
            c < 256 && c % 4 == 1 && (c / 4) % 8 == len - 4 && c / 32 == offset / 256
  {
    var x := (len - 4) + 8 * (offset / 256);
    FirstByte(1, x);
  }

  lemma TwoBytes(a: byte, b: byte)
    ensures LittleEndian([a, b]) == a + 256 * b
  {
    assert [a, b][1..] == [b];
    assert LittleEndian([b]) == b + 256 * LittleEndian([b][1..]);
  }

  lemma CopyTagParses(offset: nat, len: nat)
    requires 4 <= len <= 64 && offset < 65536
    ensures ParseTag(CopyTag(offset, len)) == Some(Copy(|CopyTag(offset, len)|, len, offset))
  {
    var t := CopyTag(offset, len);
    assert offset == 256 * (offset / 256) + offset % 256;
    if len < 12 && offset < 2048 {
      CopyOneByteOffset(len, offset);
    } else {
      FirstByte(2, len - 1);
      assert t[1..3] == [t[1], t[2]];
      TwoBytes(t[1], t[2]);
    }
  }

  lemma CopyTagDecodes(offset: nat, len: nat, out: seq<byte>)
    requires 4 <= len <= 64 && offset < 65536 && 0 < offset <= |out|
    ensures Decode(CopyTag(offset, len), out) == Some(Extend(out, offset, len))
  {
    var t := CopyTag(offset, len);
    CopyTagParses(offset, len);
    assert t[|t|..] == [];
  }

  // A copy tag in front of a stream that continues from its result.
  lemma CopyTagThen(offset: nat, first: nat, rest: seq<byte>, m: nat, out: seq<byte>)
    requires 4 <= first <= 64 && offset < 65536 && 0 < offset <= |out|
    requires Decode(rest, Extend(out, offset, first)) == Some(Extend(Extend(out, offset, first), offset, m))
    ensures Decode(CopyTag(offset, first) + rest, out) == Some(Extend(out, offset, first + m))
  {
    CopyTagDecodes(offset, first, out);
    DecodeConcat(CopyTag(offset, first), rest, out);
    ExtendTwice(out, offset, first, m);
  }

  lemma {:induction false} CopyTagsDecode(offset: nat, len: nat, out: seq<byte>)
    requires 4 <= len && offset < 65536 && 0 < offset <= |out|
    ensures Decode(CopyTags(offset, len), out) == Some(Extend(out, offset, len))
    decreases len
  {
    if len >= 68 {
      CopyTagsDecode(offset, len - 64, Extend(out, offset, 64));
      CopyTagThen(offset, 64, CopyTags(offset, len - 64), len - 64, out);
    } else if len > 64 {
      CopyTagDecodes(offset, len - 60, Extend(out, offset, 60));
      CopyTagThen(offset, 60, CopyTag(offset, len - 60), len - 60, out);
    } else {
      CopyTagDecodes(offset, len, out);
    }
  }

  // A copy whose source matches the input that follows reproduces that input.
  lemma ExtendMatch(prefix: seq<byte>, input: seq<byte>, candidate: nat, ip: nat, len: nat)
    requires candidate < ip && ip + len <= |input|
    requires input[candidate..candidate + len] == input[ip..ip + len]
    ensures Extend(prefix + input[..ip], ip - candidate, len) == prefix + input[..ip + len]
  {
    var offset := ip - candidate;
    var out, r := prefix + input[..ip], prefix + input[..ip + len];
    forall k | |out| <= k < |r|
      ensures r[k] == r[k - offset]
    {
      var j := k - |out|;
      assert input[ip..ip + len][j] == input[ip + j];
      assert input[candidate..candidate + len][j] == input[candidate + j];
    }
    ExtendUnique(out, offset, len, r);
  }
}
