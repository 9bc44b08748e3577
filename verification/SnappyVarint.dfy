/** The varint in front of a Snappy stream: the uncompressed length, seven bits a byte. */
module SnappyVarint {
  import opened Wrappers
  import opened Bytes
  import opened Varints

  // The value read from s at a given shift, and how many bytes it took.  None when the input ends,
  // when a sixth byte would be needed, or when bits would be shifted out of 32.
  function Decode(s: seq<byte>, shift: nat): (r: Option<(nat, nat)>)
    ensures r.Some? ==> 1 <= r.value.1 <= |s|
    decreases |s|
  {
    if shift >= 32 || s == [] then None
    else
      var bits := s[0] % 128 * Pow2(shift);
      if bits >= TWO_32 then None
      else if s[0] < 128 then Some((bits, 1))
      else
        match Decode(s[1..], shift + 7)
        case None => None
        case Some((rest, n)) => Some((bits + rest, n + 1))
  }

  // SnappyDecompressor::ReadUncompressedLength, the loop over the source.
  method ReadUncompressedLength(s: seq<byte>) returns (r: Option<(nat, nat)>)
    ensures r == Decode(s, 0)
  {
    var result, shift, i := 0, 0, 0;
    while true
      invariant i <= |s| && shift == 7 * i
      invariant Decode(s, 0) == match Decode(s[i..], shift)
                                case None => None
                                case Some((rest, n)) => Some((result + rest, n + i))
      decreases |s| - i
    {
      if shift >= 32 {
        return None;
      }
      if i == |s| {
        return None;
      }
      var c := s[i];
      var val := c % 128;
      if val * Pow2(shift) >= TWO_32 {
        return None;
      }
      assert s[i..][1..] == s[i + 1..];
      result := result + val * Pow2(shift);
      i := i + 1;
      if c < 128 {
        return Some((result, i));
      }
      shift := shift + 7;
    }
  }

  // One byte of Decode.
  lemma LastByte(s: seq<byte>, shift: nat)
    requires shift < 32 && s != [] && s[0] < 128 && s[0] * Pow2(shift) < TWO_32
    ensures Decode(s, shift) == Some((s[0] * Pow2(shift), 1))
  {
    hide Pow2;
  }

  lemma NextByte(s: seq<byte>, shift: nat, low: nat, rest: nat, n: nat)
    requires shift < 32 && s != [] && s[0] == low + 128 && low * Pow2(shift) < TWO_32
    requires Decode(s[1..], shift + 7) == Some((rest, n))
    ensures Decode(s, shift) == Some((low * Pow2(shift) + rest, n + 1))
  {
    hide Pow2;
  }

  lemma {:induction false} RoundTripAt(v: nat, shift: nat, rest: seq<byte>)
    requires v * Pow2(shift) < TWO_32 && shift < 32
    requires shift % 7 == 0
    requires v > 0 || shift == 0
    ensures Decode(VarintBytes(v) + rest, shift) == Some((v * Pow2(shift), |VarintBytes(v)|))
    ensures shift + 7 * |VarintBytes(v)| <= 35
    decreases v
  {
    hide Decode, Pow2;
    var s := VarintBytes(v) + rest;
    if v < 128 {
      LastByte(s, shift);
    } else {
      var high, low := v / 128, v % 128;
      SevenBits(shift);
      SplitProduct(v, Pow2(shift));
      assert s[1..] == VarintBytes(high) + rest;
      NextShift(high, shift);
      RoundTripAt(high, shift + 7, rest);
      NextByte(s, shift, low, high * Pow2(shift + 7), |VarintBytes(high)|);
    }
  }

  lemma PowersOf7(i: nat)
    requires i <= 4
    ensures Pow2(7 * i) == (if i == 0 then 1 else if i == 1 then 0x80 else if i == 2 then 0x4000 else if i == 3 then 0x20_0000
                            else 0x1000_0000)
  {
    assert Pow2(0) == 1;
    SevenBits(0);
    SevenBits(7);
    SevenBits(14);
    SevenBits(21);
  }

  // On any bytes: the length is read, and takes n bytes, exactly if the n-th is the first without a high bit, of
  // at most five, and a fifth has no bits but the four that are left of 32.
  lemma {:induction false} EndsAt(s: seq<byte>, i: nat, n: nat)
    requires i <= 5
    ensures (Decode(s, 7 * i).Some? && Decode(s, 7 * i).value.1 == n)
            <==> 1 <= n <= |s| && i + n <= 5 && s[n - 1] < 128 && (i + n == 5 ==> s[n - 1] < 16)
                 && forall j :: 0 <= j < n - 1 ==> s[j] >= 128
    decreases |s|
  {
    hide Pow2;
    if i < 5 && s != [] {
      PowersOf7(i);
      if s[0] >= 128 && n >= 2 {
        EndsAt(s[1..], i + 1, n - 1);
        forall j | 0 < j < n && n <= |s|
          ensures s[j] == s[1..][j - 1]
        {}
      }
    }
  }

  lemma NextShift(high: nat, shift: nat)
    requires high > 0 && high * Pow2(shift + 7) < TWO_32 && shift % 7 == 0
    ensures shift + 7 < 32
  {
    MulAtLeast(high, Pow2(shift + 7));
    if shift >= 28 {
      ThirtyTwoBits(shift + 7);
    }
  }

  lemma {:induction false} ThirtyTwoBits(n: nat)
    requires n >= 32
    ensures Pow2(n) >= TWO_32
  {
    if n == 32 {
      SevenBits(25);
      SevenBits(18);
      SevenBits(11);
      SevenBits(4);
      assert Pow2(4) == 16;
    } else {
      ThirtyTwoBits(n - 1);
    }
  }

  lemma RoundTrip(v: nat, rest: seq<byte>)
    requires v < TWO_32
    ensures Decode(VarintBytes(v) + rest, 0) == Some((v, |VarintBytes(v)|)) && |VarintBytes(v)| <= 5
  {
    assert Pow2(0) == 1;
    RoundTripAt(v, 0, rest);
  }
}
