/** Fixed-width and variable-width numbers, and strings with their length in front. */
module Coding {
  import opened Wrappers
  import opened Bytes
  import opened Seqs
  import opened Varints

  const TWO_64: nat := 0x1_0000_0000_0000_0000

  // ---- Varints ----

  method EncodeVarint32(v: nat) returns (dst: seq<byte>)
    requires v < TWO_32
    ensures dst == VarintBytes(v) && |dst| <= 5
  {
    ThreeSteps(v);
    if v < 0x80 {
      dst := [v];
    } else if v < 0x4000 {
      dst := [v % 128 + 128, v / 0x80];
    } else if v < 0x20_0000 {
      dst := [v % 128 + 128, v / 0x80 % 128 + 128, v / 0x4000];
    } else if v < 0x1000_0000 {
      dst := [v % 128 + 128, v / 0x80 % 128 + 128, v / 0x4000 % 128 + 128, v / 0x20_0000];
    } else {
      dst := [v % 128 + 128, v / 0x80 % 128 + 128, v / 0x4000 % 128 + 128, v / 0x20_0000 % 128 + 128, v / 0x1000_0000];
    }
  }

  lemma ThreeSteps(v: nat)
    ensures VarintBytes(v) == if v < 128 then [v] else [v % 128 + 128] + VarintBytes(v / 0x80)
    ensures VarintBytes(v / 0x80) == if v / 0x80 < 128 then [v / 0x80] else [v / 0x80 % 128 + 128] + VarintBytes(v / 0x4000)
    ensures VarintBytes(v / 0x4000) == if v / 0x4000 < 128 then [v / 0x4000]
                                       else [v / 0x4000 % 128 + 128] + VarintBytes(v / 0x20_0000)
    ensures VarintBytes(v / 0x20_0000) == if v / 0x20_0000 < 128 then [v / 0x20_0000]
                                          else [v / 0x20_0000 % 128 + 128] + VarintBytes(v / 0x1000_0000)
    ensures v / 0x1000_0000 < 128 ==> VarintBytes(v / 0x1000_0000) == [v / 0x1000_0000]
  {
    DivTwice(v, 0x80);
    DivTwice(v, 0x4000);
    DivTwice(v, 0x20_0000);
  }

  lemma DivTwice(v: nat, d: nat)
    requires d > 0
    ensures v / d / 128 == v / (d * 128)
  {
    var q, r := v / d / 128, v / d % 128;
    assert v / d == q * 128 + r;
    assert v == (q * 128 + r) * d + v % d;
    assert v == q * (d * 128) + (r * d + v % d);
    MulAtMost(r, 127, d);
    DivModUnique(v, d * 128, q, r * d + v % d);
  }

  lemma MulAtMost(a: nat, b: nat, d: nat)
    requires a <= b
    ensures a * d <= b * d
  {}

  method EncodeVarint64(v: nat) returns (dst: seq<byte>)
    ensures dst == VarintBytes(v)
  {
    var rest := v;
    dst := [];
    while rest >= 128
      invariant dst + VarintBytes(rest) == VarintBytes(v)
    {
      dst := dst + [rest % 128 + 128];
      rest := rest / 128;
    }
    dst := dst + [rest];
  }

  // GetVarint32Ptr and GetVarint64Ptr: the value, modulo the width, and the bytes it took.  None when the
  // input ends, or when a byte would be needed past the width.
  function Varint(s: seq<byte>, shift: nat, width: nat): (r: Option<(nat, nat)>)
    ensures r.Some? ==> 1 <= r.value.1 <= |s| && r.value.0 < Pow2(width)
    decreases |s|
  {
    if shift >= width || s == [] then None
    else if s[0] < 128 then Some((s[0] * Pow2(shift) % Pow2(width), 1))
    else
      match Varint(s[1..], shift + 7, width)
      case None => None
      case Some((rest, n)) => Some(((s[0] % 128 * Pow2(shift) + rest) % Pow2(width), n + 1))
  }

  // A number is read exactly if its last byte comes before the end and within the width, however many bytes a
  // writer would have used, and the bytes behind it do not matter.
  lemma {:induction false} VarintEnds(s: seq<byte>, shift: nat, width: nat, n: nat)
    ensures (Varint(s, shift, width).Some? && Varint(s, shift, width).value.1 == n)
            <==> 1 <= n <= |s| && shift + 7 * (n - 1) < width && s[n - 1] < 128
                 && forall j :: 0 <= j < n - 1 ==> s[j] >= 128
    decreases |s|
  {
    hide Pow2;
    if shift < width && s != [] && s[0] >= 128 && n >= 2 {
      VarintEnds(s[1..], shift + 7, width, n - 1);
      if forall j :: 0 <= j < n - 2 && n <= |s| ==> s[1..][j] >= 128 {
        forall j | 0 < j < n - 1 && n <= |s|
          ensures s[j] >= 128
        {
          assert s[j] == s[1..][j - 1];
        }
      }
    }
  }

  lemma LastVarintByte(s: seq<byte>, shift: nat, width: nat)
    requires shift < width && s != [] && s[0] < 128 && s[0] * Pow2(shift) < Pow2(width)
    ensures Varint(s, shift, width) == Some((s[0] * Pow2(shift), 1))
  {
    hide Pow2;
    SmallMod(s[0] * Pow2(shift), Pow2(width));
  }

  lemma NextVarintByte(s: seq<byte>, shift: nat, width: nat, low: nat, rest: nat, n: nat)
    requires shift < width && s != [] && s[0] == low + 128 && low * Pow2(shift) + rest < Pow2(width)
    requires Varint(s[1..], shift + 7, width) == Some((rest, n))
    ensures Varint(s, shift, width) == Some((low * Pow2(shift) + rest, n + 1))
  {
    hide Pow2;
    assert s[0] % 128 == low;
    SmallMod(low * Pow2(shift) + rest, Pow2(width));
  }

  lemma {:induction false} VarintRoundTripAt(v: nat, shift: nat, width: nat, rest: seq<byte>)
    requires v * Pow2(shift) < Pow2(width) && shift < width && (v > 0 || shift == 0)
    ensures Varint(VarintBytes(v) + rest, shift, width) == Some((v * Pow2(shift), |VarintBytes(v)|))
    decreases v
  {
    hide Varint, Pow2;
    var s := VarintBytes(v) + rest;
    if v < 128 {
      LastVarintByte(s, shift, width);
    } else {
      var high, low := v / 128, v % 128;
      SevenBits(shift);
      SplitProduct(v, Pow2(shift));
      assert s[1..] == VarintBytes(high) + rest;
      ShiftInWidth(high, shift, width);
      VarintRoundTripAt(high, shift + 7, width, rest);
      NextVarintByte(s, shift, width, low, high * Pow2(shift + 7), |VarintBytes(high)|);
    }
  }

  lemma ShiftInWidth(high: nat, shift: nat, width: nat)
    requires high > 0 && high * Pow2(shift + 7) < Pow2(width)
    ensures shift + 7 < width
  {
    MulAtLeast(high, Pow2(shift + 7));
    if shift + 7 >= width {
      Pow2Grows(width, shift + 7);
    }
  }

  lemma {:induction false} Pow2Grows(a: nat, b: nat)
    requires a <= b
    ensures Pow2(a) <= Pow2(b)
  {
    if a < b {
      Pow2Grows(a, b - 1);
    }
  }

  lemma TwoTo32()
    ensures Pow2(32) == TWO_32
  {
    SevenBits(25);
    SevenBits(18);
    SevenBits(11);
    SevenBits(4);
    assert Pow2(4) == 16;
  }

  lemma TwoTo64()
    ensures Pow2(64) == TWO_64
  {
    TwoTo32();
    SevenBits(57);
    SevenBits(50);
    SevenBits(43);
    SevenBits(36);
    assert Pow2(36) == 16 * Pow2(32) by {
      assert Pow2(36) == 2 * Pow2(35) && Pow2(35) == 2 * Pow2(34) && Pow2(34) == 2 * Pow2(33) && Pow2(33) == 2 * Pow2(32);
    }
  }

  // A number and what follows it.
  datatype Got<T> = Got(value: T, rest: seq<byte>)

  function GetVarint32(s: seq<byte>): (r: Option<Got<nat>>)
    ensures r.Some? ==> |r.value.rest| < |s|
  {
    match Varint(s, 0, 32)
    case None => None
    case Some((v, n)) => Some(Got(v, s[n..]))
  }

  function GetVarint64(s: seq<byte>): (r: Option<Got<nat>>)
    ensures r.Some? ==> |r.value.rest| < |s|
  {
    match Varint(s, 0, 64)
    case None => None
    case Some((v, n)) => Some(Got(v, s[n..]))
  }

  // What a reader that has summed up `result` from the first i bytes will end with.
  function Total(s: seq<byte>, i: nat, shift: nat, width: nat, result: nat): Option<(nat, nat)>
    requires i <= |s|
  {
    match Varint(s[i..], shift, width)
    case None => None
    case Some((rest, n)) => Some(((result + rest) % Pow2(width), n + i))
  }

  // The loop the two readers share.
  method ReadVarint(s: seq<byte>, width: nat) returns (r: Option<(nat, nat)>)
    ensures r == Varint(s, 0, width)
  {
    hide Varint, Pow2;
    var result, shift, i := 0, 0, 0;
    TotalOfNothing(s, width);
    while shift < width && i < |s|
      invariant i <= |s| && shift == 7 * i && result >= 0
      invariant Varint(s, 0, width) == Total(s, i, shift, width, result)
    {
      var c := s[i];
      ReadStep(s, i, shift, width, result);
      result := (result + c % 128 * Pow2(shift)) % Pow2(width);
      shift := shift + 7;
      i := i + 1;
      if c < 128 {
        return Some((result, i));
      }
    }
    NothingToRead(s[i..], shift, width);
    r := None;
  }

  lemma TotalOfNothing(s: seq<byte>, width: nat)
    ensures Total(s, 0, 0, width, 0) == Varint(s, 0, width)
  {
    hide Pow2;
    assert s[0..] == s;
    if Varint(s, 0, width).Some? {
      SmallMod(Varint(s, 0, width).value.0, Pow2(width));
    }
  }

  lemma NothingToRead(s: seq<byte>, shift: nat, width: nat)
    requires shift >= width || s == []
    ensures Varint(s, shift, width) == None
  {}

  // Reducing as one goes, or once at the end.
  lemma ReadStep(s: seq<byte>, i: nat, shift: nat, width: nat, result: nat)
    requires i < |s| && shift < width
    ensures var result' := (result + s[i] % 128 * Pow2(shift)) % Pow2(width);
            Total(s, i, shift, width, result)
            == if s[i] < 128 then Some((result', i + 1)) else Total(s, i + 1, shift + 7, width, result')
  {
    hide Pow2;
    var t := s[i..];
    var a, m := s[i] % 128 * Pow2(shift), Pow2(width);
    assert t[0] == s[i] && t[1..] == s[i + 1..];
    if s[i] < 128 {
      AddMod(result, a, m);
    } else if Varint(t[1..], shift + 7, width).Some? {
      var rest := Varint(t[1..], shift + 7, width).value.0;
      AddMod(result, a + rest, m);
      AddMod(rest, result + a, m);
    }
  }

  lemma AddMod(a: nat, b: nat, m: nat)
    requires m > 0
    ensures (a + b % m) % m == (a + b) % m == (b % m + a) % m
  {
    var q := b / m;
    assert b == q * m + b % m;
    ModAdd(a + b % m, q, m);
  }

  lemma ModAdd(x: nat, q: nat, m: nat)
    requires m > 0
    ensures (x + q * m) % m == x % m
  {
    assert x + q * m == (x / m + q) * m + x % m by {
      assert x == (x / m) * m + x % m;
    }
    DivModUnique(x + q * m, m, x / m + q, x % m);
  }

  lemma Varint32RoundTrip(v: nat, rest: seq<byte>)
    requires v < TWO_32
    ensures GetVarint32(VarintBytes(v) + rest) == Some(Got(v, rest))
  {
    assert Pow2(0) == 1;
    TwoTo32();
    VarintRoundTripAt(v, 0, 32, rest);
    assert (VarintBytes(v) + rest)[|VarintBytes(v)|..] == rest;
  }

  lemma Varint64RoundTrip(v: nat, rest: seq<byte>)
    requires v < TWO_64
    ensures GetVarint64(VarintBytes(v) + rest) == Some(Got(v, rest))
  {
    assert Pow2(0) == 1;
    TwoTo64();
    VarintRoundTripAt(v, 0, 64, rest);
    assert (VarintBytes(v) + rest)[|VarintBytes(v)|..] == rest;
  }

  // ---- Strings ----

  function LengthPrefixed(s: seq<byte>): seq<byte> {
    VarintBytes(|s|) + s
  }

  function GetLengthPrefixed(s: seq<byte>): (r: Option<Got<seq<byte>>>)
    ensures r.Some? ==> |r.value.rest| < |s|
  {
    match GetVarint32(s)
    case None => None
    case Some(Got(n, rest)) => if n <= |rest| then Some(Got(rest[..n], rest[n..])) else None
  }

  // On any bytes: a string is read exactly if its length is, and as many bytes are there.
  lemma LengthPrefixedIff(s: seq<byte>, v: seq<byte>, rest: seq<byte>)
    ensures GetLengthPrefixed(s) == Some(Got(v, rest))
            <==> Varint(s, 0, 32).Some? && Varint(s, 0, 32).value.0 == |v| && s[Varint(s, 0, 32).value.1..] == v + rest
  {
    hide Varint;
    if Varint(s, 0, 32).Some? {
      var t := s[Varint(s, 0, 32).value.1..];
      if |v| <= |t| {
        assert t == t[..|v|] + t[|v|..];
      }
      assert (v + rest)[..|v|] == v && (v + rest)[|v|..] == rest;
    }
  }

  lemma LengthPrefixedRoundTrip(v: seq<byte>, rest: seq<byte>)
    requires |v| < TWO_32
    ensures GetLengthPrefixed(LengthPrefixed(v) + rest) == Some(Got(v, rest))
  {
    Associate(VarintBytes(|v|), v, rest);
    Varint32RoundTrip(|v|, v + rest);
    assert (v + rest)[..|v|] == v && (v + rest)[|v|..] == rest;
  }

  // ---- Fixed width ----

  lemma FixedRoundTrip(v: nat, n: nat)
    requires v < Pow256(n)
    ensures LittleEndian(ToLittleEndian(v, n)) == v
  {
    LittleEndianRoundTrip(v, n);
  }

  lemma FourBytes()
    ensures Pow256(4) == TWO_32
  {
    assert Pow256(1) == 256 && Pow256(2) == 0x1_0000 && Pow256(3) == 0x100_0000;
  }

  lemma EightBytes()
    ensures Pow256(8) == TWO_64
  {
    FourBytes();
    assert Pow256(5) == 256 * Pow256(4) && Pow256(6) == 256 * Pow256(5) && Pow256(7) == 256 * Pow256(6);
  }

  function DecodeFixed32(s: seq<byte>, i: nat): (w: nat)
    requires i + 4 <= |s|
    ensures w < TWO_32
  {
    LittleEndianBound(s[i..i + 4]);
    FourBytes();
    LittleEndian(s[i..i + 4])
  }

  lemma {:induction false} VarintLength(v: nat, k: nat)
    requires k >= 1 && v < Pow2(7 * k)
    ensures |VarintBytes(v)| <= k
    decreases k
  {
    SevenBits(7 * (k - 1));
    if v >= 128 && k > 1 {
      VarintLength(v / 128, k - 1);
    }
  }

  lemma VarintLength64(v: nat)
    requires v < TWO_64
    ensures |VarintBytes(v)| <= 10
  {
    TwoTo64();
    Pow2Grows(64, 7 * 10);
    VarintLength(v, 10);
  }
}
