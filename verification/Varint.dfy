/** Numbers of variable width: seven bits a byte, lowest first, the high bit set on all bytes but the last. */
module Varints {
  import opened Bytes

  // The branches of the two libraries' encoders are the unfoldings of this.
  function VarintBytes(v: nat): (s: seq<byte>)
    ensures |s| >= 1
  {
    if v < 128 then [v] else [v % 128 + 128] + VarintBytes(v / 128)
  }

  // v without its lowest i groups of seven bits.
  function Shifted(v: nat, i: nat): nat {
    if i == 0 then v else Shifted(v / 128, i - 1)
  }

  // Byte i has the i-th seven bits, and tells whether there are more; no byte is there in vain.
  lemma {:induction false} VarintDigits(v: nat, i: nat)
    requires i < |VarintBytes(v)|
    ensures VarintBytes(v)[i] == Shifted(v, i) % 128 + (if i + 1 < |VarintBytes(v)| then 128 else 0)
    ensures i + 1 < |VarintBytes(v)| <==> Shifted(v, i) >= 128
    decreases i
  {
    if i > 0 {
      VarintDigits(v / 128, i - 1);
    }
  }

  lemma SevenBits(shift: nat)
    ensures Pow2(shift + 7) == 128 * Pow2(shift)
  {
    assert Pow2(shift + 7) == 2 * Pow2(shift + 6);
    assert Pow2(shift + 6) == 2 * Pow2(shift + 5);
    assert Pow2(shift + 5) == 2 * Pow2(shift + 4);
    assert Pow2(shift + 4) == 2 * Pow2(shift + 3);
    assert Pow2(shift + 3) == 2 * Pow2(shift + 2);
    assert Pow2(shift + 2) == 2 * Pow2(shift + 1);
  }

  lemma SplitProduct(v: nat, p: nat)
    ensures v * p == (v / 128) * (128 * p) + (v % 128) * p
    ensures (v / 128) * (128 * p) >= 0 && (v % 128) * p >= 0
  {
    var high, low := v / 128, v % 128;
    assert v == 128 * high + low;
    NonNegative(high, 128 * p);
    NonNegative(low, p);
  }

  lemma NonNegative(a: nat, b: nat)
    ensures a * b >= 0
  {}
}
