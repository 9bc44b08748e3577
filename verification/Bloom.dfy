/** The Bloom filter a table keeps for each stretch of its data, over any hash function. */
module Bloom {
  import opened Bytes
  import opened BlockFormat
  import opened Coding

  type word = n: nat | n < 0x1_0000_0000
  type Hash = Key -> word

  // ---- Bits ----

  predicate Bit(v: nat, i: nat) {
    if i == 0 then v % 2 == 1 else Bit(v / 2, i - 1)
  }

  // v | (1 << i)
  function WithBit(v: nat, i: nat): (r: nat) {
    if i == 0 then v / 2 * 2 + 1 else WithBit(v / 2, i - 1) * 2 + v % 2
  }

  lemma {:induction false} WithBitIs(v: nat, i: nat, j: nat)
    ensures Bit(WithBit(v, i), j) <==> i == j || Bit(v, j)
  {
    if i > 0 && j > 0 {
      WithBitIs(v / 2, i - 1, j - 1);
    }
  }

  lemma {:induction false} WithBitFits(v: nat, i: nat, n: nat)
    requires v < Pow2(n) && i < n
    ensures WithBit(v, i) < Pow2(n)
  {
    var p := Pow2(n - 1);
    assert Pow2(n) == 2 * p;
    hide Pow2;
    if i == 0 {
      assert WithBit(v, i) == v / 2 * 2 + 1;
    } else {
      WithBitFits(v / 2, i - 1, n - 1);
      assert WithBit(v, i) == WithBit(v / 2, i - 1) * 2 + v % 2;
    }
  }

  function SetBit(b: byte, i: nat): (r: byte)
    requires i < 8
  {
    assert Pow2(8) == 256 by {
      assert Pow2(4) == 16;
    }
    WithBitFits(b, i, 8);
    WithBit(b, i)
  }

  predicate BitAt(a: seq<byte>, p: nat)
    requires p < 8 * |a|
  {
    Bit(a[p / 8], p % 8)
  }

  function SetBitAt(a: seq<byte>, p: nat): (r: seq<byte>)
    requires p < 8 * |a|
    ensures |r| == |a|
  {
    a[p / 8 := SetBit(a[p / 8], p % 8)]
  }

  lemma SetBitAtIs(a: seq<byte>, p: nat, q: nat)
    requires p < 8 * |a| && q < 8 * |a|
    ensures BitAt(SetBitAt(a, p), q) <==> q == p || BitAt(a, q)
  {
    hide Bit, WithBit;
    WithBitIs(a[p / 8], p % 8, q % 8);
  }

  // ---- The filter ----

  // The step between two probes: the hash value turned by 17 bits.
  function Delta(h: word): word {
    h / 0x2_0000 + h % 0x2_0000 * 0x8000
  }

  // The j-th bit position tried for a hash value.
  function Probe(h: word, j: nat, bits: nat): (p: nat)
    requires bits > 0
    ensures p < bits
  {
    (h + j * Delta(h)) % TWO_32 % bits
  }

  function AddProbes(a: seq<byte>, h: word, k: nat): (r: seq<byte>)
    requires a != []
    ensures |r| == |a|
  {
    if k == 0 then a else SetBitAt(AddProbes(a, h, k - 1), Probe(h, k - 1, 8 * |a|))
  }

  function AddKeys(a: seq<byte>, keys: seq<Key>, hash: Hash, k: nat): (r: seq<byte>)
    requires a != []
    ensures |r| == |a|
  {
    if keys == [] then a
    else AddProbes(AddKeys(a, keys[..|keys| - 1], hash, k), hash(keys[|keys| - 1]), k)
  }

  // Whether one of the first k probes of a hash value is p.
  ghost predicate Probed(h: word, k: nat, bits: nat, p: nat)
    requires bits > 0
  {
    exists j: nat :: j < k && Probe(h, j, bits) == p
  }

  ghost predicate ProbedBySome(keys: seq<Key>, hash: Hash, k: nat, bits: nat, p: nat)
    requires bits > 0
  {
    exists key :: key in keys && Probed(hash(key), k, bits, p)
  }

  // The bits set are those that were set, and those probed.
  lemma {:induction false} ProbesAdded(a: seq<byte>, h: word, k: nat, p: nat)
    requires a != [] && p < 8 * |a|
    ensures BitAt(AddProbes(a, h, k), p) <==> BitAt(a, p) || Probed(h, k, 8 * |a|, p)
  {
    hide BitAt, SetBitAt, Probe;
    if k > 0 {
      ProbesAdded(a, h, k - 1, p);
      SetBitAtIs(AddProbes(a, h, k - 1), Probe(h, k - 1, 8 * |a|), p);
    }
  }

  lemma {:induction false} KeysAdded(a: seq<byte>, keys: seq<Key>, hash: Hash, k: nat, p: nat)
    requires a != [] && p < 8 * |a|
    ensures BitAt(AddKeys(a, keys, hash, k), p) <==> BitAt(a, p) || ProbedBySome(keys, hash, k, 8 * |a|, p)
  {
    hide BitAt, Probed, AddProbes;
    if keys != [] {
      var first, last := keys[..|keys| - 1], keys[|keys| - 1];
      KeysAdded(a, first, hash, k, p);
      ProbesAdded(AddKeys(a, first, hash, k), hash(last), k, p);
      assert forall key :: key in keys <==> key in first || key == last;
    }
  }

  // How many probes a filter makes: 0.69 a bit, between 1 and 30.
  function Probes(bitsPerKey: nat): (k: nat)
    ensures 1 <= k <= 30
  {
    var k := bitsPerKey * 69 / 100;
    if k < 1 then 1 else if k > 30 then 30 else k
  }

  function FilterBytes(n: nat, bitsPerKey: nat): (b: nat)
    ensures b >= 8 && 8 * b >= n * bitsPerKey
  {
    var bits := if n * bitsPerKey < 64 then 64 else n * bitsPerKey;
    (bits + 7) / 8
  }

  // The filter of some keys: the bits, then the number of probes.
  function Filter(keys: seq<Key>, hash: Hash, bitsPerKey: nat): (f: seq<byte>)
    ensures |f| == FilterBytes(|keys|, bitsPerKey) + 1
  {
    AddKeys(Zeros(FilterBytes(|keys|, bitsPerKey)), keys, hash, Probes(bitsPerKey)) + [Probes(bitsPerKey)]
  }

  // A filter has at least 64 bits, and the bits per key asked for, in whole bytes; each key sets 0.69 times as
  // many of them as it has, between 1 and 30; and that number is in the byte behind them.
  lemma FilterFormat(keys: seq<Key>, hash: Hash, bitsPerKey: nat)
    ensures var f, n := Filter(keys, hash, bitsPerKey), |keys| * bitsPerKey;
            |f| == (if n < 64 then 8 else (n + 7) / 8) + 1
            && f[|f| - 1] == if bitsPerKey * 69 < 100 then 1 else if bitsPerKey * 69 >= 3100 then 30 else bitsPerKey * 69 / 100
  {
    hide AddKeys;
  }

  // The probes of a hash value: steps of the value turned by 17 bits, modulo the number of bits.
  lemma ProbeFormat(h: word, j: nat, bits: nat)
    requires bits > 0
    ensures Probe(h, j, bits) == (h + j * (h / 131072 + h % 131072 * 32768)) % 0x1_0000_0000 % bits
  {}

  predicate MayMatch(key: Key, filter: seq<byte>, hash: Hash) {
    |filter| >= 2
    && var k := filter[|filter| - 1];
    (k > 30 || AllSet(filter[..|filter| - 1], 8 * (|filter| - 1), hash(key), k))
  }

  predicate AllSet(a: seq<byte>, bits: nat, h: word, k: nat)
    requires 0 < bits == 8 * |a|
  {
    forall j: nat :: j < k ==> BitAt(a, Probe(h, j, bits))
  }

  // A filter matches exactly the keys all of whose probes some key of its own makes.
  lemma MayMatchIff(keys: seq<Key>, hash: Hash, bitsPerKey: nat, key: Key)
    ensures var k, bits := Probes(bitsPerKey), 8 * FilterBytes(|keys|, bitsPerKey);
            MayMatch(key, Filter(keys, hash, bitsPerKey), hash)
            <==> forall j: nat :: j < k ==> ProbedBySome(keys, hash, k, bits, Probe(hash(key), j, bits))
  {
    hide BitAt, AddKeys, Probe, ProbedBySome, FilterBytes, Zeros;
    var k, n := Probes(bitsPerKey), FilterBytes(|keys|, bitsPerKey);
    var f, zeros := Filter(keys, hash, bitsPerKey), Zeros(n);
    assert f[..|f| - 1] == AddKeys(zeros, keys, hash, k);
    forall j: nat | j < k
      ensures BitAt(f[..|f| - 1], Probe(hash(key), j, 8 * n))
         <==> ProbedBySome(keys, hash, k, 8 * n, Probe(hash(key), j, 8 * n))
    {
      KeysAdded(zeros, keys, hash, k, Probe(hash(key), j, 8 * n));
      ZeroBits(n, Probe(hash(key), j, 8 * n));
    }
  }

  lemma ZeroBits(n: nat, p: nat)
    requires p < 8 * n
    ensures !BitAt(Zeros(n), p)
  {
    ZeroBit(p % 8);
  }

  lemma {:induction false} ZeroBit(i: nat)
    ensures !Bit(0, i)
  {
    if i > 0 {
      ZeroBit(i - 1);
    }
  }

  lemma NoFalseNegatives(keys: seq<Key>, hash: Hash, bitsPerKey: nat, key: Key)
    requires key in keys
    ensures MayMatch(key, Filter(keys, hash, bitsPerKey), hash)
  {
    hide Filter, MayMatch, Probe;
    MayMatchIff(keys, hash, bitsPerKey, key);
    var k, bits := Probes(bitsPerKey), 8 * FilterBytes(|keys|, bitsPerKey);
    forall j: nat | j < k
      ensures ProbedBySome(keys, hash, k, bits, Probe(hash(key), j, bits))
    {
      assert Probed(hash(key), k, bits, Probe(hash(key), j, bits));
    }
  }

  // ---- BloomFilterPolicy ----

  class BloomFilterPolicy {
    const bitsPerKey: nat
    const probes: nat
    const hash: Hash

    constructor (bitsPerKey: nat, hash: Hash)
      ensures this.bitsPerKey == bitsPerKey && this.hash == hash && probes == Probes(bitsPerKey)
    {
      this.bitsPerKey, this.hash := bitsPerKey, hash;
      probes := Probes(bitsPerKey);
    }

    method CreateFilter(keys: seq<Key>, dst: seq<byte>) returns (r: seq<byte>)
      requires probes == Probes(bitsPerKey)
      ensures r == dst + Filter(keys, hash, bitsPerKey)
    {
      hide SetBitAt, Probe, SetBit, Bit;
      var bits := |keys| * bitsPerKey;
      if bits < 64 {
        bits := 64;
      }
      var bytes := (bits + 7) / 8;
      bits := bytes * 8;
      var a: seq<byte> := Zeros(bytes);
      var i := 0;
      while i < |keys|
        invariant i <= |keys| && |a| == bytes && a == AddKeys(Zeros(bytes), keys[..i], hash, probes)
      {
        ghost var before := a;
        var h := hash(keys[i]);
        var delta := h / 0x2_0000 + h % 0x2_0000 * 0x8000;
        ghost var h0 := h;
        var j := 0;
        while j < probes
          invariant j <= probes && |a| == bytes && h == (h0 + j * delta) % TWO_32 && a == AddProbes(before, h0, j)
        {
          var bitpos := h % bits;
          ProbeIs(h0, j, bits);
          a := SetBitAt(a, bitpos);
          NextHash(h0, j, delta);
          h := (h + delta) % TWO_32;
          j := j + 1;
        }
        assert keys[..i + 1][..i] == keys[..i];
        i := i + 1;
      }
      assert keys[..i] == keys;
      r := dst + (a + [probes]);
    }

    method KeyMayMatch(key: Key, filter: seq<byte>) returns (r: bool)
      ensures r == MayMatch(key, filter, hash)
    {
      hide BitAt, Probe;
      if |filter| < 2 {
        return false;
      }
      var a := filter[..|filter| - 1];
      var bits := 8 * |a|;
      var k: nat := filter[|filter| - 1];
      if k > 30 {
        return true;
      }
      var h := hash(key);
      var delta := h / 0x2_0000 + h % 0x2_0000 * 0x8000;
      ghost var h0 := h;
      var j: nat := 0;
      while j < k
        invariant j <= k && h == (h0 + j * delta) % TWO_32
        invariant forall i: nat :: i < j ==> BitAt(a, Probe(h0, i, bits))
      {
        var bitpos := h % bits;
        ProbeIs(h0, j, bits);
        if !BitAt(a, bitpos) {
          return false;
        }
        NextHash(h0, j, delta);
        h := (h + delta) % TWO_32;
        j := j + 1;
      }
      r := true;
    }
  }

  lemma ProbeIs(h: word, j: nat, bits: nat)
    requires bits > 0
    ensures Probe(h, j, bits) == (h + j * (h / 0x2_0000 + h % 0x2_0000 * 0x8000)) % TWO_32 % bits
  {}

  lemma NextHash(h: nat, j: nat, delta: nat)
    ensures ((h + j * delta) % TWO_32 + delta) % TWO_32 == (h + (j + 1) * delta) % TWO_32
  {
    AddMod(delta, h + j * delta, TWO_32);
    assert (j + 1) * delta == j * delta + delta;
  }
}
