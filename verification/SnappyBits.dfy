/** Unaligned loads, the portable bit scans, and the match finder built on them. */
module SnappyBits {
  import opened Bytes

  // ---- Loads ----

  // The n bytes at s[i..] as a little-endian number.
  function Load(s: seq<byte>, i: nat, n: nat): (v: nat)
    requires i + n <= |s|
  {
    LittleEndian(s[i..i + n])
  }

  // The low n bytes of `data` are the n bytes at s[i..].
  ghost predicate Window(data: nat, s: seq<byte>, i: nat, n: nat) {
    i + n <= |s| && data % Pow256(n) == Load(s, i, n)
  }

  lemma LoadSplit(s: seq<byte>, i: nat, n: nat)
    requires i + n + 1 <= |s|
    ensures Load(s, i, n + 1) == s[i] + 256 * Load(s, i + 1, n)
  {
    assert s[i..i + n + 1][1..] == s[i + 1..i + 1 + n];
  }

  lemma LoadWindow(s: seq<byte>, i: nat, n: nat)
    requires i + n <= |s|
    ensures Window(Load(s, i, n), s, i, n)
  {
    LittleEndianBound(s[i..i + n]);
    SmallMod(Load(s, i, n), Pow256(n));
  }

  // Shifting the window right by one byte moves it one position along.
  lemma WindowShift(data: nat, s: seq<byte>, i: nat, n: nat)
    requires Window(data, s, i, n + 1)
    ensures Window(data / 256, s, i + 1, n)
    ensures data % 256 == s[i]
  {
    ModSplit(data, Pow256(n));
    LoadSplit(s, i, n);
  }

  lemma {:induction false} WindowShorter(data: nat, s: seq<byte>, i: nat, n: nat, m: nat)
    requires Window(data, s, i, n) && m <= n
    ensures Window(data, s, i, m)
    decreases m
  {
    if m > 0 {
      WindowShift(data, s, i, n - 1);
      WindowShorter(data / 256, s, i + 1, n - 1, m - 1);
      ModSplit(data, Pow256(m - 1));
      LoadSplit(s, i, m - 1);
    } else {
      assert s[i..i] == [];
    }
  }

  lemma {:induction false} LoadInjective(s: seq<byte>, i: nat, j: nat, n: nat)
    requires i + n <= |s| && j + n <= |s|
    ensures Load(s, i, n) == Load(s, j, n) <==> s[i..i + n] == s[j..j + n]
    decreases n
  {
    if n > 0 {
      LoadInjective(s, i + 1, j + 1, n - 1);
      LoadSplit(s, i, n - 1);
      LoadSplit(s, j, n - 1);
      var a, b := s[i..i + n], s[j..j + n];
      assert a == [s[i]] + s[i + 1..i + n] && b == [s[j]] + s[j + 1..j + n];
      if a == b {
        assert a[0] == s[i] && b[0] == s[j];
        assert a[1..] == s[i + 1..i + n] && b[1..] == s[j + 1..j + n];
      }
    }
  }

  // ---- Exclusive or, and the position of its lowest bit ----

  function Xor(a: nat, b: nat): nat {
    if a == 0 && b == 0 then 0
    else (if a % 2 == b % 2 then 0 else 1) + 2 * Xor(a / 2, b / 2)
  }

  lemma HalfModulus(a: nat, k: nat)
    ensures a % Pow2(k + 1) == a % 2 + 2 * ((a / 2) % Pow2(k))
  {
    var p := Pow2(k);
    var q, r := (a / 2) / p, (a / 2) % p;
    assert a == 2 * (q * p + r) + a % 2;
    assert a == q * (2 * p) + (2 * r + a % 2);
    DivModUnique(a, 2 * p, q, 2 * r + a % 2);
  }

  lemma {:induction false} XorZero(a: nat, b: nat)
    ensures Xor(a, b) == 0 <==> a == b
  {
    if a != 0 || b != 0 {
      XorZero(a / 2, b / 2);
    }
  }

  lemma {:induction false} XorLowBits(a: nat, b: nat, k: nat)
    ensures Xor(a, b) % Pow2(k) == 0 <==> a % Pow2(k) == b % Pow2(k)
    decreases k
  {
    if k > 0 {
      XorLowBits(a / 2, b / 2, k - 1);
      HalfModulus(a, k - 1);
      HalfModulus(b, k - 1);
      HalfModulus(Xor(a, b), k - 1);
    }
  }

  lemma {:induction false} XorBound(a: nat, b: nat, k: nat)
    requires a < Pow2(k) && b < Pow2(k)
    ensures Xor(a, b) < Pow2(k)
    decreases k
  {
    if k > 0 {
      XorBound(a / 2, b / 2, k - 1);
    }
  }

  // t is the index of the lowest set bit of n.
  ghost predicate LowestBit(n: nat, t: nat) {
    n % Pow2(t) == 0 && n % Pow2(t + 1) != 0
  }

  lemma {:induction false} PowAdd(a: nat, b: nat)
    ensures Pow2(a + b) == Pow2(a) * Pow2(b)
  {
    if a > 0 {
      PowAdd(a - 1, b);
      assert Pow2(a + b) == 2 * (Pow2(a - 1) * Pow2(b));
      assert 2 * (Pow2(a - 1) * Pow2(b)) == (2 * Pow2(a - 1)) * Pow2(b);
    }
  }

  lemma {:induction false} LowestBitExists(n: nat, k: nat) returns (t: nat)
    requires 0 < n < Pow2(k)
    ensures t < k && LowestBit(n, t)
    decreases k
  {
    if n % 2 == 1 {
      t := 0;
      HalfModulus(n, 0);
    } else {
      var t' := LowestBitExists(n / 2, k - 1);
      t := t' + 1;
      HalfModulus(n, t');
      HalfModulus(n, t' + 1);
    }
  }

  // n << m keeps a bit inside k bits exactly when the lowest bit is not pushed out.
  lemma {:induction false} ShiftedOut(n: nat, t: nat, m: nat, k: nat)
    requires LowestBit(n, t)
    ensures (n * Pow2(m)) % Pow2(k) == 0 <==> t + m >= k
    decreases m
  {
    if m == 0 {
      assert n * Pow2(0) == n;
      LowestBitDivides(n, t, k);
    } else {
      if k == 0 {
        assert Pow2(0) == 1;
      } else {
        ShiftedOut(n, t, m - 1, k - 1);
        var v := n * Pow2(m - 1);
        assert n * Pow2(m) == 2 * v by {
          assert n * (2 * Pow2(m - 1)) == 2 * (n * Pow2(m - 1));
        }
        HalfModulus(2 * v, k - 1);
      }
    }
  }

  lemma {:induction false} LowestBitDivides(n: nat, t: nat, k: nat)
    requires LowestBit(n, t)
    ensures n % Pow2(k) == 0 <==> k <= t
    decreases t, k
  {
    if k > 0 {
      HalfModulus(n, k - 1);
      HalfModulus(n, t);
      if t > 0 {
        HalfModulus(n, t - 1);
        LowestBitDivides(n / 2, t - 1, k - 1);
      } else {
        assert Pow2(0) == 1;
      }
    }
  }

  // Bits::FindLSBSetNonZero: halves the shift, moving up whenever a bit survives.
  method FindLSBSetNonZero(n0: nat) returns (rc: nat)
    requires 0 < n0 < TWO_32
    ensures rc < 32 && LowestBit(n0, rc)
  {
    assert Pow2(32) == TWO_32 by { Pow2Of32(); }
    ghost var t := LowestBitExists(n0, 32);
    var n := n0;
    rc := 31;
    var i, shift := 4, 16;
    ghost var moved := 0;
    assert n0 * Pow2(0) == n0;
    SmallMod(n0, TWO_32);
    while i >= 0
      invariant -1 <= i <= 4
      invariant i >= 0 ==> shift == Pow2(i)
      invariant moved == 31 - rc && 0 <= rc <= 31
      invariant n == (n0 * Pow2(moved)) % TWO_32
      invariant t <= rc < t + (if i >= 0 then 2 * shift else 1)
      decreases i
    {
      var x := (n * Pow2(shift)) % TWO_32;
      ShiftTwice(n0, moved, shift);
      ShiftedOut(n0, t, moved + shift, 32);
      if x != 0 {
        n := x;
        rc := rc - shift;
        moved := moved + shift;
      }
      shift := shift / 2;
      i := i - 1;
    }
  }

  lemma Pow2Of32()
    ensures Pow2(32) == TWO_32
  {
    assert Pow2(8) == 256;
    PowAdd(8, 8);
    PowAdd(16, 16);
  }

  lemma ShiftTwice(n: nat, a: nat, b: nat)
    ensures ((n * Pow2(a)) % TWO_32 * Pow2(b)) % TWO_32 == (n * Pow2(a + b)) % TWO_32
  {
    var v := n * Pow2(a);
    PowAdd(a, b);
    assert n * Pow2(a + b) == v * Pow2(b) by {
      assert n * (Pow2(a) * Pow2(b)) == (n * Pow2(a)) * Pow2(b);
    }
    ModTimes(v, Pow2(b), TWO_32);
  }

  lemma ModTimes(v: nat, p: nat, m: nat)
    requires m > 0
    ensures (v % m * p) % m == (v * p) % m
  {
    var q, r := v / m, v % m;
    assert v == q * m + r;
    var q2, r2 := (r * p) / m, (r * p) % m;
    assert r * p == q2 * m + r2;
    assert v * p == (q * m) * p + r * p;
    assert (q * m) * p == (q * p) * m;
    assert v * p == (q * p) * m + q2 * m + r2;
    assert (q * p) * m + q2 * m == (q * p + q2) * m;
    DivModUnique(v * p, m, q * p + q2, r2);
  }

  // Bits::FindLSBSetNonZero64.
  method FindLSBSetNonZero64(n: nat) returns (rc: nat)
    requires 0 < n < TWO_32 * TWO_32
    ensures rc < 64 && LowestBit(n, rc)
  {
    var bottom := n % TWO_32;
    Pow2Of32();
    if bottom == 0 {
      var top := n / TWO_32;
      assert n == top * TWO_32;
      var r := FindLSBSetNonZero(top);
      rc := 32 + r;
      LowestBitShift(top, r, 32);
    } else {
      rc := FindLSBSetNonZero(bottom);
      LowestBitOfLow(n, rc);
    }
  }

  lemma {:induction false} LowestBitShift(n: nat, t: nat, m: nat)
    requires LowestBit(n, t)
    ensures LowestBit(n * Pow2(m), t + m)
  {
    ShiftedOut(n, t, m, t + m);
    ShiftedOut(n, t, m, t + m + 1);
  }

  lemma LowestBitOfLow(n: nat, t: nat)
    requires t < 32 && LowestBit(n % TWO_32, t)
    ensures LowestBit(n, t)
  {
    Pow2Of32();
    ModMod(n, t, 32);
    ModMod(n, t + 1, 32);
  }

  lemma {:induction false} ModMod(n: nat, a: nat, b: nat)
    requires a <= b
    ensures (n % Pow2(b)) % Pow2(a) == n % Pow2(a)
    decreases a
  {
    if a > 0 {
      HalfModulus(n, a - 1);
      HalfModulus(n, b - 1);
      HalfModulus(n % Pow2(b), a - 1);
      ModMod(n / 2, a - 1, b - 1);
      var h := (n / 2) % Pow2(b - 1);
      assert n % Pow2(b) == n % 2 + 2 * h;
      assert (n % Pow2(b)) / 2 == h;
    }
  }

  // Bits::Log2FloorNonZero.
  method Log2FloorNonZero(n: nat) returns (log: nat)
    requires 0 < n < TWO_32
    ensures Pow2(log) <= n < Pow2(log + 1)
  {
    hide *;
    Pow2Of32();
    FirstPowers(n);
    log := 0;
    var value: nat := n;
    var i, shift: nat := 4, 16;
    while i >= 0
      invariant (i, shift) in {(4, 16), (3, 8), (2, 4), (1, 2), (0, 1), (-1, 0)}
      invariant value == n / Pow2(log)
      invariant 0 < value < Pow2(if i >= 0 then shift + shift else 1)
      decreases i
    {
      var x := value / Pow2(shift);
      HighHalf(value, shift);
      if x != 0 {
        DivideTwice(n, log, shift);
        value := x;
        log := log + shift;
      }
      shift := shift / 2;
      i := i - 1;
    }
    QuotientOne(n, Pow2(log));
    NextPower(log);
  }

  lemma FirstPowers(n: nat)
    ensures Pow2(1) == 2 && n / Pow2(0) == n
  {}

  lemma NextPower(k: nat)
    ensures Pow2(k + 1) == 2 * Pow2(k)
  {}

  lemma HighHalf(value: nat, shift: nat)
    requires value < Pow2(shift + shift)
    ensures value / Pow2(shift) < Pow2(shift)
    ensures value / Pow2(shift) == 0 ==> value < Pow2(shift)
  {
    PowAdd(shift, shift);
    BelowSquare(value, Pow2(shift));
  }

  lemma BelowSquare(v: nat, p: nat)
    requires p > 0 && v < p * p
    ensures v / p < p
    ensures v / p == 0 ==> v < p
  {
    var q := v / p;
    assert q * p <= v;
    if q >= p {
      ScaleBoth(p, q, p);
    }
  }

  lemma DivideTwice(n: nat, a: nat, b: nat)
    ensures n / Pow2(a) / Pow2(b) == n / Pow2(a + b)
  {
    PowAdd(a, b);
    DivideByProduct(n, Pow2(a), Pow2(b));
  }

  lemma DivideByProduct(n: nat, p: nat, d: nat)
    requires p > 0 && d > 0
    ensures p * d > 0 && n / p / d == n / (p * d)
  {
    var q, r := n / p, n % p;
    var q2, r2 := q / d, q % d;
    MulAtLeast(p, d);
    assert n == q * p + r && q == q2 * d + r2;
    assert n == (q2 * d + r2) * p + r;
    assert (q2 * d + r2) * p == q2 * (p * d) + r2 * p;
    ScaleBoth(r2 + 1, d, p);
    assert (r2 + 1) * p == r2 * p + p;
    DivModUnique(n, p * d, q2, r2 * p + r);
  }

  lemma QuotientOne(n: nat, p: nat)
    requires p > 0 && n / p == 1
    ensures p <= n < 2 * p
  {}

  lemma ScaleBoth(a: nat, b: nat, p: nat)
    requires a <= b
    ensures a * p <= b * p
  {
    assert b * p == a * p + (b - a) * p;
  }
}
