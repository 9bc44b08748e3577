/** FindMatchLength: how far two positions of the input agree, a word at a time. */
module SnappyMatch {
  import opened Bytes
  import opened SnappyBits

  // The n bytes at i and at j are the same.
  ghost predicate Agree(s: seq<byte>, i: nat, j: nat, n: nat) {
    i + n <= |s| && j + n <= |s| && forall k :: j <= k < j + n ==> s[k] == s[i + (k - j)]
  }

  // s[s1..] and s[s2..] agree on exactly n bytes before `limit`: a mismatch or the limit follows.
  ghost predicate LongestMatch(s: seq<byte>, s1: nat, s2: nat, limit: nat, n: nat) {
    s1 < s2 && s2 + n <= limit <= |s|
    && Agree(s, s1, s2, n)
    && (s2 + n < limit ==> s[s1 + n] != s[s2 + n])
  }

  lemma {:induction false} BytesAsBits(n: nat)
    ensures Pow256(n) == Pow2(8 * n)
  {
    if n > 0 {
      BytesAsBits(n - 1);
      PowAdd(8, 8 * (n - 1));
      assert Pow2(8) == 256;
    } else {
      assert Pow2(0) == 1;
    }
  }

  lemma LoadModulus(s: seq<byte>, i: nat, n: nat, m: nat)
    requires i + n <= |s| && m <= n
    ensures Load(s, i, n) % Pow2(8 * m) == Load(s, i, m)
  {
    LoadWindow(s, i, n);
    WindowShorter(Load(s, i, n), s, i, n, m);
    BytesAsBits(m);
  }

  // The lowest differing bit of two words lies in the first byte that differs.
  lemma FirstDifference(s: seq<byte>, i: nat, j: nat, n: nat, t: nat)
    requires i + n <= |s| && j + n <= |s|
    requires LowestBit(Xor(Load(s, i, n), Load(s, j, n)), t) && t < 8 * n
    ensures t / 8 < n && Agree(s, i, j, t / 8) && s[i + t / 8] != s[j + t / 8]
  {
    hide LittleEndian, Pow2, Xor;
    var a, b, m := Load(s, i, n), Load(s, j, n), t / 8;
    XorLowBits(a, b, t);
    XorLowBits(a, b, t + 1);
    ModMod(a, 8 * m, t);
    ModMod(b, 8 * m, t);
    LoadModulus(s, i, n, m);
    LoadModulus(s, j, n, m);
    LoadInjective(s, i, j, m);
    SlicesAgree(s, i, j, m);
    if s[i + m] == s[j + m] {
      assert s[i..i + m + 1] == s[i..i + m] + [s[i + m]];
      assert s[j..j + m + 1] == s[j..j + m] + [s[j + m]];
      LoadInjective(s, i, j, m + 1);
      LoadModulus(s, i, n, m + 1);
      LoadModulus(s, j, n, m + 1);
      ModMod(a, t + 1, 8 * (m + 1));
      ModMod(b, t + 1, 8 * (m + 1));
    }
  }

  lemma SlicesAgree(s: seq<byte>, i: nat, j: nat, n: nat)
    requires i + n <= |s| && j + n <= |s|
    ensures s[i..i + n] == s[j..j + n] <==> Agree(s, i, j, n)
  {
    if s[i..i + n] == s[j..j + n] {
      forall k | j <= k < j + n
        ensures s[k] == s[i + (k - j)]
      {
        assert s[i..i + n][k - j] == s[j..j + n][k - j];
      }
    }
  }

  lemma LoadsAgree(s: seq<byte>, i: nat, j: nat, n: nat)
    requires i + n <= |s| && j + n <= |s|
    ensures Xor(Load(s, i, n), Load(s, j, n)) < Pow2(8 * n)
    ensures Load(s, i, n) == Load(s, j, n) <==> Agree(s, i, j, n)
    ensures Xor(Load(s, i, n), Load(s, j, n)) == 0 <==> Agree(s, i, j, n)
  {
    LittleEndianBound(s[i..i + n]);
    LittleEndianBound(s[j..j + n]);
    BytesAsBits(n);
    XorBound(Load(s, i, n), Load(s, j, n), 8 * n);
    XorZero(Load(s, i, n), Load(s, j, n));
    LoadInjective(s, i, j, n);
    SlicesAgree(s, i, j, n);
  }

  lemma Pow2Of64()
    ensures Pow2(64) == TWO_32 * TWO_32
  {
    Pow2Of32();
    PowAdd(32, 32);
  }

  // Do the words at i and j hold the same n bytes?  If not, `m` is how many whole bytes agree first,
  // read off the lowest set bit of their exclusive or.
  method CompareWords64(s: seq<byte>, i: nat, j: nat) returns (same: bool, m: nat)
    requires i + 8 <= |s| && j + 8 <= |s|
    ensures same <==> Agree(s, i, j, 8)
    ensures !same ==> m < 8 && Agree(s, i, j, m) && s[i + m] != s[j + m]
  {
    var a1, a2 := Load(s, i, 8), Load(s, j, 8);
    LoadsAgree(s, i, j, 8);
    same, m := a1 == a2, 0;
    if !same {
      Pow2Of64();
      var shift := FindLSBSetNonZero64(Xor(a1, a2));
      FirstDifference(s, i, j, 8, shift);
      m := shift / 8;
    }
  }

  method CompareWords32(s: seq<byte>, i: nat, j: nat) returns (same: bool, m: nat)
    requires i + 4 <= |s| && j + 4 <= |s|
    ensures same <==> Agree(s, i, j, 4)
    ensures !same ==> m < 4 && Agree(s, i, j, m) && s[i + m] != s[j + m]
  {
    var a1, a2 := Load(s, i, 4), Load(s, j, 4);
    LoadsAgree(s, i, j, 4);
    same, m := a1 == a2, 0;
    if !same {
      Pow2Of32();
      var matchingBits := FindLSBSetNonZero(Xor(a1, a2));
      FirstDifference(s, i, j, 4, matchingBits);
      m := matchingBits / 8;
    }
  }

  lemma MatchGrows(s: seq<byte>, s1: nat, s2: nat, m: nat, k: nat)
    requires Agree(s, s1, s2, m) && Agree(s, s1 + m, s2 + m, k)
    ensures Agree(s, s1, s2, m + k)
  {}

  // The 64-bit form.  `data` is refilled with the eight bytes after the match whenever the match
  // ends at a mismatch with eight more bytes before the limit.
  method FindMatchLength64(s: seq<byte>, s1: nat, s2: nat, limit: nat, data0: nat)
    returns (matched: nat, lessThan8: bool, data: nat)
    requires s1 < s2 <= limit <= |s|
    ensures LongestMatch(s, s1, s2, limit, matched)
    ensures lessThan8 <==> matched < 8
    ensures s2 + matched + 8 <= limit ==> data == Load(s, s2 + matched, 8)
  {
    matched := 0;
    if s2 + 16 <= limit {
      var same, m := CompareWords64(s, s1, s2);
      if !same {
        return m, true, Load(s, s2 + m, 8);
      }
      matched := 8;
    }
    while s2 + matched + 16 <= limit
      invariant s2 + matched <= limit
      invariant Agree(s, s1, s2, matched)
      invariant matched >= 8 || limit < s2 + 16
    {
      var same, m := CompareWords64(s, s1 + matched, s2 + matched);
      if same {
        MatchGrows(s, s1, s2, matched, 8);
        matched := matched + 8;
      } else {
        MatchGrows(s, s1, s2, matched, m);
        return matched + m, false, Load(s, s2 + matched + m, 8);
      }
    }
    matched, data := MatchTail(s, s1, s2, limit, matched, data0);
    lessThan8 := matched < 8;
  }

  // The byte-at-a-time end of the match.
  method MatchTail(s: seq<byte>, s1: nat, s2: nat, limit: nat, from: nat, data0: nat)
    returns (matched: nat, data: nat)
    requires s1 < s2 && s2 + from <= limit <= |s| && Agree(s, s1, s2, from)
    ensures LongestMatch(s, s1, s2, limit, matched)
    ensures s2 + matched + 8 <= limit ==> data == Load(s, s2 + matched, 8)
  {
    matched := from;
    while s2 + matched < limit && s[s1 + matched] == s[s2 + matched]
      invariant s2 + matched <= limit
      invariant Agree(s, s1, s2, matched)
      decreases limit - matched
    {
      matched := matched + 1;
    }
    data := if s2 + matched + 8 <= limit then Load(s, s2 + matched, 8) else data0;
  }

  // The portable form, four bytes at a time.
  method FindMatchLengthPortable(s: seq<byte>, s1: nat, s2: nat, limit: nat, data0: nat)
    returns (matched: nat, lessThan8: bool, data: nat)
    requires s1 < s2 <= limit <= |s|
    ensures LongestMatch(s, s1, s2, limit, matched)
    ensures lessThan8 <==> matched < 8
    ensures s2 + matched + 8 <= limit ==> data == Load(s, s2 + matched, 8)
  {
    matched := 0;
    while s2 + matched + 4 <= limit
      invariant s2 + matched <= limit
      invariant Agree(s, s1, s2, matched)
    {
      var same, m := CompareWords32(s, s1 + matched, s2 + matched);
      if !same {
        MatchGrows(s, s1, s2, matched, m);
        matched := matched + m;
        data := if s2 + matched + 8 <= limit then Load(s, s2 + matched, 8) else data0;
        return matched, matched < 8, data;
      }
      MatchGrows(s, s1, s2, matched, 4);
      matched := matched + 4;
    }
    matched, data := MatchTail(s, s1, s2, limit, matched, data0);
    lessThan8 := matched < 8;
  }
}
