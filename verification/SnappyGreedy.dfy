/**
 What the compressor writes for one fragment: a scan in growing strides for a place whose four bytes were
 seen before, as far as the hash table remembers, and then the longest matches one after the other.
 */
module SnappyGreedy {
  import opened Bytes
  import opened SnappyBits
  import opened SnappyFormat
  import opened SnappyMatch

  // How long a fragment may be, and how far before its end the scan stops.
  const BLOCK_SIZE: nat := 65536
  const INPUT_MARGIN: nat := 15

  // The hash sends every 32-bit word to a slot of the table; nothing else is asked of it.
  ghost predicate HashesInto(hash: nat -> nat, size: nat) {
    forall x: nat :: x < TWO_32 ==> hash(x) < size
  }

  // Every table entry is a position before ip.
  ghost predicate Below(table: seq<nat>, ip: nat) {
    forall h :: 0 <= h < |table| ==> table[h] < ip
  }

  ghost function Word(s: seq<byte>, ip: nat): (w: nat)
    requires ip + 4 <= |s|
    ensures w < TWO_32
  {
    LittleEndianBound(s[ip..ip + 4]);
    BytesAsBits(4);
    Pow2Of32();
    Load(s, ip, 4)
  }

  lemma SameWord(s: seq<byte>, i: nat, j: nat)
    requires i + 4 <= |s| && j + 4 <= |s|
    ensures Word(s, i) == Word(s, j) <==> Agree(s, i, j, 4)
  {
    LoadsAgree(s, i, j, 4);
  }

  // The table with a position entered under its four bytes.
  ghost function Enter(s: seq<byte>, table: seq<nat>, hash: nat -> nat, ip: nat): (r: seq<nat>)
    requires HashesInto(hash, |table|) && ip + 4 <= |s|
    ensures |r| == |table| && forall n: nat :: Below(table, n) && ip < n ==> Below(r, n)
  {
    table[hash(Word(s, ip)) := ip]
  }

  // ---- Scanning ----

  datatype Scan = Hit(at: nat, candidate: nat, table: seq<nat>) | Miss

  // Look up the position and enter it; go on by a 32nd of the skip, which grows as fast, until a place is found
  // or the limit would be passed.
  ghost function ScanFrom(s: seq<byte>, table: seq<nat>, hash: nat -> nat, ip: nat, skip: nat, limit: nat): (r: Scan)
    requires HashesInto(hash, |table|) && limit + INPUT_MARGIN == |s| && skip >= 32 && Below(table, ip)
    ensures r.Hit? ==> ip <= r.at < limit && r.candidate < r.at && Agree(s, r.candidate, r.at, 4) && |r.table| == |table| && Below(r.table, r.at + 1)
    decreases |s| - ip
  {
    var stride := skip / 32;
    if ip + stride > limit then Miss
    else
      var candidate := table[hash(Word(s, ip))];
      var table' := Enter(s, table, hash, ip);
      if Agree(s, candidate, ip, 4) then Hit(ip, candidate, table')
      else ScanFrom(s, table', hash, ip + stride, skip + stride, limit)
  }

  // ---- Matches ----

  // How far the bytes at j repeat those at i.
  function Longest(s: seq<byte>, i: nat, j: nat): (n: nat)
    requires i <= j <= |s|
    ensures j + n <= |s| && Agree(s, i, j, n) && (j + n < |s| ==> s[i + n] != s[j + n])
    decreases |s| - j
  {
    if j == |s| || s[i] != s[j] then 0 else 1 + Longest(s, i + 1, j + 1)
  }

  lemma {:induction false} LongestIs(s: seq<byte>, i: nat, j: nat, n: nat)
    requires i <= j && j + n <= |s| && Agree(s, i, j, n) && (j + n < |s| ==> s[i + n] != s[j + n])
    ensures Longest(s, i, j) == n
    decreases n
  {
    if n > 0 {
      assert s[j] == s[i];
      LongestIs(s, i + 1, j + 1, n - 1);
    }
  }

  datatype Run = Run(tags: seq<byte>, ip: nat, table: seq<nat>)

  // The match at ip, and every further one that starts where the last one ended.  The position before the
  // end of a match is entered in the table, too.
  ghost function Copies(s: seq<byte>, table: seq<nat>, hash: nat -> nat, ip: nat, candidate: nat, limit: nat): (r: Run)
    requires HashesInto(hash, |table|) && limit + INPUT_MARGIN == |s| <= BLOCK_SIZE && candidate < ip <= limit
    requires Below(table, ip + 1) && Agree(s, candidate, ip, 4)
    ensures ip + 4 <= r.ip <= |s| && |r.table| == |table| && (r.ip < limit ==> Below(r.table, r.ip + 1))
    decreases |s| - ip
  {
    var matched := Longest(s, candidate, ip);
    LongestAtLeast(s, candidate, ip, 4);
    var tags, ip' := CopyTags(ip - candidate, matched), ip + matched;
    if ip' >= limit then Run(tags, ip', table)
    else
      var entered := Enter(s, table, hash, ip' - 1);
      var next := entered[hash(Word(s, ip'))];
      var table' := Enter(s, entered, hash, ip');
      if Agree(s, next, ip', 4) then
        var more := Copies(s, table', hash, ip', next, limit);
        Run(tags + more.tags, more.ip, more.table)
      else Run(tags, ip', table')
  }

  lemma {:induction false} LongestAtLeast(s: seq<byte>, i: nat, j: nat, n: nat)
    requires i <= j && Agree(s, i, j, n)
    ensures Longest(s, i, j) >= n
    decreases n
  {
    if n > 0 {
      assert s[j] == s[i];
      LongestAtLeast(s, i + 1, j + 1, n - 1);
    }
  }

  // ---- A fragment ----

  function LiteralOf(s: seq<byte>, n: nat, m: nat): seq<byte>
    requires n < m <= |s| <= BLOCK_SIZE
  {
    LiteralHeader(m - n - 1) + s[n..m]
  }

  // A literal up to the next match, the matches, and so on; the rest is a literal.
  ghost function TagsFrom(s: seq<byte>, table: seq<nat>, hash: nat -> nat, n: nat): seq<byte>
    requires HashesInto(hash, |table|) && INPUT_MARGIN <= |s| <= BLOCK_SIZE && n + INPUT_MARGIN <= |s| && Below(table, n + 1)
    decreases |s| - n, 0
  {
    var limit := |s| - INPUT_MARGIN;
    match ScanFrom(s, table, hash, n + 1, 32, limit)
    case Miss => LiteralOf(s, n, |s|)
    case Hit(at, candidate, table') =>
      var run := Copies(s, table', hash, at, candidate, limit);
      LiteralOf(s, n, at) + (run.tags + TagsAfter(s, run, hash))
  }

  ghost function TagsAfter(s: seq<byte>, run: Run, hash: nat -> nat): seq<byte>
    requires HashesInto(hash, |run.table|) && INPUT_MARGIN <= |s| <= BLOCK_SIZE && run.ip <= |s|
    requires run.ip + INPUT_MARGIN < |s| ==> Below(run.table, run.ip + 1)
    decreases |s| - run.ip, 1
  {
    if run.ip + INPUT_MARGIN < |s| then TagsFrom(s, run.table, hash, run.ip)
    else if run.ip < |s| then LiteralOf(s, run.ip, |s|)
    else []
  }

  ghost function FragmentTags(s: seq<byte>, table: seq<nat>, hash: nat -> nat): seq<byte>
    requires |s| <= BLOCK_SIZE && HashesInto(hash, |table|) && Below(table, 1)
  {
    if |s| >= INPUT_MARGIN then TagsFrom(s, table, hash, 0)
    else if |s| > 0 then LiteralOf(s, 0, |s|)
    else []
  }

  // ---- What repeats is found ----

  // From position m on the bytes repeat with period p.
  ghost predicate Repeats(s: seq<byte>, m: nat, p: nat) {
    forall i :: m + p <= i < |s| ==> s[i] == s[i - p]
  }

  // No two of the first n positions have their words in the same slot.
  ghost predicate SlotsApart(s: seq<byte>, hash: nat -> nat, n: nat) {
    n + 3 <= |s| && forall i, j :: 0 <= i < j < n ==> hash(Word(s, i)) != hash(Word(s, j))
  }

  // The table after the positions from 1 up to ip have been entered into an empty one.
  ghost predicate Entered(s: seq<byte>, table: seq<nat>, hash: nat -> nat, ip: nat)
    requires HashesInto(hash, |table|) && ip + 3 <= |s|
  {
    (forall q :: 1 <= q < ip ==> table[hash(Word(s, q))] == q)
    && forall h :: 0 <= h < |table| && (forall q :: 1 <= q < ip ==> hash(Word(s, q)) != h) ==> table[h] == 0
  }

  lemma EnteredNext(s: seq<byte>, table: seq<nat>, hash: nat -> nat, ip: nat, n: nat)
    requires HashesInto(hash, |table|) && 1 <= ip < n && SlotsApart(s, hash, n) && Entered(s, table, hash, ip)
    ensures Entered(s, Enter(s, table, hash, ip), hash, ip + 1)
    ensures table[hash(Word(s, ip))] == 0 && !Agree(s, 0, ip, 4)
  {
    SameWord(s, 0, ip);
  }

  // The scan finds the first repetition: it looks at each of the first 33 positions.
  lemma {:induction false} ScanFinds(s: seq<byte>, table: seq<nat>, hash: nat -> nat, ip: nat, m: nat, p: nat)
    requires HashesInto(hash, |table|) && 1 <= ip <= m + p <= 33 && 1 <= p && m + p + 17 <= |s| && Below(table, ip)
    requires Repeats(s, m, p) && SlotsApart(s, hash, m + p) && Entered(s, table, hash, ip)
    ensures var r := ScanFrom(s, table, hash, ip, 31 + ip, |s| - INPUT_MARGIN); r.Hit? && r.at == m + p && r.candidate == m
    decreases m + p - ip
  {
    hide Repeats, SlotsApart, Entered, Agree, Word;
    assert (31 + ip) / 32 == if ip <= 32 then 1 else 2;
    if ip < m + p {
      EnteredNext(s, table, hash, ip, m + p);
      ScanFinds(s, Enter(s, table, hash, ip), hash, ip + 1, m, p);
    } else {
      FoundAgain(s, table, hash, m, p);
    }
  }

  lemma FoundAgain(s: seq<byte>, table: seq<nat>, hash: nat -> nat, m: nat, p: nat)
    requires HashesInto(hash, |table|) && 1 <= p && m + p + 17 <= |s| && Repeats(s, m, p)
    requires SlotsApart(s, hash, m + p) && Entered(s, table, hash, m + p)
    ensures Agree(s, m, m + p, 4) && table[hash(Word(s, m + p))] == m
  {
    assert Agree(s, m, m + p, 4);
    SameWord(s, m, m + p);
    assert forall q :: 1 <= q < m + p && q != m ==> hash(Word(s, q)) != hash(Word(s, m));
  }

  // Where the first m bytes are followed by a period of p, and no two words up to its end share a slot, one
  // literal and one match do for the whole fragment.
  lemma PeriodIsOneMatch(s: seq<byte>, table: seq<nat>, hash: nat -> nat, m: nat, p: nat)
    requires |s| <= BLOCK_SIZE && HashesInto(hash, |table|) && forall h :: 0 <= h < |table| ==> table[h] == 0
    requires 1 <= p && m + p <= 33 && m + p + 17 <= |s| && Repeats(s, m, p) && SlotsApart(s, hash, m + p)
    ensures FragmentTags(s, table, hash) == LiteralOf(s, 0, m + p) + CopyTags(p, |s| - m - p)
  {
    hide ScanFrom, LiteralOf, CopyTags, SlotsApart, Repeats, Agree;
    ScanFinds(s, table, hash, 1, m, p);
    var r := ScanFrom(s, table, hash, 1, 32, |s| - INPUT_MARGIN);
    PeriodAgrees(s, m, p);
    LongestIs(s, m, m + p, |s| - m - p);
    var run := Copies(s, r.table, hash, m + p, m, |s| - INPUT_MARGIN);
    assert run.ip == |s| && run.tags == CopyTags(p, |s| - m - p);
    assert TagsAfter(s, run, hash) == [] && run.tags + [] == run.tags;
  }

  lemma PeriodAgrees(s: seq<byte>, m: nat, p: nat)
    requires Repeats(s, m, p) && m + p <= |s|
    ensures Agree(s, m, m + p, |s| - m - p)
  {
    forall k | m + p <= k < |s|
      ensures s[k] == s[m + (k - (m + p))]
    {
      assert s[k] == s[k - p];
    }
  }

  // One byte over and over takes three bytes for every sixty, whatever the hash.
  lemma RunIsSmall(s: seq<byte>, table: seq<nat>, hash: nat -> nat)
    requires |s| <= BLOCK_SIZE && HashesInto(hash, |table|) && forall h :: 0 <= h < |table| ==> table[h] == 0
    requires |s| >= 18 && forall i :: 0 <= i < |s| ==> s[i] == s[0]
    ensures FragmentTags(s, table, hash) == [0, s[0]] + CopyTags(1, |s| - 1)
    ensures |FragmentTags(s, table, hash)| <= 2 + 3 * (|s| / 60 + 1)
  {
    hide FragmentTags, CopyTags, HashesInto;
    assert Repeats(s, 0, 1) && SlotsApart(s, hash, 1);
    PeriodIsOneMatch(s, table, hash, 0, 1);
    OneByte(s);
    CopyTagsCount(1, |s| - 1);
  }

  lemma OneByte(s: seq<byte>)
    requires 0 < |s| <= BLOCK_SIZE
    ensures LiteralOf(s, 0, 1) == [0, s[0]]
  {
    assert s[0..1] == [s[0]];
  }

  lemma {:induction false} CopyTagsCount(offset: nat, len: nat)
    requires 4 <= len && offset < 65536
    ensures |CopyTags(offset, len)| <= 3 * (len / 60 + 1)
    decreases len
  {
    if len >= 68 {
      CopyTagsCount(offset, len - 64);
    }
  }
}
