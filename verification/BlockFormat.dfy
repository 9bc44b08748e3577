/**
 A block: entries whose keys share prefixes with the key before, then the offsets of the restart points,
 where keys are whole, then how many those are.
 */
module BlockFormat {
  import opened Wrappers
  import opened Bytes
  import opened Varints
  import opened Seqs
  import opened Coding

  type Key = seq<byte>
  type KeyValue = (Key, seq<byte>)

  // The length of the longest common prefix.
  function SharedPrefix(a: Key, b: Key): (n: nat)
    ensures n <= |a| && n <= |b| && a[..n] == b[..n]
    ensures n < |a| && n < |b| ==> a[n] != b[n]
  {
    if a == [] || b == [] || a[0] != b[0] then 0
    else
      var n := SharedPrefix(a[1..], b[1..]);
      assert a[..n + 1] == [a[0]] + a[1..][..n] && b[..n + 1] == [b[0]] + b[1..][..n];
      n + 1
  }

  // The prefix is the only one that long with a difference after it, or the end.
  lemma SharedPrefixIs(a: Key, b: Key, n: nat)
    requires n <= |a| && n <= |b| && a[..n] == b[..n] && (n < |a| && n < |b| ==> a[n] != b[n])
    ensures n == SharedPrefix(a, b)
  {
    var m := SharedPrefix(a, b);
    forall k | 0 <= k < m
      ensures a[k] == b[k]
    {
      assert a[..m][k] == b[..m][k];
    }
    forall k | 0 <= k < n
      ensures a[k] == b[k]
    {
      assert a[..n][k] == b[..n][k];
    }
  }

  // How much of its key an entry leaves out: nothing at a restart point.
  function Shared(es: seq<KeyValue>, i: nat, interval: nat): (n: nat)
    requires i < |es| && interval > 0
    ensures n <= |es[i].0| && (i > 0 ==> n <= |es[i - 1].0| && es[i - 1].0[..n] == es[i].0[..n])
    ensures i % interval == 0 ==> n == 0
  {
    if i % interval == 0 || i == 0 then 0 else SharedPrefix(es[i - 1].0, es[i].0)
  }

  function EntryBytes(shared: nat, e: KeyValue): (s: seq<byte>)
    requires shared <= |e.0|
    ensures |s| >= 3
  {
    VarintBytes(shared) + (VarintBytes(|e.0| - shared) + (VarintBytes(|e.1|) + (e.0[shared..] + e.1)))
  }

  // An entry: how much of the key before it shares, how much of its own follows, how long its value is, the
  // rest of the key, and the value.
  lemma EntryFormat(shared: nat, e: KeyValue)
    requires shared <= |e.0|
    ensures EntryBytes(shared, e) == VarintBytes(shared) + VarintBytes(|e.0| - shared) + VarintBytes(|e.1|) + e.0[shared..] + e.1
  {
    hide VarintBytes;
    var a, b, c := VarintBytes(shared), VarintBytes(|e.0| - shared), VarintBytes(|e.1|);
    Associate(a, b, c + (e.0[shared..] + e.1));
    Associate(a + b, c, e.0[shared..] + e.1);
    Associate(a + b + c, e.0[shared..], e.1);
  }

  // The first n entries.
  function Data(es: seq<KeyValue>, n: nat, interval: nat): (s: seq<byte>)
    requires n <= |es| && interval > 0
  {
    if n == 0 then [] else Data(es, n - 1, interval) + EntryBytes(Shared(es, n - 1, interval), es[n - 1])
  }

  // Where entry i begins.
  function Offset(es: seq<KeyValue>, i: nat, interval: nat): nat
    requires i <= |es| && interval > 0
  {
    |Data(es, i, interval)|
  }

  // There is always a first restart point.
  function NumRestarts(es: seq<KeyValue>, interval: nat): (n: nat)
    requires interval > 0
    ensures n >= 1
  {
    if es == [] then 1 else (|es| - 1) / interval + 1
  }

  lemma RestartInRange(es: seq<KeyValue>, interval: nat, j: nat)
    requires interval > 0 && j < NumRestarts(es, interval)
    ensures j * interval <= |es| && (es != [] ==> j * interval < |es|)
  {
    if es == [] {
      assert j == 0;
    } else {
      var q := (|es| - 1) / interval;
      assert |es| - 1 == q * interval + (|es| - 1) % interval;
      MulAtMost(j, q, interval);
    }
  }

  function Restart(es: seq<KeyValue>, interval: nat, j: nat): nat
    requires interval > 0 && j < NumRestarts(es, interval)
  {
    RestartInRange(es, interval, j);
    Offset(es, j * interval, interval)
  }

  function RestartBytes(restarts: seq<nat>): seq<byte> {
    if restarts == [] then [] else RestartBytes(restarts[..|restarts| - 1]) + ToLittleEndian(restarts[|restarts| - 1], 4)
  }

  function Restarts(es: seq<KeyValue>, interval: nat): (r: seq<nat>)
    requires interval > 0
    ensures |r| == NumRestarts(es, interval) && forall j :: 0 <= j < |r| ==> r[j] == Restart(es, interval, j)
  {
    seq(NumRestarts(es, interval), j requires 0 <= j < NumRestarts(es, interval) => Restart(es, interval, j))
  }

  function BlockBytes(es: seq<KeyValue>, interval: nat): seq<byte>
    requires interval > 0
  {
    Data(es, |es|, interval) + RestartBytes(Restarts(es, interval)) + ToLittleEndian(NumRestarts(es, interval), 4)
  }

  // Offsets are written in 32 bits.
  predicate Fits(es: seq<KeyValue>, interval: nat)
    requires interval > 0
  {
    |BlockBytes(es, interval)| < TWO_32
    && forall i :: 0 <= i < |es| ==> |es[i].0| < TWO_32 && |es[i].1| < TWO_32
  }

  // In a block that fits so does every key: what it shares was written before.
  lemma SmallBlockFits(es: seq<KeyValue>, interval: nat)
    requires interval > 0 && |BlockBytes(es, interval)| < TWO_32
    ensures Fits(es, interval)
  {
    hide Data, Shared, EntryBytes;
    forall i: nat | i < |es|
      ensures |es[i].0| < TWO_32 && |es[i].1| < TWO_32
    {
      KeyWritten(es, i, interval);
      OffsetsRise(es, i + 1, |es|, interval);
    }
  }

  lemma {:induction false} KeyWritten(es: seq<KeyValue>, i: nat, interval: nat)
    requires i < |es| && interval > 0
    ensures |es[i].0| <= Offset(es, i + 1, interval) && |es[i].1| <= Offset(es, i + 1, interval)
  {
    hide Shared, VarintBytes;
    if i > 0 {
      KeyWritten(es, i - 1, interval);
    }
  }

  // ---- Where things are ----

  lemma {:induction false} OffsetsRise(es: seq<KeyValue>, i: nat, j: nat, interval: nat)
    requires i <= j <= |es| && interval > 0
    ensures Offset(es, i, interval) + 3 * (j - i) <= Offset(es, j, interval)
    ensures Data(es, i, interval) <= Data(es, j, interval)
  {
    if i < j {
      hide EntryBytes, Shared;
      OffsetsRise(es, i, j - 1, interval);
    }
  }

  // Entry i lies at its offset, with the later entries behind it.
  lemma EntryAt(es: seq<KeyValue>, i: nat, interval: nat)
    requires i < |es| && interval > 0
    ensures Offset(es, i + 1, interval) == Offset(es, i, interval) + |EntryBytes(Shared(es, i, interval), es[i])| <= Offset(es, |es|, interval)
    ensures Data(es, |es|, interval)[Offset(es, i, interval)..]
         == EntryBytes(Shared(es, i, interval), es[i]) + Data(es, |es|, interval)[Offset(es, i + 1, interval)..]
  {
    hide EntryBytes, Shared;
    OffsetsRise(es, i + 1, |es|, interval);
    var all, part := Data(es, |es|, interval), Data(es, i + 1, interval);
    var a, b := Data(es, i, interval), EntryBytes(Shared(es, i, interval), es[i]);
    assert all == part + all[|part|..];
    assert all == a + (b + all[|part|..]) by {
      Associate(a, b, all[|part|..]);
    }
  }

  lemma {:induction false} RestartBytesLength(restarts: seq<nat>)
    ensures |RestartBytes(restarts)| == 4 * |restarts|
  {
    if restarts != [] {
      RestartBytesLength(restarts[..|restarts| - 1]);
    }
  }

  lemma {:induction false} RestartBytesAt(restarts: seq<nat>, j: nat)
    requires j < |restarts|
    ensures |RestartBytes(restarts)| == 4 * |restarts|
    ensures RestartBytes(restarts)[4 * j..4 * j + 4] == ToLittleEndian(restarts[j], 4)
  {
    hide ToLittleEndian;
    var n := |restarts| - 1;
    RestartBytesLength(restarts);
    RestartBytesLength(restarts[..n]);
    var a, b := RestartBytes(restarts[..n]), ToLittleEndian(restarts[n], 4);
    if j < n {
      RestartBytesAt(restarts[..n], j);
      SliceOfConcat(a, b, 4 * j, 4 * j + 4);
    } else {
      assert (a + b)[|a|..|a| + 4] == b;
    }
  }

  // Reading a restart offset, and their number.
  lemma RestartAt(es: seq<KeyValue>, interval: nat, j: nat)
    requires interval > 0 && Fits(es, interval) && j < NumRestarts(es, interval)
    ensures var s, o := BlockBytes(es, interval), Offset(es, |es|, interval);
            o + 4 * j + 4 <= |s| && LittleEndian(s[o + 4 * j..o + 4 * j + 4]) == Restart(es, interval, j)
  {
    hide Data, ToLittleEndian, LittleEndian;
    var d, r, t := Data(es, |es|, interval), RestartBytes(Restarts(es, interval)), ToLittleEndian(NumRestarts(es, interval), 4);
    RestartBytesAt(Restarts(es, interval), j);
    assert (d + r + t)[|d| + 4 * j..|d| + 4 * j + 4] == r[4 * j..4 * j + 4];
    RestartInRange(es, interval, j);
    OffsetsRise(es, j * interval, |es|, interval);
    FourBytes();
    FixedRoundTrip(Restart(es, interval, j), 4);
  }

  lemma NumRestartsAt(es: seq<KeyValue>, interval: nat)
    requires interval > 0 && Fits(es, interval)
    ensures var s := BlockBytes(es, interval);
            |s| == Offset(es, |es|, interval) + 4 * NumRestarts(es, interval) + 4
            && LittleEndian(s[|s| - 4..]) == NumRestarts(es, interval)
  {
    hide Data, ToLittleEndian, LittleEndian;
    var d, r, t := Data(es, |es|, interval), RestartBytes(Restarts(es, interval)), ToLittleEndian(NumRestarts(es, interval), 4);
    RestartBytesLength(Restarts(es, interval));
    assert (d + r + t)[|d + r|..] == t;
    FourBytes();
    FixedRoundTrip(NumRestarts(es, interval), 4);
  }
}
