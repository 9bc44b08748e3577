/** Building a block, and the iterator over its bytes. */
module Blocks {
  import opened Wrappers
  import opened Bytes
  import opened Varints
  import opened Seqs
  import opened Coding
  import opened BlockFormat
  import opened Cursors

  // ---- BlockBuilder ----

  method SharedWith(lastKey: Key, key: Key) returns (shared: nat)
    ensures shared == SharedPrefix(lastKey, key)
  {
    var minLength := if |lastKey| < |key| then |lastKey| else |key|;
    shared := 0;
    while shared < minLength && lastKey[shared] == key[shared]
      invariant shared <= minLength && lastKey[..shared] == key[..shared]
    {
      shared := shared + 1;
    }
    SharedPrefixIs(lastKey, key, shared);
  }

  class BlockBuilder {
    const interval: nat
    var buffer: seq<byte>
    var restarts: seq<nat>
    var counter: nat
    var finished: bool
    var lastKey: Key

    // The entries added.
    ghost var es: seq<KeyValue>

    ghost predicate Valid()
      reads this
    {
      interval > 0 && !finished && buffer == Data(es, |es|, interval) && restarts == Restarts(es, interval)
      && (if es == [] then counter == 0 && lastKey == []
          else counter == (|es| - 1) % interval + 1 && lastKey == es[|es| - 1].0)
    }

    constructor (interval: nat)
      requires interval >= 1
      ensures Valid() && es == [] && this.interval == interval
    {
      this.interval := interval;
      buffer, restarts, counter, finished, lastKey, es := [], [0], 0, false, [], [];
    }

    method Reset()
      requires interval >= 1
      modifies this
      ensures Valid() && es == []
    {
      buffer, restarts, counter, finished, lastKey, es := [], [0], 0, false, [], [];
    }

    function CurrentSizeEstimate(): nat
      reads this
    {
      |buffer| + 4 * |restarts| + 4
    }

    predicate Empty()
      reads this
    {
      buffer == []
    }

    // The estimate is the size the finished block will have.
    lemma SizeIs()
      requires Valid()
      ensures CurrentSizeEstimate() == |BlockBytes(es, interval)|
    {
      hide Data, Restarts, ToLittleEndian;
      RestartBytesLength(Restarts(es, interval));
    }

    lemma EmptyIff()
      requires Valid()
      ensures Empty() <==> es == []
    {
      hide Data, Restarts;
      OffsetsRise(es, 0, |es|, interval);
      DataOfNone(es, interval);
    }

    method Add(key: Key, value: seq<byte>)
      requires Valid()
      modifies this
      ensures Valid() && es == old(es) + [(key, value)]
    {
      hide EntryBytes, Data, Shared, Restarts, SharedPrefix;
      ghost var e := (key, value);
      var shared := 0;
      if counter < interval {
        shared := SharedWith(lastKey, key);
      } else {
        restarts := restarts + [|buffer|];
        counter := 0;
      }
      AddedShared(es, e, interval, old(counter), shared);
      AddedRestarts(es, e, interval, old(counter));
      AddedData(es, e, interval);
      buffer := buffer + EntryBytes(shared, (key, value));
      lastKey := lastKey[..shared] + key[shared..];
      assert key[..shared] + key[shared..] == key;
      AddedCounter(es, interval, old(counter));
      counter := counter + 1;
      es := es + [e];
    }

    method Finish() returns (s: seq<byte>)
      requires Valid()
      modifies this
      ensures s == BlockBytes(es, interval) && finished && es == old(es) && buffer == s
    {
      hide ToLittleEndian, Data;
      ghost var data := buffer;
      var i := 0;
      assert restarts[..0] == [];
      while i < |restarts|
        invariant i <= |restarts| && buffer == data + RestartBytes(restarts[..i]) && es == old(es)
        invariant restarts == old(restarts)
      {
        assert restarts[..i + 1][..i] == restarts[..i];
        Associate(data, RestartBytes(restarts[..i]), ToLittleEndian(restarts[i], 4));
        buffer := buffer + ToLittleEndian(restarts[i], 4);
        i := i + 1;
      }
      assert restarts[..|restarts|] == restarts;
      buffer := buffer + ToLittleEndian(|restarts|, 4);
      finished := true;
      s := buffer;
    }
  }

  lemma DataOfNone(es: seq<KeyValue>, interval: nat)
    requires interval > 0
    ensures Data(es, 0, interval) == []
  {}

  lemma AddedCounter(es: seq<KeyValue>, interval: nat, counter: nat)
    requires interval > 0
    requires if es == [] then counter == 0 else counter == (|es| - 1) % interval + 1
    ensures counter == interval ==> |es| % interval == 0
    ensures counter < interval ==> |es| % interval == counter
    ensures counter <= interval
  {
    if es != [] {
      var q := (|es| - 1) / interval;
      if counter == interval {
        DivModUnique(|es|, interval, q + 1, 0);
      } else {
        DivModUnique(|es|, interval, q, counter);
      }
    }
  }

  lemma AddedShared(es: seq<KeyValue>, e: KeyValue, interval: nat, counter: nat, shared: nat)
    requires interval > 0
    requires if es == [] then counter == 0 else counter == (|es| - 1) % interval + 1
    requires shared == if counter < interval && es != [] then SharedPrefix(es[|es| - 1].0, e.0) else 0
    ensures Shared(es + [e], |es|, interval) == shared
  {
    AddedCounter(es, interval, counter);
  }

  lemma {:induction false} DataStable(es: seq<KeyValue>, e: KeyValue, n: nat, interval: nat)
    requires n <= |es| && interval > 0
    ensures Data(es + [e], n, interval) == Data(es, n, interval)
  {
    if n > 0 {
      hide EntryBytes;
      DataStable(es, e, n - 1, interval);
    }
  }

  lemma AddedData(es: seq<KeyValue>, e: KeyValue, interval: nat)
    requires interval > 0
    ensures Data(es + [e], |es| + 1, interval)
         == Data(es, |es|, interval) + EntryBytes(Shared(es + [e], |es|, interval), e)
  {
    hide EntryBytes, Shared;
    DataStable(es, e, |es|, interval);
  }

  lemma AddedRestarts(es: seq<KeyValue>, e: KeyValue, interval: nat, counter: nat)
    requires interval > 0
    requires if es == [] then counter == 0 else counter == (|es| - 1) % interval + 1
    ensures Restarts(es + [e], interval)
         == if counter < interval then Restarts(es, interval) else Restarts(es, interval) + [Offset(es, |es|, interval)]
  {
    hide Data;
    AddedCounter(es, interval, counter);
    var es' := es + [e];
    var n := NumRestarts(es, interval);
    if es != [] {
      var q := (|es| - 1) / interval;
      if counter == interval {
        DivModUnique(|es|, interval, q + 1, 0);
      } else {
        DivModUnique(|es|, interval, q, counter);
      }
    }
    assert NumRestarts(es', interval) == if counter < interval then n else n + 1;
    forall j: nat | j < n
      ensures Restart(es', interval, j) == Restart(es, interval, j)
    {
      RestartInRange(es, interval, j);
      RestartInRange(es', interval, j);
      DataStable(es, e, j * interval, interval);
    }
    if counter == interval {
      DataStable(es, e, |es|, interval);
      assert Restart(es', interval, n) == Offset(es, |es|, interval);
    }
  }

  // ---- Reading an entry ----

  // The three lengths in front of an entry, and how many bytes they take.
  datatype Header = Header(shared: nat, nonShared: nat, valueLength: nat, size: nat)

  function Lengths(s: seq<byte>): Option<Header> {
    match Varint(s, 0, 32)
    case None => None
    case Some((shared, n1)) =>
      match Varint(s[n1..], 0, 32)
      case None => None
      case Some((nonShared, n2)) =>
        match Varint(s[n1 + n2..], 0, 32)
        case None => None
        case Some((valueLength, n3)) => Some(Header(shared, nonShared, valueLength, n1 + n2 + n3))
  }

  // DecodeEntry: one byte each on the fast path, varints otherwise.  The last check adds in 32 bits.
  function DecodeEntry(s: seq<byte>): Option<Header> {
    if |s| < 3 then None
    else
      var h := if s[0] < 128 && s[1] < 128 && s[2] < 128 then Some(Header(s[0], s[1], s[2], 3)) else Lengths(s);
      if h.None? || (|s| - h.value.size) % TWO_32 < (h.value.nonShared + h.value.valueLength) % TWO_32 then None else h
  }

  // The fast path is no shortcut: the lengths are three varints in any case.
  lemma FastPathIsVarints(s: seq<byte>)
    requires |s| >= 3 && s[0] < 128 && s[1] < 128 && s[2] < 128
    ensures Lengths(s) == Some(Header(s[0], s[1], s[2], 3))
  {
    assert Pow2(0) == 1;
    TwoTo32();
    assert s[1..][0] == s[1] && s[2..][0] == s[2];
  }

  // On any bytes under 4 GB: an entry that is accepted lies before the limit, if and only if the lengths of
  // key and value add up to less than 2^32; if they do not, only what the sum has left is compared.
  lemma EntryFitsIff(s: seq<byte>, h: Header)
    requires |s| < 0x1_0000_0000 && DecodeEntry(s) == Some(h)
    ensures h.size + h.nonShared + h.valueLength <= |s| <==> h.nonShared + h.valueLength < 0x1_0000_0000
    ensures Lengths(s) == Some(h) && h.size <= |s|
  {
    hide Lengths;
    LengthsWithin(s);
    if s[0] < 128 && s[1] < 128 && s[2] < 128 {
      FastPathIsVarints(s);
    }
  }

  lemma LengthsWithin(s: seq<byte>)
    ensures Lengths(s).Some? ==> Lengths(s).value.size <= |s| && Lengths(s).value.nonShared < TWO_32 && Lengths(s).value.valueLength < TWO_32
  {
    hide Varint;
    TwoTo32();
  }

  lemma SmallVarint(v: nat)
    ensures v < 128 ==> VarintBytes(v) == [v]
    ensures v >= 128 ==> VarintBytes(v)[0] >= 128
  {}

  lemma LengthsOf(a: nat, b: nat, c: nat, rest: seq<byte>)
    requires a < TWO_32 && b < TWO_32 && c < TWO_32
    ensures Lengths(VarintBytes(a) + (VarintBytes(b) + (VarintBytes(c) + rest)))
         == Some(Header(a, b, c, |VarintBytes(a)| + |VarintBytes(b)| + |VarintBytes(c)|))
  {
    hide Varint, VarintBytes, Lengths;
    var t := VarintBytes(c) + rest;
    var u := VarintBytes(b) + t;
    var s := VarintBytes(a) + u;
    VarintAt(a, u);
    VarintAt(b, t);
    VarintAt(c, rest);
    assert s[|VarintBytes(a)|..] == u;
    assert s[|VarintBytes(a)| + |VarintBytes(b)|..] == t;
    LengthsBy(s, a, |VarintBytes(a)|, b, |VarintBytes(b)|, c, |VarintBytes(c)|);
  }

  lemma LengthsBy(s: seq<byte>, a: nat, n1: nat, b: nat, n2: nat, c: nat, n3: nat)
    requires n1 + n2 <= |s| && Varint(s, 0, 32) == Some((a, n1))
    requires Varint(s[n1..], 0, 32) == Some((b, n2)) && Varint(s[n1 + n2..], 0, 32) == Some((c, n3))
    ensures Lengths(s) == Some(Header(a, b, c, n1 + n2 + n3))
  {
    hide Varint;
  }

  lemma VarintAt(v: nat, rest: seq<byte>)
    requires v < TWO_32
    ensures Varint(VarintBytes(v) + rest, 0, 32) == Some((v, |VarintBytes(v)|))
  {
    assert Pow2(0) == 1;
    TwoTo32();
    VarintRoundTripAt(v, 0, 32, rest);
  }

  // The fast path is the slow one where it applies.
  lemma FastPath(a: nat, b: nat, c: nat, rest: seq<byte>)
    requires a < TWO_32 && b < TWO_32 && c < TWO_32
    ensures var s := VarintBytes(a) + (VarintBytes(b) + (VarintBytes(c) + rest));
            |s| >= 3
            && Some(Header(a, b, c, |VarintBytes(a)| + |VarintBytes(b)| + |VarintBytes(c)|))
               == if s[0] < 128 && s[1] < 128 && s[2] < 128 then Some(Header(s[0], s[1], s[2], 3)) else Lengths(s)
  {
    hide Varint, VarintBytes;
    LengthsOf(a, b, c, rest);
    SmallVarint(a);
    SmallVarint(b);
    SmallVarint(c);
  }

  // s begins with entry e, of whose key `shared` bytes are left out.
  ghost predicate ReadsAs(s: seq<byte>, shared: nat, e: KeyValue, length: nat)
    requires shared <= |e.0|
  {
    match DecodeEntry(s)
    case None => false
    case Some(h) =>
      h.shared == shared && h.nonShared == |e.0| - shared && h.valueLength == |e.1|
      && h.size + h.nonShared + h.valueLength == length <= |s|
      && s[h.size..h.size + h.nonShared] == e.0[shared..] && s[h.size + h.nonShared..length] == e.1
  }

  // An entry reads back as it was written.
  lemma DecodeEntryOf(shared: nat, e: KeyValue, rest: seq<byte>)
    requires shared <= |e.0| < TWO_32 && |e.1| < TWO_32 && |EntryBytes(shared, e) + rest| < TWO_32
    ensures ReadsAs(EntryBytes(shared, e) + rest, shared, e, |EntryBytes(shared, e)|)
  {
    hide Varint, VarintBytes, Lengths;
    var a, b, c := VarintBytes(shared), VarintBytes(|e.0| - shared), VarintBytes(|e.1|);
    var k, v := e.0[shared..], e.1;
    var s := EntryBytes(shared, e) + rest;
    EntryParts(a, b, c, k, v, rest);
    FastPath(shared, |e.0| - shared, |e.1|, (k + v) + rest);
    SmallMod(|s| - (|a| + |b| + |c|), TWO_32);
    SmallMod(|e.0| - shared + |e.1|, TWO_32);
  }

  lemma EntryParts(a: seq<byte>, b: seq<byte>, c: seq<byte>, k: seq<byte>, v: seq<byte>, rest: seq<byte>)
    ensures var s, size := (a + (b + (c + (k + v)))) + rest, |a| + |b| + |c|;
            s == a + (b + (c + ((k + v) + rest))) && |s| == size + |k| + |v| + |rest|
            && s[size..size + |k|] == k && s[size + |k|..size + |k| + |v|] == v
  {
    Associate(a, b + (c + (k + v)), rest);
    Associate(b, c + (k + v), rest);
    Associate(c, k + v, rest);
    var t := (k + v) + rest;
    Associate(b, c, t);
    Associate(a, b + c, t);
    BehindPrefix(a + (b + c), k, v, rest);
  }

  lemma BehindPrefix(p: seq<byte>, k: seq<byte>, v: seq<byte>, rest: seq<byte>)
    ensures var s := p + ((k + v) + rest);
            |s| == |p| + |k| + |v| + |rest| && s[|p|..|p| + |k|] == k && s[|p| + |k|..|p| + |k| + |v|] == v
  {}

  // Block::Block: where the restart array begins and how many it holds.  None for bytes that cannot be a
  // block.
  function OpenBlock(s: seq<byte>): Option<(nat, nat)> {
    if |s| < 4 then None
    else
      var n := LittleEndian(s[|s| - 4..]);
      if n > (|s| - 4) / 4 then None else Some((|s| - 4 * (1 + n), n))
  }

  // On any bytes: they open as a block exactly if n words and their number n are their end.
  lemma OpensIff(s: seq<byte>, restarts: nat, n: nat)
    ensures OpenBlock(s) == Some((restarts, n))
            <==> restarts + 4 * n + 4 == |s| && LittleEndian(s[restarts + 4 * n..]) == n
  {
    hide LittleEndian;
  }

  lemma BuiltBlockOpens(es: seq<KeyValue>, interval: nat)
    requires interval > 0 && Fits(es, interval)
    ensures OpenBlock(BlockBytes(es, interval)) == Some((Offset(es, |es|, interval), NumRestarts(es, interval)))
  {
    hide Data, BlockBytes, LittleEndian;
    NumRestartsAt(es, interval);
  }

  // ---- Block::Iter ----

  type Order = (Key, Key) -> bool

  // A strict total order.
  ghost predicate IsOrder(less: Order) {
    (forall a :: !less(a, a)) && (forall a, b :: less(a, b) || less(b, a) || a == b)
    && forall a, b, c :: less(a, b) && less(b, c) ==> less(a, c)
  }

  ghost predicate Ascending(es: seq<KeyValue>, less: Order) {
    forall i, j :: 0 <= i < j < |es| ==> less(es[i].0, es[j].0)
  }

  // r is the first entry with a key at or after the target.
  ghost predicate AtOrAfter(es: seq<KeyValue>, less: Order, target: Key, r: Option<nat>) {
    match r
    case None => forall i :: 0 <= i < |es| ==> less(es[i].0, target)
    case Some(i) => i < |es| && !less(es[i].0, target) && forall j :: 0 <= j < i ==> less(es[j].0, target)
  }

  class BlockIter {
    const data: seq<byte>
    const restarts: nat
    const numRestarts: nat
    const less: Order
    var current: nat
    var restartIndex: nat
    var key: Key

    // The value as a slice of the data.
    var valueAt: nat
    var valueSize: nat

    // The entries in the block, and where the iterator is among them.
    ghost const es: seq<KeyValue>
    ghost const interval: nat
    ghost var pos: Option<nat>

    // The bytes are those of a block the builder made.
    ghost predicate Formed() {
      interval > 0 && Fits(es, interval) && data == BlockBytes(es, interval) && Ascending(es, less) && IsOrder(less)
      && restarts == Offset(es, |es|, interval) && numRestarts == NumRestarts(es, interval)
    }

    predicate Valid()
      reads this
    {
      current < restarts
    }

    function NextEntryOffset(): nat
      reads this
    {
      valueAt + valueSize
    }

    ghost predicate Ok()
      reads this
    {
      Formed() && (pos.None? ==> current == restarts) && (pos.Some? ==> On(pos.value))
    }

    // On entry i, with the last restart point before it at hand, or the one it is on.
    ghost predicate On(i: nat)
      reads this
      requires Formed()
    {
      i < |es| && current == Offset(es, i, interval) < restarts && key == es[i].0
      && NextEntryOffset() == Offset(es, i + 1, interval) <= |data| && data[valueAt..valueAt + valueSize] == es[i].1
      && restartIndex < numRestarts && Restart(es, interval, restartIndex) <= current
    }

    constructor (data: seq<byte>, restarts: nat, numRestarts: nat, less: Order, ghost es: seq<KeyValue>, ghost interval: nat)
      requires interval > 0 && Fits(es, interval) && data == BlockBytes(es, interval) && Ascending(es, less) && IsOrder(less)
      requires restarts == Offset(es, |es|, interval) && numRestarts == NumRestarts(es, interval)
      ensures Ok() && pos == None && this.es == es && this.interval == interval && this.less == less && this.data == data
    {
      this.data, this.restarts, this.numRestarts, this.less := data, restarts, numRestarts, less;
      this.es, this.interval := es, interval;
      current, restartIndex, key, valueAt, valueSize, pos := restarts, numRestarts, [], 0, 0, None;
    }

    lemma ValidIff()
      requires Ok()
      ensures Valid() <==> pos.Some?
    {
      hide Fits, Ascending, IsOrder, Data;
    }

    // The entry the iterator is on.
    function Current(): (e: KeyValue)
      reads this
      requires Ok() && Valid()
      ensures pos.Some? && pos.value < |es| && e == es[pos.value]
    {
      (key, data[valueAt..valueAt + valueSize])
    }

    method GetRestartPoint(index: nat) returns (r: nat)
      requires Formed() && index < numRestarts
      ensures r == Restart(es, interval, index) <= restarts
    {
      hide Ascending, IsOrder, Data, BlockBytes, Fits;
      RestartAt(es, interval, index);
      RestartInRange(es, interval, index);
      OffsetsRise(es, index * interval, |es|, interval);
      r := LittleEndian(data[restarts + 4 * index..restarts + 4 * index + 4]);
    }

    method SeekToRestartPoint(index: nat)
      requires Formed() && index < numRestarts
      modifies this
      ensures Formed() && restartIndex == index && NextEntryOffset() == Restart(es, interval, index)
    {
      key := [];
      restartIndex := index;
      valueAt := GetRestartPoint(index);
      valueSize := 0;
    }

    // The entry at the end of the one before: entry i, if there is one.
    method ParseNextKey(ghost i: nat) returns (r: bool)
      requires Formed() && i <= |es| && NextEntryOffset() == Offset(es, i, interval)
      requires i < |es| && Shared(es, i, interval) > 0 ==> i > 0 && key == es[i - 1].0
      requires restartIndex < numRestarts && Restart(es, interval, restartIndex) <= NextEntryOffset()
      modifies this
      ensures Ok() && r == (i < |es|) && pos == (if i < |es| then Some(i) else None)
      ensures r ==> old(restartIndex) <= restartIndex < numRestarts && Restart(es, interval, restartIndex) <= current
      ensures r && restartIndex + 1 < numRestarts ==> current <= Restart(es, interval, restartIndex + 1)
      ensures !r ==> restartIndex == numRestarts
    {
      hide Ascending, IsOrder, DecodeEntry, EntryBytes, Data, BlockBytes, Shared, Fits;
      OffsetsRise(es, i, |es|, interval);
      current := NextEntryOffset();
      if current >= restarts {
        current := restarts;
        restartIndex := numRestarts;
        pos := None;
        return false;
      }
      TakeEntry(i);
      restartIndex := LaterRestart(restartIndex, current);
      pos := Some(i);
      r := true;
    }

    // The rest of the key goes behind what it shares with the key before, and the value follows.
    method TakeEntry(ghost i: nat)
      requires Formed() && i < |es| && current == Offset(es, i, interval) < restarts
      requires Shared(es, i, interval) > 0 ==> i > 0 && key == es[i - 1].0
      modifies this`key, this`valueAt, this`valueSize
      ensures key == es[i].0 && NextEntryOffset() == Offset(es, i + 1, interval) <= |data|
      ensures data[valueAt..valueAt + valueSize] == es[i].1
    {
      hide Ascending, IsOrder, DecodeEntry, EntryBytes, Data, BlockBytes, Shared, Fits, NumRestarts, Restart;
      hide ReadsAs;
      EntryIsRead(i);
      var h := DecodeEntry(data[current..restarts]).value;
      var p := current + h.size;
      key := key[..h.shared] + data[p..p + h.nonShared];
      valueAt, valueSize := p + h.nonShared, h.valueLength;
    }

    // The parts of entry i where the iterator takes them from.
    lemma EntryIsRead(i: nat)
      requires Formed() && i < |es|
      ensures var o := Offset(es, i, interval);
              o < restarts <= |data|
              && match DecodeEntry(data[o..restarts])
                 case None => false
                 case Some(h) =>
                   var p, q := o + h.size, o + h.size + h.nonShared;
                   h.shared == Shared(es, i, interval) && q + h.valueLength == Offset(es, i + 1, interval) <= |data|
                   && es[i].0[..h.shared] + data[p..q] == es[i].0 && data[q..q + h.valueLength] == es[i].1
    {
      hide Ascending, IsOrder, DecodeEntry, EntryBytes, Data, BlockBytes, Shared, Fits, NumRestarts, Restart;
      EntryDecodes(i);
      NextOffset(i);
      var o := Offset(es, i, interval);
      var h := DecodeEntry(data[o..restarts]).value;
      SliceOfSlice(data, o, restarts, h.size, h.size + h.nonShared);
      SliceOfSlice(data, o, restarts, h.size + h.nonShared, h.size + h.nonShared + h.valueLength);
      assert es[i].0 == es[i].0[..h.shared] + es[i].0[h.shared..];
    }

    // While the next restart point is before the current entry, it is the nearer one.
    method LaterRestart(start: nat, at: nat) returns (next: nat)
      requires Formed() && start < numRestarts && Restart(es, interval, start) <= at
      ensures start <= next < numRestarts && Restart(es, interval, next) <= at
      ensures next + 1 < numRestarts ==> at <= Restart(es, interval, next + 1)
    {
      hide Ascending, IsOrder, Fits, BlockBytes, NumRestarts, Restart, Data;
      next := start;
      while next + 1 < numRestarts
        invariant start <= next < numRestarts && Restart(es, interval, next) <= at
      {
        var point := GetRestartPoint(next + 1);
        if point >= at {
          return;
        }
        next := next + 1;
      }
    }

    lemma NextOffset(i: nat)
      requires Formed() && i < |es|
      ensures Offset(es, i + 1, interval) == Offset(es, i, interval) + |EntryBytes(Shared(es, i, interval), es[i])|
      ensures Offset(es, i + 1, interval) <= restarts <= |data|
    {
      hide EntryBytes, Data, Shared;
      EntryAt(es, i, interval);
      DataFirst(es, interval);
    }

    // What DecodeEntry finds at entry i.
    lemma EntryDecodes(i: nat)
      requires Formed() && i < |es|
      ensures Offset(es, i, interval) < restarts <= |data|
      ensures ReadsAs(data[Offset(es, i, interval)..restarts], Shared(es, i, interval), es[i],
                      |EntryBytes(Shared(es, i, interval), es[i])|)
    {
      hide Ascending, IsOrder, DecodeEntry, EntryBytes, Data, Shared, ReadsAs;
      var shared, e, o := Shared(es, i, interval), es[i], Offset(es, i, interval);
      EntryAt(es, i, interval);
      DataFirst(es, interval);
      var all := Data(es, |es|, interval);
      assert data[o..restarts] == all[o..];
      DecodeEntryOf(shared, e, all[Offset(es, i + 1, interval)..]);
    }

    // ---- The cursor ----

    method SeekToFirst()
      requires Ok()
      modifies this
      ensures Ok() && pos == if |es| > 0 then Some(0) else None
    {
      hide Ascending, IsOrder, DecodeEntry, EntryBytes, BlockBytes, Fits;
      SeekToRestartPoint(0);
      var r := ParseNextKey(0);
    }

    method Next()
      requires Ok() && Valid()
      modifies this
      ensures Ok() && pos == NextPos(|es|, old(pos).value)
    {
      hide Ascending, IsOrder, DecodeEntry, EntryBytes, BlockBytes, Fits, Data;
      OffsetsRise(es, pos.value, pos.value + 1, interval);
      var r := ParseNextKey(pos.value + 1);
    }

    method SeekToLast()
      requires Ok()
      modifies this
      ensures Ok() && pos == if |es| > 0 then Some(|es| - 1) else None
    {
      hide Ascending, IsOrder, DecodeEntry, EntryBytes, BlockBytes, Fits, Data, Shared, NumRestarts;
      RestartInRange(es, interval, numRestarts - 1);
      RestartShares(numRestarts - 1);
      SeekToRestartPoint(numRestarts - 1);
      ghost var i := (numRestarts - 1) * interval;
      var r := ParseNextKey(i);
      while r && NextEntryOffset() < restarts
        invariant Ok() && r == (i < |es|) && pos == (if i < |es| then Some(i) else None) && (|es| > 0 ==> i < |es|)
        decreases |es| - i
      {
        OffsetsRise(es, i, i + 1, interval);
        OffsetsRise(es, i + 1, |es|, interval);
        r := ParseNextKey(i + 1);
        i := i + 1;
      }
      if r {
        OffsetsRise(es, i + 1, |es|, interval);
      }
    }

    // The entry of a restart point shares nothing.
    lemma RestartShares(j: nat)
      requires Formed() && j < numRestarts
      ensures 0 <= j * interval <= |es|
      ensures j * interval < |es| ==> Shared(es, j * interval, interval) == 0
      ensures |es| > 0 ==> j * interval < |es|
    {
      hide Fits, Ascending, IsOrder, BlockBytes, Data, Shared;
      RestartWhole(es, interval, j);
    }

    method Prev()
      requires Ok() && Valid()
      modifies this
      ensures Ok() && pos == PrevPos(old(pos).value)
    {
      hide Ascending, IsOrder, DecodeEntry, EntryBytes, BlockBytes, Fits, Data, Shared, NumRestarts;
      ghost var i := pos.value;
      var original := current;
      var index: nat := restartIndex;
      while true
        invariant index < numRestarts && Ok() && pos == Some(i) && current == original && Restart(es, interval, index) <= original
        decreases index
      {
        var point := GetRestartPoint(index);
        if point < original {
          break;
        }
        if index == 0 {
          FirstRestart();
          OffsetsRise(es, 0, i, interval);
          current := restarts;
          restartIndex := numRestarts;
          pos := None;
          return;
        }
        RestartsRise(index - 1);
        index := index - 1;
      }
      SeekToRestartPoint(index);
      RestartShares(index);
      ghost var k := index * interval;
      EarlierOffset(k, i);
      var r := ParseNextKey(k);
      while r && NextEntryOffset() < original
        invariant Ok() && r && pos == Some(k) && k < i
        decreases i - k
      {
        EarlierOffset(k + 1, i);
        OffsetsRise(es, k, k + 1, interval);
        r := ParseNextKey(k + 1);
        k := k + 1;
      }
      EarlierOffset(k + 1, i);
    }

    lemma FirstRestart()
      requires Formed()
      ensures Restart(es, interval, 0) == 0
    {
      assert 0 * interval == 0;
    }

    lemma RestartsRise(j: nat)
      requires Formed() && j + 1 < numRestarts
      ensures Restart(es, interval, j) <= Restart(es, interval, j + 1)
    {
      hide Data;
      RestartInRange(es, interval, j);
      RestartInRange(es, interval, j + 1);
      assert (j + 1) * interval == j * interval + interval;
      OffsetsRise(es, j * interval, (j + 1) * interval, interval);
    }

    // A smaller offset is that of an earlier entry.
    lemma EarlierOffset(k: nat, i: nat)
      requires Formed() && k <= |es| && i <= |es|
      ensures Offset(es, k, interval) < Offset(es, i, interval) <==> k < i
    {
      hide Data;
      if k < i {
        OffsetsRise(es, k, i, interval);
      } else {
        OffsetsRise(es, i, k, interval);
      }
    }

    // Binary search for the last restart point with a key before the target, then entry by entry.
    method Seek(target: Key)
      requires Ok()
      modifies this
      ensures Ok() && AtOrAfter(es, less, target, pos)
    {
      hide Ascending, IsOrder, DecodeEntry, EntryBytes, BlockBytes, Fits, Data, Shared, NumRestarts, Restart;
      var left := FindRestart(target);
      SeekToRestartPoint(left);
      RestartShares(left);
      ghost var i := left * interval;
      RestartIs(left);
      while true
        invariant Formed() && i <= |es| && NextEntryOffset() == Offset(es, i, interval)
        invariant i < |es| && Shared(es, i, interval) > 0 ==> i > 0 && key == es[i - 1].0
        invariant restartIndex < numRestarts && Restart(es, interval, restartIndex) <= NextEntryOffset()
        invariant forall j :: 0 <= j < i ==> less(es[j].0, target)
        decreases |es| - i
      {
        var r := ParseNextKey(i);
        if !r {
          return;
        }
        if !less(key, target) {
          return;
        }
        OffsetsRise(es, i, i + 1, interval);
        i := i + 1;
      }
    }

    method FindRestart(target: Key) returns (left: nat)
      requires Formed()
      ensures left < numRestarts && forall j :: 0 <= j < left * interval && j < |es| ==> less(es[j].0, target)
      ensures left + 1 < numRestarts ==> forall j: nat :: (left + 1) * interval <= j < |es| ==> !less(es[j].0, target)
    {
      hide Ascending, IsOrder, DecodeEntry, EntryBytes, BlockBytes, Fits, Data, Shared, NumRestarts, Restart;
      var right: nat := numRestarts - 1;
      left := 0;
      assert 0 * interval == 0;
      while left < right
        invariant left <= right < numRestarts
        invariant forall j :: 0 <= j < left * interval && j < |es| ==> less(es[j].0, target)
        invariant right + 1 < numRestarts ==> forall j: nat :: (right + 1) * interval <= j < |es| ==> !less(es[j].0, target)
        decreases right - left
      {
        var mid: nat := (left + right + 1) / 2;
        ManyRestarts();
        RestartEntry(mid);
        var regionOffset := GetRestartPoint(mid);
        var h := DecodeEntry(data[regionOffset..restarts]);
        if h.None? || h.value.shared != 0 {
          // The source reports corruption here; the entry of a restart point shares nothing.
          assert false;
        }
        var at := regionOffset + h.value.size;
        var midKey := data[at..at + h.value.nonShared];
        if less(midKey, target) {
          left := mid;
          EarlierKeys(mid * interval, target);
        } else {
          LaterKeys(mid * interval, target);
          right := mid - 1;
        }
      }
    }

    lemma ManyRestarts()
      requires Formed()
      ensures numRestarts > 1 ==> |es| > 0
    {}

    lemma RestartIs(j: nat)
      requires Formed() && j < numRestarts
      ensures j * interval <= |es| && Restart(es, interval, j) == Offset(es, j * interval, interval)
    {
      RestartInRange(es, interval, j);
    }

    // The key at a restart point is whole.
    lemma RestartEntry(j: nat)
      requires Formed() && j < numRestarts && |es| > 0
      ensures j * interval < |es| && Restart(es, interval, j) <= restarts <= |data|
      ensures match DecodeEntry(data[Restart(es, interval, j)..restarts])
              case None => false
              case Some(h) =>
                var at := Restart(es, interval, j) + h.size;
                h.shared == 0 && at + h.nonShared <= |data| && data[at..at + h.nonShared] == es[j * interval].0
    {
      hide Ascending, IsOrder, DecodeEntry, EntryBytes, Data, Shared;
      RestartShares(j);
      RestartIs(j);
      EntryDecodes(j * interval);
      var o := Restart(es, interval, j);
      var h := DecodeEntry(data[o..restarts]).value;
      SliceOfSlice(data, o, restarts, h.size, h.size + h.nonShared);
    }

    lemma LaterKeys(i: nat, target: Key)
      requires Formed() && i < |es| && !less(es[i].0, target)
      ensures forall j: nat :: i <= j < |es| ==> !less(es[j].0, target)
    {}

    lemma EarlierKeys(i: nat, target: Key)
      requires Formed() && i < |es| && less(es[i].0, target)
      ensures forall j :: 0 <= j < i ==> less(es[j].0, target)
    {}
  }

  lemma RestartWhole(es: seq<KeyValue>, interval: nat, j: nat)
    requires interval > 0 && j < NumRestarts(es, interval)
    ensures 0 <= j * interval <= |es|
    ensures j * interval < |es| ==> Shared(es, j * interval, interval) == 0
    ensures |es| > 0 ==> j * interval < |es|
  {
    hide NumRestarts, Data, SharedPrefix;
    RestartInRange(es, interval, j);
    DivModUnique(j * interval, interval, j, 0);
  }

  lemma DataFirst(es: seq<KeyValue>, interval: nat)
    requires interval > 0
    ensures |BlockBytes(es, interval)| >= Offset(es, |es|, interval)
    ensures BlockBytes(es, interval)[..Offset(es, |es|, interval)] == Data(es, |es|, interval)
  {
    hide Data, ToLittleEndian;
  }
}
