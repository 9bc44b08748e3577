/** What reading a log gives, whatever bytes the file holds. */
module LogScan {
  import opened Wrappers
  import opened Bytes
  import opened Seqs
  import opened Coding
  import opened LogFormat

  // The numbers ReadPhysicalRecord has for the end of the file, and for bytes it gives up.
  const EOF: byte := 5
  const BAD_RECORD: byte := 6

  // ---- One fragment ----

  datatype Fragment = Fragment(t: byte, payload: seq<byte>, next: nat)

  // A fragment; or bytes that are none, how many of them are reported, and where to go on; or the end.
  datatype Step = Found(f: Fragment) | Damaged(reports: seq<nat>, next: nat) | AtEnd

  // The checksum a header stores.
  function StoredChecksum(s: seq<byte>): nat
    requires |s| == 4
  {
    LittleEndianBound(s);
    FourBytes();
    Unmask(LittleEndian(s))
  }

  function ShiftBy(s: Step, n: nat): Step {
    match s
    case AtEnd => AtEnd
    case Damaged(reports, next) => Damaged(reports, n + next)
    case Found(f) => Found(f.(next := n + f.next))
  }

  // The header that the bytes s begin with, when its block has `room` bytes from there on.  A length that does
  // not fit the block, or a wrong checksum, gives up the rest of the block; in the last, short block a length
  // that does not fit is the end.
  function HeaderStep(crc: Checksum, s: seq<byte>, room: nat): (r: Step)
    requires HEADER_SIZE <= |s| && HEADER_SIZE <= room
    ensures r.Found? ==> 0 < r.f.next <= |s| && r.f.next <= room
    ensures r.Damaged? ==> 0 < r.next <= |s| && r.next <= room
    ensures r.AtEnd? ==> |s| < room
  {
    var end := Min(room, |s|);
    var length := (s[4] as int) + 256 * (s[5] as int);
    var n := HEADER_SIZE + length;
    if n > end then if end == room then Damaged([end], end) else AtEnd
    else if s[6] == 0 && length == 0 then Damaged([], end)
    else if crc(s[6..n]) != StoredChecksum(s[..4]) then Damaged([end], end)
    else Found(Fragment(s[6], s[7..n], n))
  }

  // Nothing but the block matters.
  lemma BlockAlone(crc: Checksum, s: seq<byte>, room: nat)
    requires HEADER_SIZE <= |s| && HEADER_SIZE <= room
    ensures HeaderStep(crc, s, room) == HeaderStep(crc, s[..Min(room, |s|)], room)
  {
    hide StoredChecksum;
    var t := s[..Min(room, |s|)];
    var n := HEADER_SIZE + (s[4] as int) + 256 * (s[5] as int);
    if n <= |t| {
      assert s[6..n] == t[6..n] && s[7..n] == t[7..n] && s[..4] == t[..4];
    }
  }

  // What is behind a file position.
  function NextStep(crc: Checksum, file: seq<byte>, p: nat): (r: Step)
    ensures r.Found? ==> p < r.f.next <= |file|
    ensures r.Damaged? ==> p < r.next <= |file|
  {
    var q := p + Trailer(p);
    if q + HEADER_SIZE > |file| then AtEnd else ShiftBy(HeaderStep(crc, file[q..], Leftover(q)), q)
  }

  lemma NoHeader(crc: Checksum, file: seq<byte>, p: nat)
    requires p + Trailer(p) + HEADER_SIZE > |file|
    ensures NextStep(crc, file, p) == AtEnd
  {}

  // ---- All that follows a position ----

  datatype Outcome = Outcome(records: seq<seq<byte>>, reports: seq<nat>)

  // What is reported and what is read before it.
  function Behind(reports: seq<nat>, records: seq<seq<byte>>, o: Outcome): Outcome {
    Outcome(records + o.records, reports + o.reports)
  }

  // The size of a record begun that damage, or another beginning, puts an end to.
  function Lost(scratch: Option<seq<byte>>): seq<nat> {
    if scratch.Some? then [|scratch.value|] else []
  }

  function GivenUp(scratch: Option<seq<byte>>): seq<nat> {
    if scratch.Some? && scratch.value != [] then [|scratch.value|] else []
  }

  // What a fragment gives when `scratch` has the fragments of a record begun: records, reports, and what is begun then.
  datatype Taken = Taken(records: seq<seq<byte>>, reports: seq<nat>, scratch: Option<seq<byte>>)

  function Take(scratch: Option<seq<byte>>, t: byte, payload: seq<byte>): Taken {
    if t == FULL then Taken([payload], GivenUp(scratch), None)
    else if t == FIRST then Taken([], GivenUp(scratch), Some(payload))
    else if t == MIDDLE then
      if scratch.None? then Taken([], [|payload|], None) else Taken([], [], Some(scratch.value + payload))
    else if t == LAST then
      if scratch.None? then Taken([], [|payload|], None) else Taken([scratch.value + payload], [], None)
    else if t == BAD_RECORD then Taken([], Lost(scratch), None)
    else Taken([], [|payload| + (if scratch.Some? then |scratch.value| else 0)], None)
  }

  // The records from p on, and what is reported.  A type of 5 ends the log, because the reader has that number
  // for the end of the file; 6 is its number for bad bytes.
  function Read(crc: Checksum, file: seq<byte>, p: nat, scratch: Option<seq<byte>>): Outcome
    decreases |file| - p
  {
    match NextStep(crc, file, p)
    case AtEnd => Outcome([], [])
    case Damaged(reports, next) => Behind(reports + Lost(scratch), [], Read(crc, file, next, None))
    case Found(f) =>
      if f.t == EOF then Outcome([], [])
      else
        var taken := Take(scratch, f.t, f.payload);
        Behind(taken.reports, taken.records, Read(crc, file, f.next, taken.scratch))
  }

  // ---- What a fragment is ----

  // The bytes behind p, past the trailer of a block if need be, are those of a fragment within its block.
  ghost predicate FragmentAt(crc: Checksum, file: seq<byte>, p: nat, f: Fragment) {
    var q := p + Trailer(p);
    IsChecksum(crc) && f.next == q + HEADER_SIZE + |f.payload| <= |file| && HEADER_SIZE + |f.payload| <= Leftover(q)
    && file[q..f.next] == Physical(crc, f.t, f.payload)
  }

  ghost predicate IsFiller(f: Fragment) {
    f.t == 0 && f.payload == []
  }

  // Of any bytes, the reader takes for a fragment what the writer would have written for it, and nothing else.
  lemma FoundIff(crc: Checksum, file: seq<byte>, p: nat, f: Fragment)
    requires IsChecksum(crc)
    ensures NextStep(crc, file, p) == Found(f) <==> FragmentAt(crc, file, p, f) && !IsFiller(f)
  {
    if FragmentAt(crc, file, p, f) && !IsFiller(f) {
      WrittenIsFound(crc, file, p, f);
    }
    if NextStep(crc, file, p) == Found(f) {
      FoundIsWritten(crc, file, p, f);
    }
  }

  lemma WrittenIsFound(crc: Checksum, file: seq<byte>, p: nat, f: Fragment)
    requires FragmentAt(crc, file, p, f) && !IsFiller(f)
    ensures NextStep(crc, file, p) == Found(f)
  {
    hide Trailer, Leftover, Physical, Unmask, LittleEndian;
    var q, s := p + Trailer(p), Physical(crc, f.t, f.payload);
    var t := file[q..];
    PhysicalParts(crc, f.t, f.payload);
    assert t[..|s|] == s;
    assert t[4] == s[4] && t[5] == s[5] && t[6] == s[6];
    assert t[..4] == s[..4] && t[7..|s|] == s[7..] && t[6..|s|] == [f.t] + f.payload;
  }

  lemma FoundIsWritten(crc: Checksum, file: seq<byte>, p: nat, f: Fragment)
    requires IsChecksum(crc) && NextStep(crc, file, p) == Found(f)
    ensures FragmentAt(crc, file, p, f) && !IsFiller(f)
  {
    hide Trailer, Leftover, Mask, Unmask, LittleEndian, ToLittleEndian;
    var q := p + Trailer(p);
    var t := file[q..];
    var n := f.next - q;
    var head := t[..4];
    LittleEndianBound(head);
    FourBytes();
    UnmaskRoundTrip(LittleEndian(head));
    FixedRoundTrip(LittleEndian(head), 4);
    LittleEndianInjective(ToLittleEndian(LittleEndian(head), 4), head);
    assert f.payload == t[7..n] && t[6..n] == [f.t] + f.payload;
    var a, b := t[4] as int, t[5] as int;
    DivModUnique(|f.payload|, 256, b, a);
    assert t[..n] == head + [t[4], t[5], f.t] + f.payload;
    assert file[q..f.next] == t[..n];
  }

  // ---- A log as it was written, whole or cut off anywhere ----

  // At p the file goes on with a record, or the rest of one, that ends at `end`.
  ghost predicate RecordAt(crc: Checksum, whole: seq<byte>, p: nat, data: seq<byte>, begin: bool, end: nat) {
    IsChecksum(crc) && p <= end <= |whole| && whole[p..end] == RecordBytes(crc, p, data, begin)
  }

  // The first fragment of a record.
  function FirstOf(p: nat, data: seq<byte>, begin: bool): Fragment {
    var n := FragmentLength(p, data);
    Fragment(FragmentType(begin, n == |data|), data[..n], p + Trailer(p) + HEADER_SIZE + n)
  }

  // A record is its first fragment, and the rest of it.
  lemma RecordStarts(crc: Checksum, whole: seq<byte>, p: nat, data: seq<byte>, begin: bool, end: nat)
    requires RecordAt(crc, whole, p, data, begin, end)
    ensures var n := FragmentLength(p, data);
            var f := FirstOf(p, data, begin);
            FragmentAt(crc, whole, p, f) && f.next <= end
            && (if n == |data| then f.next == end else RecordAt(crc, whole, f.next, data[n..], false, end))
  {
    hide Physical, Leftover, Zeros, IsChecksum;
    var n := FragmentLength(p, data);
    var next := p + Trailer(p) + HEADER_SIZE + n;
    var a, b := Zeros(Trailer(p)), Physical(crc, FragmentType(begin, n == |data|), data[..n]);
    var s := whole[p..end];
    if n == |data| {
      assert s == a + b;
    } else {
      FragmentFills(p, data);
      assert s == (a + b) + RecordBytes(crc, next, data[n..], false);
      SliceOfSlice(whole, p, end, |a + b|, end - p);
    }
    assert s[|a|..|a + b|] == b;
    SliceOfSlice(whole, p, end, |a|, |a + b|);
  }

  // Where a log was to go on with a fragment, a file cut off somewhere has it or is at its end.
  lemma CutFragment(crc: Checksum, file: seq<byte>, whole: seq<byte>, p: nat, f: Fragment)
    requires file <= whole && p <= |file| && FragmentAt(crc, whole, p, f) && !IsFiller(f)
    ensures NextStep(crc, file, p) == if f.next <= |file| then Found(f) else AtEnd
  {
    hide Trailer, Leftover, Physical, Unmask, LittleEndian;
    var q, s := p + Trailer(p), Physical(crc, f.t, f.payload);
    if f.next <= |file| {
      assert file[q..f.next] == whole[q..f.next];
      WrittenIsFound(crc, file, p, f);
    } else if q + HEADER_SIZE <= |file| {
      PhysicalParts(crc, f.t, f.payload);
      assert file[q + 4] == s[4] && file[q + 5] == s[5];
    }
  }

  // The data of a record whose first part is in `scratch`.
  function Joined(scratch: Option<seq<byte>>, data: seq<byte>): seq<byte> {
    if scratch.Some? then scratch.value + data else data
  }

  lemma {:induction false} RecordRead(crc: Checksum, file: seq<byte>, whole: seq<byte>, p: nat, data: seq<byte>, end: nat,
                                      scratch: Option<seq<byte>>)
    requires file <= whole && p <= |file| && RecordAt(crc, whole, p, data, scratch.None?, end)
    ensures Read(crc, file, p, scratch)
         == if end <= |file| then Behind([], [Joined(scratch, data)], Read(crc, file, end, None)) else Outcome([], [])
    decreases end - p
  {
    hide RecordAt, FragmentAt, NextStep, FragmentLength;
    RecordStarts(crc, whole, p, data, scratch.None?, end);
    var n, f := FragmentLength(p, data), FirstOf(p, data, scratch.None?);
    CutFragment(crc, file, whole, p, f);
    if f.next <= |file| && n < |data| {
      var more := Some(Joined(scratch, data[..n]));
      RecordRead(crc, file, whole, f.next, data[n..], end, more);
      assert data == data[..n] + data[n..];
      assert Joined(more, data[n..]) == Joined(scratch, data);
    } else {
      assert data[..|data|] == data;
    }
  }

  lemma NextRecordAt(crc: Checksum, records: seq<seq<byte>>, i: nat)
    requires IsChecksum(crc) && i < |records|
    ensures var whole, p, end := LogBytes(crc, 0, records), |LogBytes(crc, 0, records[..i])|, |LogBytes(crc, 0, records[..i + 1])|;
            RecordAt(crc, whole, p, records[i], true, end) && p < end
  {
    hide RecordBytes;
    var front := records[..i];
    var p := |LogBytes(crc, 0, front)|;
    assert records[..i + 1] == front + [records[i]];
    assert records == (front + [records[i]]) + records[i + 1..];
    LogBytesConcat(crc, 0, front, [records[i]]);
    LogBytesConcat(crc, 0, front + [records[i]], records[i + 1..]);
    var one: seq<seq<byte>> := [records[i]];
    assert |one[1..]| == 0;
    var r := RecordBytes(crc, p, records[i], true);
    assert r + [] == r;
    assert LogBytes(crc, p, [records[i]]) == r;
    var whole := LogBytes(crc, 0, records);
    var a := LogBytes(crc, 0, front);
    assert whole == (a + r) + LogBytes(crc, |a + r|, records[i + 1..]);
    assert whole[|a|..|a + r|] == r;
  }

  // The file holds the first n of these records whole, and perhaps a part of the next.
  ghost predicate HoldsWhole(crc: Checksum, file: seq<byte>, records: seq<seq<byte>>, n: nat) {
    IsChecksum(crc) && n <= |records| && file <= LogBytes(crc, 0, records) && |LogBytes(crc, 0, records[..n])| <= |file|
    && (n < |records| ==> |file| < |LogBytes(crc, 0, records[..n + 1])|)
  }

  // From the end of record i on, the records that are wholly there are read, and nothing is reported.
  lemma {:induction false} CutLogFrom(crc: Checksum, file: seq<byte>, records: seq<seq<byte>>, i: nat) returns (n: nat)
    requires IsChecksum(crc) && i <= |records| && file <= LogBytes(crc, 0, records)
    requires |LogBytes(crc, 0, records[..i])| <= |file|
    ensures i <= n && HoldsWhole(crc, file, records, n)
    ensures Read(crc, file, |LogBytes(crc, 0, records[..i])|, None) == Outcome(records[i..n], [])
    decreases |records| - i
  {
    hide RecordAt, LogBytes, RecordBytes, Read;
    var whole, p := LogBytes(crc, 0, records), |LogBytes(crc, 0, records[..i])|;
    if i == |records| {
      n := i;
      assert records[..i] == records;
      NothingBehind(crc, file);
      return;
    }
    NextRecordAt(crc, records, i);
    var end := |LogBytes(crc, 0, records[..i + 1])|;
    RecordRead(crc, file, whole, p, records[i], end, None);
    if end <= |file| {
      n := CutLogFrom(crc, file, records, i + 1);
      assert records[i..n] == [records[i]] + records[i + 1..n];
    } else {
      n := i;
    }
  }

  lemma NothingBehind(crc: Checksum, file: seq<byte>)
    ensures Read(crc, file, |file|, None) == Outcome([], [])
  {}

  lemma NoRecords(crc: Checksum)
    requires IsChecksum(crc)
    ensures LogBytes(crc, 0, []) == []
  {}

  // A file that was to hold these records and was cut off somewhere reads as those that lie wholly before the
  // cut, in order, and no corruption is reported.
  lemma CutLogReads(crc: Checksum, file: seq<byte>, records: seq<seq<byte>>) returns (n: nat)
    requires IsChecksum(crc) && file <= LogBytes(crc, 0, records)
    ensures HoldsWhole(crc, file, records, n) && Read(crc, file, 0, None) == Outcome(records[..n], [])
  {
    hide LogBytes, Read;
    NoRecords(crc);
    assert records[..0] == [];
    n := CutLogFrom(crc, file, records, 0);
  }

  // An uncut file gives back every record.
  lemma WholeFileGivesAll(crc: Checksum, records: seq<seq<byte>>)
    requires IsChecksum(crc)
    ensures Read(crc, LogBytes(crc, 0, records), 0, None) == Outcome(records, [])
  {
    hide LogBytes, Read;
    var n := CutLogReads(crc, LogBytes(crc, 0, records), records);
    if n < |records| {
      FewerRecords(crc, records, n + 1);
    }
    assert records[..|records|] == records;
  }

  lemma FewerRecords(crc: Checksum, records: seq<seq<byte>>, n: nat)
    requires IsChecksum(crc) && n <= |records|
    ensures |LogBytes(crc, 0, records[..n])| <= |LogBytes(crc, 0, records)|
  {
    hide RecordBytes, LogBytes;
    assert records == records[..n] + records[n..];
    LogBytesConcat(crc, 0, records[..n], records[n..]);
  }

  // Two ways to say how much is whole agree.
  lemma WholeIsOne(crc: Checksum, file: seq<byte>, records: seq<seq<byte>>, n: nat, m: nat)
    requires HoldsWhole(crc, file, records, n) && HoldsWhole(crc, file, records, m)
    ensures n == m
  {
    hide LogBytes;
    if n < m {
      assert records[..m][..n + 1] == records[..n + 1];
      FewerRecords(crc, records[..m], n + 1);
    } else if m < n {
      assert records[..n][..m + 1] == records[..m + 1];
      FewerRecords(crc, records[..n], m + 1);
    }
  }

  // A crash while a record is being appended leaves the records before it whole, and the record itself exactly
  // if all of it is there.
  lemma TornHolds(crc: Checksum, records: seq<seq<byte>>, r: seq<byte>, file: seq<byte>)
    requires IsChecksum(crc) && LogBytes(crc, 0, records) <= file <= LogBytes(crc, 0, records + [r])
    ensures HoldsWhole(crc, file, records + [r], if file == LogBytes(crc, 0, records + [r]) then |records| + 1 else |records|)
  {
    hide LogBytes, IsChecksum;
    var all := records + [r];
    var whole := LogBytes(crc, 0, all);
    assert all[..|records|] == records && all[..|records| + 1] == all;
    if |file| == |whole| {
      assert whole[..|file|] == whole;
    }
  }

  // So that is what reading gives then.
  lemma TornAppend(crc: Checksum, records: seq<seq<byte>>, r: seq<byte>, file: seq<byte>)
    requires IsChecksum(crc) && LogBytes(crc, 0, records) <= file <= LogBytes(crc, 0, records + [r])
    ensures Read(crc, file, 0, None)
         == Outcome(if file == LogBytes(crc, 0, records + [r]) then records + [r] else records, [])
  {
    hide LogBytes, Read, HoldsWhole;
    var all := records + [r];
    assert all[..|all|] == all && all[..|records|] == records;
    TornHolds(crc, records, r, file);
    var n := CutLogReads(crc, file, all);
    WholeIsOne(crc, file, all, n, if file == LogBytes(crc, 0, all) then |all| else |records|);
  }

  // ---- Any bytes: nothing is made up ----

  // Where fragment i of a chain that begins at a is looked for.
  function StartOf(a: nat, fs: seq<Fragment>, i: nat): nat
    requires i <= |fs|
  {
    if i == 0 then a else fs[i - 1].next
  }

  // Fragments one behind the other.
  ghost predicate Chained(crc: Checksum, file: seq<byte>, a: nat, fs: seq<Fragment>) {
    forall i :: 0 <= i < |fs| ==> FragmentAt(crc, file, StartOf(a, fs, i), fs[i])
  }

  function Payload(fs: seq<Fragment>): seq<byte> {
    if fs == [] then [] else Payload(fs[..|fs| - 1]) + fs[|fs| - 1].payload
  }

  // The first fragments of a record: one of type 2 and then those of type 3.
  ghost predicate Begun(crc: Checksum, file: seq<byte>, a: nat, fs: seq<Fragment>, p: nat, data: seq<byte>) {
    Chained(crc, file, a, fs) && fs != [] && StartOf(a, fs, |fs|) == p && Payload(fs) == data
    && fs[0].t == 2 && forall i :: 1 <= i < |fs| ==> fs[i].t == 3
  }

  // One fragment of type 1, or such a beginning and one of type 4.
  ghost predicate Framed(fs: seq<Fragment>) {
    fs != [] && fs[|fs| - 1].t == (if |fs| == 1 then 1 else 4)
    && forall i :: 0 <= i < |fs| - 1 ==> fs[i].t == (if i == 0 then 2 else 3)
  }

  ghost predicate WholeRecord(crc: Checksum, file: seq<byte>, r: seq<byte>) {
    exists a: nat, fs: seq<Fragment> :: Chained(crc, file, a, fs) && Framed(fs) && Payload(fs) == r
  }

  lemma OneFragmentMore(crc: Checksum, file: seq<byte>, a: nat, fs: seq<Fragment>, p: nat, f: Fragment)
    requires Chained(crc, file, a, fs) && StartOf(a, fs, |fs|) == p && FragmentAt(crc, file, p, f)
    ensures Chained(crc, file, a, fs + [f]) && Payload(fs + [f]) == Payload(fs) + f.payload
    ensures StartOf(a, fs + [f], |fs| + 1) == f.next
  {
    hide FragmentAt;
    var all := fs + [f];
    assert all[..|fs|] == fs;
    forall i | 0 <= i < |all|
      ensures FragmentAt(crc, file, StartOf(a, all, i), all[i])
    {
      if i < |fs| {
        assert StartOf(a, all, i) == StartOf(a, fs, i);
      }
    }
  }

  // The record of a fragment of type 1, or of one of type 4 behind a beginning.
  lemma LastFragment(crc: Checksum, file: seq<byte>, a: nat, fs: seq<Fragment>, p: nat, f: Fragment)
    requires FragmentAt(crc, file, p, f) && Chained(crc, file, a, fs) && StartOf(a, fs, |fs|) == p && Framed(fs + [f])
    ensures WholeRecord(crc, file, Payload(fs) + f.payload)
  {
    hide FragmentAt, Chained, Payload, Framed;
    OneFragmentMore(crc, file, a, fs, p, f);
  }

  // Whatever the bytes: a record that is read was written as one, fragment by fragment, each with its own
  // checksum, one behind the other.
  lemma {:induction false} ReadIsWritten(crc: Checksum, file: seq<byte>, p: nat, scratch: Option<seq<byte>>, a: nat, fs: seq<Fragment>)
    requires IsChecksum(crc) && (scratch.Some? ==> Begun(crc, file, a, fs, p, scratch.value))
    ensures forall r :: r in Read(crc, file, p, scratch).records ==> WholeRecord(crc, file, r)
    decreases |file| - p
  {
    hide NextStep, FragmentAt, WholeRecord, Chained, Payload;
    match NextStep(crc, file, p)
    case AtEnd =>
    case Damaged(_, next) => ReadIsWritten(crc, file, next, None, 0, []);
    case Found(f) =>
      FoundIff(crc, file, p, f);
      ReadIsWritten(crc, file, f.next, None, 0, []);
      NoFragments(crc, file, p);
      if f.t == FULL {
        LastFragment(crc, file, p, [], p, f);
        assert [] + f.payload == f.payload;
      } else if f.t == FIRST {
        OneFragmentMore(crc, file, p, [], p, f);
        assert [] + [f] == [f] && [] + f.payload == f.payload;
        ReadIsWritten(crc, file, f.next, Some(f.payload), p, [f]);
      } else if f.t == MIDDLE && scratch.Some? {
        OneFragmentMore(crc, file, a, fs, p, f);
        ReadIsWritten(crc, file, f.next, Some(scratch.value + f.payload), a, fs + [f]);
      } else if f.t == LAST && scratch.Some? {
        LastFragment(crc, file, a, fs, p, f);
      }
  }

  lemma NoFragments(crc: Checksum, file: seq<byte>, p: nat)
    ensures Chained(crc, file, p, []) && Payload([]) == []
  {}

  lemma NothingMadeUp(crc: Checksum, file: seq<byte>)
    requires IsChecksum(crc)
    ensures forall r :: r in Read(crc, file, 0, None).records ==> WholeRecord(crc, file, r)
  {
    hide WholeRecord, Read;
    ReadIsWritten(crc, file, 0, None, 0, []);
  }

  // ---- Any bytes: nothing is lost in silence ----

  function Sum(ns: seq<nat>): nat {
    if ns == [] then 0 else Sum(ns[..|ns| - 1]) + ns[|ns| - 1]
  }

  function TotalSize(records: seq<seq<byte>>): nat {
    if records == [] then 0 else TotalSize(records[..|records| - 1]) + |records[|records| - 1]|
  }

  lemma {:induction false} SumOfBoth(a: seq<nat>, b: seq<nat>)
    ensures Sum(a + b) == Sum(a) + Sum(b)
  {
    if b == [] {
      assert a + b == a;
    } else {
      assert (a + b)[..|a + b| - 1] == a + b[..|b| - 1];
      SumOfBoth(a, b[..|b| - 1]);
    }
  }

  lemma {:induction false} TotalOfBoth(a: seq<seq<byte>>, b: seq<seq<byte>>)
    ensures TotalSize(a + b) == TotalSize(a) + TotalSize(b)
  {
    if b == [] {
      assert a + b == a;
    } else {
      assert (a + b)[..|a + b| - 1] == a + b[..|b| - 1];
      TotalOfBoth(a, b[..|b| - 1]);
    }
  }

  function SizeOf(scratch: Option<seq<byte>>): nat {
    if scratch.Some? then |scratch.value| else 0
  }

  // The bytes met from p on: of fragments, and of blocks given up for damage.
  function Met(crc: Checksum, file: seq<byte>, p: nat): nat
    decreases |file| - p
  {
    match NextStep(crc, file, p)
    case AtEnd => 0
    case Damaged(reports, next) => Sum(reports) + Met(crc, file, next)
    case Found(f) => |f.payload| + if f.t == 5 then 0 else Met(crc, file, f.next)
  }

  // Those that are passed over in silence: of fragments of types 5 and 6, and of a record begun when the log
  // ends.
  function Silent(crc: Checksum, file: seq<byte>, p: nat, scratch: Option<seq<byte>>): nat
    decreases |file| - p
  {
    match NextStep(crc, file, p)
    case AtEnd => SizeOf(scratch)
    case Damaged(_, next) => Silent(crc, file, next, None)
    case Found(f) =>
      if f.t == 5 then SizeOf(scratch) + |f.payload|
      else if f.t == 6 then |f.payload| + Silent(crc, file, f.next, None)
      else Silent(crc, file, f.next, Take(scratch, f.t, f.payload).scratch)
  }

  // What a fragment brings is in a record, reported, kept for the record begun, or of type 6.
  lemma TakeAccounts(scratch: Option<seq<byte>>, t: byte, payload: seq<byte>)
    ensures var taken := Take(scratch, t, payload);
            SizeOf(scratch) + |payload|
            == TotalSize(taken.records) + Sum(taken.reports) + SizeOf(taken.scratch) + if t == 6 then |payload| else 0
  {
    hide Sum, TotalSize;
    SumOfOne();
  }

  // Every byte met is in a record that is read, or reported, or passed over in silence.
  lemma {:induction false} BytesAccounted(crc: Checksum, file: seq<byte>, p: nat, scratch: Option<seq<byte>>)
    ensures var o := Read(crc, file, p, scratch);
            SizeOf(scratch) + Met(crc, file, p) == TotalSize(o.records) + Sum(o.reports) + Silent(crc, file, p, scratch)
    decreases |file| - p
  {
    hide NextStep, Take, Sum, TotalSize;
    SumOfOne();
    match NextStep(crc, file, p)
    case AtEnd =>
    case Damaged(reports, next) =>
      BytesAccounted(crc, file, next, None);
      var o := Read(crc, file, next, None);
      SumOfBoth(reports, Lost(scratch));
      SumOfBoth(reports + Lost(scratch), o.reports);
      TotalOfBoth([], o.records);
    case Found(f) =>
      if f.t != EOF {
        var taken := Take(scratch, f.t, f.payload);
        TakeAccounts(scratch, f.t, f.payload);
        BytesAccounted(crc, file, f.next, taken.scratch);
        var o := Read(crc, file, f.next, taken.scratch);
        SumOfBoth(taken.reports, o.reports);
        TotalOfBoth(taken.records, o.records);
        BadIsGivenUp(scratch, f.payload);
      }
  }

  lemma SumOfOne()
    ensures Sum([]) == 0 && TotalSize([]) == 0
    ensures (forall n: nat :: Sum([n]) == n) && forall r: seq<byte> :: TotalSize([r]) == |r|
  {
    forall n: nat
      ensures Sum([n]) == n
    {
      assert [n][..0] == [];
    }
    forall r: seq<byte>
      ensures TotalSize([r]) == |r|
    {
      assert [r][..0] == [];
    }
  }

  lemma BadIsGivenUp(scratch: Option<seq<byte>>, payload: seq<byte>)
    ensures Take(scratch, BAD_RECORD, payload).scratch == None
  {}

  // ---- Any bytes: damage ends with its block ----

  // Somewhere in these blocks a fragment stands that the reader takes for the end of the file.
  function Stops(crc: Checksum, front: seq<byte>, p: nat): bool
    decreases |front| - p
  {
    match NextStep(crc, front, p)
    case AtEnd => false
    case Damaged(_, next) => Stops(crc, front, next)
    case Found(f) => f.t == EOF || Stops(crc, front, f.next)
  }

  ghost predicate EndsWith(a: seq<seq<byte>>, b: seq<seq<byte>>) {
    |b| <= |a| && a[|a| - |b|..] == b
  }

  lemma NextBlock(p: nat, end: nat)
    requires p <= end && end % BLOCK_SIZE == 0
    ensures p < end ==> p + Leftover(p) <= end && p + Trailer(p) <= end
    ensures Trailer(end) == 0 && Trailer(p + Trailer(p)) == 0
  {
    LeftoverEnds(p);
    if p < end {
      var d := end - p / BLOCK_SIZE * BLOCK_SIZE;
      assert d % BLOCK_SIZE == 0 && d > 0;
      assert p / BLOCK_SIZE * BLOCK_SIZE + p % BLOCK_SIZE == p;
    }
  }

  // Within the blocks, what follows them does not matter.
  lemma SameStep(crc: Checksum, front: seq<byte>, file: seq<byte>, p: nat)
    requires front <= file && |front| % BLOCK_SIZE == 0 && p + Trailer(p) < |front|
    ensures NextStep(crc, file, p) == NextStep(crc, front, p) && !NextStep(crc, front, p).AtEnd?
  {
    hide HeaderStep, Leftover, Trailer;
    var q := p + Trailer(p);
    NextBlock(p, |front|);
    NextBlock(q, |front|);
    var s, t, room := file[q..], front[q..], Leftover(q);
    BlockAlone(crc, s, room);
    BlockAlone(crc, t, room);
    assert s[..room] == t[..room];
  }

  // At the trailer of a block, one reads on behind it.
  lemma SkipTrailer(crc: Checksum, file: seq<byte>, p: nat, scratch: Option<seq<byte>>)
    ensures Read(crc, file, p, scratch) == Read(crc, file, p + Trailer(p), scratch)
  {
    LeftoverEnds(p);
    assert Trailer(p + Trailer(p)) == 0;
    assert NextStep(crc, file, p) == NextStep(crc, file, p + Trailer(p));
  }

  // A record begun before does not change what is read from the next one on.
  lemma {:induction false} AnyScratch(crc: Checksum, file: seq<byte>, p: nat, scratch: Option<seq<byte>>) returns (more: seq<seq<byte>>)
    ensures Read(crc, file, p, scratch).records == more + Read(crc, file, p, None).records
    decreases |file| - p
  {
    hide NextStep;
    more := [];
    match NextStep(crc, file, p)
    case AtEnd =>
    case Damaged(_, next) =>
    case Found(f) =>
      if scratch.Some? && f.t == MIDDLE {
        more := AnyScratch(crc, file, f.next, Some(scratch.value + f.payload));
      } else if scratch.Some? && f.t == LAST {
        more := [scratch.value + f.payload];
      }
  }

  lemma {:induction false} Resync(crc: Checksum, front: seq<byte>, file: seq<byte>, p: nat, scratch: Option<seq<byte>>)
    returns (before: seq<seq<byte>>)
    requires front <= file && |front| % BLOCK_SIZE == 0 && p <= |front| && !Stops(crc, front, p)
    ensures Read(crc, file, p, scratch).records == before + Read(crc, file, |front|, None).records
    decreases |front| - p
  {
    hide NextStep, Trailer, Take;
    NextBlock(p, |front|);
    if p + Trailer(p) >= |front| {
      SkipTrailer(crc, file, p, scratch);
      before := AnyScratch(crc, file, |front|, scratch);
    } else {
      SameStep(crc, front, file, p);
      match NextStep(crc, front, p)
      case Damaged(_, next) =>
        before := Resync(crc, front, file, next, None);
      case Found(f) =>
        before := Resync(crc, front, file, f.next, Take(scratch, f.t, f.payload).scratch);
        before := Take(scratch, f.t, f.payload).records + before;
    }
  }

  lemma {:induction false} Stopped(crc: Checksum, front: seq<byte>, file: seq<byte>, p: nat, scratch: Option<seq<byte>>)
    requires front <= file && |front| % BLOCK_SIZE == 0 && p <= |front| && Stops(crc, front, p)
    ensures Read(crc, file, p, scratch) == Read(crc, front, p, scratch)
    decreases |front| - p
  {
    hide NextStep, Trailer, Take;
    NextBlock(p, |front|);
    NothingStops(crc, front, p);
    SameStep(crc, front, file, p);
    match NextStep(crc, front, p)
    case Damaged(_, next) => Stopped(crc, front, file, next, None);
    case Found(f) => if f.t != EOF { Stopped(crc, front, file, f.next, Take(scratch, f.t, f.payload).scratch); }
  }

  lemma NothingStops(crc: Checksum, front: seq<byte>, p: nat)
    requires Stops(crc, front, p)
    ensures p + Trailer(p) < |front|
  {}

  // Whole blocks in front of a file move everything in it by as much.
  lemma {:induction false} Shifted(crc: Checksum, front: seq<byte>, rest: seq<byte>, k: nat, scratch: Option<seq<byte>>)
    requires |front| % BLOCK_SIZE == 0 && k <= |rest|
    ensures Read(crc, front + rest, |front| + k, scratch) == Read(crc, rest, k, scratch)
    decreases |rest| - k
  {
    hide NextStep;
    ShiftedStep(crc, front, rest, k);
    match NextStep(crc, rest, k)
    case AtEnd =>
    case Damaged(_, next) => Shifted(crc, front, rest, next, None);
    case Found(f) => if f.t != EOF { Shifted(crc, front, rest, f.next, Take(scratch, f.t, f.payload).scratch); }
  }

  lemma ShiftedStep(crc: Checksum, front: seq<byte>, rest: seq<byte>, k: nat)
    requires |front| % BLOCK_SIZE == 0 && k <= |rest|
    ensures NextStep(crc, front + rest, |front| + k) == ShiftBy(NextStep(crc, rest, k), |front|)
  {
    hide HeaderStep, Leftover, Trailer;
    LeftoverShifted(|front|, k);
    LeftoverShifted(|front|, k + Trailer(k));
    var q := k + Trailer(k);
    if q <= |rest| {
      assert (front + rest)[|front| + q..] == rest[q..];
    }
  }

  lemma LeftoverShifted(n: nat, k: nat)
    requires n % BLOCK_SIZE == 0
    ensures Leftover(n + k) == Leftover(k) && Trailer(n + k) == Trailer(k)
  {
    DivModUnique(n + k, BLOCK_SIZE, n / BLOCK_SIZE + k / BLOCK_SIZE, k % BLOCK_SIZE);
  }

  // Whatever whole blocks stand in front: what is behind them is read as if it were a file of its own.  This
  // holds for all that may be behind them, if and only if no fragment in them is taken for the end.
  lemma ReadsOnIff(crc: Checksum, front: seq<byte>)
    requires IsChecksum(crc) && |front| % BLOCK_SIZE == 0
    ensures (forall rest: seq<byte> :: EndsWith(Read(crc, front + rest, 0, None).records, Read(crc, rest, 0, None).records))
            <==> !Stops(crc, front, 0)
  {
    hide Read, Stops;
    if Stops(crc, front, 0) {
      // One record more behind them than is read at all.
      var n := |Read(crc, front, 0, None).records| + 1;
      var records: seq<seq<byte>> := seq(n, _ => []);
      var rest := LogBytes(crc, 0, records);
      Stopped(crc, front, front + rest, 0, None);
      Stopped(crc, front, front, 0, None);
      WholeFileGivesAll(crc, records);
      assert !EndsWith(Read(crc, front + rest, 0, None).records, Read(crc, rest, 0, None).records);
    } else {
      forall rest: seq<byte>
        ensures EndsWith(Read(crc, front + rest, 0, None).records, Read(crc, rest, 0, None).records)
      {
        ReadsOn(crc, front, rest);
      }
    }
  }

  lemma ReadsOn(crc: Checksum, front: seq<byte>, rest: seq<byte>)
    requires |front| % BLOCK_SIZE == 0 && !Stops(crc, front, 0)
    ensures EndsWith(Read(crc, front + rest, 0, None).records, Read(crc, rest, 0, None).records)
  {
    hide Read, Stops;
    var before := Resync(crc, front, front + rest, 0, None);
    Shifted(crc, front, rest, 0, None);
  }

  // Such a fragment hides all that is behind it, though its checksum is right and nothing is reported.
  lemma EndMarkHides(crc: Checksum, payload: seq<byte>, rest: seq<byte>)
    requires IsChecksum(crc) && |payload| <= BLOCK_SIZE - HEADER_SIZE
    ensures Read(crc, Physical(crc, 5, payload) + rest, 0, None) == Outcome([], [])
  {
    hide Physical, NextStep;
    var f := Fragment(5, payload, HEADER_SIZE + |payload|);
    var file := Physical(crc, 5, payload) + rest;
    assert Leftover(0) == BLOCK_SIZE;
    assert file[0..f.next] == Physical(crc, 5, payload);
    WrittenIsFound(crc, file, 0, f);
  }

  // ---- A log damaged in some blocks ----

  // The rest of a record without its beginning is passed over.
  lemma {:induction false} RestSkipped(crc: Checksum, whole: seq<byte>, p: nat, data: seq<byte>, end: nat)
    requires RecordAt(crc, whole, p, data, false, end)
    ensures Read(crc, whole, p, None).records == Read(crc, whole, end, None).records
    decreases end - p
  {
    hide RecordAt, FragmentAt, NextStep, FragmentLength;
    RecordStarts(crc, whole, p, data, false, end);
    var n, f := FragmentLength(p, data), FirstOf(p, data, false);
    WrittenIsFound(crc, whole, p, f);
    if n < |data| {
      RestSkipped(crc, whole, f.next, data[n..], end);
    }
  }

  // From the start of a block within a record, the record is read or passed over.
  lemma {:induction false} FromInside(crc: Checksum, whole: seq<byte>, p: nat, data: seq<byte>, begin: bool, end: nat, b: nat)
    returns (before: seq<seq<byte>>)
    requires RecordAt(crc, whole, p, data, begin, end) && p <= b <= end <= |whole| && b % BLOCK_SIZE == 0
    ensures Read(crc, whole, b, None).records == before + Read(crc, whole, end, None).records
    decreases end - p
  {
    hide RecordAt, NextStep, FragmentLength, Read;
    RecordStarts(crc, whole, p, data, begin, end);
    NextBlock(p, b);
    before := [];
    assert before + Read(crc, whole, end, None).records == Read(crc, whole, end, None).records;
    if b <= p + Trailer(p) {
      SkipTrailer(crc, whole, p, None);
      if begin {
        RecordRead(crc, whole, whole, p, data, end, None);
        before := [data];
      } else {
        RestSkipped(crc, whole, p, data, end);
      }
    } else {
      var n, f := FragmentLength(p, data), FirstOf(p, data, begin);
      NextBlock(p + Trailer(p), b);
      if n < |data| {
        before := FromInside(crc, whole, f.next, data[n..], false, end, b);
      }
    }
  }

  lemma {:induction false} FromBlock(crc: Checksum, records: seq<seq<byte>>, i: nat, b: nat) returns (before: seq<seq<byte>>)
    requires IsChecksum(crc) && i <= |records| && b % BLOCK_SIZE == 0 && b <= |LogBytes(crc, 0, records[..i])|
    ensures var log := LogBytes(crc, 0, records);
            b <= |log| && Read(crc, log, b, None).records == before + Read(crc, log, |LogBytes(crc, 0, records[..i])|, None).records
  {
    hide RecordAt, LogBytes, RecordBytes, Read;
    var log := LogBytes(crc, 0, records);
    FewerRecords(crc, records, i);
    before := [];
    if i == 0 {
      NoRecords(crc);
      assert records[..0] == [];
    } else {
      var p, end := |LogBytes(crc, 0, records[..i - 1])|, |LogBytes(crc, 0, records[..i])|;
      NextRecordAt(crc, records, i - 1);
      if b <= p {
        before := FromBlock(crc, records, i - 1, b);
        RecordRead(crc, log, log, p, records[i - 1], end, None);
        before := before + [records[i - 1]];
      } else {
        before := FromInside(crc, log, p, records[i - 1], true, end, b);
      }
    }
  }

  // Damage ends with its block.  A log whose bytes before some block are anything at all, and whose bytes from
  // there on are as written, still gives every record that begins there or behind, unless some bytes before
  // it are taken for the end.
  lemma DamageStaysInFront(crc: Checksum, front: seq<byte>, records: seq<seq<byte>>, i: nat)
    requires IsChecksum(crc) && |front| % BLOCK_SIZE == 0 && !Stops(crc, front, 0)
    requires i <= |records| && |front| <= |LogBytes(crc, 0, records[..i])| <= |LogBytes(crc, 0, records)|
    ensures EndsWith(Read(crc, front + LogBytes(crc, 0, records)[|front|..], 0, None).records, records[i..])
  {
    hide LogBytes, Read, Stops;
    var log, b, p := LogBytes(crc, 0, records), |front|, |LogBytes(crc, 0, records[..i])|;
    ReadsOn(crc, front, log[b..]);
    assert log == log[..b] + log[b..];
    Shifted(crc, log[..b], log[b..], 0, None);
    var before := FromBlock(crc, records, i, b);
    var n := CutLogFrom(crc, log, records, i);
    if n < |records| {
      FewerRecords(crc, records, n + 1);
    }
    assert records[i..|records|] == records[i..];
  }
}
