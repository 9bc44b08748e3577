/** The order of byte strings and of internal keys, and the short keys an index may use between two blocks. */
module Comparators {
  import opened Bytes
  import opened Seqs
  import opened Coding
  import opened BlockFormat
  import Blocks
  import DbFormat

  // ---- Byte strings ----

  predicate Less(a: Key, b: Key) {
    b != [] && (a == [] || a[0] < b[0] || (a[0] == b[0] && Less(a[1..], b[1..])))
  }

  lemma {:induction false} LessIrreflexive(a: Key)
    ensures !Less(a, a)
  {
    if a != [] {
      LessIrreflexive(a[1..]);
    }
  }

  lemma {:induction false} LessTotal(a: Key, b: Key)
    ensures Less(a, b) || Less(b, a) || a == b
  {
    if a != [] && b != [] && a[0] == b[0] {
      LessTotal(a[1..], b[1..]);
      assert a == [a[0]] + a[1..] && b == [b[0]] + b[1..];
    }
  }

  lemma {:induction false} LessTransitive(a: Key, b: Key, c: Key)
    requires Less(a, b) && Less(b, c)
    ensures Less(a, c)
  {
    if a != [] && b != [] && a[0] == b[0] == c[0] {
      LessTransitive(a[1..], b[1..], c[1..]);
    }
  }

  lemma LessIsOrder()
    ensures Blocks.IsOrder(Less)
  {
    forall a: Key, b: Key, c: Key
      ensures !Less(a, a) && (Less(a, b) || Less(b, a) || a == b) && (Less(a, b) && Less(b, c) ==> Less(a, c))
    {
      LessIrreflexive(a);
      LessTotal(a, b);
      if Less(a, b) && Less(b, c) {
        LessTransitive(a, b, c);
      }
    }
  }

  // Behind a common prefix the order is that of the rests.
  lemma {:induction false} LessBehindPrefix(a: Key, b: Key, n: nat)
    requires n <= |a| && n <= |b| && a[..n] == b[..n]
    ensures Less(a, b) <==> Less(a[n..], b[n..])
  {
    if n > 0 {
      assert a[..n][0] == b[..n][0];
      assert a[1..][..n - 1] == a[..n][1..] == b[..n][1..] == b[1..][..n - 1];
      LessBehindPrefix(a[1..], b[1..], n - 1);
      assert a[1..][n - 1..] == a[n..] && b[1..][n - 1..] == b[n..];
    }
  }

  // ---- BytewiseComparatorImpl ----

  // One more at the first difference, with the rest cut off, if that still is before the limit.
  function Separator(start: Key, limit: Key): Key {
    var d := SharedPrefix(start, limit);
    if d < |start| && d < |limit| && (start[d] as int) + 1 < limit[d] as int then start[..d] + [start[d] + 1] else start
  }

  // One more at the first byte that can grow, with the rest cut off.
  function Successor(key: Key): (r: Key)
    ensures |r| <= |key|
  {
    if key == [] then []
    else if key[0] != 0xff then [key[0] + 1]
    else [key[0]] + Successor(key[1..])
  }

  method FindShortestSeparator(start: Key, limit: Key) returns (r: Key)
    ensures r == Separator(start, limit)
  {
    var minLength := if |start| < |limit| then |start| else |limit|;
    var diffIndex := 0;
    while diffIndex < minLength && start[diffIndex] == limit[diffIndex]
      invariant diffIndex <= minLength && start[..diffIndex] == limit[..diffIndex]
    {
      diffIndex := diffIndex + 1;
    }
    SharedPrefixIs(start, limit, diffIndex);
    r := start;
    if diffIndex < minLength {
      var diffByte := start[diffIndex];
      if diffByte < 0xff && diffByte + 1 < limit[diffIndex] {
        r := r[diffIndex := diffByte + 1];
        r := r[..diffIndex + 1];
      }
    }
  }

  method FindShortSuccessor(key: Key) returns (r: Key)
    ensures r == Successor(key)
  {
    r := key;
    var i := 0;
    while i < |key|
      invariant i <= |key| && Successor(key) == key[..i] + Successor(key[i..]) && r == key
    {
      assert key[i..][1..] == key[i + 1..];
      if key[i] != 0xff {
        r := r[i := key[i] + 1];
        r := r[..i + 1];
        return;
      }
      assert key[..i + 1] == key[..i] + [key[i]];
      i := i + 1;
    }
    assert key[..i] == key && key[i..] == [];
  }

  // A separator stays between the two keys, and a shortened one is as short as any there.
  lemma SeparatorIsBetween(start: Key, limit: Key)
    requires Less(start, limit)
    ensures !Less(Separator(start, limit), start) && Less(Separator(start, limit), limit)
    ensures |Separator(start, limit)| <= |start|
    ensures forall t: Key :: Separator(start, limit) != start && !Less(t, start) && Less(t, limit) ==> |Separator(start, limit)| <= |t|
  {
    var d, r := SharedPrefix(start, limit), Separator(start, limit);
    LessIrreflexive(start);
    if r != start {
      assert r[..d] == start[..d] == limit[..d] && r[d..] == [start[d] + 1];
      LessBehindPrefix(r, start, d);
      LessBehindPrefix(r, limit, d);
      forall t: Key | !Less(t, start) && Less(t, limit)
        ensures |t| > d
      {
        if |t| <= d {
          ShortOfBoth(t, start, limit, d);
        }
      }
    }
  }

  // A string no longer than the common prefix is on one side of both.
  lemma ShortOfBoth(t: Key, a: Key, b: Key, d: nat)
    requires |t| <= d < |a| && d < |b| && a[..d] == b[..d]
    ensures Less(t, a) <==> Less(t, b)
  {
    var n := SharedPrefix(t, a);
    assert a[..n] == a[..d][..n] == b[..d][..n] == b[..n];
    LessBehindPrefix(t, a, n);
    LessBehindPrefix(t, b, n);
    if n < |t| {
      assert a[n] == a[..d][n] == b[..d][n] == b[n];
    }
  }

  // A successor is at or after the key, and a changed one is as short as anything after the key.
  lemma {:induction false} SuccessorIsAfter(key: Key)
    ensures !Less(Successor(key), key)
    ensures forall t: Key :: Successor(key) != key && Less(key, t) ==> |Successor(key)| <= |t|
  {
    if key != [] && key[0] == 0xff {
      SuccessorIsAfter(key[1..]);
      var r := Successor(key);
      assert r[1..] == Successor(key[1..]);
      forall t: Key | r != key && Less(key, t)
        ensures |r| <= |t|
      {
        assert key == [key[0]] + key[1..];
        assert Less(key[1..], t[1..]);
      }
    }
  }

  // ---- Internal keys ----

  // A user key, then eight bytes for the sequence number and the type.
  const TYPE_FOR_SEEK: nat := 1

  predicate IsInternal(k: Key) {
    |k| >= 8
  }

  function UserKey(k: Key): Key
    requires IsInternal(k)
  {
    k[..|k| - 8]
  }

  function Tag(k: Key): nat
    requires IsInternal(k)
  {
    LittleEndian(k[|k| - 8..])
  }

  function PackSequenceAndType(s: nat, t: nat): nat {
    s * 256 + t
  }

  function InternalKey(user: Key, s: nat, t: nat): (k: Key)
    ensures IsInternal(k)
  {
    user + ToLittleEndian(PackSequenceAndType(s, t), 8)
  }

  lemma InternalKeyParts(user: Key, s: nat, t: nat)
    requires s <= DbFormat.MAX_SEQUENCE && t < 256
    ensures UserKey(InternalKey(user, s, t)) == user && Tag(InternalKey(user, s, t)) == PackSequenceAndType(s, t)
  {
    var k, tail := InternalKey(user, s, t), ToLittleEndian(PackSequenceAndType(s, t), 8);
    assert k[..|k| - 8] == user && k[|k| - 8..] == tail;
    EightBytes();
    FixedRoundTrip(PackSequenceAndType(s, t), 8);
  }

  // An internal key in bytes: the user key, the type, and the sequence number in seven bytes, lowest first.  The
  // largest number and the type for seeking are eight bytes that a key in the index has behind a shortened
  // user key.
  lemma InternalKeyFormat(user: Key, s: nat, t: byte)
    requires s <= DbFormat.MAX_SEQUENCE
    ensures InternalKey(user, s, t) == user + ([t] + ToLittleEndian(s, 7))
    ensures InternalKey(user, DbFormat.MAX_SEQUENCE, TYPE_FOR_SEEK) == user + [1, 255, 255, 255, 255, 255, 255, 255]
  {
    assert (s * 256 + t) % 256 == t && (s * 256 + t) / 256 == s;
    assert ToLittleEndian(0xff, 1) == [255] && ToLittleEndian(0xffff, 2) == [255, 255];
    assert ToLittleEndian(0xff_ffff, 3) == [255, 255, 255] && ToLittleEndian(0xffff_ffff, 4) == [255, 255, 255, 255];
    assert ToLittleEndian(0xff_ffff_ffff, 5) == [255, 255, 255, 255, 255];
    assert ToLittleEndian(0xffff_ffff_ffff, 6) == [255, 255, 255, 255, 255, 255];
    assert ToLittleEndian(0xff_ffff_ffff_ffff, 7) == [255, 255, 255, 255, 255, 255, 255];
  }

  // InternalKeyComparator.  Strings too short to be internal keys are put in front, so that the order is
  // one of all strings.
  predicate InternalLess(a: Key, b: Key) {
    if !IsInternal(a) || !IsInternal(b) then !IsInternal(a) && (IsInternal(b) || Less(a, b))
    else Less(UserKey(a), UserKey(b)) || (UserKey(a) == UserKey(b) && Tag(a) > Tag(b))
  }

  lemma SameParts(a: Key, b: Key)
    requires IsInternal(a) && IsInternal(b) && UserKey(a) == UserKey(b) && Tag(a) == Tag(b)
    ensures a == b
  {
    LittleEndianInjective(a[|a| - 8..], b[|b| - 8..]);
    assert a == UserKey(a) + a[|a| - 8..] && b == UserKey(b) + b[|b| - 8..];
  }

  lemma InternalLessIsOrder()
    ensures Blocks.IsOrder(InternalLess)
  {
    hide Less, LittleEndian;
    LessIsOrder();
    forall a: Key, b: Key
      ensures !InternalLess(a, a) && (InternalLess(a, b) || InternalLess(b, a) || a == b)
    {
      if IsInternal(a) && IsInternal(b) && UserKey(a) == UserKey(b) && Tag(a) == Tag(b) {
        SameParts(a, b);
      }
    }
    forall a: Key, b: Key, c: Key | InternalLess(a, b) && InternalLess(b, c)
      ensures InternalLess(a, c)
    {}
  }

  // Versions are written with a type of 0 or 1, and the seek key for a snapshot comes just before those it
  // may see.
  lemma SeekKeyIsRight(user: Key, s: nat, k: Key)
    requires s <= DbFormat.MAX_SEQUENCE && IsInternal(k) && UserKey(k) == user && Tag(k) % 256 <= TYPE_FOR_SEEK
    ensures InternalLess(k, InternalKey(user, s, TYPE_FOR_SEEK)) <==> Tag(k) / 256 > s
  {
    hide Less;
    LessIsOrder();
    InternalKeyParts(user, s, TYPE_FOR_SEEK);
  }

  // What a key in the index may be, for a block whose last key is `last`: that key, or one with a later
  // user key.
  ghost predicate Closes(last: Key, s: Key) {
    IsInternal(last) && IsInternal(s) && (s == last || Less(UserKey(last), UserKey(s)))
  }

  ghost predicate ClosesBefore(last: Key, s: Key, next: Key) {
    Closes(last, s) && IsInternal(next) && (s == last || Less(UserKey(s), UserKey(next)))
  }

  method FindShortestInternalSeparator(start: Key, limit: Key) returns (r: Key)
    requires IsInternal(start) && IsInternal(limit)
    ensures var u := Separator(UserKey(start), UserKey(limit));
            r == if |u| < |UserKey(start)| && Less(UserKey(start), u) then InternalKey(u, DbFormat.MAX_SEQUENCE, TYPE_FOR_SEEK) else start
    ensures InternalLess(start, limit) ==> ClosesBefore(start, r, limit) && |r| <= |start|
  {
    var tmp := FindShortestSeparator(UserKey(start), UserKey(limit));
    r := start;
    if |tmp| < |UserKey(start)| && Less(UserKey(start), tmp) {
      r := InternalKey(tmp, DbFormat.MAX_SEQUENCE, TYPE_FOR_SEEK);
      InternalKeyParts(tmp, DbFormat.MAX_SEQUENCE, TYPE_FOR_SEEK);
      if InternalLess(start, limit) && UserKey(start) != UserKey(limit) {
        SeparatorIsBetween(UserKey(start), UserKey(limit));
      }
      if UserKey(start) == UserKey(limit) {
        NoSeparator(UserKey(start));
      }
    }
  }

  lemma NoSeparator(u: Key)
    ensures Separator(u, u) == u
  {
    SharedPrefixIs(u, u, |u|);
  }

  method FindShortInternalSuccessor(key: Key) returns (r: Key)
    requires IsInternal(key)
    ensures var u := Successor(UserKey(key));
            r == if |u| < |UserKey(key)| && Less(UserKey(key), u) then InternalKey(u, DbFormat.MAX_SEQUENCE, TYPE_FOR_SEEK) else key
    ensures Closes(key, r) && |r| <= |key|
  {
    var tmp := FindShortSuccessor(UserKey(key));
    r := key;
    if |tmp| < |UserKey(key)| && Less(UserKey(key), tmp) {
      r := InternalKey(tmp, DbFormat.MAX_SEQUENCE, TYPE_FOR_SEEK);
      InternalKeyParts(tmp, DbFormat.MAX_SEQUENCE, TYPE_FOR_SEEK);
    }
  }

  // A closing key is not before the last key, and is before the next.
  lemma ClosingOrder(last: Key, s: Key, next: Key)
    requires ClosesBefore(last, s, next) && InternalLess(last, next)
    ensures !InternalLess(s, last) && InternalLess(s, next)
  {
    ClosingIsAfter(last, s);
  }

  lemma ClosingIsAfter(last: Key, s: Key)
    requires Closes(last, s)
    ensures !InternalLess(s, last)
  {
    hide Less;
    LessIsOrder();
  }
}
