/** A version edit as a manifest record: tagged fields, one after the other. */
module VersionEditCodec {
  import opened Wrappers
  import opened Bytes
  import opened Varints
  import opened Seqs
  import opened Coding
  import Versions

  datatype FileMetaData = FileMetaData(number: nat, fileSize: nat, smallest: seq<byte>, largest: seq<byte>)

  // The fields of an edit; internal keys are byte strings here.
  datatype Fields = Fields(comparator: Option<seq<byte>>, logNumber: Option<nat>, prevLogNumber: Option<nat>,
                           nextFileNumber: Option<nat>, lastSequence: Option<nat>,
                           compactPointers: seq<(nat, seq<byte>)>, deletedFiles: set<(nat, nat)>,
                           newFiles: seq<(nat, FileMetaData)>)

  // One tagged field of a record.
  datatype Field =
    | Comparator(name: seq<byte>)
    | LogNumber(n: nat)
    | NextFileNumber(n: nat)
    | LastSequence(n: nat)
    | CompactPointer(level: nat, key: seq<byte>)
    | DeletedFile(level: nat, n: nat)
    | NewFile(level: nat, f: FileMetaData)
    | PrevLogNumber(n: nat)

  const COMPARATOR: nat := 1
  const LOG_NUMBER: nat := 2
  const NEXT_FILE_NUMBER: nat := 3
  const LAST_SEQUENCE: nat := 4
  const COMPACT_POINTER: nat := 5
  const DELETED_FILE: nat := 6
  const NEW_FILE: nat := 7
  const PREV_LOG_NUMBER: nat := 9

  function Tag(f: Field): nat {
    match f
    case Comparator(_) => COMPARATOR
    case LogNumber(_) => LOG_NUMBER
    case NextFileNumber(_) => NEXT_FILE_NUMBER
    case LastSequence(_) => LAST_SEQUENCE
    case CompactPointer(_, _) => COMPACT_POINTER
    case DeletedFile(_, _) => DELETED_FILE
    case NewFile(_, _) => NEW_FILE
    case PrevLogNumber(_) => PREV_LOG_NUMBER
  }

  // Numbers fit their widths, strings their lengths, and levels exist.
  predicate Fits(f: Field) {
    match f
    case Comparator(name) => |name| < TWO_32
    case LogNumber(n) => n < TWO_64
    case NextFileNumber(n) => n < TWO_64
    case LastSequence(n) => n < TWO_64
    case CompactPointer(level, key) => level < Versions.NUM_LEVELS && |key| < TWO_32
    case DeletedFile(level, n) => level < Versions.NUM_LEVELS && n < TWO_64
    case NewFile(level, f) =>
      level < Versions.NUM_LEVELS && f.number < TWO_64 && f.fileSize < TWO_64 && |f.smallest| < TWO_32 && |f.largest| < TWO_32
    case PrevLogNumber(n) => n < TWO_64
  }

  function Body(f: Field): seq<byte> {
    match f
    case Comparator(name) => LengthPrefixed(name)
    case LogNumber(n) => VarintBytes(n)
    case NextFileNumber(n) => VarintBytes(n)
    case LastSequence(n) => VarintBytes(n)
    case CompactPointer(level, key) => VarintBytes(level) + LengthPrefixed(key)
    case DeletedFile(level, n) => VarintBytes(level) + VarintBytes(n)
    case NewFile(level, f) =>
      VarintBytes(level) + (VarintBytes(f.number) + (VarintBytes(f.fileSize) + (LengthPrefixed(f.smallest) + LengthPrefixed(f.largest))))
    case PrevLogNumber(n) => VarintBytes(n)
  }

  function FieldBytes(f: Field): seq<byte> {
    VarintBytes(Tag(f)) + Body(f)
  }

  function FieldsBytes(fs: seq<Field>): seq<byte> {
    if fs == [] then [] else FieldBytes(fs[0]) + FieldsBytes(fs[1..])
  }

  // The fields of a record: a number for what it is, and numbers and strings.
  lemma FieldFormat(f: Field)
    ensures FieldBytes(f) ==
            match f
            case Comparator(name) => [1] + LengthPrefixed(name)
            case LogNumber(n) => [2] + VarintBytes(n)
            case NextFileNumber(n) => [3] + VarintBytes(n)
            case LastSequence(n) => [4] + VarintBytes(n)
            case CompactPointer(level, key) => [5] + (VarintBytes(level) + LengthPrefixed(key))
            case DeletedFile(level, n) => [6] + (VarintBytes(level) + VarintBytes(n))
            case NewFile(level, f) =>
              [7] + (VarintBytes(level) + (VarintBytes(f.number) + (VarintBytes(f.fileSize)
                     + (LengthPrefixed(f.smallest) + LengthPrefixed(f.largest)))))
            case PrevLogNumber(n) => [9] + VarintBytes(n)
  {
    SmallTag(Tag(f));
    hide VarintBytes, LengthPrefixed;
  }

  lemma SmallTag(n: nat)
    requires n < 128
    ensures VarintBytes(n) == [n]
  {}

  // ---- Reading a field ----

  function GetLevel(s: seq<byte>): (r: Option<Got<nat>>)
    ensures r.Some? ==> |r.value.rest| < |s|
  {
    match GetVarint32(s)
    case None => None
    case Some(Got(v, rest)) => if v < Versions.NUM_LEVELS then Some(Got(v, rest)) else None
  }

  function GetNewFile(s: seq<byte>): (r: Option<Got<Field>>)
    ensures r.Some? ==> |r.value.rest| < |s|
  {
    match GetLevel(s)
    case None => None
    case Some(Got(level, s1)) =>
      match GetVarint64(s1)
      case None => None
      case Some(Got(number, s2)) =>
        match GetVarint64(s2)
        case None => None
        case Some(Got(size, s3)) =>
          match GetLengthPrefixed(s3)
          case None => None
          case Some(Got(smallest, s4)) =>
            match GetLengthPrefixed(s4)
            case None => None
            case Some(Got(largest, s5)) => Some(Got(NewFile(level, FileMetaData(number, size, smallest, largest)), s5))
  }

  // The body of a field with a known tag.
  function GetBody(tag: nat, s: seq<byte>): (r: Option<Got<Field>>)
    ensures r.Some? ==> |r.value.rest| < |s|
  {
    if tag == COMPARATOR then
      match GetLengthPrefixed(s) case None => None case Some(Got(v, rest)) => Some(Got(Comparator(v), rest))
    else if tag == LOG_NUMBER then
      match GetVarint64(s) case None => None case Some(Got(v, rest)) => Some(Got(LogNumber(v), rest))
    else if tag == PREV_LOG_NUMBER then
      match GetVarint64(s) case None => None case Some(Got(v, rest)) => Some(Got(PrevLogNumber(v), rest))
    else if tag == NEXT_FILE_NUMBER then
      match GetVarint64(s) case None => None case Some(Got(v, rest)) => Some(Got(NextFileNumber(v), rest))
    else if tag == LAST_SEQUENCE then
      match GetVarint64(s) case None => None case Some(Got(v, rest)) => Some(Got(LastSequence(v), rest))
    else if tag == COMPACT_POINTER then
      match GetLevel(s)
      case None => None
      case Some(Got(level, s1)) =>
        match GetLengthPrefixed(s1) case None => None case Some(Got(v, rest)) => Some(Got(CompactPointer(level, v), rest))
    else if tag == DELETED_FILE then
      match GetLevel(s)
      case None => None
      case Some(Got(level, s1)) =>
        match GetVarint64(s1) case None => None case Some(Got(v, rest)) => Some(Got(DeletedFile(level, v), rest))
    else if tag == NEW_FILE then GetNewFile(s)
    else None
  }

  // What one field does to an edit.
  function Set(e: Fields, f: Field): Fields {
    match f
    case Comparator(name) => e.(comparator := Some(name))
    case LogNumber(n) => e.(logNumber := Some(n))
    case NextFileNumber(n) => e.(nextFileNumber := Some(n))
    case LastSequence(n) => e.(lastSequence := Some(n))
    case CompactPointer(level, key) => e.(compactPointers := e.compactPointers + [(level, key)])
    case DeletedFile(level, n) => e.(deletedFiles := e.deletedFiles + {(level, n)})
    case NewFile(level, f) => e.(newFiles := e.newFiles + [(level, f)])
    case PrevLogNumber(n) => e.(prevLogNumber := Some(n))
  }

  function SetAll(e: Fields, fs: seq<Field>): Fields
    decreases |fs|
  {
    if fs == [] then e else SetAll(Set(e, fs[0]), fs[1..])
  }

  // Reading fields into an edit until none is left, or one is malformed.
  function Decoded(e: Fields, s: seq<byte>): (r: (Fields, bool))
    decreases |s|
  {
    match GetVarint32(s)
    case None => (e, s == [])
    case Some(Got(tag, rest)) =>
      match GetBody(tag, rest)
      case None => (e, false)
      case Some(Got(f, rest)) => Decoded(Set(e, f), rest)
  }

  // On any bytes: a tag that no field has, or a level that does not exist, ends the reading with a failure.
  lemma Unreadable(e: Fields, s: seq<byte>, tag: nat, rest: seq<byte>)
    requires GetVarint32(s) == Some(Got(tag, rest))
    requires tag == 0 || tag == 8 || tag > 9
             || (5 <= tag <= 7 && GetVarint32(rest).Some? && GetVarint32(rest).value.value >= 7)
    ensures Decoded(e, s) == (e, false)
  {
    hide GetVarint32, GetVarint64, GetLengthPrefixed;
  }

  // ---- Writing and reading back ----

  lemma LevelRoundTrip(level: nat, rest: seq<byte>)
    requires level < Versions.NUM_LEVELS
    ensures GetLevel(VarintBytes(level) + rest) == Some(Got(level, rest))
  {
    Varint32RoundTrip(level, rest);
  }

  lemma BodyRoundTrip(f: Field, rest: seq<byte>)
    requires Fits(f)
    ensures GetBody(Tag(f), Body(f) + rest) == Some(Got(f, rest))
  {
    hide LengthPrefixed, GetLengthPrefixed, GetVarint64, VarintBytes, GetLevel, GetNewFile;
    match f
    case Comparator(name) => LengthPrefixedRoundTrip(name, rest);
    case LogNumber(n) => Varint64RoundTrip(n, rest);
    case NextFileNumber(n) => Varint64RoundTrip(n, rest);
    case LastSequence(n) => Varint64RoundTrip(n, rest);
    case CompactPointer(level, key) =>
      Associate(VarintBytes(level), LengthPrefixed(key), rest);
      LevelRoundTrip(level, LengthPrefixed(key) + rest);
      LengthPrefixedRoundTrip(key, rest);
    case DeletedFile(level, n) =>
      Associate(VarintBytes(level), VarintBytes(n), rest);
      LevelRoundTrip(level, VarintBytes(n) + rest);
      Varint64RoundTrip(n, rest);
    case NewFile(level, m) => NewFileRoundTrip(level, m, rest);
    case PrevLogNumber(n) => Varint64RoundTrip(n, rest);
  }

  lemma NewFileRoundTrip(level: nat, m: FileMetaData, rest: seq<byte>)
    requires Fits(NewFile(level, m))
    ensures GetNewFile(Body(NewFile(level, m)) + rest) == Some(Got(NewFile(level, m), rest))
  {
    hide LengthPrefixed, GetLengthPrefixed, GetVarint64, VarintBytes, GetLevel;
    var s5 := LengthPrefixed(m.largest);
    var s4 := LengthPrefixed(m.smallest) + s5;
    var s3 := VarintBytes(m.fileSize) + s4;
    var s2 := VarintBytes(m.number) + s3;
    Associate(VarintBytes(level), s2, rest);
    Associate(VarintBytes(m.number), s3, rest);
    Associate(VarintBytes(m.fileSize), s4, rest);
    Associate(LengthPrefixed(m.smallest), s5, rest);
    LevelRoundTrip(level, s2 + rest);
    Varint64RoundTrip(m.number, s3 + rest);
    Varint64RoundTrip(m.fileSize, s4 + rest);
    LengthPrefixedRoundTrip(m.smallest, s5 + rest);
    LengthPrefixedRoundTrip(m.largest, rest);
  }

  lemma {:induction false} FieldsRoundTrip(e: Fields, fs: seq<Field>)
    requires forall f :: f in fs ==> Fits(f)
    ensures Decoded(e, FieldsBytes(fs)) == (SetAll(e, fs), true)
    decreases |fs|
  {
    if fs != [] {
      hide GetBody, Body, VarintBytes, Set;
      var f, rest := fs[0], FieldsBytes(fs[1..]);
      Associate(VarintBytes(Tag(f)), Body(f), rest);
      Varint32RoundTrip(Tag(f), Body(f) + rest);
      BodyRoundTrip(f, rest);
      FieldsRoundTrip(Set(e, f), fs[1..]);
    } else {
      NothingToGet();
    }
  }

  lemma NothingToGet()
    ensures GetVarint32([]) == None
  {}

  lemma {:induction false} FieldsBytesConcat(a: seq<Field>, b: seq<Field>)
    ensures FieldsBytes(a + b) == FieldsBytes(a) + FieldsBytes(b)
  {
    if a == [] {
      assert a + b == b;
    } else {
      hide FieldBytes;
      assert (a + b)[1..] == a[1..] + b;
      FieldsBytesConcat(a[1..], b);
      Associate(FieldBytes(a[0]), FieldsBytes(a[1..]), FieldsBytes(b));
    }
  }

  lemma {:induction false} SetAllConcat(e: Fields, a: seq<Field>, b: seq<Field>)
    ensures SetAll(e, a + b) == SetAll(SetAll(e, a), b)
    decreases |a|
  {
    if a == [] {
      assert a + b == b;
    } else {
      hide Set;
      assert (a + b)[1..] == a[1..] + b;
      SetAllConcat(Set(e, a[0]), a[1..], b);
    }
  }

  // ---- EncodeTo and DecodeFrom ----

  // What Clear leaves: everything but the compaction pointers is gone.
  function Cleared(pointers: seq<(nat, seq<byte>)>): Fields {
    Fields(None, None, None, None, None, pointers, {}, [])
  }

  ghost predicate FieldsFit(e: Fields) {
    (e.comparator.Some? ==> Fits(Comparator(e.comparator.value)))
    && (e.logNumber.Some? ==> e.logNumber.value < TWO_64) && (e.prevLogNumber.Some? ==> e.prevLogNumber.value < TWO_64)
    && (e.nextFileNumber.Some? ==> e.nextFileNumber.value < TWO_64) && (e.lastSequence.Some? ==> e.lastSequence.value < TWO_64)
    && (forall i :: 0 <= i < |e.compactPointers| ==> Fits(CompactPointer(e.compactPointers[i].0, e.compactPointers[i].1)))
    && (forall p :: p in e.deletedFiles ==> Fits(DeletedFile(p.0, p.1)))
    && forall i :: 0 <= i < |e.newFiles| ==> Fits(NewFile(e.newFiles[i].0, e.newFiles[i].1))
  }

  // An edit like `e` that already had some compaction pointers.
  function After(pointers: seq<(nat, seq<byte>)>, e: Fields): Fields {
    e.(compactPointers := pointers + e.compactPointers)
  }

  // dst holds the fields that make up `e`, whatever compaction pointers the reader starts with.
  ghost predicate Encodes(dst: seq<byte>, e: Fields) {
    exists fs: seq<Field> :: (forall f :: f in fs ==> Fits(f)) && dst == FieldsBytes(fs)
      && forall pointers: seq<(nat, seq<byte>)> :: SetAll(Cleared(pointers), fs) == After(pointers, e)
  }

  lemma EncodesNext(dst: seq<byte>, e: Fields, f: Field)
    requires Encodes(dst, e) && Fits(f)
    ensures Encodes(dst + FieldBytes(f), Set(e, f))
  {
    var fs: seq<Field> :| (forall f :: f in fs ==> Fits(f)) && dst == FieldsBytes(fs)
      && forall pointers: seq<(nat, seq<byte>)> :: SetAll(Cleared(pointers), fs) == After(pointers, e);
    hide FieldBytes, Set;
    var fs' := fs + [f];
    FieldsBytesConcat(fs, [f]);
    OneField(f);
    forall pointers: seq<(nat, seq<byte>)>
      ensures SetAll(Cleared(pointers), fs') == After(pointers, Set(e, f))
    {
      SetAllConcat(Cleared(pointers), fs, [f]);
      SetOne(After(pointers, e), f);
      SetAfter(pointers, e, f);
    }
    assert forall g :: g in fs' ==> Fits(g);
  }

  lemma OneField(f: Field)
    ensures FieldsBytes([f]) == FieldBytes(f)
  {
    hide FieldBytes;
    assert [f][1..] == [];
    assert FieldBytes(f) + [] == FieldBytes(f);
  }

  lemma SetOne(e: Fields, f: Field)
    ensures SetAll(e, [f]) == Set(e, f)
  {
    hide Set;
    assert [f][1..] == [];
  }

  lemma SetAfter(pointers: seq<(nat, seq<byte>)>, e: Fields, f: Field)
    ensures Set(After(pointers, e), f) == After(pointers, Set(e, f))
  {
    if f.CompactPointer? {
      Associate(pointers, e.compactPointers, [(f.level, f.key)]);
    }
  }

  lemma EncodesNothing()
    ensures Encodes([], Cleared([]))
  {
    var fs: seq<Field> := [];
    forall pointers: seq<(nat, seq<byte>)>
      ensures SetAll(Cleared(pointers), fs) == After(pointers, Cleared([]))
    {
      assert pointers + [] == pointers;
    }
    assert FieldsBytes(fs) == [];
  }

  // What was encoded decodes to the same edit, behind the compaction pointers the reader had: into a fresh
  // edit, to the same edit.
  lemma EncodesDecodes(dst: seq<byte>, e: Fields, pointers: seq<(nat, seq<byte>)>)
    requires Encodes(dst, e)
    ensures Decoded(Cleared(pointers), dst) == (After(pointers, e), true)
    ensures pointers == [] <==> After(pointers, e) == e
  {
    var fs: seq<Field> :| (forall f :: f in fs ==> Fits(f)) && dst == FieldsBytes(fs)
      && forall pointers: seq<(nat, seq<byte>)> :: SetAll(Cleared(pointers), fs) == After(pointers, e);
    FieldsRoundTrip(Cleared(pointers), fs);
    assert [] + e.compactPointers == e.compactPointers;
    assert |pointers + e.compactPointers| == |pointers| + |e.compactPointers|;
  }

  predicate PairLess(a: (nat, nat), b: (nat, nat)) {
    a.0 < b.0 || (a.0 == b.0 && a.1 < b.1)
  }

  // ---- The fields of an edit in the order they are written ----

  function NumbersOf(e: Fields): seq<Field> {
    (if e.comparator.Some? then [Comparator(e.comparator.value)] else [])
    + (if e.logNumber.Some? then [LogNumber(e.logNumber.value)] else [])
    + (if e.prevLogNumber.Some? then [PrevLogNumber(e.prevLogNumber.value)] else [])
    + (if e.nextFileNumber.Some? then [NextFileNumber(e.nextFileNumber.value)] else [])
    + (if e.lastSequence.Some? then [LastSequence(e.lastSequence.value)] else [])
  }

  function PointersOf(all: seq<(nat, seq<byte>)>): seq<Field> {
    seq(|all|, i requires 0 <= i < |all| => CompactPointer(all[i].0, all[i].1))
  }

  function DeletedOf(all: seq<(nat, nat)>): seq<Field> {
    seq(|all|, i requires 0 <= i < |all| => DeletedFile(all[i].0, all[i].1))
  }

  function NewOf(all: seq<(nat, FileMetaData)>): seq<Field> {
    seq(|all|, i requires 0 <= i < |all| => NewFile(all[i].0, all[i].1))
  }

  // The pairs of a set, in order.
  ghost predicate Lists(all: seq<(nat, nat)>, s: set<(nat, nat)>) {
    (forall p :: p in all <==> p in s) && forall i, j :: 0 <= i < j < |all| ==> PairLess(all[i], all[j])
  }

  ghost predicate InOrder(dst: seq<byte>, e: Fields) {
    exists deleted :: Lists(deleted, e.deletedFiles)
      && dst == FieldsBytes(NumbersOf(e) + PointersOf(e.compactPointers) + DeletedOf(deleted) + NewOf(e.newFiles))
  }

  lemma OneMoreField(fs: seq<Field>, f: Field)
    ensures FieldsBytes(fs + [f]) == FieldsBytes(fs) + FieldBytes(f)
  {
    FieldsBytesConcat(fs, [f]);
    OneField(f);
  }

  ghost predicate AllBefore(s: set<(nat, nat)>, t: set<(nat, nat)>) {
    forall p, q :: p in s && q in t ==> PairLess(p, q)
  }

  lemma NothingListed(s: set<(nat, nat)>)
    ensures Lists([], {}) && AllBefore({}, s) && DeletedOf([]) == []
  {}

  lemma DeletedNext(all: seq<(nat, nat)>, p: (nat, nat))
    ensures DeletedOf(all + [p]) == DeletedOf(all) + [DeletedFile(p.0, p.1)]
  {}

  lemma SetDeleted(e: Fields, done: set<(nat, nat)>, p: (nat, nat))
    ensures Set(e.(deletedFiles := done), DeletedFile(p.0, p.1)) == e.(deletedFiles := done + {p})
  {}

  lemma DeletedFit(e: Fields)
    requires FieldsFit(e)
    ensures forall p :: p in e.deletedFiles ==> Fits(DeletedFile(p.0, p.1))
  {}

  lemma ListsNext(all: seq<(nat, nat)>, s: set<(nat, nat)>, todo: set<(nat, nat)>, p: (nat, nat))
    requires Lists(all, s) && AllBefore(s, todo) && p in todo && forall q :: q in todo ==> !PairLess(q, p)
    ensures Lists(all + [p], s + {p}) && AllBefore(s + {p}, todo - {p})
  {
    forall i | 0 <= i < |all|
      ensures PairLess(all[i], p)
    {
      assert all[i] in all;
    }
  }

  // The set of deleted files is walked in order.
  method LeastPair(s: set<(nat, nat)>) returns (p: (nat, nat))
    requires s != {}
    ensures p in s && forall q :: q in s ==> !PairLess(q, p)
  {
    p :| p in s;
    var todo := s - {p};
    while todo != {}
      invariant todo <= s && p in s && forall q :: q in s && q !in todo ==> !PairLess(q, p)
      decreases |todo|
    {
      var q :| q in todo;
      if PairLess(q, p) {
        p := q;
      }
      todo := todo - {q};
    }
  }

  class VersionEdit {
    var fields: Fields

    constructor ()
      ensures fields == Cleared([])
    {
      fields := Cleared([]);
    }

    method Clear()
      modifies this
      ensures fields == Cleared(old(fields.compactPointers))
    {
      fields := Cleared(fields.compactPointers);
    }

    method PutField(dst0: seq<byte>, f: Field, ghost e: Fields, ghost fs: seq<Field>) returns (dst: seq<byte>)
      requires Encodes(dst0, e) && Fits(f) && dst0 == FieldsBytes(fs)
      ensures Encodes(dst, Set(e, f)) && dst == FieldsBytes(fs + [f])
    {
      EncodesNext(dst0, e, f);
      OneMoreField(fs, f);
      dst := dst0 + FieldBytes(f);
    }

    // Numbers, compaction pointers, deleted files in order, and new files.
    method EncodeTo() returns (dst: seq<byte>)
      requires FieldsFit(fields)
      ensures Encodes(dst, fields) && InOrder(dst, fields)
    {
      hide Encodes, FieldBytes, FieldsFit, FieldsBytes, NumbersOf, PointersOf, DeletedOf, NewOf, Lists;
      ghost var e := fields.(compactPointers := [], deletedFiles := {}, newFiles := []);
      dst := PutNumbers();
      dst := PutPointers(dst, e, NumbersOf(fields));
      ghost var fs, deleted := NumbersOf(fields) + PointersOf(fields.compactPointers), [];
      dst, deleted := PutDeleted(dst, e.(compactPointers := fields.compactPointers), fs);
      dst := PutNew(dst, e.(compactPointers := fields.compactPointers, deletedFiles := fields.deletedFiles), fs + DeletedOf(deleted));
    }

    method PutNumbers() returns (dst: seq<byte>)
      requires FieldsFit(fields)
      ensures Encodes(dst, fields.(compactPointers := [], deletedFiles := {}, newFiles := [])) && dst == FieldsBytes(NumbersOf(fields))
    {
      hide Encodes, FieldBytes, FieldsBytes;
      ghost var e, fs;
      dst, e, fs := PutLogNumbers();
      if fields.nextFileNumber.Some? {
        dst := PutField(dst, NextFileNumber(fields.nextFileNumber.value), e, fs);
        e, fs := Set(e, NextFileNumber(fields.nextFileNumber.value)), fs + [NextFileNumber(fields.nextFileNumber.value)];
      }
      if fields.lastSequence.Some? {
        dst := PutField(dst, LastSequence(fields.lastSequence.value), e, fs);
        e, fs := Set(e, LastSequence(fields.lastSequence.value)), fs + [LastSequence(fields.lastSequence.value)];
      }
      assert fs == NumbersOf(fields);
    }

    method PutLogNumbers() returns (dst: seq<byte>, ghost e: Fields, ghost fs: seq<Field>)
      requires FieldsFit(fields)
      ensures e == Cleared([]).(comparator := fields.comparator, logNumber := fields.logNumber, prevLogNumber := fields.prevLogNumber)
      ensures Encodes(dst, e) && dst == FieldsBytes(fs) && fs == NumbersOf(e)
    {
      hide Encodes, FieldBytes;
      EncodesNothing();
      dst, e, fs := [], Cleared([]), [];
      assert FieldsBytes(fs) == [];
      hide FieldsBytes;
      if fields.comparator.Some? {
        dst := PutField(dst, Comparator(fields.comparator.value), e, fs);
        e, fs := Set(e, Comparator(fields.comparator.value)), fs + [Comparator(fields.comparator.value)];
      }
      if fields.logNumber.Some? {
        dst := PutField(dst, LogNumber(fields.logNumber.value), e, fs);
        e, fs := Set(e, LogNumber(fields.logNumber.value)), fs + [LogNumber(fields.logNumber.value)];
      }
      if fields.prevLogNumber.Some? {
        dst := PutField(dst, PrevLogNumber(fields.prevLogNumber.value), e, fs);
        e, fs := Set(e, PrevLogNumber(fields.prevLogNumber.value)), fs + [PrevLogNumber(fields.prevLogNumber.value)];
      }
    }

    method PutPointers(dst0: seq<byte>, ghost e: Fields, ghost fs: seq<Field>) returns (dst: seq<byte>)
      requires FieldsFit(fields) && Encodes(dst0, e) && e.compactPointers == [] && dst0 == FieldsBytes(fs)
      ensures Encodes(dst, e.(compactPointers := fields.compactPointers)) && dst == FieldsBytes(fs + PointersOf(fields.compactPointers))
    {
      hide Encodes, FieldBytes, FieldsBytes;
      dst := dst0;
      var all := fields.compactPointers;
      var i := 0;
      assert fs + PointersOf(all[..0]) == fs;
      while i < |all|
        invariant i <= |all| && Encodes(dst, e.(compactPointers := all[..i])) && dst == FieldsBytes(fs + PointersOf(all[..i]))
      {
        dst := PutField(dst, CompactPointer(all[i].0, all[i].1), e.(compactPointers := all[..i]), fs + PointersOf(all[..i]));
        assert all[..i + 1] == all[..i] + [(all[i].0, all[i].1)];
        assert fs + PointersOf(all[..i + 1]) == fs + PointersOf(all[..i]) + [CompactPointer(all[i].0, all[i].1)];
        i := i + 1;
      }
      assert all[..|all|] == all;
    }

    method PutDeleted(dst0: seq<byte>, ghost e: Fields, ghost fs: seq<Field>) returns (dst: seq<byte>, ghost put: seq<(nat, nat)>)
      requires FieldsFit(fields) && Encodes(dst0, e) && e.deletedFiles == {} && dst0 == FieldsBytes(fs)
      ensures Encodes(dst, e.(deletedFiles := fields.deletedFiles))
      ensures Lists(put, fields.deletedFiles) && dst == FieldsBytes(fs + DeletedOf(put))
    {
      hide Encodes, FieldBytes, FieldsBytes, PairLess, FieldsFit, AllBefore, Lists, DeletedOf, Set, Fits;
      NothingListed(fields.deletedFiles);
      assert forall p :: p in fields.deletedFiles ==> Fits(DeletedFile(p.0, p.1)) by { DeletedFit(fields); }
      dst, put := dst0, [];
      var todo := fields.deletedFiles;
      ghost var done: set<(nat, nat)> := {};
      assert fs + DeletedOf(put) == fs by { NothingListed(todo); }
      while todo != {}
        invariant done + todo == fields.deletedFiles && done !! todo && Encodes(dst, e.(deletedFiles := done))
        invariant Lists(put, done) && dst == FieldsBytes(fs + DeletedOf(put)) && AllBefore(done, todo)
        decreases |todo|
      {
        var p := LeastPair(todo);
        dst := PutField(dst, DeletedFile(p.0, p.1), e.(deletedFiles := done), fs + DeletedOf(put));
        ListsNext(put, done, todo, p);
        assert fs + DeletedOf(put + [p]) == fs + DeletedOf(put) + [DeletedFile(p.0, p.1)] by { DeletedNext(put, p); }
        SetDeleted(e, done, p);
        put, done := put + [p], done + {p};
        todo := todo - {p};
      }
      assert done == fields.deletedFiles;
    }

    method PutNew(dst0: seq<byte>, ghost e: Fields, ghost fs: seq<Field>) returns (dst: seq<byte>)
      requires FieldsFit(fields) && Encodes(dst0, e) && e.newFiles == [] && dst0 == FieldsBytes(fs)
      ensures Encodes(dst, e.(newFiles := fields.newFiles)) && dst == FieldsBytes(fs + NewOf(fields.newFiles))
    {
      hide Encodes, FieldBytes, FieldsBytes;
      dst := dst0;
      var all := fields.newFiles;
      var i := 0;
      assert fs + NewOf(all[..0]) == fs;
      while i < |all|
        invariant i <= |all| && Encodes(dst, e.(newFiles := all[..i])) && dst == FieldsBytes(fs + NewOf(all[..i]))
      {
        dst := PutField(dst, NewFile(all[i].0, all[i].1), e.(newFiles := all[..i]), fs + NewOf(all[..i]));
        assert all[..i + 1] == all[..i] + [(all[i].0, all[i].1)];
        assert fs + NewOf(all[..i + 1]) == fs + NewOf(all[..i]) + [NewFile(all[i].0, all[i].1)];
        i := i + 1;
      }
      assert all[..|all|] == all;
    }

    // The fields read before the end or before the first malformed one are set either way.
    method DecodeFrom(src: seq<byte>) returns (ok: bool)
      modifies this
      ensures (fields, ok) == Decoded(Cleared(old(fields.compactPointers)), src)
      ensures forall e :: Encodes(src, e) && old(fields.compactPointers) == [] ==> ok && fields == e
    {
      hide Encodes;
      ghost var start := fields.compactPointers;
      Clear();
      var input := src;
      while true
        invariant Decoded(fields, input) == Decoded(Cleared(start), src)
        decreases |input|
      {
        var tag := GetVarint32(input);
        if tag.None? {
          ok := input == [];
          break;
        }
        var f := GetBody(tag.value.value, tag.value.rest);
        if f.None? {
          ok := false;
          break;
        }
        fields := Set(fields, f.value.value);
        input := f.value.rest;
      }
      forall e | Encodes(src, e)
        ensures Decoded(Cleared(start), src) == (After(start, e), true) && (start == [] ==> After(start, e) == e)
      {
        EncodesDecodes(src, e, start);
      }
    }
  }
}
