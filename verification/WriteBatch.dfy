/** A batch of updates as one byte string: sequence number, count, then the updates. */
module WriteBatches {
  import opened Wrappers
  import opened Bytes
  import opened Seqs
  import opened Coding

  const HEADER: nat := 12
  const TYPE_DELETION: byte := 0
  const TYPE_VALUE: byte := 1
  const MAX_COUNT: nat := 0x7fff_ffff

  datatype Op = PutOp(key: seq<byte>, value: seq<byte>) | DeleteOp(key: seq<byte>)

  datatype Status = Ok | Corruption(message: string)

  // Lengths are written in 32 bits.
  predicate Fits(op: Op) {
    |op.key| < TWO_32 && (op.PutOp? ==> |op.value| < TWO_32)
  }

  function OpBytes(op: Op): (s: seq<byte>)
    ensures |s| > 0
  {
    match op
    case PutOp(key, value) => [TYPE_VALUE] + LengthPrefixed(key) + LengthPrefixed(value)
    case DeleteOp(key) => [TYPE_DELETION] + LengthPrefixed(key)
  }

  function OpsBytes(ops: seq<Op>): seq<byte> {
    if ops == [] then [] else OpsBytes(ops[..|ops| - 1]) + OpBytes(ops[|ops| - 1])
  }

  // The representation of a batch.
  function Rep(first: nat, ops: seq<Op>): (s: seq<byte>)
    ensures |s| == HEADER + |OpsBytes(ops)|
  {
    ToLittleEndian(first, 8) + ToLittleEndian(|ops|, 4) + OpsBytes(ops)
  }

  lemma {:induction false} OpsBytesConcat(a: seq<Op>, b: seq<Op>)
    ensures OpsBytes(a + b) == OpsBytes(a) + OpsBytes(b)
  {
    if b == [] {
      assert a + b == a;
    } else {
      hide OpBytes, OpsBytes;
      var front, last := b[..|b| - 1], b[|b| - 1];
      assert b == front + [last] && a + b == (a + front) + [last];
      OneMoreOp(front, last);
      OneMoreOp(a + front, last);
      OpsBytesConcat(a, front);
      Associate(OpsBytes(a), OpsBytes(front), OpBytes(last));
    }
  }

  lemma {:induction false} OpsTakeBytes(ops: seq<Op>)
    ensures |ops| <= |OpsBytes(ops)|
  {
    hide OpBytes;
    if ops != [] {
      OpsTakeBytes(ops[..|ops| - 1]);
    }
  }

  lemma OneMoreOp(ops: seq<Op>, op: Op)
    ensures OpsBytes(ops + [op]) == OpsBytes(ops) + OpBytes(op)
  {
    hide OpBytes;
    assert (ops + [op])[..|ops|] == ops;
  }

  // ---- Reading a batch back ----

  // One update and what follows it.
  function ParseOp(s: seq<byte>): (r: Option<Got<Op>>)
    requires s != []
    ensures r.Some? ==> |r.value.rest| < |s|
  {
    if s[0] == TYPE_VALUE then
      match GetLengthPrefixed(s[1..])
      case None => None
      case Some(Got(key, rest)) =>
        match GetLengthPrefixed(rest)
        case None => None
        case Some(Got(value, rest)) => Some(Got(PutOp(key, value), rest))
    else if s[0] == TYPE_DELETION then
      match GetLengthPrefixed(s[1..])
      case None => None
      case Some(Got(key, rest)) => Some(Got(DeleteOp(key), rest))
    else None
  }

  // The updates before the end, or before the first that does not parse.
  function ParseOps(s: seq<byte>): seq<Op>
    decreases |s|
  {
    if s == [] then []
    else
      match ParseOp(s)
      case None => []
      case Some(Got(op, rest)) => [op] + ParseOps(rest)
  }

  predicate AllParse(s: seq<byte>)
    decreases |s|
  {
    s == [] || (ParseOp(s).Some? && AllParse(ParseOp(s).value.rest))
  }

  lemma ParseOpOfBytes(op: Op, rest: seq<byte>)
    requires Fits(op)
    ensures ParseOp(OpBytes(op) + rest) == Some(Got(op, rest))
  {
    hide LengthPrefixed, GetLengthPrefixed;
    var s := OpBytes(op) + rest;
    match op
    case PutOp(key, value) =>
      Associate(LengthPrefixed(key), LengthPrefixed(value), rest);
      assert s[1..] == LengthPrefixed(key) + (LengthPrefixed(value) + rest);
      LengthPrefixedRoundTrip(key, LengthPrefixed(value) + rest);
      LengthPrefixedRoundTrip(value, rest);
    case DeleteOp(key) =>
      assert s[1..] == LengthPrefixed(key) + rest;
      LengthPrefixedRoundTrip(key, rest);
  }

  lemma {:induction false} ParseOpsOfBytes(ops: seq<Op>)
    requires forall op :: op in ops ==> Fits(op)
    ensures ParseOps(OpsBytes(ops)) == ops && AllParse(OpsBytes(ops))
  {
    if ops != [] {
      var op, rest := ops[0], ops[1..];
      assert ops == [op] + rest;
      OpsBytesConcat([op], rest);
      assert [op][..0] == [];
      assert OpsBytes([op]) == OpBytes(op);
      ParseOpOfBytes(op, OpsBytes(rest));
      ParseOpsOfBytes(rest);
    }
  }

  // An update in bytes: 1 and two strings for a value, 0 and one string for a deletion, and nothing else.
  lemma UpdateFormat(key: seq<byte>, value: seq<byte>, rest: seq<byte>)
    requires |key| < TWO_32 && |value| < TWO_32
    ensures ParseOp([1] + LengthPrefixed(key) + LengthPrefixed(value) + rest) == Some(Got(PutOp(key, value), rest))
    ensures ParseOp([0] + LengthPrefixed(key) + rest) == Some(Got(DeleteOp(key), rest))
  {
    hide LengthPrefixed, ParseOp;
    ParseOpOfBytes(PutOp(key, value), rest);
    ParseOpOfBytes(DeleteOp(key), rest);
  }

  lemma OtherTags(s: seq<byte>)
    requires s != [] && s[0] > 1
    ensures ParseOp(s) == None
  {}

  // A batch in bytes: eight for the sequence number, four for the count, and the updates.
  lemma BatchFormat(first: nat, ops: seq<Op>)
    ensures Rep(first, ops) == ToLittleEndian(first, 8) + ToLittleEndian(|ops|, 4) + OpsBytes(ops) && |Rep(first, ops)| == 12 + |OpsBytes(ops)|
    ensures forall key, value, rest :: rest + [PutOp(key, value)] == ops ==>
              OpsBytes(ops) == OpsBytes(rest) + ([1] + LengthPrefixed(key) + LengthPrefixed(value))
    ensures forall key, rest :: rest + [DeleteOp(key)] == ops ==> OpsBytes(ops) == OpsBytes(rest) + ([0] + LengthPrefixed(key))
  {
    hide LengthPrefixed, ToLittleEndian;
    forall op, rest | rest + [op] == ops
      ensures OpsBytes(ops) == OpsBytes(rest) + OpBytes(op)
    {
      OneMoreOp(rest, op);
    }
  }

  // The first malformed update and what follows it.
  function Unparsed(s: seq<byte>): seq<byte>
    decreases |s|
  {
    if s == [] then []
    else
      match ParseOp(s)
      case None => s
      case Some(Got(op, rest)) => Unparsed(rest)
  }

  lemma {:induction false} UnparsedIff(s: seq<byte>)
    ensures AllParse(s) <==> Unparsed(s) == []
    decreases |s|
  {
    if s != [] && ParseOp(s).Some? {
      UnparsedIff(ParseOp(s).value.rest);
    }
  }

  // WriteBatch::Iterate: hand the updates to the handler in order; stop at the first malformed one.
  method Iterate(rep: seq<byte>) returns (handled: seq<Op>, status: Status)
    ensures |rep| < 12 ==> handled == [] && status == Corruption("malformed WriteBatch (too small)")
    ensures |rep| >= 12 ==>
              handled == ParseOps(rep[12..])
              && (status.Ok? <==> AllParse(rep[12..]) && |handled| == LittleEndian(rep[8..12]))
              && var bad := Unparsed(rep[12..]);
                 if bad != [] then
                   status == Corruption(if bad[0] == 1 then "bad WriteBatch Put" else if bad[0] == 0 then "bad WriteBatch Delete"
                                        else "unknown WriteBatch tag")
                 else status.Corruption? ==> status == Corruption("WriteBatch has wrong count")
  {
    hide ParseOp;
    handled := [];
    if |rep| < HEADER {
      return handled, Corruption("malformed WriteBatch (too small)");
    }
    var input := rep[HEADER..];
    UnparsedIff(input);
    while input != []
      invariant handled + ParseOps(input) == ParseOps(rep[HEADER..])
      invariant Unparsed(input) == Unparsed(rep[HEADER..])
      decreases |input|
    {
      var tag := input[0];
      var got := ParseOp(input);
      if got.None? {
        return handled, Corruption(if tag == TYPE_VALUE then "bad WriteBatch Put"
                                   else if tag == TYPE_DELETION then "bad WriteBatch Delete"
                                   else "unknown WriteBatch tag");
      }
      handled := handled + [got.value.value];
      input := got.value.rest;
    }
    status := if |handled| != LittleEndian(rep[8..12]) then Corruption("WriteBatch has wrong count") else Ok;
  }

  class WriteBatch {
    var rep: seq<byte>

    // What the bytes stand for.
    ghost var first: nat
    ghost var ops: seq<Op>

    ghost predicate Valid()
      reads this
    {
      rep == Rep(first, ops) && |ops| <= MAX_COUNT && (forall op :: op in ops ==> Fits(op))
    }

    constructor ()
      ensures Valid() && ops == []
    {
      rep := seq(HEADER, _ => 0);
      first, ops := 0, [];
      new;
      assert rep == Rep(0, []);
    }

    method Clear()
      modifies this
      ensures Valid() && ops == []
    {
      rep := seq(HEADER, _ => 0);
      first, ops := 0, [];
      assert rep == Rep(0, []);
    }

    function ByteSize(): nat
      reads this
    {
      |rep|
    }

    function Count(): (n: nat)
      reads this
      requires Valid()
      ensures n == |ops|
    {
      CountOfRep(first, ops);
      LittleEndian(rep[8..12])
    }

    // Append n updates, already in bytes.
    method AppendOps(more: seq<byte>, n: nat, ghost moreOps: seq<Op>)
      requires Valid() && more == OpsBytes(moreOps) && n == |moreOps| && |ops| + n <= MAX_COUNT
      requires forall op :: op in moreOps ==> Fits(op)
      modifies this
      ensures Valid() && ops == old(ops) + moreOps && first == old(first)
    {
      hide Fits, OpsBytes, ToLittleEndian, LittleEndian;
      OpsBytesConcat(ops, moreOps);
      var count := Count() + n;
      RepParts(first, ops);
      rep := rep[..8] + ToLittleEndian(count, 4) + rep[HEADER..] + more;
      ops := ops + moreOps;
      Associate(ToLittleEndian(first, 8) + ToLittleEndian(count, 4), OpsBytes(old(ops)), more);
    }

    method Put(key: seq<byte>, value: seq<byte>)
      requires Valid() && |ops| < MAX_COUNT && |key| < TWO_32 && |value| < TWO_32
      modifies this
      ensures Valid() && ops == old(ops) + [PutOp(key, value)] && first == old(first)
      ensures old(|rep|) >= 12 && rep == old(rep[..8]) + ToLittleEndian(|ops|, 4) + old(rep[12..])
                + ([1] + LengthPrefixed(key) + LengthPrefixed(value))
    {
      NowInBytes(first, ops, PutOp(key, value));
      OneOp(PutOp(key, value));
      AppendOps([TYPE_VALUE] + LengthPrefixed(key) + LengthPrefixed(value), 1, [PutOp(key, value)]);
    }

    method Delete(key: seq<byte>)
      requires Valid() && |ops| < MAX_COUNT && |key| < TWO_32
      modifies this
      ensures Valid() && ops == old(ops) + [DeleteOp(key)] && first == old(first)
      ensures old(|rep|) >= 12 && rep == old(rep[..8]) + ToLittleEndian(|ops|, 4) + old(rep[12..]) + ([0] + LengthPrefixed(key))
    {
      NowInBytes(first, ops, DeleteOp(key));
      OneOp(DeleteOp(key));
      AppendOps([TYPE_DELETION] + LengthPrefixed(key), 1, [DeleteOp(key)]);
    }

    method SetSequence(sn: nat)
      requires Valid()
      modifies this
      ensures Valid() && ops == old(ops) && first == sn
    {
      RepParts(first, ops);
      rep := ToLittleEndian(sn, 8) + rep[8..];
      first := sn;
      assert rep == Rep(sn, ops);
    }

    // WriteBatchInternal::Append: the updates of another batch after one's own.
    method Append(src: WriteBatch)
      requires Valid() && src.Valid() && src != this && |ops| + |src.ops| <= MAX_COUNT
      modifies this
      ensures Valid() && ops == old(ops) + src.ops && first == old(first)
    {
      RepParts(src.first, src.ops);
      AppendOps(src.rep[HEADER..], src.Count(), src.ops);
    }

    // Reading a batch gives the updates it was built from.
    lemma IteratesBack()
      requires Valid()
      ensures |rep| >= HEADER && ParseOps(rep[HEADER..]) == ops && AllParse(rep[HEADER..])
      ensures LittleEndian(rep[8..12]) == |ops|
      ensures first < TWO_64 ==> LittleEndian(rep[..8]) == first
    {
      RepParts(first, ops);
      ParseOpsOfBytes(ops);
      CountOfRep(first, ops);
      if first < TWO_64 {
        EightBytes();
        FixedRoundTrip(first, 8);
      }
    }
  }

  // One update more, in bytes.
  lemma NowInBytes(first: nat, ops: seq<Op>, op: Op)
    ensures var rep, rep' := Rep(first, ops), Rep(first, ops + [op]);
            rep' == rep[..8] + ToLittleEndian(|ops| + 1, 4) + rep[12..]
                    + match op
                      case PutOp(key, value) => [1] + LengthPrefixed(key) + LengthPrefixed(value)
                      case DeleteOp(key) => [0] + LengthPrefixed(key)
  {
    hide LengthPrefixed, ToLittleEndian, OpsBytes;
    RepParts(first, ops);
    OneMoreOp(ops, op);
    Associate(ToLittleEndian(first, 8) + ToLittleEndian(|ops| + 1, 4), OpsBytes(ops), OpBytes(op));
  }

  lemma OneOp(op: Op)
    ensures OpsBytes([op]) == OpBytes(op)
  {
    assert [op][..0] == [];
  }

  lemma RepParts(first: nat, ops: seq<Op>)
    ensures var rep := Rep(first, ops);
            rep[..8] == ToLittleEndian(first, 8) && rep[8..12] == ToLittleEndian(|ops|, 4) && rep[HEADER..] == OpsBytes(ops)
            && rep[8..] == ToLittleEndian(|ops|, 4) + OpsBytes(ops)
  {
    hide ToLittleEndian, OpsBytes;
  }

  lemma CountOfRep(first: nat, ops: seq<Op>)
    requires |ops| <= MAX_COUNT
    ensures LittleEndian(Rep(first, ops)[8..12]) == |ops|
  {
    RepParts(first, ops);
    FourBytes();
    FixedRoundTrip(|ops|, 4);
  }
}
