/** The filter block of a table: one filter for every 2 KB of file offsets at which data blocks begin. */
module FilterBlocks {
  import opened Wrappers
  import opened Bytes
  import opened Seqs
  import opened Coding
  import opened BlockFormat
  import opened Comparators
  import Bloom

  // ---- Policies ----

  datatype Policy = Policy(name: seq<byte>, create: seq<Key> -> seq<byte>, mayMatch: (Key, seq<byte>) -> bool)

  // No filter misses a key it was made for.
  ghost predicate NeverMisses(p: Policy) {
    forall keys: seq<Key>, key: Key :: key in keys ==> p.mayMatch(key, p.create(keys))
  }

  function BloomPolicy(name: seq<byte>, hash: Bloom.Hash, bitsPerKey: nat): Policy {
    Policy(name, keys => Bloom.Filter(keys, hash, bitsPerKey), (key, f) => Bloom.MayMatch(key, f, hash))
  }

  lemma BloomNeverMisses(name: seq<byte>, hash: Bloom.Hash, bitsPerKey: nat)
    ensures NeverMisses(BloomPolicy(name, hash, bitsPerKey))
  {
    forall keys: seq<Key>, key: Key | key in keys
      ensures Bloom.MayMatch(key, Bloom.Filter(keys, hash, bitsPerKey), hash)
    {
      Bloom.NoFalseNegatives(keys, hash, bitsPerKey, key);
    }
  }

  function ExtractUserKey(k: Key): Key {
    if IsInternal(k) then UserKey(k) else []
  }

  function UserKeys(keys: seq<Key>): seq<Key> {
    seq(|keys|, i requires 0 <= i < |keys| => ExtractUserKey(keys[i]))
  }

  // InternalFilterPolicy: only user keys go into the filter.
  function InternalPolicy(p: Policy): Policy {
    Policy(p.name, keys => p.create(UserKeys(keys)), (key, f) => p.mayMatch(ExtractUserKey(key), f))
  }

  // No filter misses any version of a user key it was made for.
  ghost predicate NeverMissesUser(p: Policy) {
    forall keys: seq<Key>, k0: Key, key: Key ::
      k0 in keys && IsInternal(k0) && IsInternal(key) && UserKey(k0) == UserKey(key) ==> p.mayMatch(key, p.create(keys))
  }

  lemma InternalNeverMisses(p: Policy)
    requires NeverMisses(p)
    ensures NeverMissesUser(InternalPolicy(p))
  {
    var q := InternalPolicy(p);
    forall keys: seq<Key>, k0: Key, key: Key | k0 in keys && IsInternal(k0) && IsInternal(key) && UserKey(k0) == UserKey(key)
      ensures q.mayMatch(key, q.create(keys))
    {
      var users := UserKeys(keys);
      var i: nat :| i < |keys| && keys[i] == k0;
      assert users[i] == UserKey(key);
      assert p.mayMatch(UserKey(key), p.create(users));
      assert q.mayMatch(key, q.create(keys)) == p.mayMatch(ExtractUserKey(key), p.create(users));
    }
  }

  // The filters of a database with a Bloom filter policy.
  lemma BloomNeverMissesUser(name: seq<byte>, hash: Bloom.Hash, bitsPerKey: nat)
    ensures NeverMissesUser(InternalPolicy(BloomPolicy(name, hash, bitsPerKey)))
  {
    BloomNeverMisses(name, hash, bitsPerKey);
    InternalNeverMisses(BloomPolicy(name, hash, bitsPerKey));
  }

  // ---- The format ----

  const BASE_LG: byte := 11
  const BASE: nat := 2048

  // No keys, no bytes.
  function FilterOf(p: Policy, keys: seq<Key>): seq<byte> {
    if keys == [] then [] else p.create(keys)
  }

  function Filters(p: Policy, groups: seq<seq<Key>>): seq<byte> {
    if groups == [] then [] else Filters(p, groups[..|groups| - 1]) + FilterOf(p, groups[|groups| - 1])
  }

  // Where each filter begins.
  function FilterStarts(p: Policy, groups: seq<seq<Key>>): (r: seq<nat>)
    ensures |r| == |groups|
  {
    if groups == [] then []
    else
      var first := groups[..|groups| - 1];
      FilterStarts(p, first) + [|Filters(p, first)|]
  }

  // Filters, their offsets, the offset of the offsets, and the spacing of the filters.
  function FilterBlockBytes(p: Policy, groups: seq<seq<Key>>): seq<byte> {
    Filters(p, groups) + RestartBytes(FilterStarts(p, groups)) + ToLittleEndian(|Filters(p, groups)|, 4) + [BASE_LG]
  }

  // The end of a filter block: where each filter begins, in four bytes, where those four bytes begin, and 11,
  // for filters 2048 file offsets apart.
  lemma FilterBlockFormat(p: Policy, groups: seq<seq<Key>>)
    ensures FilterBlockBytes(p, groups)
         == Filters(p, groups) + RestartBytes(FilterStarts(p, groups)) + ToLittleEndian(|Filters(p, groups)|, 4) + [11]
    ensures Pow2(11) == BASE == 2048
  {
    assert Pow2(4) == 16;
  }

  lemma {:induction false} FilterAt(p: Policy, groups: seq<seq<Key>>, i: nat)
    requires i < |groups|
    ensures var all, start := Filters(p, groups), FilterStarts(p, groups)[i];
            var limit := if i + 1 < |groups| then FilterStarts(p, groups)[i + 1] else |all|;
            start <= limit <= |all| && all[start..limit] == FilterOf(p, groups[i])
  {
    hide FilterOf;
    var n := |groups| - 1;
    var a, b := Filters(p, groups[..n]), FilterOf(p, groups[n]);
    if i < n {
      FilterAt(p, groups[..n], i);
      var start := FilterStarts(p, groups)[i];
      var limit := if i + 1 < |groups| then FilterStarts(p, groups)[i + 1] else |Filters(p, groups)|;
      SliceOfConcat(a, b, start, limit);
    } else {
      assert (a + b)[|a|..] == b;
    }
  }

  // ---- FilterBlockBuilder ----

  function Flatten(keys: seq<Key>): seq<byte> {
    if keys == [] then [] else Flatten(keys[..|keys| - 1]) + keys[|keys| - 1]
  }

  lemma {:induction false} FlattenAt(keys: seq<Key>, i: nat)
    requires i < |keys|
    ensures |Flatten(keys[..i])| <= |Flatten(keys[..i + 1])| <= |Flatten(keys)|
    ensures Flatten(keys)[|Flatten(keys[..i])|..|Flatten(keys[..i + 1])|] == keys[i]
  {
    var n := |keys| - 1;
    assert keys[..i + 1][..i] == keys[..i];
    if i < n {
      FlattenAt(keys[..n], i);
      assert keys[..n][..i] == keys[..i] && keys[..n][..i + 1] == keys[..i + 1];
      SliceOfConcat(Flatten(keys[..n]), keys[n], |Flatten(keys[..i])|, |Flatten(keys[..i + 1])|);
    } else {
      assert keys[..i + 1] == keys;
    }
  }

  class FilterBlockBuilder {
    const policy: Policy
    var keys: seq<byte>
    var start: seq<nat>
    var result: seq<byte>
    var filterOffsets: seq<nat>

    // The keys of the filters made, and those waiting for the next one.
    ghost var groups: seq<seq<Key>>
    ghost var pending: seq<Key>

    ghost predicate Valid()
      reads this
    {
      keys == Flatten(pending) && |start| == |pending|
      && (forall i :: 0 <= i < |start| ==> start[i] == |Flatten(pending[..i])|)
      && result == Filters(policy, groups) && filterOffsets == FilterStarts(policy, groups)
    }

    constructor (policy: Policy)
      ensures Valid() && groups == [] && pending == [] && this.policy == policy
    {
      this.policy := policy;
      keys, start, result, filterOffsets, groups, pending := [], [], [], [], [], [];
    }

    // Once past a filter's stretch of offsets, its filter is made, with empty ones up to the new stretch.
    method StartBlock(blockOffset: nat)
      requires Valid() && |groups| <= blockOffset / 2048
      modifies this
      ensures Valid() && |groups| == blockOffset / 2048
      ensures if |groups| == |old(groups)| then groups == old(groups) && pending == old(pending)
              else pending == [] && old(groups) + [old(pending)] <= groups
                   && forall i :: |old(groups)| < i < |groups| ==> groups[i] == []
    {
      var filterIndex := blockOffset / BASE;
      while filterIndex > |filterOffsets|
        invariant Valid() && |groups| <= filterIndex
        invariant if |groups| == |old(groups)| then groups == old(groups) && pending == old(pending)
                  else pending == [] && old(groups) + [old(pending)] <= groups
                       && forall i :: |old(groups)| < i < |groups| ==> groups[i] == []
        decreases filterIndex - |groups|
      {
        GenerateFilter();
      }
    }

    method AddKey(key: Key)
      requires Valid()
      modifies this
      ensures Valid() && groups == old(groups) && pending == old(pending) + [key]
    {
      start := start + [|keys|];
      keys := keys + key;
      ghost var more := pending + [key];
      assert more[..|pending|] == pending && more[|pending|] == key;
      forall i | 0 <= i < |more|
        ensures start[i] == |Flatten(more[..i])|
      {
        assert more[..i] == pending[..i];
        if i == |pending| {
          assert pending[..i] == pending;
        }
      }
      pending := more;
    }

    method GenerateFilter()
      requires Valid()
      modifies this
      ensures Valid() && groups == old(groups) + [old(pending)] && pending == []
    {
      hide Filters, FilterStarts;
      OneMore(policy, groups, pending);
      var numKeys := |start|;
      if numKeys == 0 {
        filterOffsets := filterOffsets + [|result|];
        groups := groups + [pending];
        return;
      }
      start := start + [|keys|];
      var tmpKeys: seq<Key> := [];
      var i := 0;
      while i < numKeys
        invariant i <= numKeys == |pending| && tmpKeys == pending[..i] && start == old(start) + [|keys|]
        invariant keys == old(keys) && pending == old(pending) && groups == old(groups)
        invariant result == old(result) && filterOffsets == old(filterOffsets)
      {
        FlattenAt(pending, i);
        StartIs(pending, start, i);
        StartIs(pending, start, i + 1);
        tmpKeys := tmpKeys + [keys[start[i]..start[i + 1]]];
        i := i + 1;
      }
      assert tmpKeys == pending;
      filterOffsets := filterOffsets + [|result|];
      result := result + policy.create(tmpKeys);
      groups := groups + [pending];
      keys, start, pending := [], [], [];
    }

    method Finish() returns (s: seq<byte>)
      requires Valid()
      modifies this
      ensures groups == if old(pending) == [] then old(groups) else old(groups) + [old(pending)]
      ensures s == FilterBlockBytes(policy, groups)
    {
      hide Filters, FilterStarts, ToLittleEndian;
      if start != [] {
        GenerateFilter();
      }
      var arrayOffset := |result|;
      ghost var filters := result;
      var i := 0;
      assert filterOffsets[..0] == [];
      while i < |filterOffsets|
        invariant i <= |filterOffsets| && result == filters + RestartBytes(filterOffsets[..i])
        invariant filterOffsets == FilterStarts(policy, groups) && filters == Filters(policy, groups)
        invariant groups == if old(pending) == [] then old(groups) else old(groups) + [old(pending)]
      {
        assert filterOffsets[..i + 1][..i] == filterOffsets[..i];
        Associate(filters, RestartBytes(filterOffsets[..i]), ToLittleEndian(filterOffsets[i], 4));
        result := result + ToLittleEndian(filterOffsets[i], 4);
        i := i + 1;
      }
      assert filterOffsets[..i] == filterOffsets;
      result := result + ToLittleEndian(arrayOffset, 4);
      result := result + [BASE_LG];
      s := result;
    }
  }

  lemma OneMore(p: Policy, groups: seq<seq<Key>>, keys: seq<Key>)
    ensures Filters(p, groups + [keys]) == Filters(p, groups) + FilterOf(p, keys)
    ensures FilterStarts(p, groups + [keys]) == FilterStarts(p, groups) + [|Filters(p, groups)|]
  {
    assert (groups + [keys])[..|groups|] == groups;
  }

  lemma StartIs(pending: seq<Key>, start: seq<nat>, i: nat)
    requires |start| == |pending| + 1 && i <= |pending| && start[|pending|] == |Flatten(pending)|
    requires forall i :: 0 <= i < |pending| ==> start[i] == |Flatten(pending[..i])|
    ensures start[i] == |Flatten(pending[..i])|
  {
    assert pending[..|pending|] == pending;
  }

  // ---- FilterBlockReader ----

  // No filters, for contents that cannot be a filter block.
  datatype FilterBlockReader = FilterBlockReader(contents: seq<byte>, offset: nat, num: nat, baseLg: nat)

  // v >> n
  function Shifted(v: nat, n: nat): nat {
    if n == 0 then v else Shifted(v / 2, n - 1)
  }

  predicate ReaderOk(r: FilterBlockReader) {
    r.num > 0 ==> r.offset + 4 * r.num + 5 <= |r.contents|
  }

  function OpenFilterBlock(contents: seq<byte>): (r: FilterBlockReader)
    ensures ReaderOk(r)
  {
    var n := |contents|;
    if n < 5 then FilterBlockReader(contents, 0, 0, 0)
    else
      var lastWord := DecodeFixed32(contents, n - 5);
      if lastWord > n - 5 then FilterBlockReader(contents, 0, 0, contents[n - 1])
      else FilterBlockReader(contents, lastWord, (n - 5 - lastWord) / 4, contents[n - 1])
  }

  // Whatever looks wrong counts as a match.
  function KeyMayMatch(r: FilterBlockReader, p: Policy, blockOffset: nat, key: Key): bool
    requires ReaderOk(r)
  {
    var index := Shifted(blockOffset, r.baseLg);
    index < r.num ==> MatchesFilter(r, p, index, key)
  }

  function MatchesFilter(r: FilterBlockReader, p: Policy, index: nat, key: Key): bool
    requires ReaderOk(r) && index < r.num
  {
    var start, limit := DecodeFixed32(r.contents, r.offset + 4 * index), DecodeFixed32(r.contents, r.offset + 4 * index + 4);
    if start <= limit <= r.offset then p.mayMatch(key, r.contents[start..limit])
    else start != limit
  }

  // On any contents: a key is turned away only by a filter that is there, and that is empty or does not match it.
  // Whatever looks wrong counts as a match.
  lemma TurnedAwayIff(s: seq<byte>, p: Policy, blockOffset: nat, key: Key)
    ensures !KeyMayMatch(OpenFilterBlock(s), p, blockOffset, key)
            <==> |s| >= 5
                 && var o := DecodeFixed32(s, |s| - 5);
                    var i := o + 4 * Shifted(blockOffset, s[|s| - 1]);
                    i + 4 <= |s| - 5
                    && var start, limit := DecodeFixed32(s, i), DecodeFixed32(s, i + 4);
                       if start <= limit <= o then !p.mayMatch(key, s[start..limit]) else start == limit
  {
    hide DecodeFixed32, Shifted;
  }

  // The words of a filter block: the start of every filter, and of the words.
  lemma FilterBlockWords(p: Policy, groups: seq<seq<Key>>)
    requires |FilterBlockBytes(p, groups)| < TWO_32
    ensures var s, o := FilterBlockBytes(p, groups), |Filters(p, groups)|;
            |s| == o + 4 * |groups| + 5 && s[..o] == Filters(p, groups) && s[|s| - 1] == BASE_LG
            && DecodeFixed32(s, |s| - 5) == o
            && forall i: nat :: i < |groups| ==> DecodeFixed32(s, o + 4 * i) == FilterStarts(p, groups)[i]
  {
    hide Filters, FilterStarts, ToLittleEndian, LittleEndian;
    var f, starts := Filters(p, groups), FilterStarts(p, groups);
    var r, t := RestartBytes(starts), ToLittleEndian(|f|, 4);
    var s := f + r + t + [BASE_LG];
    RestartBytesLength(starts);
    FourBytes();
    FixedRoundTrip(|f|, 4);
    assert s[|s| - 5..|s| - 5 + 4] == t;
    forall i: nat | i < |groups|
      ensures DecodeFixed32(s, |f| + 4 * i) == starts[i]
    {
      RestartBytesAt(starts, i);
      assert s[|f| + 4 * i..|f| + 4 * i + 4] == r[4 * i..4 * i + 4];
      FilterAt(p, groups, i);
      FixedRoundTrip(starts[i], 4);
    }
  }

  // Reading what the builder wrote asks the filter of the stretch, and matches past the last one.
  lemma FilterBlockReads(p: Policy, groups: seq<seq<Key>>, blockOffset: nat, key: Key)
    requires |FilterBlockBytes(p, groups)| < TWO_32
    ensures var index := blockOffset / BASE;
            KeyMayMatch(OpenFilterBlock(FilterBlockBytes(p, groups)), p, blockOffset, key)
            <==> index < |groups| ==> p.mayMatch(key, FilterOf(p, groups[index]))
  {
    hide Filters, FilterStarts, ToLittleEndian, LittleEndian, FilterBlockBytes, FilterOf;
    FilterBlockWords(p, groups);
    Base(blockOffset);
    var s, o, index := FilterBlockBytes(p, groups), |Filters(p, groups)|, blockOffset / BASE;
    if index < |groups| {
      FilterAt(p, groups, index);
      var at := o + 4 * index;
      var start := FilterStarts(p, groups)[index];
      var limit := if index + 1 < |groups| then FilterStarts(p, groups)[index + 1] else o;
      assert DecodeFixed32(s, at + 4) == limit by {
        if index + 1 < |groups| {
          assert at + 4 == o + 4 * (index + 1);
        }
      }
      SliceOfConcat(s[..o], s[o..], start, limit);
      assert s[..o] + s[o..] == s;
    }
  }

  lemma Base(v: nat)
    ensures Shifted(v, BASE_LG) == v / BASE
  {
    var q := v / 0x40;
    assert Shifted(v, 11) == Shifted(q, 5) by {
      assert Shifted(v, 11) == Shifted(v / 2, 10) == Shifted(v / 2 / 2, 9) == Shifted(v / 2 / 2 / 2, 8);
      assert v / 2 / 2 / 2 == v / 8;
      assert Shifted(v / 8, 8) == Shifted(v / 8 / 2, 7) == Shifted(v / 8 / 2 / 2, 6) == Shifted(v / 8 / 2 / 2 / 2, 5);
      assert v / 8 / 2 / 2 / 2 == q;
    }
    assert Shifted(q, 5) == Shifted(q / 2, 4) == Shifted(q / 2 / 2, 3) == Shifted(q / 2 / 2 / 2, 2);
    assert q / 2 / 2 / 2 == q / 8;
    assert Shifted(q / 8, 2) == Shifted(q / 8 / 2, 1) == Shifted(q / 8 / 2 / 2, 0);
    assert q / 8 / 2 / 2 == v / BASE;
  }

  // ---- Which filter a key is in ----

  // The filters made and the one to come.
  ghost function AllGroups(groups: seq<seq<Key>>, pending: seq<Key>): seq<seq<Key>> {
    groups + [pending]
  }

  ghost predicate InStretch(groups: seq<seq<Key>>, pending: seq<Key>, blockOffset: nat, key: Key) {
    var all := AllGroups(groups, pending);
    blockOffset / BASE < |all| && key in all[blockOffset / BASE]
  }

  // Starting a block loses no key.
  lemma StartKeeps(groups: seq<seq<Key>>, pending: seq<Key>, groups': seq<seq<Key>>, pending': seq<Key>, blockOffset: nat, key: Key)
    requires if |groups'| == |groups| then groups' == groups && pending' == pending else groups + [pending] <= groups'
    requires InStretch(groups, pending, blockOffset, key)
    ensures InStretch(groups', pending', blockOffset, key)
  {}

  // The finished block matches every key it was given, under the offset of its data block.
  lemma NoFalseNegatives(p: Policy, groups: seq<seq<Key>>, pending: seq<Key>, blockOffset: nat, k0: Key, key: Key)
    requires NeverMissesUser(p) && IsInternal(k0) && IsInternal(key) && UserKey(k0) == UserKey(key)
    requires InStretch(groups, pending, blockOffset, k0)
    requires |FilterBlockBytes(p, if pending == [] then groups else groups + [pending])| < TWO_32
    ensures var s := FilterBlockBytes(p, if pending == [] then groups else groups + [pending]);
            KeyMayMatch(OpenFilterBlock(s), p, blockOffset, key)
  {
    hide FilterBlockBytes, KeyMayMatch, OpenFilterBlock;
    FilterBlockReads(p, if pending == [] then groups else groups + [pending], blockOffset, key);
  }
}
