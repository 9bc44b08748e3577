/** The hash table of the cache: buckets of chains, in an array that doubles when it fills up. */
module HandleTables {
  import opened Wrappers
  import opened Bytes

  type Key = seq<byte>

  // A chain link: which entry, and its key and hash.
  datatype Elem = Elem(id: nat, key: Key, hash: nat)

  // The entry a chain has for a key, if any: the place FindPointer stops at.
  function Find(chain: seq<Elem>, key: Key, hash: nat): (i: nat)
    ensures i <= |chain|
    ensures i < |chain| ==> chain[i].key == key && chain[i].hash == hash
    ensures forall j :: 0 <= j < i ==> !(chain[j].key == key && chain[j].hash == hash)
  {
    if chain == [] || (chain[0].hash == hash && chain[0].key == key) then 0 else 1 + Find(chain[1..], key, hash)
  }

  // No key twice in a chain.
  ghost predicate OnePerKey(chain: seq<Elem>) {
    forall i, j :: 0 <= i < j < |chain| ==> !(chain[i].key == chain[j].key && chain[i].hash == chain[j].hash)
  }

  // The table has exactly the pairs of `contents`, each in the bucket its hash selects.
  ghost predicate Holds(list: seq<seq<Elem>>, contents: map<(Key, nat), nat>) {
    |list| > 0
    && (forall b :: 0 <= b < |list| ==> OnePerKey(list[b]))
    && (forall b, e :: 0 <= b < |list| && e in list[b] ==>
          e.hash % |list| == b && (e.key, e.hash) in contents && contents[(e.key, e.hash)] == e.id)
    && forall k: Key, h: nat :: (k, h) in contents ==> Elem(contents[(k, h)], k, h) in list[h % |list|]
  }

  // What a lookup finds is what the contents say.
  lemma FindIsLookup(list: seq<seq<Elem>>, contents: map<(Key, nat), nat>, key: Key, hash: nat)
    requires Holds(list, contents)
    ensures var chain := list[hash % |list|];
            var i := Find(chain, key, hash);
            ((key, hash) in contents <==> i < |chain|)
            && (i < |chain| ==> chain[i] == Elem(contents[(key, hash)], key, hash))
  {
    var chain := list[hash % |list|];
    var i := Find(chain, key, hash);
    if (key, hash) in contents {
      var e := Elem(contents[(key, hash)], key, hash);
      assert e in chain;
      var j :| 0 <= j < |chain| && chain[j] == e;
    }
    if i < |chain| {
      assert chain[i] in chain;
    }
  }

  // Setting a key in its chain: in place of what was there, or at the end.
  function SetInChain(chain: seq<Elem>, e: Elem): seq<Elem> {
    var i := Find(chain, e.key, e.hash);
    if i < |chain| then chain[i := e] else chain + [e]
  }

  lemma SetInChainIs(chain: seq<Elem>, e: Elem)
    requires OnePerKey(chain)
    ensures OnePerKey(SetInChain(chain, e)) && e in SetInChain(chain, e)
    ensures forall x :: x in SetInChain(chain, e) ==> x == e || (x in chain && !(x.key == e.key && x.hash == e.hash))
    ensures forall x :: x in chain && !(x.key == e.key && x.hash == e.hash) ==> x in SetInChain(chain, e)
  {
    var i, chain' := Find(chain, e.key, e.hash), SetInChain(chain, e);
    assert chain'[if i < |chain| then i else |chain|] == e;
    forall x | x in chain && !(x.key == e.key && x.hash == e.hash)
      ensures x in chain'
    {
      var j :| 0 <= j < |chain| && chain[j] == x;
      assert chain'[j] == x;
    }
  }

  lemma SetHolds(list: seq<seq<Elem>>, contents: map<(Key, nat), nat>, e: Elem)
    requires Holds(list, contents)
    ensures var b := e.hash % |list|;
            Holds(list[b := SetInChain(list[b], e)], contents[(e.key, e.hash) := e.id])
  {
    var b := e.hash % |list|;
    SetInChainIs(list[b], e);
    hide SetInChain, OnePerKey, Find;
    var list', contents' := list[b := SetInChain(list[b], e)], contents[(e.key, e.hash) := e.id];
    forall k: Key, h: nat | (k, h) in contents'
      ensures Elem(contents'[(k, h)], k, h) in list'[h % |list'|]
    {
      if (k, h) != (e.key, e.hash) {
        assert Elem(contents[(k, h)], k, h) in list[h % |list|];
      }
    }
  }

  lemma DropHolds(list: seq<seq<Elem>>, contents: map<(Key, nat), nat>, key: Key, hash: nat)
    requires Holds(list, contents) && (key, hash) in contents
    ensures var b := hash % |list|;
            var i := Find(list[b], key, hash);
            i < |list[b]| && Holds(list[b := list[b][..i] + list[b][i + 1..]], contents - {(key, hash)})
  {
    var b := hash % |list|;
    var chain := list[b];
    FindIsLookup(list, contents, key, hash);
    var i := Find(chain, key, hash);
    DropFromChain(chain, i);
    ChainDropped(list, contents, key, hash, chain[i], chain[..i] + chain[i + 1..]);
  }

  // The bucket without the one entry.
  lemma ChainDropped(list: seq<seq<Elem>>, contents: map<(Key, nat), nat>, key: Key, hash: nat, gone: Elem, chain: seq<Elem>)
    requires Holds(list, contents) && (key, hash) in contents && gone == Elem(contents[(key, hash)], key, hash)
    requires OnePerKey(chain) && forall x :: x in chain <==> x in list[hash % |list|] && x != gone
    requires forall x :: x in chain ==> !(x.key == key && x.hash == hash)
    ensures Holds(list[hash % |list| := chain], contents - {(key, hash)})
  {
    hide OnePerKey;
    var list', contents' := list[hash % |list| := chain], contents - {(key, hash)};
    forall c: nat, e: Elem | c < |list'| && e in list'[c]
      ensures e.hash % |list'| == c && (e.key, e.hash) in contents' && contents'[(e.key, e.hash)] == e.id
    {
      assert e in list[c];
    }
    forall k: Key, h: nat | (k, h) in contents'
      ensures Elem(contents'[(k, h)], k, h) in list'[h % |list'|]
    {
      assert Elem(contents[(k, h)], k, h) in list[h % |list|];
    }
  }

  lemma DropFromChain(chain: seq<Elem>, i: nat)
    requires OnePerKey(chain) && i < |chain|
    ensures OnePerKey(chain[..i] + chain[i + 1..])
    ensures forall x :: x in chain[..i] + chain[i + 1..] <==> x in chain && x != chain[i]
    ensures forall x :: x in chain[..i] + chain[i + 1..] ==> !(x.key == chain[i].key && x.hash == chain[i].hash)
  {
    var chain' := chain[..i] + chain[i + 1..];
    forall j | 0 <= j < |chain'|
      ensures chain'[j] == chain[if j < i then j else j + 1]
    {}
    forall x | x in chain && x != chain[i]
      ensures x in chain'
    {
      var j :| 0 <= j < |chain| && chain[j] == x;
      assert chain'[if j < i then j else j - 1] == x;
    }
  }

  // Moving a link to the front of a chain of another array, all of whose links are of other keys.
  lemma PushHolds(list: seq<seq<Elem>>, contents: map<(Key, nat), nat>, e: Elem)
    requires Holds(list, contents) && (e.key, e.hash) !in contents
    ensures var b := e.hash % |list|;
            Holds(list[b := [e] + list[b]], contents[(e.key, e.hash) := e.id])
  {
    var b := e.hash % |list|;
    var chain := list[b];
    var chain' := [e] + chain;
    var list', contents' := list[b := chain'], contents[(e.key, e.hash) := e.id];
    forall k: Key, h: nat | (k, h) in contents'
      ensures Elem(contents'[(k, h)], k, h) in list'[h % |list'|]
    {
      if (k, h) == (e.key, e.hash) {
        assert chain'[0] == e;
      } else {
        var x := Elem(contents[(k, h)], k, h);
        assert x in list[h % |list|];
        if h % |list| == b {
          var j :| 0 <= j < |chain| && chain[j] == x;
          assert chain'[j + 1] == x;
        }
      }
    }
    forall j | 0 <= j < |chain|
      ensures !(chain[j].key == e.key && chain[j].hash == e.hash)
    {
      assert chain[j] in chain;
    }
    assert OnePerKey(chain');
  }

  // How many links there are.
  function Count(list: seq<seq<Elem>>): nat {
    if list == [] then 0 else Count(list[..|list| - 1]) + |list[|list| - 1]|
  }

  lemma {:induction false} CountUpdate(list: seq<seq<Elem>>, b: nat, chain: seq<Elem>)
    requires b < |list|
    ensures Count(list[b := chain]) == Count(list) - |list[b]| + |chain|
  {
    var n := |list| - 1;
    assert list[b := chain][..n] == if b < n then list[..n][b := chain] else list[..n];
    if b < n {
      CountUpdate(list[..n], b, chain);
    }
  }

  function Empty(n: nat): seq<seq<Elem>> {
    seq(n, _ => [])
  }

  lemma EmptyHolds(n: nat)
    requires n > 0
    ensures Holds(Empty(n), map[]) && Count(Empty(n)) == 0
  {
    EmptyCount(n);
  }

  lemma {:induction false} EmptyCount(n: nat)
    ensures Count(Empty(n)) == 0
  {
    if n > 0 {
      assert Empty(n)[..n - 1] == Empty(n - 1);
      EmptyCount(n - 1);
    }
  }

  // Whether a key's link has been moved when the first i chains have been, and j links of the next.
  ghost predicate IsMoved(list: seq<seq<Elem>>, contents: map<(Key, nat), nat>, i: nat, j: nat, key: Key, hash: nat)
    requires |list| > 0 && i <= |list| && (i < |list| ==> j <= |list[i]|)
  {
    (key, hash) in contents
    && (hash % |list| < i || (hash % |list| == i && i < |list| && Elem(contents[(key, hash)], key, hash) in list[i][..j]))
  }

  ghost predicate MovedIs(list: seq<seq<Elem>>, contents: map<(Key, nat), nat>, i: nat, j: nat, moved: map<(Key, nat), nat>)
    requires |list| > 0 && i <= |list| && (i < |list| ==> j <= |list[i]|)
  {
    (forall k: Key, h: nat :: (k, h) in moved <==> IsMoved(list, contents, i, j, k, h))
    && forall k: Key, h: nat :: (k, h) in moved ==> (k, h) in contents && moved[(k, h)] == contents[(k, h)]
  }

  // One more link.
  lemma MoveOne(list: seq<seq<Elem>>, contents: map<(Key, nat), nat>, i: nat, j: nat, moved: map<(Key, nat), nat>)
    requires Holds(list, contents) && i < |list| && j < |list[i]| && MovedIs(list, contents, i, j, moved)
    ensures var e := list[i][j];
            (e.key, e.hash) !in moved && MovedIs(list, contents, i, j + 1, moved[(e.key, e.hash) := e.id])
  {
    var e := list[i][j];
    assert e in list[i];
    assert list[i][..j + 1] == list[i][..j] + [e];
    assert OnePerKey(list[i]);
  }

  // The end of a chain is the beginning of the next.
  lemma NextChain(list: seq<seq<Elem>>, contents: map<(Key, nat), nat>, i: nat, moved: map<(Key, nat), nat>)
    requires Holds(list, contents) && i < |list| && MovedIs(list, contents, i, |list[i]|, moved)
    ensures MovedIs(list, contents, i + 1, 0, moved)
  {
    assert list[i][..|list[i]|] == list[i];
  }

  lemma AllMoved(list: seq<seq<Elem>>, contents: map<(Key, nat), nat>, moved: map<(Key, nat), nat>)
    requires Holds(list, contents) && MovedIs(list, contents, |list|, 0, moved)
    ensures moved == contents
  {
    forall p | p in moved || p in contents
      ensures p in moved && p in contents && moved[p] == contents[p]
    {
      var (k, h) := p;
      assert h % |list| < |list|;
      assert IsMoved(list, contents, |list|, 0, k, h) <==> (k, h) in contents;
    }
  }

  class HandleTable {
    var length: nat
    var elems: nat
    var list: seq<seq<Elem>>

    // The entry for each key and hash.
    ghost var contents: map<(Key, nat), nat>

    ghost predicate Valid()
      reads this
    {
      |list| == length >= 4 && elems == Count(list) && Holds(list, contents)
      && exists k: nat :: length == Pow2(k)
    }

    constructor ()
      ensures Valid() && contents == map[] && elems == 0 && length == 4
    {
      list, length, elems, contents := Empty(4), 4, 0, map[];
      new;
      assert Pow2(2) == 4;
      EmptyHolds(4);
    }

    // hash & (length - 1), the length being a power of two.
    function Bucket(hash: nat): nat
      reads this
      requires length > 0
    {
      hash % length
    }

    method Lookup(key: Key, hash: nat) returns (r: Option<Elem>)
      requires Valid()
      ensures r == if (key, hash) in contents then Some(Elem(contents[(key, hash)], key, hash)) else None
    {
      FindIsLookup(list, contents, key, hash);
      var chain := list[Bucket(hash)];
      var i := FindPointer(chain, key, hash);
      r := if i < |chain| then Some(chain[i]) else None;
    }

    method FindPointer(chain: seq<Elem>, key: Key, hash: nat) returns (i: nat)
      ensures i == Find(chain, key, hash)
    {
      i := 0;
      assert chain[0..] == chain;
      while i < |chain| && (chain[i].hash != hash || key != chain[i].key)
        invariant i <= |chain| && Find(chain, key, hash) == i + Find(chain[i..], key, hash)
      {
        assert chain[i..][1..] == chain[i + 1..];
        i := i + 1;
      }
    }

    method Insert(e: Elem) returns (old_: Option<Elem>)
      requires Valid()
      modifies this
      ensures Valid() && contents == old(contents)[(e.key, e.hash) := e.id]
      ensures elems == old(elems) + (if (e.key, e.hash) in old(contents) then 0 else 1)
      ensures old(elems <= length) ==> elems <= length && (elems <= old(length) ==> length == old(length))
      ensures old_ == if (e.key, e.hash) in old(contents) then Some(Elem(old(contents)[(e.key, e.hash)], e.key, e.hash)) else None
    {
      hide Holds, Count;
      FindIsLookup(list, contents, e.key, e.hash);
      SetHolds(list, contents, e);
      var b := Bucket(e.hash);
      var chain := list[b];
      var i := FindPointer(chain, e.key, e.hash);
      CountUpdate(list, b, SetInChain(chain, e));
      contents := contents[(e.key, e.hash) := e.id];
      if i < |chain| {
        old_ := Some(chain[i]);
        list := list[b := chain[i := e]];
      } else {
        old_ := None;
        list := list[b := chain + [e]];
        elems := elems + 1;
        if elems > length {
          Resize();
        }
      }
    }

    method Remove(key: Key, hash: nat) returns (r: Option<Elem>)
      requires Valid()
      modifies this
      ensures Valid() && contents == old(contents) - {(key, hash)} && length == old(length)
      ensures elems == old(elems) - (if (key, hash) in old(contents) then 1 else 0)
      ensures r == if (key, hash) in old(contents) then Some(Elem(old(contents)[(key, hash)], key, hash)) else None
    {
      hide Holds, Count;
      FindIsLookup(list, contents, key, hash);
      var b := Bucket(hash);
      var chain := list[b];
      var i := FindPointer(chain, key, hash);
      if i < |chain| {
        DropHolds(list, contents, key, hash);
        CountUpdate(list, b, chain[..i] + chain[i + 1..]);
        r := Some(chain[i]);
        list := list[b := chain[..i] + chain[i + 1..]];
        elems := elems - 1;
        contents := contents - {(key, hash)};
      } else {
        r := None;
        assert contents - {(key, hash)} == contents;
      }
    }

    // A larger array, with every link pushed to the front of its new chain.
    method Resize()
      requires Valid()
      modifies this
      ensures Valid() && contents == old(contents) && elems == old(elems)
      ensures elems <= length && (length == 4 || length < 2 * elems)
    {
      hide Holds, Count, MovedIs, Empty;
      var newLength := 4;
      assert Pow2(2) == 4;
      while newLength < elems
        invariant newLength >= 4 && (newLength == 4 || newLength < 2 * elems) && exists k: nat :: newLength == Pow2(k)
        decreases elems - newLength
      {
        ghost var k: nat :| newLength == Pow2(k);
        assert newLength * 2 == Pow2(k + 1);
        newLength := newLength * 2;
      }
      var newList := Empty(newLength);
      ghost var moved: map<(Key, nat), nat> := map[];
      EmptyHolds(newLength);
      StartMoving(list, contents, newLength);
      var count := 0;
      var i := 0;
      while i < length
        invariant Valid() && list == old(list) && length == old(length) && contents == old(contents) && elems == old(elems)
        invariant i <= length && Holds(newList, moved) && |newList| == newLength && MovedIs(list, contents, i, 0, moved)
        invariant count == Count(newList) == Count(list[..i])
      {
        var j := 0;
        while j < |list[i]|
          invariant Valid() && list == old(list) && length == old(length) && contents == old(contents) && elems == old(elems)
          invariant j <= |list[i]| && Holds(newList, moved) && |newList| == newLength && MovedIs(list, contents, i, j, moved)
          invariant count == Count(newList) == Count(list[..i]) + j
        {
          var e := list[i][j];
          MoveOne(list, contents, i, j, moved);
          PushHolds(newList, moved, e);
          var b := e.hash % newLength;
          CountUpdate(newList, b, [e] + newList[b]);
          newList := newList[b := [e] + newList[b]];
          moved := moved[(e.key, e.hash) := e.id];
          count := count + 1;
          j := j + 1;
        }
        NextChain(list, contents, i, moved);
        CountNext(list, i);
        i := i + 1;
      }
      AllMoved(list, contents, moved);
      assert list[..length] == list;
      assert elems == count;
      list, length := newList, newLength;
    }

    static lemma StartMoving(list: seq<seq<Elem>>, contents: map<(Key, nat), nat>, n: nat)
      requires |list| > 0 && n > 0
      ensures MovedIs(list, contents, 0, 0, map[]) && |Empty(n)| == n && Count(list[..0]) == 0
    {}

    static lemma CountNext(list: seq<seq<Elem>>, i: nat)
      requires i < |list|
      ensures Count(list[..i + 1]) == Count(list[..i]) + |list[i]|
    {
      assert list[..i + 1][..i] == list[..i];
    }
  }
}
