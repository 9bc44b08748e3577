/**
 The LRU cache: entries are counted by their references, kept in one of two lists while they are cached,
 and found through a hash table.
 */
module LruCaches {
  import opened Wrappers
  import opened Seqs
  import opened HandleTables

  // What never changes about an entry, and what does.
  datatype Info = Info(key: Key, hash: nat, value: int, charge: nat)
  datatype State = State(refs: nat, inCache: bool)

  // The entries that are allocated, the two lists with the newest entry last, the total charge of what is
  // cached, and the entries whose deleters have run.
  datatype Core = Core(states: map<nat, State>, lru: seq<nat>, inUse: seq<nat>, usage: int, deleted: seq<nat>)

  // ---- Lists ----

  function Without(ids: seq<nat>, id: nat): (r: seq<nat>)
    ensures forall x :: x in r <==> x in ids && x != id
  {
    if ids == [] then []
    else
      assert ids == [ids[0]] + ids[1..];
      (if ids[0] == id then [] else [ids[0]]) + Without(ids[1..], id)
  }

  function Sum(infos: map<nat, Info>, ids: seq<nat>): nat {
    if ids == [] then 0 else (if ids[0] in infos then infos[ids[0]].charge else 0) + Sum(infos, ids[1..])
  }

  function ChargeOf(infos: map<nat, Info>, id: nat): nat {
    if id in infos then infos[id].charge else 0
  }

  lemma DistinctTail(ids: seq<nat>)
    requires Distinct(ids) && ids != []
    ensures Distinct(ids[1..]) && ids[0] !in ids[1..]
  {
    forall x | x in ids[1..]
      ensures x != ids[0]
    {
      var i :| 0 <= i < |ids[1..]| && ids[1..][i] == x;
      assert ids[0] != ids[i + 1];
    }
  }

  lemma DistinctPrepend(id: nat, rest: seq<nat>)
    requires Distinct(rest) && id !in rest
    ensures Distinct([id] + rest)
  {
    forall i | 0 <= i < |rest|
      ensures rest[i] != id
    {
      assert rest[i] in rest;
    }
  }

  lemma DistinctAppend(rest: seq<nat>, id: nat)
    requires Distinct(rest) && id !in rest
    ensures Distinct(rest + [id])
  {
    forall i | 0 <= i < |rest|
      ensures rest[i] != id
    {
      assert rest[i] in rest;
    }
  }

  lemma {:induction false} WithoutDistinct(ids: seq<nat>, id: nat)
    requires Distinct(ids)
    ensures Distinct(Without(ids, id))
  {
    if ids != [] {
      hide Distinct;
      DistinctTail(ids);
      WithoutDistinct(ids[1..], id);
      var rest := Without(ids[1..], id);
      if ids[0] == id {
        assert Without(ids, id) == rest;
      } else {
        DistinctPrepend(ids[0], rest);
      }
    }
  }

  lemma {:induction false} WithoutSum(infos: map<nat, Info>, ids: seq<nat>, id: nat)
    requires Distinct(ids)
    ensures Sum(infos, Without(ids, id)) == Sum(infos, ids) - (if id in ids then ChargeOf(infos, id) else 0)
  {
    if ids != [] {
      DistinctTail(ids);
      WithoutSum(infos, ids[1..], id);
      assert ids == [ids[0]] + ids[1..];
      var rest := Without(ids[1..], id);
      if ids[0] == id {
        assert Without(ids, id) == rest;
      } else {
        assert Without(ids, id) == [ids[0]] + rest && ([ids[0]] + rest)[1..] == rest;
      }
    }
  }

  lemma {:induction false} SumAppend(infos: map<nat, Info>, ids: seq<nat>, id: nat)
    ensures Sum(infos, ids + [id]) == Sum(infos, ids) + ChargeOf(infos, id)
  {
    if ids == [] {
      assert [id][1..] == [] && ids + [id] == [id];
    } else {
      assert (ids + [id])[1..] == ids[1..] + [id];
      SumAppend(infos, ids[1..], id);
    }
  }

  lemma {:induction false} SumStable(infos: map<nat, Info>, infos': map<nat, Info>, ids: seq<nat>)
    requires forall id :: id in ids ==> id in infos && id in infos' && infos[id] == infos'[id]
    ensures Sum(infos', ids) == Sum(infos, ids)
  {
    if ids != [] {
      assert ids[0] in ids;
      SumStable(infos, infos', ids[1..]);
    }
  }

  // ---- Reference counting ----

  // LRUCache::Ref: an entry that gets its first client moves to the list of entries in use.
  function Ref(c: Core, e: nat): Core
    requires e in c.states
  {
    var st := c.states[e];
    var c1 := if st.refs == 1 && st.inCache then c.(lru := Without(c.lru, e), inUse := Without(c.inUse, e) + [e]) else c;
    c1.(states := c.states[e := State(st.refs + 1, st.inCache)])
  }

  // LRUCache::Unref: at the last reference the deleter runs; at the last client's, a cached entry becomes the
  // newest of those that may be evicted.
  function Unref(c: Core, e: nat): Core
    requires e in c.states && c.states[e].refs > 0
  {
    var st := State(c.states[e].refs - 1, c.states[e].inCache);
    if st.refs == 0 then c.(states := c.states - {e}, deleted := c.deleted + [e])
    else
      var c1 := c.(states := c.states[e := st]);
      if st.inCache && st.refs == 1 then c1.(lru := Without(c.lru, e) + [e], inUse := Without(c.inUse, e)) else c1
  }

  // LRUCache::FinishErase on an entry already out of the table.
  function FinishErase(c: Core, infos: map<nat, Info>, e: nat): Core
    requires e in c.states && c.states[e].refs > 0
  {
    var c1 := c.(lru := Without(c.lru, e), inUse := Without(c.inUse, e),
                 states := c.states[e := State(c.states[e].refs, false)], usage := c.usage - ChargeOf(infos, e));
    Unref(c1, e)
  }

  // ---- What every operation keeps ----

  // The references an entry has: those of its clients, and the cache's own.
  ghost predicate Counted(c: Core, clients: map<nat, nat>) {
    forall e :: e in c.states ==>
      e in clients && c.states[e].refs > 0 && c.states[e].refs == clients[e] + (if c.states[e].inCache then 1 else 0)
  }

  // Every entry ever made is allocated, or its deleter has run, once, and no client has it.
  ghost predicate Accounted(c: Core, infos: map<nat, Info>, clients: map<nat, nat>, nextId: nat) {
    (forall e: nat :: e in infos <==> e < nextId) && (forall e: nat :: e in clients <==> e < nextId)
    && (forall e: nat :: e < nextId ==> (e in c.states <==> e !in c.deleted))
    && (forall e :: e in c.states ==> e < nextId) && (forall e :: e in c.deleted ==> e < nextId && clients[e] == 0)
    && Distinct(c.deleted)
  }

  // A cached entry is in the one list while it has clients and in the other while it has none.
  ghost predicate Listed(c: Core) {
    Distinct(c.lru) && Distinct(c.inUse)
    && (forall e :: e in c.lru <==> e in c.states && c.states[e].inCache && c.states[e].refs == 1)
    && forall e :: e in c.inUse <==> e in c.states && c.states[e].inCache && c.states[e].refs >= 2
  }

  ghost predicate Charged(c: Core, infos: map<nat, Info>) {
    c.usage == Sum(infos, c.lru) + Sum(infos, c.inUse)
  }

  // The list of entries without clients is in the order in which they lost their last.
  ghost predicate ByRelease(lru: seq<nat>, released: map<nat, nat>, clock: nat) {
    (forall e :: e in lru ==> e in released && released[e] < clock)
    && forall i, j :: 0 <= i < j < |lru| ==> lru[i] in released && lru[j] in released && released[lru[i]] < released[lru[j]]
  }

  ghost predicate LinksOk(c: Core, infos: map<nat, Info>, clients: map<nat, nat>, nextId: nat, released: map<nat, nat>, clock: nat) {
    Counted(c, clients) && Accounted(c, infos, clients, nextId) && Listed(c) && Charged(c, infos) && ByRelease(c.lru, released, clock)
  }

  lemma {:induction false} ByReleaseWithout(lru: seq<nat>, released: map<nat, nat>, clock: nat, e: nat)
    requires ByRelease(lru, released, clock)
    ensures ByRelease(Without(lru, e), released, clock)
  {
    if lru != [] {
      var tail, rest := lru[1..], Without(lru[1..], e);
      assert lru == [lru[0]] + tail;
      forall x | x in tail
        ensures x in lru && x in released && released[lru[0]] < released[x]
      {
        var i :| 0 <= i < |tail| && tail[i] == x;
        assert lru[0] in lru && lru[i + 1] == x;
      }
      assert ByRelease(tail, released, clock) by {
        assert forall i :: 0 <= i < |tail| ==> tail[i] == lru[i + 1];
      }
      ByReleaseWithout(tail, released, clock, e);
      if lru[0] == e {
        assert Without(lru, e) == rest;
      } else {
        assert Without(lru, e) == [lru[0]] + rest;
        ByReleasePrepend(lru[0], rest, released, clock);
      }
    }
  }

  lemma ByReleasePrepend(e: nat, rest: seq<nat>, released: map<nat, nat>, clock: nat)
    requires ByRelease(rest, released, clock) && e in released && released[e] < clock
    requires forall x :: x in rest ==> x in released && released[e] < released[x]
    ensures ByRelease([e] + rest, released, clock)
  {
    forall i | 0 <= i < |rest|
      ensures rest[i] in released && released[e] < released[rest[i]]
    {
      assert rest[i] in rest;
    }
  }

  lemma ByReleaseAppend(lru: seq<nat>, released: map<nat, nat>, clock: nat, e: nat)
    requires ByRelease(lru, released, clock) && e !in lru
    ensures ByRelease(lru + [e], released[e := clock], clock + 1)
  {
    forall i | 0 <= i < |lru|
      ensures lru[i] in released && released[lru[i]] < clock && lru[i] != e
    {
      assert lru[i] in lru;
    }
  }

  // The two lists and the charges after an entry has moved from the one to the other, or has gone.
  lemma ListsWithout(c: Core, infos: map<nat, Info>, e: nat)
    requires Listed(c) && Charged(c, infos)
    ensures Distinct(Without(c.lru, e)) && Distinct(Without(c.inUse, e))
    ensures Sum(infos, Without(c.lru, e)) + Sum(infos, Without(c.inUse, e))
         == c.usage - (if e in c.lru || e in c.inUse then ChargeOf(infos, e) else 0)
  {
    WithoutDistinct(c.lru, e);
    WithoutDistinct(c.inUse, e);
    WithoutSum(infos, c.lru, e);
    WithoutSum(infos, c.inUse, e);
  }

  // ---- One more client ----

  lemma RefCounts(c: Core, infos: map<nat, Info>, clients: map<nat, nat>, nextId: nat, e: nat)
    requires Counted(c, clients) && Accounted(c, infos, clients, nextId) && e in c.states
    ensures Counted(Ref(c, e), clients[e := clients[e] + 1]) && Accounted(Ref(c, e), infos, clients[e := clients[e] + 1], nextId)
  {
    hide Without, Distinct;
  }

  lemma RefLists(c: Core, infos: map<nat, Info>, e: nat)
    requires Listed(c) && Charged(c, infos) && e in c.states && c.states[e].refs > 0
    ensures Listed(Ref(c, e)) && Charged(Ref(c, e), infos)
  {
    hide Sum, Without, Distinct;
    ListsWithout(c, infos, e);
    DistinctAppend(Without(c.inUse, e), e);
    SumAppend(infos, Without(c.inUse, e), e);
  }

  lemma RefKeeps(c: Core, infos: map<nat, Info>, clients: map<nat, nat>, nextId: nat, released: map<nat, nat>, clock: nat, e: nat)
    requires LinksOk(c, infos, clients, nextId, released, clock) && e in c.states
    ensures e in clients && LinksOk(Ref(c, e), infos, clients[e := clients[e] + 1], nextId, released, clock)
    ensures Ref(c, e).usage == c.usage && Ref(c, e).deleted == c.deleted
  {
    assert e in clients && c.states[e].refs > 0;
    RefCounts(c, infos, clients, nextId, e);
    RefLists(c, infos, e);
    ByReleaseWithout(c.lru, released, clock, e);
    hide Sum, Without, Distinct, Counted, Accounted, Listed, Charged, ByRelease;
  }

  // ---- One client fewer ----

  lemma UnrefCounts(c: Core, infos: map<nat, Info>, clients: map<nat, nat>, nextId: nat, e: nat)
    requires Counted(c, clients) && Accounted(c, infos, clients, nextId) && e in c.states && clients[e] > 0
    ensures c.states[e].refs > 0
    ensures Counted(Unref(c, e), clients[e := clients[e] - 1]) && Accounted(Unref(c, e), infos, clients[e := clients[e] - 1], nextId)
  {
    hide Without, Distinct;
    DistinctAppend(c.deleted, e);
  }

  lemma UnrefLists(c: Core, infos: map<nat, Info>, e: nat)
    requires Listed(c) && Charged(c, infos) && e in c.states
    requires c.states[e].refs > (if c.states[e].inCache then 1 else 0)
    ensures Listed(Unref(c, e)) && Charged(Unref(c, e), infos) && e !in c.lru
  {
    hide Sum, Without, Distinct;
    assert e !in c.lru;
    ListsWithout(c, infos, e);
    DistinctAppend(Without(c.lru, e), e);
    SumAppend(infos, Without(c.lru, e), e);
  }

  lemma ReleaseKeeps(c: Core, infos: map<nat, Info>, clients: map<nat, nat>, nextId: nat, released: map<nat, nat>, clock: nat, e: nat)
    requires LinksOk(c, infos, clients, nextId, released, clock) && e in c.states && e in clients && clients[e] > 0
    ensures c.states[e].refs > 0
    ensures LinksOk(Unref(c, e), infos, clients[e := clients[e] - 1], nextId, released[e := clock], clock + 1)
    ensures Unref(c, e).usage == c.usage
  {
    UnrefCounts(c, infos, clients, nextId, e);
    UnrefLists(c, infos, e);
    ByReleaseLater(c.lru, released, clock, e);
    ByReleaseWithout(c.lru, released, clock, e);
    ByReleaseAppend(Without(c.lru, e), released, clock, e);
    hide Sum, Without, Distinct, Counted, Accounted, Listed, Charged, ByRelease;
  }

  lemma ByReleaseLater(lru: seq<nat>, released: map<nat, nat>, clock: nat, e: nat)
    requires ByRelease(lru, released, clock) && e !in lru
    ensures ByRelease(lru, released[e := clock], clock + 1)
  {
    forall i | 0 <= i < |lru|
      ensures lru[i] in released && lru[i] != e
    {
      assert lru[i] in lru;
    }
  }

  // ---- The cache lets an entry go ----

  lemma EraseCounts(c: Core, infos: map<nat, Info>, clients: map<nat, nat>, nextId: nat, e: nat)
    requires Counted(c, clients) && Accounted(c, infos, clients, nextId) && e in c.states && c.states[e].inCache
    ensures c.states[e].refs > 0 && e in clients
    ensures Counted(FinishErase(c, infos, e), clients) && Accounted(FinishErase(c, infos, e), infos, clients, nextId)
  {
    hide Without, Distinct;
    DistinctAppend(c.deleted, e);
  }

  lemma EraseLists(c: Core, infos: map<nat, Info>, e: nat)
    requires Listed(c) && Charged(c, infos) && e in c.states && c.states[e].inCache && c.states[e].refs > 0
    ensures Listed(FinishErase(c, infos, e)) && Charged(FinishErase(c, infos, e), infos)
  {
    hide Sum, Without, Distinct;
    ListsWithout(c, infos, e);
  }

  lemma EraseKeeps(c: Core, infos: map<nat, Info>, clients: map<nat, nat>, nextId: nat, released: map<nat, nat>, clock: nat, e: nat)
    requires LinksOk(c, infos, clients, nextId, released, clock) && e in c.states && c.states[e].inCache
    ensures c.states[e].refs > 0 && e in clients
    ensures LinksOk(FinishErase(c, infos, e), infos, clients, nextId, released, clock)
    ensures var c' := FinishErase(c, infos, e);
            c'.usage == c.usage - ChargeOf(infos, e) && c'.lru == Without(c.lru, e) && c'.inUse == Without(c.inUse, e)
            && c'.deleted == (if clients[e] == 0 then c.deleted + [e] else c.deleted)
  {
    EraseCounts(c, infos, clients, nextId, e);
    EraseLists(c, infos, e);
    ByReleaseWithout(c.lru, released, clock, e);
    assert c.states[e].refs == clients[e] + 1;
    hide Sum, Without, Distinct, Counted, Accounted, Listed, Charged, ByRelease;
  }

  // ---- A new entry ----

  function NewEntry(c: Core, e: nat, charge: nat, cached: bool): Core {
    if cached then c.(states := c.states[e := State(2, true)], inUse := c.inUse + [e], usage := c.usage + charge)
    else c.(states := c.states[e := State(1, false)])
  }

  lemma NewKeeps(c: Core, infos: map<nat, Info>, clients: map<nat, nat>, nextId: nat, released: map<nat, nat>, clock: nat,
                 info: Info, cached: bool)
    requires LinksOk(c, infos, clients, nextId, released, clock)
    ensures LinksOk(NewEntry(c, nextId, info.charge, cached), infos[nextId := info], clients[nextId := 1], nextId + 1, released, clock)
  {
    NewCounts(c, infos, clients, nextId, info, cached);
    NewLists(c, infos, clients, nextId, info, cached);
    hide Sum, Without, Distinct, Counted, Accounted, Listed, Charged, ByRelease;
  }

  lemma NewCounts(c: Core, infos: map<nat, Info>, clients: map<nat, nat>, nextId: nat, info: Info, cached: bool)
    requires Counted(c, clients) && Accounted(c, infos, clients, nextId)
    ensures Counted(NewEntry(c, nextId, info.charge, cached), clients[nextId := 1])
    ensures Accounted(NewEntry(c, nextId, info.charge, cached), infos[nextId := info], clients[nextId := 1], nextId + 1)
  {
    hide Distinct;
  }

  lemma NewLists(c: Core, infos: map<nat, Info>, clients: map<nat, nat>, nextId: nat, info: Info, cached: bool)
    requires Accounted(c, infos, clients, nextId) && Listed(c) && Charged(c, infos)
    ensures Listed(NewEntry(c, nextId, info.charge, cached)) && Charged(NewEntry(c, nextId, info.charge, cached), infos[nextId := info])
  {
    var infos' := infos[nextId := info];
    assert nextId !in c.states && forall e :: e in c.lru || e in c.inUse ==> e in c.states && e != nextId && e in infos;
    DistinctAppend(c.inUse, nextId);
    SumStable(infos, infos', c.lru);
    SumStable(infos, infos', c.inUse);
    SumAppend(infos', c.inUse, nextId);
    hide Sum, Distinct, Accounted;
  }

  // ---- The table and the entries ----

  ghost predicate IsKeyOf(infos: map<nat, Info>, e: nat, key: Key, hash: nat) {
    e in infos && infos[e].key == key && infos[e].hash == hash
  }

  // The table has the cached entries, but for one that is on its way out.
  ghost predicate TableOk(contents: map<(Key, nat), nat>, c: Core, infos: map<nat, Info>, leaving: Option<nat>) {
    (forall k: Key, h: nat :: (k, h) in contents ==>
       var e := contents[(k, h)];
       e in c.states && c.states[e].inCache && IsKeyOf(infos, e, k, h) && Some(e) != leaving)
    && forall e :: e in c.states && c.states[e].inCache && Some(e) != leaving ==>
         e in infos && (infos[e].key, infos[e].hash) in contents && contents[(infos[e].key, infos[e].hash)] == e
  }

  // What a reference count does not change.
  lemma TableSameEntries(contents: map<(Key, nat), nat>, c: Core, c': Core, infos: map<nat, Info>, leaving: Option<nat>)
    requires TableOk(contents, c, infos, leaving)
    requires forall e :: (e in c.states && c.states[e].inCache) <==> (e in c'.states && c'.states[e].inCache)
    ensures TableOk(contents, c', infos, leaving)
  {}

  // An entry taken out of the table is on its way out of the cache, and then gone from it.
  lemma TableWithout(contents: map<(Key, nat), nat>, c: Core, infos: map<nat, Info>, key: Key, hash: nat)
    requires TableOk(contents, c, infos, None) && (key, hash) in contents
    ensures TableOk(contents - {(key, hash)}, c, infos, Some(contents[(key, hash)]))
  {}

  lemma TableErased(contents: map<(Key, nat), nat>, c: Core, infos: map<nat, Info>, e: nat)
    requires TableOk(contents, c, infos, Some(e)) && e in c.states && c.states[e].refs > 0
    ensures TableOk(contents, FinishErase(c, infos, e), infos, None)
  {
    hide Without;
  }

  // A new entry takes the place of the one that had its key.
  lemma TableWith(contents: map<(Key, nat), nat>, c: Core, infos: map<nat, Info>, e: nat, info: Info)
    requires TableOk(contents, c, infos, None) && e !in c.states && e !in infos
    ensures TableOk(contents[(info.key, info.hash) := e], NewEntry(c, e, info.charge, true), infos[e := info],
                    if (info.key, info.hash) in contents then Some(contents[(info.key, info.hash)]) else None)
  {}

  lemma TableUncached(contents: map<(Key, nat), nat>, c: Core, infos: map<nat, Info>, e: nat, info: Info)
    requires TableOk(contents, c, infos, None) && e !in c.states && e !in infos
    ensures TableOk(contents, NewEntry(c, e, info.charge, false), infos[e := info], None)
  {}

  lemma EmptyIsOk()
    ensures var c := Core(map[], [], [], 0, []);
            LinksOk(c, map[], map[], 0, map[], 0) && TableOk(map[], c, map[], None)
  {}

  class LRUCache {
    const capacity: nat
    var usage: int
    var lru: seq<nat>
    var inUse: seq<nat>
    var states: map<nat, State>
    var infos: map<nat, Info>
    const table: HandleTable

    // Deleter calls, in order, and the next entry to be made.
    var deleted: seq<nat>
    var nextId: nat

    // The references clients hold, and when each entry lost its last.
    ghost var clients: map<nat, nat>
    ghost var released: map<nat, nat>
    ghost var clock: nat

    ghost function View(): Core
      reads this
    {
      Core(states, lru, inUse, usage, deleted)
    }

    ghost predicate Links()
      reads this
    {
      LinksOk(View(), infos, clients, nextId, released, clock)
    }

    ghost predicate Valid()
      reads this, table
    {
      Links() && table.Valid() && TableOk(table.contents, View(), infos, None)
    }

    constructor (capacity: nat)
      ensures Valid() && fresh(table) && this.capacity == capacity && clients == map[] && deleted == []
    {
      hide LinksOk, TableOk, HandleTable.Valid;
      EmptyIsOk();
      this.capacity := capacity;
      usage, lru, inUse, states, infos, deleted, nextId := 0, [], [], map[], map[], [], 0;
      clients, released, clock := map[], map[], 0;
      table := new HandleTable();
      new;
      assert View() == Core(map[], [], [], 0, []);
    }

    // LRU_Remove: unlink from the list it is on.
    method Unlink(e: nat)
      modifies this`lru, this`inUse
      ensures lru == Without(old(lru), e) && inUse == Without(old(inUse), e)
    {
      lru, inUse := Without(lru, e), Without(inUse, e);
    }

    method TakeRef(e: nat)
      requires e in states
      modifies this`lru, this`inUse, this`states
      ensures View() == Ref(old(View()), e)
    {
      if states[e].refs == 1 && states[e].inCache {
        Unlink(e);
        inUse := inUse + [e];
      }
      states := states[e := State(states[e].refs + 1, states[e].inCache)];
    }

    method DropRef(e: nat)
      requires e in states && states[e].refs > 0
      modifies this`lru, this`inUse, this`states, this`deleted
      ensures View() == Unref(old(View()), e)
    {
      states := states[e := State(states[e].refs - 1, states[e].inCache)];
      if states[e].refs == 0 {
        deleted := deleted + [e];
        states := states - {e};
      } else if states[e].inCache && states[e].refs == 1 {
        Unlink(e);
        lru := lru + [e];
      }
    }

    method EraseEntry(e: nat)
      requires e in states && states[e].refs > 0
      modifies this`usage, this`lru, this`inUse, this`states, this`deleted
      ensures View() == FinishErase(old(View()), infos, e)
    {
      Unlink(e);
      states := states[e := State(states[e].refs, false)];
      usage := usage - (if e in infos then infos[e].charge else 0);
      DropRef(e);
    }

    // Finish what taking an entry out of the table began.
    method Finish(x: Option<Elem>)
      requires Links() && table.Valid() && TableOk(table.contents, View(), infos, if x.Some? then Some(x.value.id) else None)
      requires x.Some? ==> x.value.id in states && states[x.value.id].inCache
      modifies this`usage, this`lru, this`inUse, this`states, this`deleted
      ensures Valid()
      ensures x.None? ==> View() == old(View())
      ensures x.Some? ==> var e := x.value.id;
                          usage == old(usage) - ChargeOf(infos, e) && e in clients
                          && lru == Without(old(lru), e) && inUse == Without(old(inUse), e)
                          && deleted == (if clients[e] == 0 then old(deleted) + [e] else old(deleted))
    {
      hide LinksOk, TableOk, FinishErase;
      if x.Some? {
        var e := x.value.id;
        EraseKeeps(View(), infos, clients, nextId, released, clock, e);
        TableErased(table.contents, View(), infos, e);
        EraseEntry(e);
      }
    }

    // A hit takes a reference for the client.
    method Lookup(key: Key, hash: nat) returns (r: Option<nat>)
      requires Valid()
      modifies this
      ensures Valid() && deleted == old(deleted) && usage == old(usage) && table.contents == old(table.contents)
      ensures r == if (key, hash) in table.contents then Some(table.contents[(key, hash)]) else None
      ensures r.Some? ==> r.value in old(clients) && clients == old(clients)[r.value := old(clients)[r.value] + 1]
                          && IsKeyOf(infos, r.value, key, hash)
      ensures r.None? ==> clients == old(clients) && View() == old(View())
    {
      hide LinksOk, Ref;
      var x := table.Lookup(key, hash);
      r := None;
      if x.Some? {
        var e := x.value.id;
        RefKeeps(View(), infos, clients, nextId, released, clock, e);
        RefSame(View(), e);
        TableSameEntries(table.contents, View(), Ref(View(), e), infos, None);
        TakeRef(e);
        clients := clients[e := clients[e] + 1];
        r := Some(e);
      }
    }

    static lemma RefSame(c: Core, e: nat)
      requires e in c.states
      ensures forall x :: (x in c.states && c.states[x].inCache) <==> (x in Ref(c, e).states && Ref(c, e).states[x].inCache)
    {}

    // A client gives up a reference it has.
    method Release(e: nat)
      requires Valid() && e in clients && clients[e] > 0
      modifies this
      ensures Valid() && usage == old(usage) && table.contents == old(table.contents)
      ensures clients == old(clients)[e := old(clients)[e] - 1]
      ensures deleted == old(deleted) || deleted == old(deleted) + [e]
    {
      hide LinksOk, Unref;
      HeldIsAllocated(View(), infos, clients, nextId, released, clock, e);
      ReleaseKeeps(View(), infos, clients, nextId, released, clock, e);
      UnrefSame(View(), infos, clients, nextId, released, clock, e);
      TableSameEntries(table.contents, View(), Unref(View(), e), infos, None);
      DropRef(e);
      clients := clients[e := clients[e] - 1];
      released := released[e := clock];
      clock := clock + 1;
    }

    static lemma HeldIsAllocated(c: Core, infos: map<nat, Info>, clients: map<nat, nat>, nextId: nat, released: map<nat, nat>,
                                 clock: nat, e: nat)
      requires LinksOk(c, infos, clients, nextId, released, clock) && e in clients && clients[e] > 0
      ensures e in c.states && c.states[e].refs > 0
    {}

    static lemma UnrefSame(c: Core, infos: map<nat, Info>, clients: map<nat, nat>, nextId: nat, released: map<nat, nat>,
                           clock: nat, e: nat)
      requires LinksOk(c, infos, clients, nextId, released, clock) && e in c.states && clients[e] > 0
      ensures c.states[e].refs > 0
      ensures forall x :: (x in c.states && c.states[x].inCache) <==> (x in Unref(c, e).states && Unref(c, e).states[x].inCache)
      ensures Unref(c, e).deleted == c.deleted || Unref(c, e).deleted == c.deleted + [e]
    {
      hide Without, Sum, Distinct, ByRelease;
    }

    method Erase(key: Key, hash: nat)
      requires Valid()
      modifies this, table
      ensures Valid() && clients == old(clients) && table.contents == old(table.contents) - {(key, hash)}
    {
      hide LinksOk;
      ghost var before := table.contents;
      if (key, hash) in before {
        TableWithout(before, View(), infos, key, hash);
      } else {
        assert before - {(key, hash)} == before;
      }
      var x := table.Remove(key, hash);
      Finish(x);
    }

    // Evict the entry that has been without clients for longest.
    method EvictOldest() returns (e: nat)
      requires Valid() && lru != []
      modifies this, table
      ensures Valid() && clients == old(clients) && infos == old(infos)
      ensures e == old(lru)[0] && lru == old(lru)[1..] && e !in inUse && inUse == old(inUse)
      ensures deleted == old(deleted) + [e] && usage == old(usage) - ChargeOf(infos, e)
      ensures released == old(released) && forall x :: x in lru ==> e in released && x in released && released[e] < released[x]
      ensures nextId == old(nextId) && clock == old(clock)
      ensures e in infos && var k := (infos[e].key, infos[e].hash);
                k in old(table.contents) && old(table.contents)[k] == e && table.contents == old(table.contents) - {k}
    {
      hide LinksOk, TableOk;
      e := lru[0];
      OldestServes(View(), infos, clients, nextId, released, clock, table.contents);
      ghost var before := table.contents;
      TableWithout(before, View(), infos, infos[e].key, infos[e].hash);
      var x := table.Remove(infos[e].key, infos[e].hash);
      Finish(x);
    }

    // What is known of the oldest entry without clients.
    static lemma OldestServes(c: Core, infos: map<nat, Info>, clients: map<nat, nat>, nextId: nat, released: map<nat, nat>,
                              clock: nat, contents: map<(Key, nat), nat>)
      requires LinksOk(c, infos, clients, nextId, released, clock) && TableOk(contents, c, infos, None) && c.lru != []
      ensures var e := c.lru[0];
              e in c.states && c.states[e].inCache && e in infos && e in clients && clients[e] == 0
              && (infos[e].key, infos[e].hash) in contents && contents[(infos[e].key, infos[e].hash)] == e
              && Without(c.lru, e) == c.lru[1..] && e !in c.inUse && Without(c.inUse, e) == c.inUse
              && forall x :: x in c.lru[1..] ==> e in released && x in released && released[e] < released[x]
    {
      hide Sum, Charged;
      var e := c.lru[0];
      assert e in c.lru;
      DistinctTail(c.lru);
      NothingWithout(c.lru[1..], e);
      assert c.lru == [e] + c.lru[1..];
      NothingWithout(c.inUse, e);
      forall x | x in c.lru[1..]
        ensures e in released && x in released && released[e] < released[x]
      {
        var i :| 0 <= i < |c.lru| && c.lru[i] == x;
      }
    }

    // Everything without clients goes, oldest first; what clients hold stays.
    method Prune()
      requires Valid()
      modifies this, table
      ensures Valid() && lru == [] && inUse == old(inUse) && clients == old(clients) && infos == old(infos)
      ensures deleted == old(deleted) + old(lru)
    {
      hide LinksOk, TableOk;
      while lru != []
        invariant Valid() && clients == old(clients) && infos == old(infos) && inUse == old(inUse)
        invariant deleted + lru == old(deleted) + old(lru)
        decreases |lru|
      {
        var e := EvictOldest();
      }
    }

    // The entries without clients once an entry for this key has been added.
    ghost function Idle(key: Key, hash: nat): seq<nat>
      reads this, table
    {
      if capacity > 0 && (key, hash) in table.contents then Without(lru, table.contents[(key, hash)]) else lru
    }

    // A new entry, held by the caller and, unless the capacity is 0, by the cache in place of any entry with
    // its key; then evict, oldest first, while the cache is over its capacity and there is something to
    // evict, and no further.
    method Insert(key: Key, hash: nat, value: int, charge: nat) returns (e: nat)
      requires Valid()
      modifies this, table
      ensures Valid() && e == old(nextId) && clients == old(clients)[e := 1] && infos == old(infos)[e := Info(key, hash, value, charge)]
      ensures usage <= capacity || lru == []
      ensures var idle := old(Idle(key, hash));
              exists n: nat :: n <= |idle| && lru == idle[n..] && (n > 0 ==> usage + ChargeOf(infos, idle[n - 1]) > capacity)
      ensures capacity > 0 ==> (key, hash) in table.contents && table.contents[(key, hash)] == e
    {
      hide LinksOk, TableOk, NewEntry;
      e := nextId;
      var info := Info(key, hash, value, charge);
      AddEntry(info);
      ghost var idle, held := lru, inUse;
      ghost var n: nat := 0;
      while usage > capacity && lru != []
        invariant Valid() && clients == old(clients)[e := 1] && infos == old(infos)[e := info]
        invariant n <= |idle| && lru == idle[n..] && (n > 0 ==> usage + ChargeOf(infos, idle[n - 1]) > capacity)
        invariant inUse == held
        invariant capacity > 0 ==> (key, hash) in table.contents && table.contents[(key, hash)] == e
        decreases |lru|
      {
        var old_ := EvictOldest();
        n := n + 1;
      }
    }

    method AddEntry(info: Info)
      requires Valid()
      modifies this, table
      ensures Valid() && clients == old(clients)[old(nextId) := 1] && infos == old(infos)[old(nextId) := info]
      ensures lru == old(Idle(info.key, info.hash))
      ensures if capacity > 0 then old(nextId) in inUse && table.contents == old(table.contents)[(info.key, info.hash) := old(nextId)]
              else table.contents == old(table.contents)
    {
      hide LinksOk, TableOk;
      var e := nextId;
      ghost var c, before, was := View(), table.contents, infos;
      NewIsNew(c, infos, clients, nextId, released, clock);
      NewKeeps(c, infos, clients, nextId, released, clock, info, capacity > 0);
      infos := infos[e := info];
      clients := clients[e := 1];
      nextId := nextId + 1;
      if capacity > 0 {
        TableWith(before, c, was, e, info);
        if (info.key, info.hash) in before {
          OldIsCached(before, c, was, e, info);
        }
        states := states[e := State(2, true)];
        inUse := inUse + [e];
        usage := usage + info.charge;
        var x := table.Insert(Elem(e, info.key, info.hash));
        Finish(x);
      } else {
        TableUncached(before, c, was, e, info);
        states := states[e := State(1, false)];
      }
    }

    static lemma NewIsNew(c: Core, infos: map<nat, Info>, clients: map<nat, nat>, nextId: nat, released: map<nat, nat>, clock: nat)
      requires LinksOk(c, infos, clients, nextId, released, clock)
      ensures nextId !in c.states && nextId !in infos
    {}

    static lemma OldIsCached(contents: map<(Key, nat), nat>, c: Core, infos: map<nat, Info>, e: nat, info: Info)
      requires TableOk(contents, c, infos, None) && e !in c.states && (info.key, info.hash) in contents
      ensures var x := contents[(info.key, info.hash)];
              x in c.states && c.states[x].inCache && x != e
    {}
  }

  lemma {:induction false} NothingWithout(ids: seq<nat>, id: nat)
    requires id !in ids
    ensures Without(ids, id) == ids
  {
    if ids != [] {
      assert ids == [ids[0]] + ids[1..];
      NothingWithout(ids[1..], id);
    }
  }
}
