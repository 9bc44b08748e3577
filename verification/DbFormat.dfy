/**
 Entries of the database and their order.  A user key stands for its rank under the user comparator:
 everything here only compares keys, and any state names finitely many.
 */
module DbFormat {
  import opened Wrappers
  import opened Bytes

  const MAX_SEQUENCE: nat := 0xff_ffff_ffff_ffff

  type Value = seq<byte>

  datatype Payload = Deletion | Put(value: Value)

  // An internal key, and the entry it leads to.  Sequence numbers tell entries apart, so the value
  // type takes no part in the order.
  datatype IKey = IKey(key: int, sn: nat)

  datatype Entry = Entry(key: int, sn: nat, payload: Payload) {
    function Ikey(): IKey {
      IKey(key, sn)
    }
  }

  // InternalKeyComparator: user keys ascending, then sequence numbers descending.
  predicate Less(a: IKey, b: IKey) {
    a.key < b.key || (a.key == b.key && a.sn > b.sn)
  }

  ghost predicate Sorted(es: seq<Entry>) {
    forall i, j :: 0 <= i < j < |es| ==> Less(es[i].Ikey(), es[j].Ikey())
  }

  ghost function Elements(es: seq<Entry>): set<Entry> {
    set e | e in es
  }

  lemma SortedDistinct(es: seq<Entry>, e: Entry, f: Entry)
    requires Sorted(es) && e in es && f in es && e.Ikey() == f.Ikey()
    ensures e == f
  {
    var i :| 0 <= i < |es| && es[i] == e;
    var j :| 0 <= j < |es| && es[j] == f;
  }

  // ---- What a reader at a snapshot sees in a set of entries ----

  // e is the newest entry for key k with a sequence number of at most s.
  ghost predicate IsNewest(entries: set<Entry>, k: int, s: nat, e: Entry) {
    e in entries && e.key == k && e.sn <= s
    && forall f :: f in entries && f.key == k && f.sn <= s ==> f.sn <= e.sn
  }

  ghost predicate NothingVisible(entries: set<Entry>, k: int, s: nat) {
    forall f :: f in entries && f.key == k ==> f.sn > s
  }

  // No two entries share a sequence number.
  ghost predicate DistinctSequences(entries: set<Entry>) {
    forall e, f :: e in entries && f in entries && e.sn == f.sn ==> e == f
  }

  // The specification of a read: the newest write with sequence <= s, unless it is a deletion.
  ghost predicate Reads(entries: set<Entry>, k: int, s: nat, r: Option<Value>) {
    if r.Some? then exists e :: IsNewest(entries, k, s, e) && e.payload == Put(r.value)
    else forall e :: IsNewest(entries, k, s, e) ==> e.payload == Deletion
  }

  // Two sets of entries read alike for every key at every snapshot from `from` on.
  ghost predicate ReadAlike(a: set<Entry>, b: set<Entry>, from: nat) {
    forall k: int, s: nat, r: Option<Value> :: s >= from ==> (Reads(a, k, s, r) <==> Reads(b, k, s, r))
  }

  lemma {:induction false} NewestExists(entries: set<Entry>, k: int, s: nat)
    ensures NothingVisible(entries, k, s) || exists e :: IsNewest(entries, k, s, e)
    decreases |entries|
  {
    if e0 :| e0 in entries && e0.key == k && e0.sn <= s {
      var rest := entries - {e0};
      NewestExists(rest, k, s);
      if NothingVisible(rest, k, s) {
        assert IsNewest(entries, k, s, e0);
      } else {
        var e1 :| IsNewest(rest, k, s, e1);
        if e1.sn <= e0.sn {
          assert IsNewest(entries, k, s, e0);
        } else {
          assert IsNewest(entries, k, s, e1);
        }
      }
    }
  }

  // A read has exactly one answer.
  lemma ReadsIsFunction(entries: set<Entry>, k: int, s: nat, r: Option<Value>, r': Option<Value>)
    requires DistinctSequences(entries)
    requires Reads(entries, k, s, r) && Reads(entries, k, s, r')
    ensures r == r'
  {
    if r.Some? {
      var e :| IsNewest(entries, k, s, e) && e.payload == Put(r.value);
      if r'.Some? {
        var e' :| IsNewest(entries, k, s, e') && e'.payload == Put(r'.value);
        assert e.sn == e'.sn;
      }
    }
  }

  // ---- Sorted runs ----

  // The first position at or after the internal key t.
  function LowerBound(es: seq<Entry>, t: IKey): (i: nat)
    ensures i <= |es|
    ensures forall j :: 0 <= j < i ==> Less(es[j].Ikey(), t)
    ensures i < |es| ==> !Less(es[i].Ikey(), t)
  {
    if es == [] || !Less(es[0].Ikey(), t) then 0 else 1 + LowerBound(es[1..], t)
  }

  // MemTable::Get, and Table::InternalGet with its saver: seek, then compare the user key.
  function Lookup(es: seq<Entry>, k: int, s: nat): (r: Option<Entry>)
    ensures r.Some? ==> r.value in es && r.value.key == k && r.value.sn <= s
  {
    var i := LowerBound(es, IKey(k, s));
    if i < |es| && es[i].key == k then Some(es[i]) else None
  }

  // On a sorted run the seek finds the newest visible entry, if there is one.
  lemma LookupFindsNewest(es: seq<Entry>, k: int, s: nat)
    requires Sorted(es)
    ensures match Lookup(es, k, s)
            case Some(e) => IsNewest(Elements(es), k, s, e)
            case None => NothingVisible(Elements(es), k, s)
  {
    var i := LowerBound(es, IKey(k, s));
    forall f | f in es && f.key == k && f.sn <= s
      ensures i < |es| && es[i].key == k && f.sn <= es[i].sn
    {
      var j :| 0 <= j < |es| && es[j] == f;
      if j > i {
        assert Less(es[i].Ikey(), es[j].Ikey());
      }
    }
  }

  // Insert into a sorted run, as the skip list does.
  function Insert(es: seq<Entry>, e: Entry): (r: seq<Entry>)
    ensures |r| == |es| + 1
  {
    var i := LowerBound(es, e.Ikey());
    es[..i] + [e] + es[i..]
  }

  lemma InsertSorted(es: seq<Entry>, e: Entry)
    requires Sorted(es) && e.Ikey() !in (set f | f in es :: f.Ikey())
    ensures Sorted(Insert(es, e)) && Elements(Insert(es, e)) == Elements(es) + {e}
  {
    var i := LowerBound(es, e.Ikey());
    var r := Insert(es, e);
    forall j | 0 <= j < |es|
      ensures es[j].Ikey() != e.Ikey()
    {
      assert es[j] in es;
    }
    if i < |es| {
      assert Less(e.Ikey(), es[i].Ikey());
    }
    forall x, y | 0 <= x < y < |r|
      ensures Less(r[x].Ikey(), r[y].Ikey())
    {
      if x == i && y > i + 1 {
        assert Less(es[i].Ikey(), es[y - 1].Ikey());
      }
    }
    assert forall f :: f in r <==> f in es || f == e;
  }
}
