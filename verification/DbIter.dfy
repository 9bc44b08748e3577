/**
 The iterator users see: of all the entries, only the live ones at a sequence number, in either
 direction.
 */
module DbIters {
  import opened Wrappers
  import opened DbFormat
  import opened Cursors
  import opened TwoLevelIterators
  import opened Merger

  // ---- The live entries at a sequence number ----

  // Entry i is the first of its key that is not too new, and it is a value.
  ghost predicate IsLive(view: seq<Entry>, s: nat, i: nat) {
    i < |view| && view[i].sn <= s && view[i].payload.Put?
    && forall j :: 0 <= j < i && view[j].key == view[i].key ==> view[j].sn > s
  }

  // Being live is being what a read at s finds.
  lemma LiveIsNewest(view: seq<Entry>, s: nat, i: nat)
    requires Sorted(view) && i < |view|
    ensures IsLive(view, s, i) <==> IsNewest(Elements(view), view[i].key, s, view[i]) && view[i].payload.Put?
  {
    if IsLive(view, s, i) {
      forall f | f in view && f.key == view[i].key && f.sn <= s
        ensures f.sn <= view[i].sn
      {
        var j :| 0 <= j < |view| && view[j] == f;
        assert i < j ==> Less(view[i].Ikey(), view[j].Ikey());
      }
    }
    if IsNewest(Elements(view), view[i].key, s, view[i]) {
      forall j | 0 <= j < i && view[j].key == view[i].key
        ensures view[j].sn > s
      {
        assert Less(view[j].Ikey(), view[i].Ikey()) && view[j] in view;
      }
    }
  }

  // The live entries among the first n, by position.
  ghost function LiveList(view: seq<Entry>, s: nat, n: nat): (r: seq<nat>)
    requires n <= |view|
    ensures forall p :: 0 <= p < |r| ==> r[p] < n && IsLive(view, s, r[p])
  {
    if n == 0 then []
    else if IsLive(view, s, n - 1) then LiveList(view, s, n - 1) + [n - 1]
    else LiveList(view, s, n - 1)
  }

  // The place of a live entry among them.
  ghost function Rank(view: seq<Entry>, s: nat, i: nat): nat
    requires i <= |view|
  {
    |LiveList(view, s, i)|
  }

  ghost function LiveCount(view: seq<Entry>, s: nat): nat {
    Rank(view, s, |view|)
  }

  // Live entries have distinct keys, in order.
  lemma LiveKeysAscend(view: seq<Entry>, s: nat, i: nat, j: nat)
    requires Sorted(view) && IsLive(view, s, i) && IsLive(view, s, j) && i < j
    ensures view[i].key < view[j].key
  {
    assert Less(view[i].Ikey(), view[j].Ikey());
  }

  lemma {:induction false} NoneLiveBetween(view: seq<Entry>, s: nat, i: nat, j: nat)
    requires i <= j <= |view| && forall u: nat :: i <= u < j ==> !IsLive(view, s, u)
    ensures LiveList(view, s, j) == LiveList(view, s, i)
  {
    if i < j {
      NoneLiveBetween(view, s, i, j - 1);
    }
  }

  lemma {:induction false} LiveListPrefix(view: seq<Entry>, s: nat, i: nat, j: nat)
    requires i <= j <= |view|
    ensures LiveList(view, s, i) <= LiveList(view, s, j)
  {
    if i < j {
      LiveListPrefix(view, s, i, j - 1);
    }
  }

  lemma RankOfLive(view: seq<Entry>, s: nat, i: nat)
    requires IsLive(view, s, i)
    ensures Rank(view, s, i) < LiveCount(view, s) && LiveList(view, s, |view|)[Rank(view, s, i)] == i
  {
    LiveListPrefix(view, s, i + 1, |view|);
  }

  // r is the first live entry from `from` on.
  ghost predicate FirstLive(view: seq<Entry>, s: nat, from: nat, r: Option<nat>) {
    match r
    case Some(j) => from <= j && IsLive(view, s, j) && forall u: nat :: from <= u < j ==> !IsLive(view, s, u)
    case None => forall u: nat :: from <= u < |view| ==> !IsLive(view, s, u)
  }

  // r is the last live entry before `upto`.
  ghost predicate LastLive(view: seq<Entry>, s: nat, upto: nat, r: Option<nat>) {
    match r
    case Some(j) => j < upto && IsLive(view, s, j) && forall u: nat :: j < u < upto ==> !IsLive(view, s, u)
    case None => forall u: nat :: u < upto ==> !IsLive(view, s, u)
  }

  ghost function RankOf(view: seq<Entry>, s: nat, r: Option<nat>): Option<nat>
    requires r.Some? ==> r.value <= |view|
  {
    if r.Some? then Some(Rank(view, s, r.value)) else None
  }

  lemma FirstLiveRank(view: seq<Entry>, s: nat, from: nat, r: Option<nat>)
    requires from <= |view| && FirstLive(view, s, from, r)
    ensures r.Some? ==> r.value < |view| && Rank(view, s, r.value) == Rank(view, s, from)
    ensures RankOf(view, s, r) == if Rank(view, s, from) < LiveCount(view, s) then Some(Rank(view, s, from)) else None
  {
    if r.Some? {
      NoneLiveBetween(view, s, from, r.value);
      RankOfLive(view, s, r.value);
    } else {
      NoneLiveBetween(view, s, from, |view|);
    }
  }

  lemma LastLiveRank(view: seq<Entry>, s: nat, upto: nat, r: Option<nat>)
    requires upto <= |view| && LastLive(view, s, upto, r)
    ensures r.Some? ==> r.value < |view|
    ensures RankOf(view, s, r) == if Rank(view, s, upto) > 0 then Some(Rank(view, s, upto) - 1) else None
  {
    if r.Some? {
      NoneLiveBetween(view, s, r.value + 1, upto);
    } else {
      NoneLiveBetween(view, s, 0, upto);
    }
  }

  // ---- Scanning forward ----

  // Where a forward scan may start: everything visible before it is covered by the key it skips, and nothing
  // visible from it on is below that key; or, if it skips none, what is before it belongs to other keys.
  ghost predicate MayScan(view: seq<Entry>, s: nat, from: nat, skipping: bool, skip: Option<int>) {
    if skipping then
      skip.Some? && (forall u :: 0 <= u < from && u < |view| && view[u].sn <= s ==> view[u].key <= skip.value)
      && forall u :: from <= u < |view| && view[u].sn <= s ==> view[u].key >= skip.value
    else forall u, j :: 0 <= u < from <= j < |view| && view[u].sn <= s ==> view[u].key != view[j].key
  }

  // What the scan up to h has found: nothing to stop at, and whatever it has seen is covered by the key it
  // skips by now, which is the one it began with or that of something it has seen.
  ghost predicate Scanned(view: seq<Entry>, s: nat, from: nat, h: nat, skipping0: bool, skip0: Option<int>,
                          skipping: bool, skip: Option<int>) {
    from <= h <= |view| && MayScan(view, s, from, skipping0, skip0)
    && (skipping0 ==> skipping && skip.Some? && skip0.value <= skip.value) && (skipping ==> skip.Some?)
    && (forall u :: from <= u < h && view[u].sn <= s ==> skipping && view[u].key <= skip.value)
    && NothingSkippedLive(view, s, from, h, skipping0, skip0)
    && (skipping ==> (skipping0 && skip == skip0) || exists d :: from <= d < h && view[d].sn <= s && view[d].key == skip.value)
  }

  // The live entries between from and h are ones the scan was to skip from the start.
  ghost predicate NothingSkippedLive(view: seq<Entry>, s: nat, from: nat, h: nat, skipping0: bool, skip0: Option<int>) {
    forall u: nat :: from <= u < h && u < |view| && IsLive(view, s, u) ==> skipping0 && skip0.Some? && view[u].key <= skip0.value
  }

  // An entry that is no value to stop at: too new, a deletion, or hidden by the key skipped.
  lemma ScanOn(view: seq<Entry>, s: nat, from: nat, h: nat, skipping0: bool, skip0: Option<int>, skipping: bool, skip: Option<int>)
    requires Sorted(view) && Scanned(view, s, from, h, skipping0, skip0, skipping, skip) && h < |view|
    requires view[h].sn > s || (view[h].payload.Put? && skipping && view[h].key <= skip.value)
    ensures Scanned(view, s, from, h + 1, skipping0, skip0, skipping, skip)
  {
    forall d | from <= d < h && view[d].key == view[h].key && view[d].sn <= s
      ensures !IsLive(view, s, h)
    {}
    forall u | from <= u < h
      ensures view[u].key <= view[h].key
    {
      assert Less(view[u].Ikey(), view[h].Ikey());
    }
  }

  lemma ScanDeletion(view: seq<Entry>, s: nat, from: nat, h: nat, skipping0: bool, skip0: Option<int>, skipping: bool, skip: Option<int>)
    requires Sorted(view) && Scanned(view, s, from, h, skipping0, skip0, skipping, skip) && h < |view|
    requires view[h].sn <= s && view[h].payload == Deletion
    ensures Scanned(view, s, from, h + 1, skipping0, skip0, true, Some(view[h].key))
  {
    forall u | from <= u < h
      ensures view[u].key <= view[h].key
    {
      assert Less(view[u].Ikey(), view[h].Ikey());
    }
  }

  // A value not hidden is live.
  lemma ScanFound(view: seq<Entry>, s: nat, from: nat, h: nat, skipping0: bool, skip0: Option<int>, skipping: bool, skip: Option<int>)
    requires Sorted(view) && Scanned(view, s, from, h, skipping0, skip0, skipping, skip) && h < |view|
    requires view[h].sn <= s && view[h].payload.Put? && !(skipping && view[h].key <= skip.value)
    ensures IsLive(view, s, h) && (skipping0 ==> skip0.Some? && view[h].key > skip0.value)
    ensures NothingSkippedLive(view, s, from, h, skipping0, skip0)
  {}

  lemma ScanStarts(view: seq<Entry>, s: nat, from: nat, skipping0: bool, skip0: Option<int>)
    requires MayScan(view, s, from, skipping0, skip0) && from <= |view|
    ensures Scanned(view, s, from, from, skipping0, skip0, skipping0, skip0)
  {}

  lemma ScanEnds(view: seq<Entry>, s: nat, from: nat, h: nat, skipping0: bool, skip0: Option<int>, skipping: bool, skip: Option<int>)
    requires Scanned(view, s, from, h, skipping0, skip0, skipping, skip)
    ensures NothingSkippedLive(view, s, from, h, skipping0, skip0) && (skipping ==> skip.Some?) && from <= h <= |view|
  {}

  // ---- Scanning backward ----

  // What a backward scan from `upto` down to h has found.  v is the visible entry it has seen last, if
  // that is a value; deleted says that it is a deletion, or that there was none.
  ghost predicate BackScanned(view: seq<Entry>, s: nat, upto: nat, h: nat, deleted: bool, v: nat) {
    h <= upto <= |view|
    && (deleted ==> forall u: nat :: h <= u < upto ==> !IsLive(view, s, u))
    && (!deleted ==>
          h <= v < upto && view[v].sn <= s && view[v].payload.Put?
          && (forall u :: h <= u < v ==> view[u].sn > s)
          && forall u: nat :: v < u < upto ==> !IsLive(view, s, u))
  }

  lemma BackScanOn(view: seq<Entry>, s: nat, upto: nat, h: nat, deleted: bool, v: nat)
    requires Sorted(view) && h > 0 && BackScanned(view, s, upto, h, deleted, v)
    requires view[h - 1].sn <= s && !deleted ==> view[h - 1].key >= view[v].key
    ensures var u := h - 1;
            if view[u].sn > s then BackScanned(view, s, upto, u, deleted, v)
            else BackScanned(view, s, upto, u, view[u].payload == Deletion, u)
  {
    var u := h - 1;
    if view[u].sn <= s && !deleted {
      assert Less(view[u].Ikey(), view[v].Ikey());
    }
  }

  // At an entry of a lower key, or with nothing left, the value seen last is the last live entry.
  lemma BackScanFound(view: seq<Entry>, s: nat, upto: nat, h: nat, v: nat)
    requires Sorted(view) && BackScanned(view, s, upto, h, false, v)
    requires h > 0 ==> view[h - 1].sn <= s && view[h - 1].key < view[v].key
    ensures LastLive(view, s, upto, Some(v))
  {
    forall u | 0 <= u < h
      ensures view[u].key < view[v].key
    {
      if u < h - 1 {
        assert Less(view[u].Ikey(), view[h - 1].Ikey());
      }
    }
  }

  // ---- The iterator ----

  class DBIter {
    const iter: MergingIterator
    const sequence: nat
    var forward: bool
    var valid: bool
    var savedKey: Option<int>
    var savedValue: Value

    // The live entry the iterator shows.
    ghost var at: Option<nat>

    ghost function View(): seq<Entry> {
      iter.view
    }

    // Where the internal iterator stands: the entries before this number are before it or under it.
    ghost function Passed(): nat
      reads this, iter, iter.children
      requires iter.Ok()
    {
      if iter.Pos().Some? then iter.Pos().value + 1 else 0
    }

    // Moving forward the internal iterator is on the entry shown.  Moving backward it is before it, with
    // nothing visible in between, and the entry is in the saved key and value.
    ghost predicate Ok()
      reads this, iter, iter.children
    {
      iter.Ok() && (valid <==> at.Some?)
      && (valid ==>
            IsLive(View(), sequence, at.value)
            && if forward then iter.Pos() == at
               else savedKey == Some(View()[at.value].key) && View()[at.value].payload == Put(savedValue)
                    && Passed() <= at.value && NoneVisible(Passed(), at.value))
    }

    ghost predicate NoneVisible(i: nat, j: nat) {
      forall u :: i <= u < j && u < |View()| ==> View()[u].sn > sequence
    }

    // The position among the live entries.
    ghost function Pos(): Option<nat>
      reads this, iter, iter.children
      requires Ok()
    {
      RankOf(View(), sequence, at)
    }

    function Key(): (k: int)
      reads this, iter, iter.children
      requires Ok() && valid
      ensures Pos().value < LiveCount(View(), sequence)
      ensures k == View()[LiveList(View(), sequence, |View()|)[Pos().value]].key
    {
      RankOfLive(View(), sequence, at.value);
      if forward then OnEntry(); iter.Current().key else savedKey.value
    }

    function Val(): (v: Value)
      reads this, iter, iter.children
      requires Ok() && valid
      ensures Pos().value < LiveCount(View(), sequence)
      ensures View()[LiveList(View(), sequence, |View()|)[Pos().value]].payload == Put(v)
    {
      RankOfLive(View(), sequence, at.value);
      if forward then OnEntry(); iter.Current().payload.value else savedValue
    }

    lemma OnEntry()
      requires Ok() && valid && forward
      ensures iter.Valid() && iter.Current() == View()[at.value]
    {
      iter.CurrentAtPos();
    }

    constructor (iter: MergingIterator, sequence: nat)
      requires iter.Ok()
      ensures Ok() && Pos() == None && this.iter == iter && this.sequence == sequence
    {
      this.iter, this.sequence := iter, sequence;
      forward, valid, savedKey, savedValue, at := true, false, None, [], None;
    }

    // ---- Moving ----

    // Go forward to the first live entry from here on, past the key in `skip` if `skipping`.
    method FindNextUserEntry(skipping0: bool, skip0: Option<int>, ghost from: nat)
      requires iter.Ok() && forward && iter.Pos() == Some(from)
      requires MayScan(View(), sequence, from, skipping0, skip0)
      modifies this, iter, iter.children
      ensures Ok() && forward
      ensures at.Some? ==> from <= at.value && (skipping0 ==> View()[at.value].key > skip0.value)
      ensures NothingSkippedLive(View(), sequence, from, if at.Some? then at.value else |View()|, skipping0, skip0)
    {
      hide MergingIterator.Ok, MergingIterator.Pos, MergingIterator.Valid, MergingIterator.Current, IsLive, Scanned, MayScan,
        NothingSkippedLive, Sorted;
      var skipping, skip := skipping0, skip0;
      ghost var h := from;
      iter.ViewSorted();
      iter.CurrentAtPos();
      ScanStarts(View(), sequence, from, skipping0, skip0);
      while true
        invariant iter.Ok() && iter.Pos() == Some(h) && forward && from <= h < |View()|
        invariant Scanned(View(), sequence, from, h, skipping0, skip0, skipping, skip)
        decreases |View()| - h
      {
        iter.CurrentAtPos();
        ScanEnds(View(), sequence, from, h, skipping0, skip0, skipping, skip);
        var e := iter.Current();
        if e.sn <= sequence {
          if e.payload == Deletion {
            ScanDeletion(View(), sequence, from, h, skipping0, skip0, skipping, skip);
            skip := Some(e.key);
            skipping := true;
          } else if skipping && e.key <= skip.value {
            ScanOn(View(), sequence, from, h, skipping0, skip0, skipping, skip);
          } else {
            ScanFound(View(), sequence, from, h, skipping0, skip0, skipping, skip);
            valid := true;
            at := Some(h);
            savedKey := None;
            return;
          }
        } else {
          ScanOn(View(), sequence, from, h, skipping0, skip0, skipping, skip);
        }
        iter.Next();
        h := h + 1;
        if !iter.Valid() {
          ScanEnds(View(), sequence, from, h, skipping0, skip0, skipping, skip);
          break;
        }
      }
      savedKey := None;
      valid := false;
      at := None;
    }

    // Go backward to the last live entry under or before the internal iterator.
    method FindPrevUserEntry(ghost upto: nat)
      requires iter.Ok() && !forward && Passed() == upto
      modifies this, iter, iter.children
      ensures Ok() && LastLive(View(), sequence, upto, at)
    {
      hide MergingIterator.Ok, MergingIterator.Pos, MergingIterator.Valid, MergingIterator.Current, IsLive, LastLive;
      var deleted := true;
      ghost var v: nat := 0;
      ghost var h: nat := upto;
      iter.ViewSorted();
      if iter.Valid() {
        iter.CurrentAtPos();
        while true
          invariant iter.Ok() && !forward && h > 0 && iter.Pos() == Some(h - 1)
          invariant BackScanned(View(), sequence, upto, h, deleted, v)
          invariant !deleted ==> savedKey == Some(View()[v].key) && View()[v].payload == Put(savedValue)
          decreases h
        {
          iter.CurrentAtPos();
          var e := iter.Current();
          if e.sn <= sequence && !deleted && e.key < savedKey.value {
            break;
          }
          BackScanOn(View(), sequence, upto, h, deleted, v);
          if e.sn <= sequence {
            deleted := e.payload == Deletion;
            v := h - 1;
            if deleted {
              savedKey, savedValue := None, [];
            } else {
              savedKey, savedValue := Some(e.key), e.payload.value;
            }
          }
          iter.Prev();
          h := h - 1;
          if !iter.Valid() {
            break;
          }
        }
      }
      if deleted {
        valid := false;
        savedKey, savedValue := None, [];
        forward := true;
        at := None;
        NoLiveBefore(View(), sequence, upto, h, v);
      } else {
        valid := true;
        at := Some(v);
        BackScanFound(View(), sequence, upto, h, v);
      }
    }

    static lemma NoLiveBefore(view: seq<Entry>, s: nat, upto: nat, h: nat, v: nat)
      requires BackScanned(view, s, upto, h, true, v) && h == 0
      ensures LastLive(view, s, upto, None)
    {}

    // ---- The cursor over the live entries ----

    method SeekToFirst()
      requires Ok()
      modifies this, iter, iter.children
      ensures Ok() && Pos() == if LiveCount(View(), sequence) > 0 then Some(0) else None
    {
      hide MergingIterator.Ok, MergingIterator.Pos, MergingIterator.Valid, MergingIterator.Current, IsLive;
      forward, savedValue := true, [];
      iter.SeekToFirst();
      NothingBelowStart(View());
      if iter.Valid() {
        FindNextUserEntry(false, savedKey, 0);
      } else {
        valid, at := false, None;
      }
      FirstFrom(View(), sequence, 0, at, savedKey);
      FirstLiveRank(View(), sequence, 0, at);
    }

    method SeekToLast()
      requires Ok()
      modifies this, iter, iter.children
      ensures Ok() && Pos() == if LiveCount(View(), sequence) > 0 then Some(LiveCount(View(), sequence) - 1) else None
    {
      hide MergingIterator.Ok, MergingIterator.Pos, MergingIterator.Valid, MergingIterator.Current, IsLive, LastLive;
      forward, savedValue := false, [];
      iter.SeekToLast();
      TwoLevelIterator.LastIsEnd(View());
      FindPrevUserEntry(|View()|);
      LastLiveRank(View(), sequence, |View()|, at);
    }

    // The first live entry with a key of at least `target`.
    method Seek(target: int)
      requires Ok()
      modifies this, iter, iter.children
      ensures Ok()
      ensures forall p :: 0 <= p < LiveCount(View(), sequence) ==>
                (View()[LiveList(View(), sequence, |View()|)[p]].key >= target <==> Pos().Some? && Pos().value <= p)
    {
      hide MergingIterator.Ok, MergingIterator.Pos, MergingIterator.Valid, MergingIterator.Current, IsLive, CountBelow;
      forward, savedValue := true, [];
      ghost var from := CountBelow(View(), Before(IKey(target, sequence)));
      savedKey := Some(target);
      iter.ViewSorted();
      iter.Seek(IKey(target, sequence));
      SeekMayScan(View(), sequence, target, savedKey);
      if iter.Valid() {
        FindNextUserEntry(false, savedKey, from);
      } else {
        valid, at := false, None;
      }
      FirstFrom(View(), sequence, from, at, savedKey);
      SeekRank(View(), sequence, target, at);
    }

    method Next()
      requires Ok() && valid
      modifies this, iter, iter.children
      ensures Ok() && Pos() == NextPos(LiveCount(View(), sequence), old(Pos()).value)
    {
      hide MergingIterator.Ok, MergingIterator.Pos, MergingIterator.Valid, MergingIterator.Current, IsLive;
      ghost var i := at.value;
      iter.ViewSorted();
      ghost var from := LeaveCurrent();
      PastLive(View(), sequence, from, i, savedKey);
      FindNextUserEntry(true, savedKey, from);
      AfterLive(View(), sequence, from, i, at, Some(View()[i].key));
      FirstLiveRank(View(), sequence, i + 1, at);
      RankOfLive(View(), sequence, i);
    }

    // The first part of Next: the key to skip is saved, and the internal iterator is on or before the entry
    // shown, with nothing visible in between.
    method LeaveCurrent() returns (ghost from: nat)
      requires Ok() && valid
      modifies this`forward, this`savedKey, iter, iter.children
      ensures iter.Ok() && forward && iter.Pos() == Some(from)
      ensures var i := old(at).value;
              from <= i < |View()| && savedKey == Some(View()[i].key) && NoneVisible(from, i)
    {
      hide MergingIterator.Ok, MergingIterator.Pos, MergingIterator.Valid, MergingIterator.Current, IsLive;
      LiveInRange(View(), sequence, at.value);
      from := at.value;
      if !forward {
        forward := true;
        from := Passed();
        if !iter.Valid() {
          iter.SeekToFirst();
          NothingBelowStart(View());
        } else {
          iter.CurrentAtPos();
          iter.Next();
        }
        if !iter.Valid() {
          // No way on: but the current key's own entry lies ahead.
          assert false;
        }
      } else {
        OnEntry();
        savedKey := Some(iter.Current().key);
      }
    }

    method Prev()
      requires Ok() && valid
      modifies this, iter, iter.children
      ensures Ok() && Pos() == PrevPos(old(Pos()).value)
    {
      hide MergingIterator.Ok, MergingIterator.Pos, MergingIterator.Valid, MergingIterator.Current, IsLive, LastLive;
      ghost var i := at.value;
      ghost var upto: nat := i;
      iter.ViewSorted();
      LiveInRange(View(), sequence, i);
      if forward {
        OnEntry();
        savedKey := Some(iter.Current().key);
        while true
          invariant iter.Ok() && forward && 0 < upto + 1 <= i + 1 && iter.Pos() == Some(upto)
          invariant savedKey == Some(View()[i].key)
          invariant forall u: nat :: upto <= u < i ==> View()[u].key == View()[i].key
          decreases upto
        {
          iter.CurrentAtPos();
          iter.Prev();
          if !iter.Valid() {
            valid := false;
            savedKey, savedValue := None, [];
            at := None;
            SameKeyNotLive(View(), sequence, 0, i);
            LastOfPassed(View(), sequence, 0, i, at);
            LastLiveRank(View(), sequence, i, at);
            return;
          }
          iter.CurrentAtPos();
          if iter.Current().key < savedKey.value {
            break;
          }
          KeysAscend(View(), upto - 1, i);
          upto := upto - 1;
        }
        SameKeyNotLive(View(), sequence, upto, i);
        forward := false;
      } else {
        upto := Passed();
        TooNewNotLive(View(), sequence, upto, i);
      }
      FindPrevUserEntry(upto);
      LastOfPassed(View(), sequence, upto, i, at);
      LastLiveRank(View(), sequence, i, at);
    }
  }

  lemma NothingBelowStart(es: seq<Entry>)
    ensures CountBelow(es, Start) == 0
  {}

  lemma LiveInRange(view: seq<Entry>, s: nat, i: nat)
    requires IsLive(view, s, i)
    ensures i < |view| && view[i].sn <= s
  {}

  lemma KeysAscend(view: seq<Entry>, i: nat, j: nat)
    requires Sorted(view) && i <= j < |view|
    ensures view[i].key <= view[j].key
  {
    assert i < j ==> Less(view[i].Ikey(), view[j].Ikey());
  }

  // A scan that skips no key finds the first live entry.
  lemma FirstFrom(view: seq<Entry>, s: nat, from: nat, r: Option<nat>, skip: Option<int>)
    requires from <= |view| && (r.Some? ==> from <= r.value && IsLive(view, s, r.value))
    requires from < |view| ==> NothingSkippedLive(view, s, from, if r.Some? then r.value else |view|, false, skip)
    ensures FirstLive(view, s, from, r)
  {}

  // What precedes the sought place of a key is of other keys, or too new.
  lemma SeekMayScan(view: seq<Entry>, s: nat, target: int, skip: Option<int>)
    requires Sorted(view)
    ensures MayScan(view, s, CountBelow(view, Before(IKey(target, s))), false, skip)
  {
    CountSplits(view, Before(IKey(target, s)));
  }

  lemma SeekRank(view: seq<Entry>, s: nat, target: int, r: Option<nat>)
    requires Sorted(view) && FirstLive(view, s, CountBelow(view, Before(IKey(target, s))), r)
    ensures r.Some? ==> r.value < |view|
    ensures forall p :: 0 <= p < LiveCount(view, s) ==>
              (view[LiveList(view, s, |view|)[p]].key >= target
               <==> RankOf(view, s, r).Some? && RankOf(view, s, r).value <= p)
  {
    hide CountBelow;
    var from := CountBelow(view, Before(IKey(target, s)));
    CountSplits(view, Before(IKey(target, s)));
    FirstLiveRank(view, s, from, r);
    forall p | 0 <= p < LiveCount(view, s)
      ensures view[LiveList(view, s, |view|)[p]].key >= target <==> Rank(view, s, from) <= p
    {
      var u := LiveList(view, s, |view|)[p];
      RankBelow(view, s, from, p);
      assert u < from <==> Below(Before(IKey(target, s)), view[u].Ikey());
    }
  }

  // A live entry precedes `from` exactly when its place precedes that of `from`.
  lemma RankBelow(view: seq<Entry>, s: nat, from: nat, p: nat)
    requires from <= |view| && p < LiveCount(view, s)
    ensures LiveList(view, s, |view|)[p] < from <==> p < Rank(view, s, from)
  {
    LiveListPrefix(view, s, from, |view|);
    if p >= Rank(view, s, from) {
      LaterInList(view, s, from, |view|, p);
    }
  }

  lemma {:induction false} LaterInList(view: seq<Entry>, s: nat, from: nat, n: nat, p: nat)
    requires from <= n <= |view| && |LiveList(view, s, from)| <= p < |LiveList(view, s, n)|
    ensures LiveList(view, s, n)[p] >= from
  {
    if from < n && p < |LiveList(view, s, n - 1)| {
      LaterInList(view, s, from, n - 1, p);
    }
  }

  // Skipping the key of live entry i, from a place with nothing visible up to i.
  lemma PastLive(view: seq<Entry>, s: nat, from: nat, i: nat, skip: Option<int>)
    requires Sorted(view) && IsLive(view, s, i) && from <= i && skip == Some(view[i].key)
    requires forall u :: from <= u < i ==> view[u].sn > s
    ensures MayScan(view, s, from, true, skip)
  {
    forall u | 0 <= u < |view|
      ensures u < i ==> view[u].key <= view[i].key
      ensures u >= i ==> view[u].key >= view[i].key
    {
      if u < i {
        KeysAscend(view, u, i);
      } else {
        KeysAscend(view, i, u);
      }
    }
  }

  lemma AfterLive(view: seq<Entry>, s: nat, from: nat, i: nat, r: Option<nat>, skip: Option<int>)
    requires Sorted(view) && IsLive(view, s, i) && from <= i && skip == Some(view[i].key)
    requires r.Some? ==> from <= r.value && IsLive(view, s, r.value) && view[r.value].key > view[i].key
    requires NothingSkippedLive(view, s, from, if r.Some? then r.value else |view|, true, skip)
    ensures FirstLive(view, s, i + 1, r)
  {
    if r.Some? && r.value <= i {
      KeysAscend(view, r.value, i);
    }
    forall u: nat | i < u < (if r.Some? then r.value else |view|)
      ensures !IsLive(view, s, u)
    {
      if IsLive(view, s, u) {
        LiveKeysAscend(view, s, i, u);
      }
    }
  }

  // Between the first entry of a key and its live entry nothing is live.
  lemma SameKeyNotLive(view: seq<Entry>, s: nat, upto: nat, i: nat)
    requires Sorted(view) && IsLive(view, s, i) && upto <= i && forall u: nat :: upto <= u < i ==> view[u].key == view[i].key
    ensures forall u: nat :: upto <= u < i ==> !IsLive(view, s, u)
  {}

  lemma TooNewNotLive(view: seq<Entry>, s: nat, upto: nat, i: nat)
    requires i <= |view| && forall u :: upto <= u < i && u < |view| ==> view[u].sn > s
    ensures forall u: nat :: upto <= u < i ==> !IsLive(view, s, u)
  {}

  lemma LastOfPassed(view: seq<Entry>, s: nat, upto: nat, i: nat, r: Option<nat>)
    requires upto <= i && forall u: nat :: upto <= u < i ==> !IsLive(view, s, u)
    requires (upto == 0 && r.None?) || LastLive(view, s, upto, r)
    ensures LastLive(view, s, i, r)
  {}
}
