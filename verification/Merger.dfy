/** Several runs as one: the children keep their places around the current key. */
module Merger {
  import opened Wrappers
  import opened DbFormat
  import opened Cursors
  import opened TwoLevelIterators

  // ---- Cuts through several runs at once ----

  // view is the sorted union of the runs, which share no key.
  ghost predicate Union(runs: seq<seq<Entry>>, view: seq<Entry>) {
    Sorted(view) && (forall i :: 0 <= i < |runs| ==> Sorted(runs[i]))
    && (forall e :: e in view <==> exists i :: 0 <= i < |runs| && e in runs[i])
    && forall i, j, e, f :: 0 <= i < j < |runs| && e in runs[i] && f in runs[j] ==> e.Ikey() != f.Ikey()
  }

  // best is the least of what the runs have from the cut on.
  ghost predicate IsSmallest(runs: seq<seq<Entry>>, cut: Cut, best: Option<nat>) {
    match best
    case None => forall i :: 0 <= i < |runs| ==> PosFrom(runs[i], cut).None?
    case Some(b) =>
      b < |runs| && PosFrom(runs[b], cut).Some?
      && forall i :: 0 <= i < |runs| && PosFrom(runs[i], cut).Some? ==>
           !Less(runs[i][CountBelow(runs[i], cut)].Ikey(), runs[b][CountBelow(runs[b], cut)].Ikey())
  }

  // best is the greatest of what the runs have before the cut.
  ghost predicate IsLargest(runs: seq<seq<Entry>>, cut: Cut, best: Option<nat>) {
    match best
    case None => forall i :: 0 <= i < |runs| ==> PosTo(runs[i], cut).None?
    case Some(b) =>
      b < |runs| && PosTo(runs[b], cut).Some?
      && forall i :: 0 <= i < |runs| && PosTo(runs[i], cut).Some? ==>
           !Less(runs[b][CountBelow(runs[b], cut) - 1].Ikey(), runs[i][CountBelow(runs[i], cut) - 1].Ikey())
  }

  lemma LessTotal(a: IKey, b: IKey)
    ensures Less(a, b) || Less(b, a) || a == b
  {}

  // A run has nothing between its own first entry from the cut on and the cut.
  lemma FromCut(run: seq<Entry>, cut: Cut, e: Entry)
    requires Sorted(run) && e in run && !Below(cut, e.Ikey())
    ensures PosFrom(run, cut).Some? && !Less(e.Ikey(), run[CountBelow(run, cut)].Ikey())
  {
    CountSplits(run, cut);
    var x :| 0 <= x < |run| && run[x] == e;
    if x > CountBelow(run, cut) {
      assert Less(run[CountBelow(run, cut)].Ikey(), run[x].Ikey());
    }
  }

  lemma ToCut(run: seq<Entry>, cut: Cut, e: Entry)
    requires Sorted(run) && e in run && Below(cut, e.Ikey())
    ensures PosTo(run, cut).Some? && !Less(run[CountBelow(run, cut) - 1].Ikey(), e.Ikey())
  {
    CountSplits(run, cut);
    var x :| 0 <= x < |run| && run[x] == e;
    if x < CountBelow(run, cut) - 1 {
      assert Less(run[x].Ikey(), run[CountBelow(run, cut) - 1].Ikey());
    }
  }

  lemma UnionHas(runs: seq<seq<Entry>>, view: seq<Entry>, e: Entry) returns (i: nat)
    requires Union(runs, view) && e in view
    ensures i < |runs| && e in runs[i] && Sorted(runs[i])
  {
    i :| 0 <= i < |runs| && e in runs[i];
  }

  lemma UnionTakes(runs: seq<seq<Entry>>, view: seq<Entry>, i: nat, e: Entry)
    requires Union(runs, view) && i < |runs| && e in runs[i]
    ensures e in view && Sorted(view)
  {}

  // The least entry from the cut on is where the union goes on.
  lemma SmallestIsNext(runs: seq<seq<Entry>>, view: seq<Entry>, cut: Cut, best: Option<nat>)
    requires Union(runs, view) && IsSmallest(runs, cut, best)
    ensures best.None? ==> PosFrom(view, cut).None?
    ensures best.Some? ==> PosFrom(view, cut).Some?
                           && view[CountBelow(view, cut)] == runs[best.value][CountBelow(runs[best.value], cut)]
  {
    hide CountBelow, Union;
    var c := CountBelow(view, cut);
    if best.Some? {
      var e := runs[best.value][CountBelow(runs[best.value], cut)];
      assert e in runs[best.value];
      UnionTakes(runs, view, best.value, e);
      FromCut(view, cut, e);
    }
    if c < |view| {
      var f := view[c];
      assert f in view;
      var i := UnionHas(runs, view, f);
      FromCut(runs[i], cut, f);
      if best.Some? {
        var e := runs[best.value][CountBelow(runs[best.value], cut)];
        LessTotal(e.Ikey(), f.Ikey());
        LessTotal(runs[i][CountBelow(runs[i], cut)].Ikey(), f.Ikey());
        UnionTakes(runs, view, i, f);
        SortedDistinct(view, e, f);
      }
    }
  }

  lemma LargestIsPrev(runs: seq<seq<Entry>>, view: seq<Entry>, cut: Cut, best: Option<nat>)
    requires Union(runs, view) && IsLargest(runs, cut, best)
    ensures best.None? ==> PosTo(view, cut).None?
    ensures best.Some? ==> PosTo(view, cut).Some?
                           && view[CountBelow(view, cut) - 1] == runs[best.value][CountBelow(runs[best.value], cut) - 1]
  {
    hide CountBelow, Union;
    var c := CountBelow(view, cut);
    if best.Some? {
      var e := runs[best.value][CountBelow(runs[best.value], cut) - 1];
      assert e in runs[best.value];
      UnionTakes(runs, view, best.value, e);
      ToCut(view, cut, e);
    }
    if c > 0 {
      var f := view[c - 1];
      assert f in view;
      var i := UnionHas(runs, view, f);
      ToCut(runs[i], cut, f);
      if best.Some? {
        var e := runs[best.value][CountBelow(runs[best.value], cut) - 1];
        LessTotal(e.Ikey(), f.Ikey());
        LessTotal(runs[i][CountBelow(runs[i], cut) - 1].Ikey(), f.Ikey());
        UnionTakes(runs, view, i, f);
        SortedDistinct(view, e, f);
      }
    }
  }

  lemma RunSorted(runs: seq<seq<Entry>>, view: seq<Entry>, i: nat)
    requires Union(runs, view) && i < |runs|
    ensures Sorted(runs[i])
  {}

  // Once the least entry is known, the cut may as well be just before it.
  lemma CutAtSmallest(runs: seq<seq<Entry>>, view: seq<Entry>, cut: Cut, best: nat, i: nat)
    requires Union(runs, view) && IsSmallest(runs, cut, Some(best)) && i < |runs|
    ensures CountBelow(runs[i], Before(runs[best][CountBelow(runs[best], cut)].Ikey())) == CountBelow(runs[i], cut)
  {
    RunSorted(runs, view, i);
    RunSorted(runs, view, best);
    hide CountBelow, Union;
    var run, k := runs[i], runs[best][CountBelow(runs[best], cut)].Ikey();
    var c := CountBelow(run, cut);
    CountSplits(run, cut);
    CountSplits(runs[best], cut);
    forall j | 0 <= j < |run|
      ensures Below(Before(k), run[j].Ikey()) <==> j < c
    {
      if j < c {
        LessTotal(run[j].Ikey(), k);
      } else {
        assert run[j] in run;
        FromCut(run, cut, run[j]);
        LessTotal(run[c].Ikey(), run[j].Ikey());
      }
    }
    CountIs(run, Before(k), c);
  }

  lemma CutAtLargest(runs: seq<seq<Entry>>, view: seq<Entry>, cut: Cut, best: nat, i: nat)
    requires Union(runs, view) && IsLargest(runs, cut, Some(best)) && i < |runs|
    ensures CountBelow(runs[i], After(runs[best][CountBelow(runs[best], cut) - 1].Ikey())) == CountBelow(runs[i], cut)
  {
    RunSorted(runs, view, i);
    RunSorted(runs, view, best);
    hide CountBelow, Union;
    var run, k := runs[i], runs[best][CountBelow(runs[best], cut) - 1].Ikey();
    var c := CountBelow(run, cut);
    CountSplits(run, cut);
    CountSplits(runs[best], cut);
    forall j | 0 <= j < |run|
      ensures Below(After(k), run[j].Ikey()) <==> j < c
    {
      if j >= c {
        LessTotal(run[j].Ikey(), k);
      } else {
        assert run[j] in run;
        ToCut(run, cut, run[j]);
        LessTotal(run[c - 1].Ikey(), run[j].Ikey());
      }
    }
    CountIs(run, After(k), c);
  }

  // Just before and just after a key differ only in the run that has it.
  lemma AroundKey(run: seq<Entry>, k: IKey)
    requires Sorted(run)
    ensures (forall e :: e in run ==> e.Ikey() != k) ==> CountBelow(run, Before(k)) == CountBelow(run, After(k))
    ensures forall p :: 0 <= p < |run| && run[p].Ikey() == k ==>
              CountBelow(run, Before(k)) == p && CountBelow(run, After(k)) == p + 1
  {
    hide CountBelow;
    if forall e :: e in run ==> e.Ikey() != k {
      CountSplits(run, After(k));
      forall j | 0 <= j < |run|
        ensures Below(Before(k), run[j].Ikey()) <==> j < CountBelow(run, After(k))
      {
        assert run[j] in run;
        LessTotal(run[j].Ikey(), k);
      }
      CountIs(run, Before(k), CountBelow(run, After(k)));
    }
    forall p | 0 <= p < |run| && run[p].Ikey() == k
      ensures CountBelow(run, Before(k)) == p && CountBelow(run, After(k)) == p + 1
    {
      CountIs(run, Before(k), p);
      CountIs(run, After(k), p + 1);
    }
  }

  // ---- The iterator ----

  class MergingIterator {
    const children: seq<TwoLevelIterator>
    var current: Option<nat>
    var forward: bool

    // The sorted union of the children.
    ghost const view: seq<Entry>

    ghost function Runs(): seq<seq<Entry>> {
      seq(|children|, i requires 0 <= i < |children| => children[i].View())
    }

    ghost predicate ChildrenOk()
      reads this, children
    {
      (forall i, j :: 0 <= i < j < |children| ==> children[i] != children[j])
      && (forall i :: 0 <= i < |children| ==> children[i].Ok())
      && Union(Runs(), view)
    }

    // Every child stands at its first entry from the cut on, or at its last before it.
    ghost predicate AllFrom(cut: Cut)
      reads this, children
      requires ChildrenOk()
    {
      forall i :: 0 <= i < |children| ==> children[i].Pos() == PosFrom(children[i].View(), cut)
    }

    ghost predicate AllTo(cut: Cut)
      reads this, children
      requires ChildrenOk()
    {
      forall i :: 0 <= i < |children| ==> children[i].Pos() == PosTo(children[i].View(), cut)
    }

    predicate Valid()
      reads this
    {
      current.Some?
    }

    // Moving forward the other children stand after the current key, moving backward before it.
    ghost predicate Ok()
      reads this, children
    {
      ChildrenOk()
      && (current.Some? ==>
            current.value < |children| && children[current.value].Valid()
            && var k := children[current.value].Current().Ikey();
               if forward then AllFrom(Before(k)) else AllTo(After(k)))
    }

    function Current(): (e: Entry)
      reads this, children
      requires Ok() && Valid()
    {
      children[current.value].Current()
    }

    ghost function Pos(): (r: Option<nat>)
      reads this, children
      requires Ok()
      ensures r.Some? <==> Valid()
    {
      if current.None? then None else Some(CountBelow(view, Before(Current().Ikey())))
    }

    lemma ViewSorted()
      requires Ok()
      ensures Sorted(view)
    {}

    // The current entry is the one at the position.
    lemma CurrentAtPos()
      requires Ok() && Valid()
      ensures Pos().value < |view| && view[Pos().value] == Current()
    {
      hide PosFrom, PosTo, CountBelow, AllFrom, AllTo;
      var c, e := current.value, Current();
      assert Runs()[c] == children[c].View() && e in Runs()[c];
      UnionTakes(Runs(), view, c, e);
      var p :| 0 <= p < |view| && view[p] == e;
      AroundKey(view, e.Ikey());
    }

    constructor (children: seq<TwoLevelIterator>, ghost view: seq<Entry>)
      requires (forall i, j :: 0 <= i < j < |children| ==> children[i] != children[j])
      requires forall i :: 0 <= i < |children| ==> children[i].Ok()
      requires Union(seq(|children|, i requires 0 <= i < |children| => children[i].View()), view)
      ensures Ok() && Pos() == None && this.children == children && this.view == view
    {
      this.children, this.view, current, forward := children, view, None, true;
    }

    // FindSmallest: the first child with the least key.
    method FindSmallest(ghost cut: Cut)
      requires ChildrenOk() && AllFrom(cut) && forward
      modifies this`current
      ensures Ok() && Pos() == PosFrom(view, cut)
    {
      hide CountBelow, Union, TwoLevelIterator.Ok, TwoLevelIterator.Pos, TwoLevelIterator.View, TwoLevelIterator.Current, TwoLevelIterator.Valid;
      var smallest: Option<nat> := None;
      var i := 0;
      while i < |children|
        invariant i <= |children| && Least(0, i, smallest)
      {
        var child := children[i];
        if child.Valid() {
          if smallest.None? {
            smallest := Some(i);
          } else if Less(child.Current().Ikey(), children[smallest.value].Current().Ikey()) {
            smallest := Some(i);
          }
        }
        i := i + 1;
      }
      LeastIsSmallest(cut, smallest);
      AtSmallest(cut, smallest);
      current := smallest;
    }

    // Of the children numbered lo to hi, best has the least key.
    ghost predicate Least(lo: nat, hi: nat, best: Option<nat>)
      reads this, children
      requires ChildrenOk() && hi <= |children|
    {
      match best
      case None => forall j: nat :: lo <= j < hi ==> !children[j].Valid()
      case Some(b) =>
        lo <= b < hi && children[b].Valid()
        && forall j: nat :: lo <= j < hi && children[j].Valid() ==> !Less(children[j].Current().Ikey(), children[b].Current().Ikey())
    }

    lemma LeastIsSmallest(cut: Cut, best: Option<nat>)
      requires ChildrenOk() && AllFrom(cut) && Least(0, |children|, best)
      ensures IsSmallest(Runs(), cut, best)
    {
      hide CountBelow, Union, TwoLevelIterator.Ok, TwoLevelIterator.Pos, TwoLevelIterator.View, TwoLevelIterator.Current, TwoLevelIterator.Valid;
      forall i | 0 <= i < |children|
        ensures Runs()[i] == children[i].View() && (children[i].Valid() <==> PosFrom(Runs()[i], cut).Some?)
        ensures children[i].Valid() ==> children[i].Current() == Runs()[i][CountBelow(Runs()[i], cut)]
      {}
    }

    lemma AtSmallest(cut: Cut, best: Option<nat>)
      requires ChildrenOk() && AllFrom(cut) && IsSmallest(Runs(), cut, best)
      ensures best.None? ==> PosFrom(view, cut).None?
      ensures best.Some? ==>
                best.value < |children| && children[best.value].Valid()
                && var k := children[best.value].Current().Ikey();
                   AllFrom(Before(k)) && Some(CountBelow(view, Before(k))) == PosFrom(view, cut)
    {
      hide CountBelow, Union, TwoLevelIterator.Ok, TwoLevelIterator.Pos, TwoLevelIterator.View, TwoLevelIterator.Current, TwoLevelIterator.Valid;
      SmallestIsNext(Runs(), view, cut, best);
      if best.Some? {
        var b := best.value;
        assert Runs()[b] == children[b].View();
        var e := children[b].Current();
        assert e in Runs()[b];
        UnionTakes(Runs(), view, b, e);
        AroundKey(view, e.Ikey());
        forall i | 0 <= i < |children|
          ensures CountBelow(children[i].View(), Before(e.Ikey())) == CountBelow(children[i].View(), cut)
        {
          assert Runs()[i] == children[i].View();
          CutAtSmallest(Runs(), view, cut, b, i);
        }
      }
    }

    // FindLargest: the last child with the greatest key.
    method FindLargest(ghost cut: Cut)
      requires ChildrenOk() && AllTo(cut) && !forward
      modifies this`current
      ensures Ok() && Pos() == PosTo(view, cut)
    {
      hide CountBelow, Union, TwoLevelIterator.Ok, TwoLevelIterator.Pos, TwoLevelIterator.View, TwoLevelIterator.Current, TwoLevelIterator.Valid;
      var largest: Option<nat> := None;
      var i: nat := |children|;
      while i > 0
        invariant i <= |children| && Greatest(i, |children|, largest)
      {
        i := i - 1;
        var child := children[i];
        if child.Valid() {
          if largest.None? {
            largest := Some(i);
          } else if Less(children[largest.value].Current().Ikey(), child.Current().Ikey()) {
            largest := Some(i);
          }
        }
      }
      GreatestIsLargest(cut, largest);
      AtLargest(cut, largest);
      current := largest;
    }

    ghost predicate Greatest(lo: nat, hi: nat, best: Option<nat>)
      reads this, children
      requires ChildrenOk() && hi <= |children|
    {
      match best
      case None => forall j: nat :: lo <= j < hi ==> !children[j].Valid()
      case Some(b) =>
        lo <= b < hi && children[b].Valid()
        && forall j: nat :: lo <= j < hi && children[j].Valid() ==> !Less(children[b].Current().Ikey(), children[j].Current().Ikey())
    }

    lemma GreatestIsLargest(cut: Cut, best: Option<nat>)
      requires ChildrenOk() && AllTo(cut) && Greatest(0, |children|, best)
      ensures IsLargest(Runs(), cut, best)
    {
      hide CountBelow, Union, TwoLevelIterator.Ok, TwoLevelIterator.Pos, TwoLevelIterator.View, TwoLevelIterator.Current, TwoLevelIterator.Valid;
      forall i | 0 <= i < |children|
        ensures Runs()[i] == children[i].View() && (children[i].Valid() <==> PosTo(Runs()[i], cut).Some?)
        ensures children[i].Valid() ==> children[i].Current() == Runs()[i][CountBelow(Runs()[i], cut) - 1]
      {}
    }

    lemma AtLargest(cut: Cut, best: Option<nat>)
      requires ChildrenOk() && AllTo(cut) && IsLargest(Runs(), cut, best)
      ensures best.None? ==> PosTo(view, cut).None?
      ensures best.Some? ==>
                best.value < |children| && children[best.value].Valid()
                && var k := children[best.value].Current().Ikey();
                   AllTo(After(k)) && Some(CountBelow(view, Before(k))) == PosTo(view, cut)
    {
      hide CountBelow, Union, TwoLevelIterator.Ok, TwoLevelIterator.Pos, TwoLevelIterator.View, TwoLevelIterator.Current, TwoLevelIterator.Valid;
      LargestIsPrev(Runs(), view, cut, best);
      if best.Some? {
        var b := best.value;
        assert Runs()[b] == children[b].View();
        var e := children[b].Current();
        assert e in Runs()[b];
        UnionTakes(Runs(), view, b, e);
        AroundKey(view, e.Ikey());
        forall i | 0 <= i < |children|
          ensures CountBelow(children[i].View(), After(e.Ikey())) == CountBelow(children[i].View(), cut)
        {
          assert Runs()[i] == children[i].View();
          CutAtLargest(Runs(), view, cut, b, i);
        }
      }
    }

    method SeekToFirst()
      requires Ok()
      modifies this, children
      ensures Ok() && Pos() == PosFrom(view, Start)
    {
      var i := 0;
      while i < |children|
        invariant i <= |children| && ChildrenOk()
        invariant forall j :: 0 <= j < i ==> children[j].Pos() == PosFrom(children[j].View(), Start)
      {
        children[i].SeekToFirst();
        i := i + 1;
      }
      forward := true;
      FindSmallest(Start);
    }

    method SeekToLast()
      requires Ok()
      modifies this, children
      ensures Ok() && Pos() == PosTo(view, End)
    {
      var i := 0;
      while i < |children|
        invariant i <= |children| && ChildrenOk()
        invariant forall j :: 0 <= j < i ==> children[j].Pos() == PosTo(children[j].View(), End)
      {
        children[i].SeekToLast();
        i := i + 1;
      }
      forward := false;
      FindLargest(End);
    }

    method Seek(target: IKey)
      requires Ok()
      modifies this, children
      ensures Ok() && Pos() == PosFrom(view, Before(target))
    {
      var i := 0;
      while i < |children|
        invariant i <= |children| && ChildrenOk()
        invariant forall j :: 0 <= j < i ==> children[j].Pos() == PosFrom(children[j].View(), Before(target))
      {
        children[i].Seek(target);
        i := i + 1;
      }
      forward := true;
      FindSmallest(Before(target));
    }

    // No child but the current one has the current key.
    lemma OthersLackKey(i: nat)
      requires Ok() && Valid() && i < |children| && i != current.value
      ensures forall e :: e in children[i].View() ==> e.Ikey() != Current().Ikey()
    {
      var c := current.value;
      assert Runs()[c] == children[c].View() && Runs()[i] == children[i].View();
      assert Current() in Runs()[c];
    }

    // Where the children stand around the current key k, seen from just after it and just before it.
    lemma CurrentAround()
      requires Ok() && Valid()
      ensures var k := Current().Ikey();
              (forall i :: 0 <= i < |children| && i != current.value ==>
                 CountBelow(children[i].View(), Before(k)) == CountBelow(children[i].View(), After(k)))
              && (var c := children[current.value];
                  c.Pos() == Some(CountBelow(c.View(), Before(k))) && CountBelow(c.View(), After(k)) == c.Pos().value + 1)
              && CountBelow(view, After(k)) == Pos().value + 1
    {
      hide CountBelow, TwoLevelIterator.Ok, TwoLevelIterator.Pos, TwoLevelIterator.View, TwoLevelIterator.Current, TwoLevelIterator.Valid;
      var k := Current().Ikey();
      forall i | 0 <= i < |children| && i != current.value
        ensures CountBelow(children[i].View(), Before(k)) == CountBelow(children[i].View(), After(k))
      {
        OthersLackKey(i);
        assert Sorted(Runs()[i]) && Runs()[i] == children[i].View();
        AroundKey(children[i].View(), k);
      }
      var c := children[current.value];
      assert Sorted(Runs()[current.value]) && Runs()[current.value] == c.View();
      AroundKey(c.View(), k);
      CurrentAtPos();
      AroundKey(view, k);
    }

    method Next()
      requires Ok() && Valid()
      modifies this, children
      ensures Ok() && Pos() == NextPos(|view|, old(Pos()).value)
    {
      hide CountBelow, Union, TwoLevelIterator.Ok, TwoLevelIterator.Pos, TwoLevelIterator.View, TwoLevelIterator.Current, TwoLevelIterator.Valid;
      CurrentAround();
      ghost var k := Current().Ikey();
      if !forward {
        TurnForward();
        forward := true;
      }
      StepForward(k);
      FindSmallest(After(k));
    }

    method StepForward(ghost k: IKey)
      requires ChildrenOk() && current.Some? && current.value < |children| && children[current.value].Valid()
      requires forall i :: 0 <= i < |children| && i != current.value ==>
                 children[i].Pos() == PosFrom(children[i].View(), After(k))
      requires CountBelow(children[current.value].View(), After(k)) == children[current.value].Pos().value + 1
      modifies children[current.value]
      ensures ChildrenOk() && AllFrom(After(k))
    {
      hide CountBelow, Union, TwoLevelIterator.Ok, TwoLevelIterator.Pos, TwoLevelIterator.View, TwoLevelIterator.Current, TwoLevelIterator.Valid;
      var child := children[current.value];
      child.Next();
    }

    // From backward to forward: the other children go to their first entry beyond the key.
    method TurnForward()
      requires Ok() && Valid() && !forward
      modifies children
      ensures ChildrenOk() && children[current.value].Pos() == old(children[current.value].Pos())
      ensures var k := old(Current()).Ikey();
              forall i :: 0 <= i < |children| && i != current.value ==>
                children[i].Pos() == PosFrom(children[i].View(), After(k))
    {
      hide CountBelow, Union, TwoLevelIterator.Ok, TwoLevelIterator.Pos, TwoLevelIterator.View, TwoLevelIterator.Current, TwoLevelIterator.Valid;
      CurrentAround();
      var k := Current().Ikey();
      ghost var c := current.value;
      var i := 0;
      while i < |children|
        invariant i <= |children| && ChildrenOk() && children[c].Pos() == old(children[c].Pos())
        invariant children[c].Valid() && children[c].Current().Ikey() == k
        invariant forall j :: 0 <= j < i && j != c ==> children[j].Pos() == PosFrom(children[j].View(), After(k))
      {
        var child := children[i];
        if i != current.value {
          child.Seek(children[current.value].Current().Ikey());
          if child.Valid() && child.Current().Ikey() == children[current.value].Current().Ikey() {
            // Here a child with the same key would step past it; no two children share a key.
            assert false;
          }
        }
        i := i + 1;
      }
    }

    method Prev()
      requires Ok() && Valid()
      modifies this, children
      ensures Ok() && Pos() == PrevPos(old(Pos()).value)
    {
      hide CountBelow, Union, TwoLevelIterator.Ok, TwoLevelIterator.Pos, TwoLevelIterator.View, TwoLevelIterator.Current, TwoLevelIterator.Valid;
      CurrentAround();
      ghost var k := Current().Ikey();
      if forward {
        TurnBackward();
        forward := false;
      }
      StepBackward(k);
      FindLargest(Before(k));
    }

    method StepBackward(ghost k: IKey)
      requires ChildrenOk() && current.Some? && current.value < |children| && children[current.value].Valid()
      requires forall i :: 0 <= i < |children| && i != current.value ==>
                 children[i].Pos() == PosTo(children[i].View(), Before(k))
      requires CountBelow(children[current.value].View(), Before(k)) == children[current.value].Pos().value
      modifies children[current.value]
      ensures ChildrenOk() && AllTo(Before(k))
    {
      hide CountBelow, Union, TwoLevelIterator.Ok, TwoLevelIterator.Pos, TwoLevelIterator.View, TwoLevelIterator.Current, TwoLevelIterator.Valid;
      var child := children[current.value];
      child.Prev();
    }

    // From forward to backward: the other children go to their last entry before the key.
    method TurnBackward()
      requires Ok() && Valid() && forward
      modifies children
      ensures ChildrenOk() && children[current.value].Pos() == old(children[current.value].Pos())
      ensures var k := old(Current()).Ikey();
              forall i :: 0 <= i < |children| && i != current.value ==>
                children[i].Pos() == PosTo(children[i].View(), Before(k))
    {
      hide CountBelow, Union, TwoLevelIterator.Ok, TwoLevelIterator.Pos, TwoLevelIterator.View, TwoLevelIterator.Current, TwoLevelIterator.Valid;
      var k := Current().Ikey();
      ghost var c := current.value;
      var i := 0;
      while i < |children|
        invariant i <= |children| && ChildrenOk() && children[c].Pos() == old(children[c].Pos())
        invariant children[c].Valid() && children[c].Current().Ikey() == k
        invariant forall j :: 0 <= j < i && j != c ==> children[j].Pos() == PosTo(children[j].View(), Before(k))
      {
        var child := children[i];
        if i != current.value {
          child.Seek(children[current.value].Current().Ikey());
          if child.Valid() {
            child.Prev();
          } else {
            child.SeekToLast();
            TwoLevelIterator.LastIsEnd(child.View());
          }
        }
        i := i + 1;
      }
    }
  }
}
