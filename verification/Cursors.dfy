/** Positions in a sorted run: what every iterator refines. */
module Cursors {
  import opened Wrappers
  import opened DbFormat

  // A place between entries.
  datatype Cut = Start | End | Before(t: IKey) | After(t: IKey)

  predicate Below(cut: Cut, k: IKey) {
    match cut
    case Start => false
    case End => true
    case Before(t) => Less(k, t)
    case After(t) => !Less(t, k)
  }

  // How many entries lie below the cut.
  function CountBelow(es: seq<Entry>, cut: Cut): (r: nat)
    ensures r <= |es|
    ensures forall j :: 0 <= j < r ==> Below(cut, es[j].Ikey())
    ensures r < |es| ==> !Below(cut, es[r].Ikey())
  {
    if es == [] || !Below(cut, es[0].Ikey()) then 0 else 1 + CountBelow(es[1..], cut)
  }

  // The first entry from the cut on, and the last one before it.
  function PosFrom(es: seq<Entry>, cut: Cut): Option<nat> {
    if CountBelow(es, cut) < |es| then Some(CountBelow(es, cut)) else None
  }

  function PosTo(es: seq<Entry>, cut: Cut): Option<nat> {
    if CountBelow(es, cut) > 0 then Some(CountBelow(es, cut) - 1) else None
  }

  function NextPos(n: nat, i: nat): Option<nat> {
    if i + 1 < n then Some(i + 1) else None
  }

  function PrevPos(i: nat): Option<nat> {
    if i > 0 then Some(i - 1) else None
  }

  lemma BelowIsDown(cut: Cut, a: IKey, b: IKey)
    requires Less(a, b) && Below(cut, b)
    ensures Below(cut, a)
  {}

  // In a sorted run exactly the entries before the count are below.
  lemma CountSplits(es: seq<Entry>, cut: Cut)
    requires Sorted(es)
    ensures forall j :: 0 <= j < |es| ==> (Below(cut, es[j].Ikey()) <==> j < CountBelow(es, cut))
  {
    var r := CountBelow(es, cut);
    forall j | r <= j < |es|
      ensures !Below(cut, es[j].Ikey())
    {
      if j > r && Below(cut, es[j].Ikey()) {
        BelowIsDown(cut, es[r].Ikey(), es[j].Ikey());
      }
    }
  }

  lemma CountIs(es: seq<Entry>, cut: Cut, r: nat)
    requires Sorted(es) && r <= |es|
    requires forall j :: 0 <= j < r ==> Below(cut, es[j].Ikey())
    requires forall j :: r <= j < |es| ==> !Below(cut, es[j].Ikey())
    ensures CountBelow(es, cut) == r
  {
    CountSplits(es, cut);
    var c := CountBelow(es, cut);
    assert c < |es| ==> !Below(cut, es[c].Ikey());
    assert r < |es| ==> !Below(cut, es[r].Ikey());
  }
}
