/**
 The skip list of the memtable, as readers see it while one writer inserts.  Every method is one load or
 one store of a shared pointer, and they come in any order.
 */
module SkipLists {
  import opened Wrappers
  import Sets

  const MAX_HEIGHT: nat := 12
  const HEAD: nat := 0

  // A node is an index; keys[HEAD] means nothing.  next[n] has one link for each level of node n.
  type Links = seq<seq<Option<nat>>>

  // n comes after x, where the head comes before everything.
  ghost predicate After(keys: seq<int>, x: nat, n: nat)
    requires x < |keys| && n < |keys|
  {
    x == HEAD || keys[x] < keys[n]
  }

  ghost predicate InRange(keys: seq<int>, nodes: set<nat>) {
    forall n: nat :: n in nodes ==> 0 < n < |keys|
  }

  // r is the first of the nodes after x.
  ghost predicate IsNext(keys: seq<int>, nodes: set<nat>, x: nat, r: Option<nat>)
    requires x < |keys| && InRange(keys, nodes)
  {
    match r
    case None => forall n: nat :: n in nodes ==> !After(keys, x, n)
    case Some(n) => n in nodes && After(keys, x, n) && forall m: nat :: m in nodes && After(keys, x, m) ==> keys[n] <= keys[m]
  }

  ghost predicate Sizes(keys: seq<int>, next: Links, linked: seq<set<nat>>) {
    |keys| == |next| && |keys| >= 1 && |next[HEAD]| == MAX_HEIGHT && |linked| == MAX_HEIGHT
    && (forall n: nat :: 0 < n < |keys| ==> 1 <= |next[n]| <= MAX_HEIGHT)
    && (forall n: nat, m: nat :: 0 < n < m < |keys| ==> keys[n] != keys[m])
    && (forall l: nat :: l < MAX_HEIGHT ==> InRange(keys, linked[l]))
    && forall l: nat, n: nat :: l < MAX_HEIGHT && n in linked[l] ==> l < |next[n]|
  }

  // linked[l] are the nodes on level l.  Each level is part of the one below, and following its links
  // from the head visits its nodes in ascending order of keys.
  ghost predicate Shape(keys: seq<int>, next: Links, linked: seq<set<nat>>) {
    Sizes(keys, next, linked)
    && (forall l :: 0 < l < MAX_HEIGHT ==> linked[l] <= linked[l - 1])
    && forall l: nat, x: nat :: l < MAX_HEIGHT && (x == HEAD || x in linked[l]) ==> IsNext(keys, linked[l], x, next[x][l])
  }

  // ---- Walking ----

  datatype Goal = GreaterOrEqual(target: int) | LessThan(target: int) | Last

  // Whether a search goes on to the node it has loaded.
  predicate Passes(goal: Goal, key: int) {
    goal.Last? || key < goal.target
  }

  // A search under way: at node x, about to load its link at `level`.
  datatype Search = Search(goal: Goal, x: nat, level: nat)

  // What a search knows while it runs: its node is on its level, and the search passes it.
  ghost predicate SearchOk(s: Search, keys: seq<int>, linked: seq<set<nat>>)
    requires |linked| == MAX_HEIGHT
  {
    s.level < MAX_HEIGHT && s.x < |keys| && (s.x == HEAD || (s.x in linked[s.level] && Passes(s.goal, keys[s.x])))
  }

  // The outcome of a load: step along the level, drop a level, or finish.
  datatype Outcome = Continue(s: Search) | Found(node: Option<nat>)

  function Load(s: Search, keys: seq<int>, next: Links): Outcome
    requires s.x < |next| && s.level < |next[s.x]|
    requires next[s.x][s.level].Some? ==> next[s.x][s.level].value < |keys|
  {
    var n := next[s.x][s.level];
    if n.Some? && Passes(s.goal, keys[n.value]) then Continue(s.(x := n.value))
    else if s.level > 0 then Continue(s.(level := s.level - 1))
    else Found(if s.goal.GreaterOrEqual? then n else if s.x == HEAD then None else Some(s.x))
  }

  // What a finished search returns, told by the keys on level 0.
  ghost predicate Answer(goal: Goal, keys: seq<int>, nodes: set<nat>, r: Option<nat>)
    requires InRange(keys, nodes)
  {
    match r
    case Some(n) =>
      n in nodes
      && (if goal.GreaterOrEqual? then keys[n] >= goal.target && forall m: nat :: m in nodes && keys[m] >= goal.target ==> keys[n] <= keys[m]
          else Passes(goal, keys[n]) && forall m: nat :: m in nodes && Passes(goal, keys[m]) ==> keys[m] <= keys[n])
    case None =>
      forall m: nat :: m in nodes ==> if goal.GreaterOrEqual? then keys[m] < goal.target else !Passes(goal, keys[m])
  }

  // A load goes on to the next node of the level, or down where the level has no more nodes to pass.
  ghost predicate Moves(s: Search, s': Search, keys: seq<int>, linked: seq<set<nat>>)
    requires |linked| == MAX_HEIGHT && SearchOk(s, keys, linked) && InRange(keys, linked[s.level])
  {
    s'.goal == s.goal
    && if s'.level == s.level then IsNext(keys, linked[s.level], s.x, Some(s'.x)) && Passes(s.goal, keys[s'.x])
       else s'.level == s.level - 1 && s'.x == s.x
            && forall n: nat :: n in linked[s.level] && After(keys, s.x, n) ==> !Passes(s.goal, keys[n])
  }

  // A load never leaves the nodes of its level, and a search that finishes has the answer as of that load.
  lemma LoadIsRight(s: Search, keys: seq<int>, next: Links, linked: seq<set<nat>>)
    requires Shape(keys, next, linked) && SearchOk(s, keys, linked)
    ensures s.level < |next[s.x]| && (next[s.x][s.level].Some? ==> next[s.x][s.level].value < |keys|)
    ensures InRange(keys, linked[0])
    ensures match Load(s, keys, next)
            case Continue(s') => SearchOk(s', keys, linked) && Moves(s, s', keys, linked)
            case Found(r) => s.level == 0 && Answer(s.goal, keys, linked[0], r)
  {
    assert IsNext(keys, linked[s.level], s.x, next[s.x][s.level]);
  }

  // A search survives whatever a writer links meanwhile.
  lemma SearchSurvives(s: Search, keys: seq<int>, linked: seq<set<nat>>, keys': seq<int>, linked': seq<set<nat>>)
    requires |linked| == |linked'| == MAX_HEIGHT && SearchOk(s, keys, linked) && keys <= keys'
    requires forall l :: 0 <= l < MAX_HEIGHT ==> linked[l] <= linked'[l]
    ensures SearchOk(s, keys', linked')
  {}

  // A key that was in the list when the search began is not skipped.
  lemma NothingSkipped(goal: Goal, keys: seq<int>, nodes: set<nat>, r: Option<nat>, n: nat)
    requires InRange(keys, nodes) && Answer(goal, keys, nodes, r)
    requires n in nodes && goal.GreaterOrEqual? && keys[n] >= goal.target
    ensures r.Some? && goal.target <= keys[r.value] <= keys[n]
  {}

  // Every level is part of level 0.
  lemma {:induction false} LevelsNest(keys: seq<int>, next: Links, linked: seq<set<nat>>, l: nat)
    requires Shape(keys, next, linked) && l < MAX_HEIGHT
    ensures linked[l] <= linked[0]
  {
    if l > 0 {
      LevelsNest(keys, next, linked, l - 1);
    }
  }

  // ---- Linking ----

  // p is the last node of the level before x.
  ghost predicate IsPrev(keys: seq<int>, nodes: set<nat>, p: nat, x: nat)
    requires x < |keys| && p < |keys| && InRange(keys, nodes)
  {
    (p == HEAD || p in nodes) && After(keys, p, x) && forall m: nat :: m in nodes && After(keys, p, m) ==> keys[x] < keys[m]
  }

  // Publishing x after p on a level keeps the shape.
  lemma PublishKeepsShape(keys: seq<int>, next: Links, linked: seq<set<nat>>, l: nat, p: nat, x: nat)
    requires Shape(keys, next, linked) && l < MAX_HEIGHT && 0 < x < |keys| && l < |next[x]| && p < |keys| && p != x
    requires InRange(keys, linked[l]) && x !in linked[l] && (l > 0 ==> x in linked[l - 1]) && IsPrev(keys, linked[l], p, x)
    requires forall j :: l < j < MAX_HEIGHT ==> x !in linked[j]
    requires next[x][l] == next[p][l]
    ensures Shape(keys, next[p := next[p][l := Some(x)]], linked[l := linked[l] + {x}])
  {
    assert p == HEAD || p in linked[l] by { PrevIsThere(keys, linked[l], p, x); }
    hide IsNext, IsPrev, After;
    var next', linked' := next[p := next[p][l := Some(x)]], linked[l := linked[l] + {x}];
    assert Sizes(keys, next', linked');
    forall j: nat, y: nat | j < MAX_HEIGHT && (y == HEAD || y in linked'[j])
      ensures IsNext(keys, linked'[j], y, next'[y][j])
    {
      if j == l {
        assert IsNext(keys, linked[l], p, next[p][l]);
        assert y != x ==> IsNext(keys, linked[l], y, next[y][l]);
        PublishedNext(keys, linked[l], p, x, next[p][l], y, next[y][l]);
      } else {
        assert IsNext(keys, linked[j], y, next[y][j]);
      }
    }
  }

  lemma PrevIsThere(keys: seq<int>, nodes: set<nat>, p: nat, x: nat)
    requires x < |keys| && p < |keys| && InRange(keys, nodes) && IsPrev(keys, nodes, p, x)
    ensures p == HEAD || p in nodes
  {}

  // On its own level: x follows p, what followed p follows x, all else is as before.
  lemma PublishedNext(keys: seq<int>, nodes: set<nat>, p: nat, x: nat, r: Option<nat>, y: nat, ry: Option<nat>)
    requires x < |keys| && p < |keys| && y < |keys| && InRange(keys, nodes) && 0 < x && p != x && x !in nodes
    requires forall n: nat, m: nat :: 0 < n < m < |keys| ==> keys[n] != keys[m]
    requires IsPrev(keys, nodes, p, x) && IsNext(keys, nodes, p, r) && (y == HEAD || y in nodes || y == x)
    requires y != x ==> IsNext(keys, nodes, y, ry)
    requires y == x ==> ry == r
    ensures IsNext(keys, nodes + {x}, y, if y == p then Some(x) else ry)
  {
    assert y != HEAD && y != p && p != HEAD ==> keys[y] != keys[p];
    assert y != HEAD && y != x ==> keys[y] != keys[x];
  }

  // A node nothing points to changes no level.
  lemma NewNodeKeepsShape(keys: seq<int>, next: Links, linked: seq<set<nat>>, key: int, height: nat)
    requires Shape(keys, next, linked) && 1 <= height <= MAX_HEIGHT && forall n: nat :: 0 < n < |keys| ==> keys[n] != key
    ensures Shape(keys + [key], next + [seq(height, _ => None)], linked)
  {
    var keys', next' := keys + [key], next + [seq(height, _ => None)];
    assert Sizes(keys', next', linked);
    forall j: nat, y: nat | j < MAX_HEIGHT && (y == HEAD || y in linked[j])
      ensures IsNext(keys', linked[j], y, next'[y][j])
    {
      assert IsNext(keys, linked[j], y, next[y][j]);
    }
  }

  // Nor does a link of a node that is not on its level.
  lemma OwnNextKeepsShape(keys: seq<int>, next: Links, linked: seq<set<nat>>, x: nat, l: nat, r: Option<nat>)
    requires Shape(keys, next, linked) && 0 < x < |keys| && l < MAX_HEIGHT && l < |next[x]| && x !in linked[l]
    ensures Shape(keys, next[x := next[x][l := r]], linked)
  {
    hide IsNext;
    var next' := next[x := next[x][l := r]];
    forall j: nat, y: nat | j < MAX_HEIGHT && (y == HEAD || y in linked[j])
      ensures IsNext(keys, linked[j], y, next'[y][j])
    {
      assert IsNext(keys, linked[j], y, next[y][j]);
    }
  }

  // ---- The list, its writer and its readers ----

  // An insertion under way: the node, its predecessors, the level it is to be linked on next, and
  // whether its own link on that level is set already.
  datatype Insertion = Insertion(node: nat, prev: seq<nat>, level: nat, linkSet: bool)

  ghost predicate InsertionOk(w: Insertion, keys: seq<int>, next: Links, linked: seq<set<nat>>)
    requires Sizes(keys, next, linked)
  {
    0 < w.node < |keys| && w.level < |next[w.node]| && |w.prev| == |next[w.node]|
    && (forall l: nat :: l < MAX_HEIGHT ==> (w.node in linked[l] <==> l < w.level))
    && (forall l: nat :: w.level <= l < |w.prev| ==>
          w.prev[l] < |keys| && w.prev[l] != w.node && l < |next[w.prev[l]]| && IsPrev(keys, linked[l], w.prev[l], w.node))
    && (w.linkSet ==> next[w.node][w.level] == next[w.prev[w.level]][w.level])
  }

  // A reader: its search, or what it found.
  datatype Reader = Reader(state: Outcome, goal: Goal)

  // The keys in the list: those linked on level 0.
  ghost function KeysOf(keys: seq<int>, nodes: set<nat>): set<int>
    requires InRange(keys, nodes)
  {
    set n: nat | n in nodes :: keys[n]
  }

  ghost predicate ListShape(keys: seq<int>, next: Links, maxHeight: nat, insertion: Option<Insertion>, linked: seq<set<nat>>) {
    Shape(keys, next, linked) && 1 <= maxHeight <= MAX_HEIGHT
    && (forall l: nat :: maxHeight <= l < MAX_HEIGHT ==> linked[l] == {})
    && match insertion
       case None => forall n: nat :: 0 < n < |keys| ==> n in linked[0]
       case Some(w) =>
         InsertionOk(w, keys, next, linked) && |w.prev| <= maxHeight
         && forall n: nat :: 0 < n < |keys| && n != w.node ==> n in linked[0]
  }

  ghost predicate ReaderOk(r: Reader, present: set<int>, keys: seq<int>, linked: seq<set<nat>>)
    requires |linked| == MAX_HEIGHT && InRange(keys, linked[0])
  {
    present <= KeysOf(keys, linked[0])
    && match r.state
       case Continue(s) => SearchOk(s, keys, linked) && s.goal == r.goal
       case Found(Some(n)) =>
         n in linked[0]
         && if r.goal.GreaterOrEqual? then keys[n] >= r.goal.target && forall k :: k in present && k >= r.goal.target ==> keys[n] <= k
            else Passes(r.goal, keys[n]) && forall k :: k in present && Passes(r.goal, k) ==> k <= keys[n]
       case Found(None) =>
         forall k :: k in present ==> if r.goal.GreaterOrEqual? then k < r.goal.target else !Passes(r.goal, k)
  }

  ghost predicate ReadersOk(readers: map<nat, Reader>, present: map<nat, set<int>>, keys: seq<int>, linked: seq<set<nat>>)
    requires |linked| == MAX_HEIGHT && InRange(keys, linked[0])
  {
    readers.Keys == present.Keys && forall id :: id in readers ==> ReaderOk(readers[id], present[id], keys, linked)
  }

  // Whatever the writer adds, readers under way stay right, and so do answers already given.
  lemma ReadersSurvive(readers: map<nat, Reader>, present: map<nat, set<int>>, keys: seq<int>, linked: seq<set<nat>>,
                       keys': seq<int>, linked': seq<set<nat>>)
    requires |linked| == |linked'| == MAX_HEIGHT && InRange(keys, linked[0]) && InRange(keys', linked'[0])
    requires ReadersOk(readers, present, keys, linked) && keys <= keys'
    requires forall l :: 0 <= l < MAX_HEIGHT ==> linked[l] <= linked'[l]
    ensures ReadersOk(readers, present, keys', linked')
  {
    forall id | id in readers
      ensures ReaderOk(readers[id], present[id], keys', linked')
    {
      var r := readers[id];
      assert ReaderOk(r, present[id], keys, linked);
      assert forall k :: k in KeysOf(keys, linked[0]) ==> k in KeysOf(keys', linked'[0]);
      if r.state.Continue? {
        SearchSurvives(r.state.s, keys, linked, keys', linked');
      }
    }
  }

  // An answer as of the last load covers all that was there when the search began.
  lemma AnswerCoversPresent(goal: Goal, present: set<int>, keys: seq<int>, linked: seq<set<nat>>, r: Option<nat>)
    requires |linked| == MAX_HEIGHT && InRange(keys, linked[0])
    requires Answer(goal, keys, linked[0], r) && present <= KeysOf(keys, linked[0])
    ensures ReaderOk(Reader(Found(r), goal), present, keys, linked)
  {
    forall k | k in present
      ensures exists n: nat :: n in linked[0] && keys[n] == k
    {
      assert k in KeysOf(keys, linked[0]);
    }
  }

  // p is the last node before the key on level l.
  ghost predicate PrevOfKey(keys: seq<int>, linked: seq<set<nat>>, key: int, l: nat, p: nat)
    requires |linked| == MAX_HEIGHT && l < MAX_HEIGHT && InRange(keys, linked[l])
  {
    p < |keys| && (p == HEAD || (p in linked[l] && keys[p] < key))
    && forall m: nat :: m in linked[l] && After(keys, p, m) ==> key < keys[m]
  }

  // Starting an insertion.
  lemma BeginKeepsShape(keys: seq<int>, next: Links, linked: seq<set<nat>>, maxHeight: nat, maxHeight': nat, key: int, prev: seq<nat>)
    requires ListShape(keys, next, maxHeight, None, linked) && forall n: nat :: n in linked[0] ==> keys[n] != key
    requires 1 <= |prev| <= maxHeight' <= MAX_HEIGHT && maxHeight <= maxHeight'
    requires forall l: nat :: l < |prev| ==> PrevOfKey(keys, linked, key, l, prev[l])
    ensures ListShape(keys + [key], next + [seq(|prev|, _ => None)], maxHeight', Some(Insertion(|keys|, prev, 0, false)), linked)
  {
    hide IsNext;
    var keys', next', x := keys + [key], next + [seq(|prev|, _ => None)], |keys|;
    NewNodeKeepsShape(keys, next, linked, key, |prev|);
    forall l: nat | l < |prev|
      ensures prev[l] < |keys'| && prev[l] != x && l < |next'[prev[l]]| && IsPrev(keys', linked[l], prev[l], x)
    {
      assert PrevOfKey(keys, linked, key, l, prev[l]);
      assert InRange(keys, linked[l]);
    }
  }

  // Finishing a level.
  lemma PublishKeepsList(keys: seq<int>, next: Links, linked: seq<set<nat>>, maxHeight: nat, w: Insertion)
    requires ListShape(keys, next, maxHeight, Some(w), linked) && w.linkSet
    ensures var p := w.prev[w.level];
            ListShape(keys, next[p := next[p][w.level := Some(w.node)]], maxHeight,
                      if w.level + 1 < |w.prev| then Some(w.(level := w.level + 1, linkSet := false)) else None,
                      linked[w.level := linked[w.level] + {w.node}])
  {
    hide IsNext, IsPrev;
    var p := w.prev[w.level];
    PublishKeepsShape(keys, next, linked, w.level, p, w.node);
  }

  class SkipList {
    var keys: seq<int>
    var next: Links
    var maxHeight: nat
    var insertion: Option<Insertion>
    var readers: map<nat, Reader>
    ghost var linked: seq<set<nat>>

    // The keys that were in the list when each reader began.
    ghost var present: map<nat, set<int>>

    ghost function Contents(): set<int>
      reads this
      requires |linked| == MAX_HEIGHT && InRange(keys, linked[0])
    {
      KeysOf(keys, linked[0])
    }

    ghost predicate ListOk()
      reads this
    {
      ListShape(keys, next, maxHeight, insertion, linked)
    }

    ghost predicate Valid()
      reads this
    {
      ListOk() && ReadersOk(readers, present, keys, linked)
    }

    constructor ()
      ensures Valid() && Contents() == {} && readers == map[] && insertion == None
    {
      keys, maxHeight, insertion, readers := [0], 1, None, map[];
      next := [seq(MAX_HEIGHT, _ => None)];
      linked, present := seq(MAX_HEIGHT, _ => {}), map[];
    }

    // ---- The writer ----

    // FindGreaterOrEqual as the writer runs it: nothing changes under it.  prev gets the last node before
    // the key on every level.
    method FindGreaterOrEqual(key: int) returns (r: Option<nat>, prev: seq<nat>)
      requires ListOk() && forall n: nat :: n in linked[0] ==> keys[n] != key
      ensures Answer(GreaterOrEqual(key), keys, linked[0], r)
      ensures |prev| == maxHeight
      ensures forall l: nat :: l < |prev| ==> PrevOfKey(keys, linked, key, l, prev[l])
    {
      var x: nat, level: nat := HEAD, maxHeight - 1;
      prev := seq(maxHeight, _ => HEAD);
      while true
        invariant 0 <= level < maxHeight && |prev| == maxHeight
        invariant SearchOk(Search(GreaterOrEqual(key), x, level as nat), keys, linked)
        invariant forall l: nat :: level < l < maxHeight ==> PrevOfKey(keys, linked, key, l, prev[l])
        decreases level, |set n: nat | n in linked[0] && After(keys, x, n)|
      {
        ghost var s := Search(GreaterOrEqual(key), x, level);
        LoadIsRight(s, keys, next, linked);
        var n := next[x][level];
        if n.Some? && keys[n.value] < key {
          Further(x, level, n.value);
          x := n.value;
        } else {
          prev := prev[level := x];
          if level == 0 {
            return n, prev;
          }
          level := level - 1;
        }
      }
    }

    lemma Further(x: nat, level: nat, n: nat)
      requires ListOk() && level < MAX_HEIGHT && (x == HEAD || x in linked[level]) && next[x][level] == Some(n)
      ensures |set m: nat | m in linked[0] && After(keys, n, m)| < |set m: nat | m in linked[0] && After(keys, x, m)|
    {
      LevelsNest(keys, next, linked, level);
      assert IsNext(keys, linked[level], x, next[x][level]);
      var a, b := set m: nat | m in linked[0] && After(keys, n, m), set m: nat | m in linked[0] && After(keys, x, m);
      assert n in b && a <= b - {n};
      Sets.SubsetSize(a, b - {n});
    }

    // Insert, up to its first visible store: search, pick a height, raise the height of the list, and
    // allocate a node that nothing points to yet.
    method BeginInsert(key: int, height: nat)
      requires Valid() && insertion == None && key !in Contents() && 1 <= height <= MAX_HEIGHT
      modifies this
      ensures Valid() && Contents() == old(Contents()) && readers == old(readers)
      ensures insertion.Some? && keys == old(keys) + [key] && insertion.value.node == |old(keys)|
      ensures |insertion.value.prev| == height && insertion.value.level == 0
    {
      hide ListShape, ReadersOk, PrevOfKey;
      NotInList(key);
      var r, prev := FindGreaterOrEqual(key);
      ghost var oldHeight, found := maxHeight, prev;
      if height > maxHeight {
        prev := prev + seq(height - maxHeight, _ => HEAD);
        maxHeight := height;
      } else {
        prev := prev[..height];
      }
      HigherPrevs(keys, next, linked, oldHeight, key, found, prev);
      BeginKeepsShape(keys, next, linked, oldHeight, maxHeight, key, prev);
      ReadersSurvive(readers, present, keys, linked, keys + [key], linked);
      keys := keys + [key];
      next := next + [seq(height, _ => None)];
      insertion := Some(Insertion(|keys| - 1, prev, 0, false));
    }

    lemma NotInList(key: int)
      requires ListOk() && key !in Contents()
      ensures forall n: nat :: n in linked[0] ==> keys[n] != key
      ensures 1 <= maxHeight <= MAX_HEIGHT && |linked| == MAX_HEIGHT && forall l: nat :: l < MAX_HEIGHT ==> InRange(keys, linked[l])
    {
      assert forall n: nat :: n in linked[0] ==> keys[n] in Contents();
    }

    // Above the height of the list the head is the last node before any key.
    static lemma HigherPrevs(keys: seq<int>, next: Links, linked: seq<set<nat>>, maxHeight: nat, key: int, found: seq<nat>, prev: seq<nat>)
      requires ListShape(keys, next, maxHeight, None, linked) && |found| == maxHeight && |prev| <= MAX_HEIGHT
      requires forall l: nat :: l < |found| ==> PrevOfKey(keys, linked, key, l, found[l])
      requires forall l: nat :: l < |prev| ==> prev[l] == if l < maxHeight then found[l] else HEAD
      ensures forall l: nat :: l < |prev| ==> PrevOfKey(keys, linked, key, l, prev[l])
    {
      hide IsNext;
    }

    // The new node's link on this level becomes its predecessor's.
    method SetOwnNext()
      requires Valid() && insertion.Some? && !insertion.value.linkSet
      modifies this`next, this`insertion
      ensures Valid() && Contents() == old(Contents())
      ensures insertion == Some(old(insertion).value.(linkSet := true))
      ensures var w := old(insertion).value;
              w.level < |w.prev| && w.prev[w.level] < |old(next)| && w.level < |old(next)[w.prev[w.level]]| && w.node < |old(next)|
              && w.level < |old(next)[w.node]|
              && next == old(next)[w.node := old(next)[w.node][w.level := old(next)[w.prev[w.level]][w.level]]]
    {
      var w := insertion.value;
      var r := next[w.prev[w.level]][w.level];
      OwnNextKeepsShape(keys, next, linked, w.node, w.level, r);
      next := next[w.node := next[w.node][w.level := r]];
      insertion := Some(w.(linkSet := true));
    }

    // prev[i]->SetNext(i, x): from here on readers of level i meet the node.
    method Publish()
      requires Valid() && insertion.Some? && insertion.value.linkSet
      modifies this`next, this`insertion, this`linked
      ensures Valid()
      ensures var w := old(insertion).value;
              Contents() == old(Contents()) + {keys[w.node]}
              && insertion == (if w.level + 1 < |w.prev| then Some(w.(level := w.level + 1, linkSet := false)) else None)
    {
      hide ListShape, ReadersOk, IsPrev;
      var w := insertion.value;
      InsertionServes();
      PublishKeepsList(keys, next, linked, maxHeight, w);
      PublishedKeys(keys, linked, w.level, w.node);
      ReadersSurvive(readers, present, keys, linked, keys, linked[w.level := linked[w.level] + {w.node}]);
      next := next[w.prev[w.level] := next[w.prev[w.level]][w.level := Some(w.node)]];
      linked := linked[w.level := linked[w.level] + {w.node}];
      insertion := if w.level + 1 < |w.prev| then Some(w.(level := w.level + 1, linkSet := false)) else None;
    }

    lemma InsertionServes()
      requires ListOk() && insertion.Some?
      ensures InsertionOk(insertion.value, keys, next, linked) && Sizes(keys, next, linked)
      ensures insertion.value.level < MAX_HEIGHT
    {}

    static lemma PublishedKeys(keys: seq<int>, linked: seq<set<nat>>, l: nat, x: nat)
      requires |linked| == MAX_HEIGHT && l < MAX_HEIGHT && InRange(keys, linked[0]) && InRange(keys, linked[l]) && 0 < x < |keys|
      requires l > 0 ==> x in linked[0]
      ensures var linked' := linked[l := linked[l] + {x}];
              InRange(keys, linked'[0]) && KeysOf(keys, linked'[0]) == KeysOf(keys, linked[0]) + {keys[x]}
    {
      var linked' := linked[l := linked[l] + {x}];
      assert linked'[0] == linked[0] + {x};
    }

    // ---- Readers ----

    // A reader starts at the head, from any height the list has or ever had.
    method BeginSearch(id: nat, goal: Goal, height: nat)
      requires Valid() && 1 <= height <= maxHeight
      modifies this`readers, this`present
      ensures Valid() && readers == old(readers)[id := Reader(Continue(Search(goal, HEAD, height - 1)), goal)]
      ensures present == old(present)[id := Contents()]
    {
      readers := readers[id := Reader(Continue(Search(goal, HEAD, height - 1)), goal)];
      present := present[id := Contents()];
    }

    // One load.  It never reads a link of a node above its height, nor one that is not published.
    method StepSearch(id: nat)
      requires Valid() && id in readers && readers[id].state.Continue?
      modifies this`readers
      ensures Valid() && readers.Keys == old(readers).Keys
      ensures forall i :: i in readers && i != id ==> readers[i] == old(readers)[i]
      ensures readers[id].goal == old(readers)[id].goal
      ensures match readers[id].state
              case Continue(s) => Moves(old(readers)[id].state.s, s, keys, linked)
              case Found(r) => Answer(readers[id].goal, keys, linked[0], r)
    {
      var r := readers[id];
      hide IsNext;
      assert ReaderOk(r, present[id], keys, linked);
      LoadIsRight(r.state.s, keys, next, linked);
      var state := Load(r.state.s, keys, next);
      if state.Found? {
        AnswerCoversPresent(r.goal, present[id], keys, linked, state.node);
      }
      readers := readers[id := r.(state := state)];
    }

    // Iterator::Next: the node after a node of the list, as of this load.
    method NextNode(n: nat) returns (r: Option<nat>)
      requires Valid() && (n == HEAD || n in linked[0])
      ensures IsNext(keys, linked[0], n, r)
    {
      assert IsNext(keys, linked[0], n, next[n][0]);
      r := next[n][0];
    }
  }
}
