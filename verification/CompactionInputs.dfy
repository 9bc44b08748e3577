/** Choosing what to compact: overlapping files, the level of a flushed memtable, the two input sets. */
module CompactionInputs {
  import opened Wrappers
  import opened DbFormat
  import opened Versions
  import opened VersionBuilder
  import Sets

  // ---- Ranges of user keys ----

  // f lies within [lo, hi].
  predicate Inside(f: File, lo: Option<int>, hi: Option<int>) {
    (lo.None? || lo.value <= f.smallest.key) && (hi.None? || f.largest.key <= hi.value)
  }

  // [lo2, hi2] contains [lo1, hi1].
  predicate Wider(lo2: Option<int>, hi2: Option<int>, lo1: Option<int>, hi1: Option<int>) {
    (lo2.None? || (lo1.Some? && lo2.value <= lo1.value)) && (hi2.None? || (hi1.Some? && hi1.value <= hi2.value))
  }

  // No file of the list sticks out of the range it meets.
  ghost predicate Closed(files: seq<File>, lo: Option<int>, hi: Option<int>) {
    forall f :: f in files && Meets(f, lo, hi) ==> Inside(f, lo, hi)
  }

  // The files that meet a range, in their order.
  function Overlapping(files: seq<File>, lo: Option<int>, hi: Option<int>): (r: seq<File>)
    ensures forall f :: f in r <==> f in files && Meets(f, lo, hi)
  {
    if files == [] then []
    else
      var front := Overlapping(files[..|files| - 1], lo, hi);
      var f := files[|files| - 1];
      assert files == files[..|files| - 1] + [f];
      if Meets(f, lo, hi) then front + [f] else front
  }

  lemma {:induction false} OverlappingOrdered(files: seq<File>, lo: Option<int>, hi: Option<int>)
    requires Ordered(files)
    ensures Ordered(Overlapping(files, lo, hi))
  {
    if files != [] {
      var front := files[..|files| - 1];
      OverlappingOrdered(front, lo, hi);
      var rest, f := Overlapping(front, lo, hi), files[|files| - 1];
      forall i | 0 <= i < |rest|
        ensures Before(rest[i], f)
      {
        assert rest[i] in front;
        var j: nat :| j < |front| && front[j] == rest[i];
      }
    }
  }

  lemma OverlappingNext(files: seq<File>, i: nat, lo: Option<int>, hi: Option<int>)
    requires i < |files|
    ensures Overlapping(files[..i + 1], lo, hi)
         == Overlapping(files[..i], lo, hi) + (if Meets(files[i], lo, hi) then [files[i]] else [])
    ensures forall f :: f in files[..i + 1] <==> f in files[..i] || f == files[i]
  {
    assert files[..i + 1] == files[..i] + [files[i]];
    assert files[..i + 1][..i] == files[..i];
  }

  // How many files stick out of the range on either side: what each restart reduces.
  ghost function Outside(files: seq<File>, lo: Option<int>, hi: Option<int>): nat {
    |set j | 0 <= j < |files| && lo.Some? && files[j].smallest.key < lo.value|
    + |set j | 0 <= j < |files| && hi.Some? && files[j].largest.key > hi.value|
  }

  lemma OutsideShrinks(files: seq<File>, i: nat, lo: Option<int>, hi: Option<int>, lo': Option<int>, hi': Option<int>)
    requires i < |files|
    requires (lo.Some? && files[i].smallest.key < lo.value && lo' == Some(files[i].smallest.key) && hi' == hi)
          || (hi.Some? && files[i].largest.key > hi.value && hi' == Some(files[i].largest.key) && lo' == lo)
    ensures Outside(files, lo', hi') < Outside(files, lo, hi)
  {
    var below := set j | 0 <= j < |files| && lo.Some? && files[j].smallest.key < lo.value;
    var above := set j | 0 <= j < |files| && hi.Some? && files[j].largest.key > hi.value;
    if lo' != lo {
      var below' := set j | 0 <= j < |files| && lo'.Some? && files[j].smallest.key < lo'.value;
      assert below' <= below - {i} && i in below;
      Sets.SubsetSize(below', below - {i});
    } else {
      var above' := set j | 0 <= j < |files| && hi'.Some? && files[j].largest.key > hi'.value;
      assert above' <= above - {i} && i in above;
      Sets.SubsetSize(above', above - {i});
    }
  }

  // A closed range that contains [lo, hi] contains every file [lo, hi] meets.
  lemma ClosedTakesIn(files: seq<File>, f: File, lo: Option<int>, hi: Option<int>, begin: Option<int>, end: Option<int>)
    requires f in files && Meets(f, lo, hi)
    requires forall x, y :: Closed(files, x, y) && Wider(x, y, begin, end) ==> Wider(x, y, lo, hi)
    ensures forall x, y :: Closed(files, x, y) && Wider(x, y, begin, end) ==>
              Wider(x, y, lo, hi) && Inside(f, x, y)
  {
    forall x, y | Closed(files, x, y) && Wider(x, y, begin, end)
      ensures Wider(x, y, lo, hi) && Inside(f, x, y)
    {
      assert Meets(f, x, y);
    }
  }

  // Version::GetOverlappingInputs.  At level 0 the range grows to the ends of every file it meets and
  // the scan starts over.  What comes back is the files meeting the final range: the least range that
  // contains the one asked for and that no file sticks out of.  At other levels the range stays.
  method GetOverlappingInputs(level: nat, files: seq<File>, begin: Option<int>, end: Option<int>)
    returns (inputs: seq<File>, lo: Option<int>, hi: Option<int>)
    ensures inputs == Overlapping(files, lo, hi)
    ensures Wider(lo, hi, begin, end)
    ensures level != 0 ==> lo == begin && hi == end
    ensures level == 0 ==> Closed(files, lo, hi)
    ensures forall x, y :: Closed(files, x, y) && Wider(x, y, begin, end) ==> Wider(x, y, lo, hi)
  {
    inputs, lo, hi := [], begin, end;
    var i := 0;
    assert files[..0] == [];
    while i < |files|
      invariant i <= |files| && inputs == Overlapping(files[..i], lo, hi)
      invariant Wider(lo, hi, begin, end)
      invariant level != 0 ==> lo == begin && hi == end
      invariant level == 0 ==> Closed(files[..i], lo, hi)
      invariant forall x, y :: Closed(files, x, y) && Wider(x, y, begin, end) ==> Wider(x, y, lo, hi)
      decreases Outside(files, lo, hi), |files| - i
    {
      var f := files[i];
      OverlappingNext(files, i, lo, hi);
      i := i + 1;
      if lo.Some? && f.largest.key < lo.value {
      } else if hi.Some? && f.smallest.key > hi.value {
      } else {
        inputs := inputs + [f];
        ClosedTakesIn(files, f, lo, hi, begin, end);
        if level == 0 {
          if lo.Some? && f.smallest.key < lo.value {
            OutsideShrinks(files, i - 1, lo, hi, Some(f.smallest.key), hi);
            lo, inputs, i := Some(f.smallest.key), [], 0;
          } else if hi.Some? && f.largest.key > hi.value {
            OutsideShrinks(files, i - 1, lo, hi, lo, Some(f.largest.key));
            hi, inputs, i := Some(f.largest.key), [], 0;
          }
        }
      }
    }
    assert files[..|files|] == files;
  }

  // Every file left out of a closed selection shares no user key with any file in it.
  lemma LeftOutIsDisjoint(files: seq<File>, lo: Option<int>, hi: Option<int>, f: File, g: File)
    requires Closed(files, lo, hi)
    requires f in Overlapping(files, lo, hi) && g in files && g !in Overlapping(files, lo, hi)
    ensures g.largest.key < f.smallest.key || f.largest.key < g.smallest.key
  {}

  // ---- PickLevelForMemTableOutput ----

  function TotalFileSize(files: seq<File>): nat {
    if files == [] then 0 else files[0].size + TotalFileSize(files[1..])
  }

  // The bytes of some files are those of the one and of the other.
  lemma {:induction false} TotalIsSum(a: seq<File>, b: seq<File>)
    ensures TotalFileSize(a + b) == TotalFileSize(a) + TotalFileSize(b)
    ensures forall f: File :: TotalFileSize([f]) == f.size
  {
    forall f: File
      ensures TotalFileSize([f]) == f.size
    {
      assert [f][1..] == [];
    }
    if a == [] {
      assert a + b == b;
    } else {
      assert (a + b)[1..] == a[1..] + b;
      TotalIsSum(a[1..], b);
    }
  }

  ghost predicate SomeMeets(files: seq<File>, lo: int, hi: int) {
    exists f :: f in files && Meets(f, Some(lo), Some(hi))
  }

  // A table over [lo, hi] goes on down from a level when it meets nothing on the next one and not too many
  // bytes on the one after.
  ghost predicate GoesDown(v: Version, lo: int, hi: int, limit: nat, level: nat) {
    level < 2 && !SomeMeets(v[level + 1], lo, hi)
    && TotalFileSize(Overlapping(v[level + 2], Some(lo), Some(hi))) <= limit
  }

  // The level it comes to rest on: level 0 if it meets a file there, else as deep as it goes.
  ghost predicate RestsAt(v: Version, lo: int, hi: int, limit: nat, level: nat) {
    if SomeMeets(v[0], lo, hi) then level == 0
    else !GoesDown(v, lo, hi, limit, level) && forall l :: 0 <= l < level ==> GoesDown(v, lo, hi, limit, l)
  }

  // The level a flushed memtable over [lo, hi] goes to: no file at or above that level meets it, unless it
  // is level 0.
  method PickLevelForMemTableOutput(v: Version, lo: int, hi: int, maxGrandParentOverlapBytes: nat)
    returns (level: nat)
    requires VersionOk(v) && lo <= hi
    ensures RestsAt(v, lo, hi, maxGrandParentOverlapBytes, level) && level <= 2
    ensures level > 0 ==> forall l, f :: 0 <= l <= level && f in v[l] ==> !Meets(f, Some(lo), Some(hi))
  {
    level := 0;
    var overlaps0 := SomeFileOverlapsRange(false, v[0], Some(lo), Some(hi));
    if !overlaps0 {
      while level < MAX_MEM_COMPACT_LEVEL
        invariant level <= MAX_MEM_COMPACT_LEVEL
        invariant forall l :: 0 <= l < level ==> GoesDown(v, lo, hi, maxGrandParentOverlapBytes, l)
        invariant forall l, f :: 0 <= l <= level && f in v[l] ==> !Meets(f, Some(lo), Some(hi))
      {
        var overlaps := SomeFileOverlapsRange(true, v[level + 1], Some(lo), Some(hi));
        if overlaps {
          break;
        }
        if level + 2 < NUM_LEVELS {
          var grandparents, _, _ := GetOverlappingInputs(level + 2, v[level + 2], Some(lo), Some(hi));
          if TotalFileSize(grandparents) > maxGrandParentOverlapBytes {
            break;
          }
        }
        level := level + 1;
      }
    }
  }

  // ---- PickCompaction and SetupOtherInputs ----

  // The user-key span of some files.
  ghost predicate Spans(files: seq<File>, lo: int, hi: int) {
    (forall f :: f in files ==> lo <= f.smallest.key && f.largest.key <= hi)
    && (exists f :: f in files && f.smallest.key == lo)
    && (exists f :: f in files && f.largest.key == hi)
  }

  // VersionSet::GetRange, of which only the user keys are used below.
  method GetRange(inputs: seq<File>) returns (smallest: IKey, largest: IKey)
    requires inputs != []
    ensures Spans(inputs, smallest.key, largest.key)
  {
    smallest, largest := inputs[0].smallest, inputs[0].largest;
    var i := 1;
    while i < |inputs|
      invariant 1 <= i <= |inputs|
      invariant forall j :: 0 <= j < i ==> smallest.key <= inputs[j].smallest.key && inputs[j].largest.key <= largest.key
      invariant exists j :: 0 <= j < i && inputs[j].smallest == smallest
      invariant exists j :: 0 <= j < i && inputs[j].largest == largest
    {
      var f := inputs[i];
      if Less(f.smallest, smallest) {
        smallest := f.smallest;
      }
      if Less(largest, f.largest) {
        largest := f.largest;
      }
      i := i + 1;
    }
  }

  // What every choice of inputs satisfies: the files of level `level` are closed under overlap (when
  // they can overlap), and the files of the next level are all that meet them; both in order.
  ghost predicate InputsOk(v: Version, level: nat, inputs0: seq<File>, inputs1: seq<File>) {
    level + 1 < NUM_LEVELS && inputs0 != []
    && (forall f :: f in inputs0 ==> f in v[level])
    && (forall f :: f in inputs1 ==> f in v[level + 1])
    && Ordered(inputs0) && Ordered(inputs1)
    && (level == 0 ==> forall f, g :: f in inputs0 && g in v[0] && g !in inputs0 ==>
          g.largest.key < f.smallest.key || f.largest.key < g.smallest.key)
    && var next := v[level + 1];
       exists lo, hi :: TakesAllNext(next, inputs0, inputs1, lo, hi)
  }

  // inputs0 spans [lo, hi], and inputs1 are the files of the next level that meet it.
  ghost predicate TakesAllNext(next: seq<File>, inputs0: seq<File>, inputs1: seq<File>, lo: int, hi: int) {
    Spans(inputs0, lo, hi) && forall g :: g in inputs1 <==> g in next && Meets(g, Some(lo), Some(hi))
  }

  lemma InputsFromRanges(v: Version, level: nat, inputs0: seq<File>, inputs1: seq<File>, lo: int, hi: int)
    requires level + 1 < NUM_LEVELS && inputs0 != [] && Spans(inputs0, lo, hi)
    requires forall f :: f in inputs0 ==> f in v[level]
    requires level == 0 ==> forall f, g :: f in inputs0 && g in v[0] && g !in inputs0 ==>
               g.largest.key < f.smallest.key || f.largest.key < g.smallest.key
    requires inputs1 == Overlapping(v[level + 1], Some(lo), Some(hi)) && Ordered(inputs0) && Ordered(v[level + 1])
    ensures InputsOk(v, level, inputs0, inputs1)
  {
    OverlappingOrdered(v[level + 1], Some(lo), Some(hi));
    assert TakesAllNext(v[level + 1], inputs0, inputs1, lo, hi);
  }

  // `inputs` are the files that meet [lo, hi]; at level 0 those of the least closed range around it.
  ghost predicate Overlaps(level: nat, files: seq<File>, lo: int, hi: int, inputs: seq<File>) {
    exists lo', hi' ::
      inputs == Overlapping(files, lo', hi') && Wider(lo', hi', Some(lo), Some(hi))
      && (level != 0 ==> lo' == Some(lo) && hi' == Some(hi)) && (level == 0 ==> Closed(files, lo', hi'))
      && forall x, y :: Closed(files, x, y) && Wider(x, y, Some(lo), Some(hi)) ==> Wider(x, y, lo', hi')
  }

  // `inputs` are the files of `next` that meet the span of `files`.
  ghost predicate MeetsSpan(files: seq<File>, next: seq<File>, inputs: seq<File>) {
    exists lo, hi :: Spans(files, lo, hi) && Ordered(inputs) && forall f :: f in inputs <==> f in next && Meets(f, Some(lo), Some(hi))
  }

  // The files of the level that the span of both kinds of input meets.
  ghost predicate Grows(v: Version, level: nat, start: seq<File>, first1: seq<File>, expanded0: seq<File>)
    requires level < NUM_LEVELS
  {
    exists lo, hi :: Spans(start + first1, lo, hi) && Overlaps(level, v[level], lo, hi, expanded0)
  }

  // More files can be taken from the level, no more need be taken from the next one, and together they are
  // small enough.
  ghost predicate CanGrow(v: Version, level: nat, start: seq<File>, first1: seq<File>, expanded0: seq<File>, expanded1: seq<File>,
                          expandedLimit: nat)
    requires level + 1 < NUM_LEVELS
  {
    first1 != [] && Grows(v, level, start, first1, expanded0) && |expanded0| > |start|
    && TotalFileSize(first1) + TotalFileSize(expanded0) < expandedLimit
    && MeetsSpan(expanded0, v[level + 1], expanded1) && |expanded1| == |first1|
  }

  // The inputs are the start and what it meets on the next level; or, if they can grow, what they grow to.
  ghost predicate Chosen(v: Version, level: nat, start: seq<File>, expandedLimit: nat, inputs0: seq<File>, inputs1: seq<File>)
    requires level + 1 < NUM_LEVELS
  {
    exists first1 :: MeetsSpan(start, v[level + 1], first1) && ChosenFrom(v, level, start, first1, expandedLimit, inputs0, inputs1)
  }

  ghost predicate ChosenFrom(v: Version, level: nat, start: seq<File>, first1: seq<File>, expandedLimit: nat, inputs0: seq<File>,
                             inputs1: seq<File>)
    requires level + 1 < NUM_LEVELS
  {
    CanGrow(v, level, start, first1, inputs0, inputs1, expandedLimit)
    || (inputs0 == start && inputs1 == first1 && forall e0, e1 :: !CanGrow(v, level, start, first1, e0, e1, expandedLimit))
  }

  // The files two levels down that the span of all inputs meets.
  ghost predicate GrandparentsOf(v: Version, level: nat, inputs0: seq<File>, inputs1: seq<File>, grandparents: seq<File>) {
    if level + 2 < NUM_LEVELS then MeetsSpan(inputs0 + inputs1, v[level + 2], grandparents) else grandparents == []
  }

  // A span has one pair of ends, so what meets it is determined.
  lemma OneMeetsSpan(files: seq<File>, next: seq<File>, a: seq<File>, b: seq<File>)
    requires MeetsSpan(files, next, a) && MeetsSpan(files, next, b)
    ensures a == b
  {
    var lo, hi :| Spans(files, lo, hi) && Ordered(a) && forall f :: f in a <==> f in next && Meets(f, Some(lo), Some(hi));
    var lo', hi' :| Spans(files, lo', hi') && Ordered(b) && forall f :: f in b <==> f in next && Meets(f, Some(lo'), Some(hi'));
    OneSpan(files, lo, hi, lo', hi');
    hide Meets, Spans;
    assert FileSet(a) == FileSet(b);
    OrderedUnique(a, b);
  }

  lemma OneSpan(files: seq<File>, lo: int, hi: int, lo': int, hi': int)
    requires Spans(files, lo, hi) && Spans(files, lo', hi')
    ensures lo == lo' && hi == hi'
  {}

  lemma OneGrows(v: Version, level: nat, start: seq<File>, first1: seq<File>, a: seq<File>, b: seq<File>)
    requires level < NUM_LEVELS && Grows(v, level, start, first1, a) && Grows(v, level, start, first1, b)
    ensures a == b
  {
    var lo, hi :| Spans(start + first1, lo, hi) && Overlaps(level, v[level], lo, hi, a);
    var lo', hi' :| Spans(start + first1, lo', hi') && Overlaps(level, v[level], lo', hi', b);
    OneSpan(start + first1, lo, hi, lo', hi');
    hide Spans, Overlapping, Closed;
  }

  // Start from files of one level, closed under overlap if the level is 0; add the overlapping files
  // of the next level; then try to take more of the first level without taking more of the second.
  method SetupOtherInputs(v: Version, level: nat, start: seq<File>, expandedLimit: nat)
    returns (inputs0: seq<File>, inputs1: seq<File>, grandparents: seq<File>)
    requires VersionOk(v) && VersionOrdered(v) && level + 1 < NUM_LEVELS && start != [] && Ordered(start)
    requires forall f :: f in start ==> f in v[level]
    requires level == 0 ==> forall f, g :: f in start && g in v[0] && g !in start ==>
               g.largest.key < f.smallest.key || f.largest.key < g.smallest.key
    ensures InputsOk(v, level, inputs0, inputs1) && Chosen(v, level, start, expandedLimit, inputs0, inputs1)
    ensures GrandparentsOf(v, level, inputs0, inputs1, grandparents)
    ensures forall f :: f in start ==> f in inputs0
  {
    hide InputsOk, Overlapping, Ordered, Chosen, CanGrow, Grows, MeetsSpan, Spans, Overlaps, VersionOk, FileOk, TotalFileSize;
    inputs0 := start;
    var smallest, largest := GetRange(inputs0);
    var lo1, hi1;
    inputs1, lo1, hi1 := GetOverlappingInputs(level + 1, v[level + 1], Some(smallest.key), Some(largest.key));
    ghost var first1 := inputs1;
    ThatMeet(v, level + 1, start, first1, smallest.key, largest.key);
    InputsFromRanges(v, level, inputs0, inputs1, smallest.key, largest.key);
    var allStart, allLimit := GetRange(inputs0 + inputs1);
    ghost var grown := false;
    if inputs1 != [] {
      var expanded0, lo0, hi0 := GetOverlappingInputs(level, v[level], Some(allStart.key), Some(allLimit.key));
      GrowsTo(v, level, start, first1, expanded0, allStart.key, allLimit.key, lo0, hi0);
      if |expanded0| > |inputs0| && TotalFileSize(inputs1) + TotalFileSize(expanded0) < expandedLimit {
        var newStart, newLimit := GetRange(expanded0);
        var expanded1, lo2, hi2 := GetOverlappingInputs(level + 1, v[level + 1], Some(newStart.key), Some(newLimit.key));
        ThatMeet(v, level + 1, expanded0, expanded1, newStart.key, newLimit.key);
        if |expanded1| == |inputs1| {
          OverlappingOrdered(v[level], lo0, hi0);
          StartIsExpanded(v, level, start, inputs1, expanded0, allStart.key, allLimit.key, lo0, hi0);
          InputsFromRanges(v, level, expanded0, expanded1, newStart.key, newLimit.key);
          inputs0, inputs1 := expanded0, expanded1;
          allStart, allLimit := GetRange(inputs0 + inputs1);
          grown := true;
        }
        Decides(v, level, start, first1, expanded0, expanded1, expandedLimit);
      } else {
        StaysSmall(v, level, start, first1, expanded0, expandedLimit);
      }
    } else {
      NothingToGrow(v, level, start, expandedLimit);
    }
    assert Chosen(v, level, start, expandedLimit, inputs0, inputs1) by {
      IsChosen(v, level, start, expandedLimit, first1, inputs0, inputs1, grown);
    }
    grandparents := [];
    if level + 2 < NUM_LEVELS {
      var lo3, hi3;
      grandparents, lo3, hi3 := GetOverlappingInputs(level + 2, v[level + 2], Some(allStart.key), Some(allLimit.key));
      ThatMeet(v, level + 2, inputs0 + inputs1, grandparents, allStart.key, allLimit.key);
    }
  }

  lemma ThatMeet(v: Version, level: nat, files: seq<File>, r: seq<File>, lo: int, hi: int)
    requires VersionOrdered(v) && level < NUM_LEVELS && Spans(files, lo, hi) && r == Overlapping(v[level], Some(lo), Some(hi))
    ensures MeetsSpan(files, v[level], r)
  {
    hide Ordered, Spans, Meets;
    OverlappingOrdered(v[level], Some(lo), Some(hi));
  }

  lemma GrowsTo(v: Version, level: nat, start: seq<File>, first1: seq<File>, expanded0: seq<File>, lo: int, hi: int,
                lo0: Option<int>, hi0: Option<int>)
    requires level < NUM_LEVELS && Spans(start + first1, lo, hi)
    requires expanded0 == Overlapping(v[level], lo0, hi0) && Wider(lo0, hi0, Some(lo), Some(hi))
    requires (level != 0 ==> lo0 == Some(lo) && hi0 == Some(hi)) && (level == 0 ==> Closed(v[level], lo0, hi0))
    requires forall x, y :: Closed(v[level], x, y) && Wider(x, y, Some(lo), Some(hi)) ==> Wider(x, y, lo0, hi0)
    ensures Grows(v, level, start, first1, expanded0)
  {
    hide Spans, Overlapping, Closed;
    assert Overlaps(level, v[level], lo, hi, expanded0);
  }

  lemma Decides(v: Version, level: nat, start: seq<File>, first1: seq<File>, expanded0: seq<File>, expanded1: seq<File>, limit: nat)
    requires level + 1 < NUM_LEVELS && first1 != [] && Grows(v, level, start, first1, expanded0) && |expanded0| > |start|
    requires TotalFileSize(first1) + TotalFileSize(expanded0) < limit && MeetsSpan(expanded0, v[level + 1], expanded1)
    ensures |expanded1| == |first1| ==> CanGrow(v, level, start, first1, expanded0, expanded1, limit)
    ensures |expanded1| != |first1| ==> forall e0, e1 :: !CanGrow(v, level, start, first1, e0, e1, limit)
  {
    hide Grows, MeetsSpan, TotalFileSize;
    forall e0, e1 | CanGrow(v, level, start, first1, e0, e1, limit)
      ensures e0 == expanded0 && e1 == expanded1
    {
      OneGrows(v, level, start, first1, e0, expanded0);
      OneMeetsSpan(expanded0, v[level + 1], e1, expanded1);
    }
  }

  lemma StaysSmall(v: Version, level: nat, start: seq<File>, first1: seq<File>, expanded0: seq<File>, limit: nat)
    requires level + 1 < NUM_LEVELS && Grows(v, level, start, first1, expanded0)
    requires |expanded0| <= |start| || TotalFileSize(first1) + TotalFileSize(expanded0) >= limit
    ensures forall e0, e1 :: !CanGrow(v, level, start, first1, e0, e1, limit)
  {
    hide Grows, MeetsSpan, TotalFileSize;
    forall e0, e1 | CanGrow(v, level, start, first1, e0, e1, limit)
      ensures false
    {
      OneGrows(v, level, start, first1, e0, expanded0);
    }
  }

  lemma NothingToGrow(v: Version, level: nat, start: seq<File>, limit: nat)
    requires level + 1 < NUM_LEVELS
    ensures forall e0, e1 :: !CanGrow(v, level, start, [], e0, e1, limit)
  {}

  lemma IsChosen(v: Version, level: nat, start: seq<File>, limit: nat, first1: seq<File>, inputs0: seq<File>, inputs1: seq<File>, grown: bool)
    requires level + 1 < NUM_LEVELS && MeetsSpan(start, v[level + 1], first1)
    requires if grown then CanGrow(v, level, start, first1, inputs0, inputs1, limit)
             else inputs0 == start && inputs1 == first1 && forall e0, e1 :: !CanGrow(v, level, start, first1, e0, e1, limit)
    ensures Chosen(v, level, start, limit, inputs0, inputs1)
  {
    hide CanGrow, MeetsSpan;
    assert ChosenFrom(v, level, start, first1, limit, inputs0, inputs1);
  }

  lemma StartIsExpanded(v: Version, level: nat, start: seq<File>, inputs1: seq<File>, expanded0: seq<File>,
                        allStart: int, allLimit: int, lo0: Option<int>, hi0: Option<int>)
    requires VersionOk(v) && level < NUM_LEVELS
    requires forall f :: f in start ==> f in v[level]
    requires Spans(start + inputs1, allStart, allLimit)
    requires Wider(lo0, hi0, Some(allStart), Some(allLimit))
    requires expanded0 == Overlapping(v[level], lo0, hi0)
    ensures forall f :: f in start ==> f in expanded0
  {
    forall f | f in start
      ensures f in expanded0
    {
      assert f in start + inputs1 && FileOk(f);
      FileSpans(f);
    }
  }

  // The first file that reaches behind the compaction pointer, or the first of all if none does.
  ghost predicate PickedFirst(files: seq<File>, compactPointer: Option<IKey>, f: File) {
    exists i :: 0 <= i < |files| && f == files[i] && PickedAt(files, compactPointer, i)
  }

  ghost predicate PickedAt(files: seq<File>, compactPointer: Option<IKey>, i: nat)
    requires i < |files|
  {
    if compactPointer.Some? && exists j :: 0 <= j < |files| && Less(compactPointer.value, files[j].largest)
    then Less(compactPointer.value, files[i].largest) && forall j :: 0 <= j < i ==> !Less(compactPointer.value, files[j].largest)
    else i == 0
  }

  // PickCompaction: the first file after the compaction pointer; at level 0 everything that overlaps it,
  // directly or through other files.
  method PickFiles(v: Version, level: nat, compactPointer: Option<IKey>) returns (start: seq<File>)
    requires VersionOk(v) && VersionOrdered(v) && level + 1 < NUM_LEVELS && v[level] != []
    ensures start != [] && Ordered(start) && forall f :: f in start ==> f in v[level]
    ensures exists f :: PickedFirst(v[level], compactPointer, f)
                        && if level > 0 then start == [f] else Overlaps(0, v[0], f.smallest.key, f.largest.key, start)
    ensures level == 0 ==> forall f, g :: f in start && g in v[0] && g !in start ==>
              g.largest.key < f.smallest.key || f.largest.key < g.smallest.key
  {
    hide PickedFirst, Ordered, Spans, Closed, Overlaps, Overlapping, Meets;
    var picked := FirstBehind(v[level], compactPointer);
    start := [picked];
    assert Ordered(start) by { OneIsOrdered(picked); }
    if level == 0 {
      var smallest, largest := GetRange(start);
      OneFileSpans(picked, smallest.key, largest.key);
      var lo, hi;
      start, lo, hi := GetOverlappingInputs(0, v[0], Some(smallest.key), Some(largest.key));
      ClosedAround(v, picked, start, lo, hi);
    }
  }

  method FirstBehind(files: seq<File>, compactPointer: Option<IKey>) returns (f: File)
    requires files != []
    ensures f in files && PickedFirst(files, compactPointer, f)
  {
    var i := 0;
    while i < |files|
      invariant i <= |files| && (i > 0 ==> compactPointer.Some?)
      invariant compactPointer.Some? ==> forall j :: 0 <= j < i ==> !Less(compactPointer.value, files[j].largest)
    {
      if compactPointer.None? || Less(compactPointer.value, files[i].largest) {
        assert PickedAt(files, compactPointer, i);
        return files[i];
      }
      i := i + 1;
    }
    f := files[0];
    assert PickedAt(files, compactPointer, 0);
  }

  lemma OneIsOrdered(f: File)
    ensures Ordered([f])
  {}

  lemma ClosedAround(v: Version, f: File, start: seq<File>, lo: Option<int>, hi: Option<int>)
    requires VersionOk(v) && VersionOrdered(v) && f in v[0]
    requires start == Overlapping(v[0], lo, hi) && Wider(lo, hi, Some(f.smallest.key), Some(f.largest.key)) && Closed(v[0], lo, hi)
    requires forall x, y :: Closed(v[0], x, y) && Wider(x, y, Some(f.smallest.key), Some(f.largest.key)) ==> Wider(x, y, lo, hi)
    ensures Overlaps(0, v[0], f.smallest.key, f.largest.key, start) && Ordered(start) && f in start
    ensures forall x, g :: x in start && g in v[0] && g !in start ==> g.largest.key < x.smallest.key || x.largest.key < g.smallest.key
  {
    OverlappingOrdered(v[0], lo, hi);
    FileSpans(f);
  }

  lemma OneFileSpans(f: File, lo: int, hi: int)
    requires Spans([f], lo, hi)
    ensures lo == f.smallest.key && hi == f.largest.key
  {}
}
