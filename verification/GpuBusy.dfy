/** GPU utilisation of a trace: overlapping kernel intervals are merged, then busy time and gaps are summed. */
module GpuBusy {
  import opened Sorting
  import opened Wrappers

  // From start up to, but not including, end; backward when its duration is negative.
  datatype Interval = Interval(start: int, end: int)

  function Start(): Interval -> int {
    (x: Interval) => x.start
  }

  function End(): Interval -> int {
    (x: Interval) => x.end
  }

  // The order of pairs.
  function Sorted(intervals: seq<Interval>): seq<Interval> {
    SortBy(Start(), SortBy(End(), intervals))
  }

  ghost predicate InOrder(intervals: seq<Interval>) {
    AscendingByBoth(Start(), End(), intervals)
  }

  predicate Backward(x: Interval) {
    x.end < x.start
  }

  predicate Forward(intervals: seq<Interval>) {
    forall i :: 0 <= i < |intervals| ==> !Backward(intervals[i])
  }

  // Some interval is running at tick t.
  ghost predicate Covered(intervals: seq<Interval>, t: int) {
    exists i :: 0 <= i < |intervals| && intervals[i].start <= t < intervals[i].end
  }

  // In order, with a proper gap between neighbours.
  predicate Separated(merged: seq<Interval>) {
    forall i, j :: 0 <= i < j < |merged| ==> merged[i].end < merged[j].start
  }

  ghost predicate SameTicks(a: seq<Interval>, b: seq<Interval>) {
    forall t :: Covered(a, t) <==> Covered(b, t)
  }

  function Max(a: int, b: int): int {
    if a >= b then a else b
  }

  // ---------- Merging ----------

  predicate Joins(merged: seq<Interval>, x: Interval) {
    merged != [] && x.start <= merged[|merged| - 1].end
  }

  function Add(merged: seq<Interval>, x: Interval): seq<Interval> {
    if Joins(merged, x) then
      var last := merged[|merged| - 1];
      merged[..|merged| - 1] + [Interval(last.start, Max(last.end, x.end))]
    else merged + [x]
  }

  function Merged(sorted: seq<Interval>): seq<Interval> {
    if sorted == [] then [] else Add(Merged(sorted[..|sorted| - 1]), sorted[|sorted| - 1])
  }

  // The first start is kept, the last one does not pass the last start, and neighbours are apart.
  ghost predicate Shape(merged: seq<Interval>, sorted: seq<Interval>) {
    && Separated(merged) && (merged == [] <==> sorted == [])
    && (sorted != [] ==> merged[0].start == sorted[0].start
                         && merged[|merged| - 1].start <= sorted[|sorted| - 1].start)
  }

  lemma ShapeNext(merged: seq<Interval>, sorted: seq<Interval>, x: Interval)
    requires Shape(merged, sorted) && (sorted != [] ==> sorted[|sorted| - 1].start <= x.start)
    ensures Shape(Add(merged, x), sorted + [x])
  {
  }

  lemma InOrderPrefix(sorted: seq<Interval>)
    requires InOrder(sorted) && sorted != []
    ensures var init, x := sorted[..|sorted| - 1], sorted[|sorted| - 1];
            && sorted == init + [x] && InOrder(init)
            && forall i :: 0 <= i < |init| ==>
                 init[i].start < x.start || (init[i].start == x.start && init[i].end <= x.end)
  {
    var init, x := sorted[..|sorted| - 1], sorted[|sorted| - 1];
    forall i | 0 <= i < |init|
      ensures init[i].start < x.start || (init[i].start == x.start && init[i].end <= x.end)
    {
      assert NotAfter(Start(), End(), sorted[i], x);
    }
  }

  lemma {:induction false} MergedShape(sorted: seq<Interval>)
    requires InOrder(sorted)
    ensures Shape(Merged(sorted), sorted)
  {
    hide InOrder, Add;
    if sorted != [] {
      InOrderPrefix(sorted);
      var init, x := sorted[..|sorted| - 1], sorted[|sorted| - 1];
      MergedShape(init);
      ShapeNext(Merged(init), init, x);
    }
  }

  lemma CoveredAppend(intervals: seq<Interval>, x: Interval, t: int)
    ensures Covered(intervals + [x], t) <==> Covered(intervals, t) || x.start <= t < x.end
  {
    var longer := intervals + [x];
    if Covered(intervals, t) {
      var i :| 0 <= i < |intervals| && intervals[i].start <= t < intervals[i].end;
      assert longer[i] == intervals[i];
    }
    if x.start <= t < x.end {
      assert longer[|intervals|] == x;
    }
  }

  // Adding an interval that does not start before the last one adds exactly its ticks.
  lemma TicksNext(merged: seq<Interval>, x: Interval, t: int)
    requires merged != [] ==> merged[|merged| - 1].start <= x.start
    ensures Covered(Add(merged, x), t) <==> Covered(merged, t) || x.start <= t < x.end
  {
    hide Covered;
    if Joins(merged, x) {
      var init, last := merged[..|merged| - 1], merged[|merged| - 1];
      assert merged == init + [last];
      CoveredAppend(init, last, t);
      CoveredAppend(init, Interval(last.start, Max(last.end, x.end)), t);
    } else {
      CoveredAppend(merged, x, t);
    }
  }

  lemma {:induction false} MergedTicks(sorted: seq<Interval>, t: int)
    requires InOrder(sorted)
    ensures Covered(Merged(sorted), t) <==> Covered(sorted, t)
  {
    hide InOrder, Add, Covered;
    if sorted == [] {
      NothingCovered(Merged(sorted), t);
      NothingCovered(sorted, t);
    } else {
      InOrderPrefix(sorted);
      var init, x := sorted[..|sorted| - 1], sorted[|sorted| - 1];
      MergedTicks(init, t);
      MergedShape(init);
      TicksNext(Merged(init), x, t);
      CoveredAppend(init, x, t);
    }
  }

  lemma NothingCovered(none: seq<Interval>, t: int)
    requires none == []
    ensures !Covered(none, t)
  {
  }

  // ---------- Which ends survive ----------

  // Some merged interval starts no later and ends no earlier.
  ghost predicate Holds(merged: seq<Interval>, x: Interval) {
    exists k :: 0 <= k < |merged| && merged[k].start <= x.start && x.end <= merged[k].end
  }

  ghost predicate EndOf(intervals: seq<Interval>, m: Interval) {
    exists k :: 0 <= k < |intervals| && intervals[k].end == m.end
  }

  lemma HoldsNext(merged: seq<Interval>, x: Interval, y: Interval)
    requires merged != [] ==> merged[|merged| - 1].start <= x.start
    ensures Holds(Add(merged, x), x)
    ensures Holds(merged, y) ==> Holds(Add(merged, x), y)
  {
    var after := Add(merged, x);
    assert after[|after| - 1].start <= x.start && x.end <= after[|after| - 1].end;
    if Holds(merged, y) {
      var k :| 0 <= k < |merged| && merged[k].start <= y.start && y.end <= merged[k].end;
      assert after[k].start <= y.start && y.end <= after[k].end;
    }
  }

  lemma {:induction false} MergedHolds(sorted: seq<Interval>, i: nat)
    requires InOrder(sorted) && i < |sorted|
    ensures Holds(Merged(sorted), sorted[i])
  {
    hide InOrder, Add, Holds;
    InOrderPrefix(sorted);
    var init, x := sorted[..|sorted| - 1], sorted[|sorted| - 1];
    MergedShape(init);
    HoldsNext(Merged(init), x, sorted[i]);
    if i < |init| {
      MergedHolds(init, i);
    }
  }

  lemma EndOfNext(merged: seq<Interval>, sorted: seq<Interval>, x: Interval, k: nat)
    requires forall j :: 0 <= j < |merged| ==> EndOf(sorted, merged[j])
    requires k < |Add(merged, x)|
    ensures EndOf(sorted + [x], Add(merged, x)[k])
  {
    var m := Add(merged, x)[k];
    if m.end == x.end {
      assert (sorted + [x])[|sorted|].end == m.end;
    } else {
      assert m.end == merged[k].end;
      var j :| 0 <= j < |sorted| && sorted[j].end == merged[k].end;
      assert (sorted + [x])[j].end == m.end;
    }
  }

  lemma {:induction false} MergedEnds(sorted: seq<Interval>)
    ensures forall k :: 0 <= k < |Merged(sorted)| ==> EndOf(sorted, Merged(sorted)[k])
  {
    hide Add, EndOf;
    if sorted != [] {
      var init, x := sorted[..|sorted| - 1], sorted[|sorted| - 1];
      assert sorted == init + [x];
      MergedEnds(init);
      forall k | 0 <= k < |Merged(sorted)| ensures EndOf(sorted, Merged(sorted)[k]) {
        EndOfNext(Merged(init), init, x, k);
      }
    }
  }

  // ---------- Backward intervals ----------

  // An interval that starts strictly earlier is still running, or just ending, where x starts.
  ghost predicate Bridged(intervals: seq<Interval>, x: Interval) {
    exists k :: 0 <= k < |intervals| && intervals[k].start < x.start <= intervals[k].end
  }

  // Every backward interval starts within an earlier one.
  ghost predicate Settled(intervals: seq<Interval>) {
    forall i :: 0 <= i < |intervals| && Backward(intervals[i]) ==> Bridged(intervals, intervals[i])
  }

  lemma BridgedNext(sorted: seq<Interval>, x: Interval, y: Interval)
    requires y.start <= x.start
    ensures Bridged(sorted + [x], y) <==> Bridged(sorted, y)
  {
    if Bridged(sorted, y) {
      var k :| 0 <= k < |sorted| && sorted[k].start < y.start <= sorted[k].end;
      assert (sorted + [x])[k] == sorted[k];
    }
  }

  lemma SettledNext(sorted: seq<Interval>, x: Interval)
    requires forall i :: 0 <= i < |sorted| ==> sorted[i].start <= x.start
    ensures Settled(sorted + [x]) <==> Settled(sorted) && (Backward(x) ==> Bridged(sorted, x))
  {
    hide Bridged;
    var longer := sorted + [x];
    BridgedNext(sorted, x, x);
    forall i | 0 <= i < |sorted| ensures Bridged(longer, sorted[i]) <==> Bridged(sorted, sorted[i]) {
      BridgedNext(sorted, x, sorted[i]);
    }
    assert longer[|sorted|] == x && forall i :: 0 <= i < |sorted| ==> longer[i] == sorted[i];
  }

  lemma ForwardNext(merged: seq<Interval>, x: Interval)
    requires merged != [] ==> merged[|merged| - 1].start <= x.start
    ensures Forward(Add(merged, x)) <==> Forward(merged) && (Backward(x) ==> Joins(merged, x))
  {
    var after := Add(merged, x);
    assert forall k :: 0 <= k < |merged| - 1 ==> after[k] == merged[k];
    if Joins(merged, x) {
      assert !Backward(merged[|merged| - 1]) && !Backward(after[|merged| - 1]);
    } else {
      assert after[|merged|] == x && (merged != [] ==> after[|merged| - 1] == merged[|merged| - 1]);
    }
  }

  lemma JoinsIffBridged(sorted: seq<Interval>, x: Interval)
    requires InOrder(sorted) && Backward(x)
    requires forall i :: 0 <= i < |sorted| ==>
               sorted[i].start < x.start || (sorted[i].start == x.start && sorted[i].end <= x.end)
    ensures Joins(Merged(sorted), x) <==> Bridged(sorted, x)
  {
    hide InOrder, Merged;
    MergedShape(sorted);
    var merged := Merged(sorted);
    if Joins(merged, x) {
      MergedEnds(sorted);
      assert EndOf(sorted, merged[|merged| - 1]);
    } else if Bridged(sorted, x) {
      var k :| 0 <= k < |sorted| && sorted[k].start < x.start <= sorted[k].end;
      MergedHolds(sorted, k);
    }
  }

  // No merged interval is backward exactly when every backward one starts within an earlier interval.
  lemma {:induction false} ForwardIffSettled(sorted: seq<Interval>)
    requires InOrder(sorted)
    ensures Forward(Merged(sorted)) <==> Settled(sorted)
  {
    hide InOrder, Add, Forward, Settled, Bridged, Joins;
    if sorted == [] {
      NothingBackward(sorted);
    } else {
      InOrderPrefix(sorted);
      var init, x := sorted[..|sorted| - 1], sorted[|sorted| - 1];
      ForwardIffSettled(init);
      MergedShape(init);
      ForwardNext(Merged(init), x);
      SettledNext(init, x);
      if Backward(x) {
        JoinsIffBridged(init, x);
      }
    }
  }

  lemma NothingBackward(none: seq<Interval>)
    requires none == []
    ensures Forward(none) && Settled(none)
  {
  }

  method Merge(sorted: seq<Interval>) returns (merged: seq<Interval>)
    requires InOrder(sorted)
    ensures merged == Merged(sorted)
    ensures Separated(merged) && SameTicks(merged, sorted) && (Forward(merged) <==> Settled(sorted))
  {
    hide InOrder, Separated, SameTicks, Forward, Settled, Merged;
    merged := [];
    NothingMerged(sorted[..0]);
    var i := 0;
    while i < |sorted|
      invariant 0 <= i <= |sorted| && merged == Merged(sorted[..i])
    {
      MergedNext(sorted, i);
      if merged != [] && sorted[i].start <= merged[|merged| - 1].end {
        var last := merged[|merged| - 1];
        merged := merged[..|merged| - 1] + [Interval(last.start, Max(last.end, sorted[i].end))];
      } else {
        merged := merged + [sorted[i]];
      }
      i := i + 1;
    }
    assert sorted[..i] == sorted;
    MergedFacts(sorted);
  }

  lemma NothingMerged(none: seq<Interval>)
    requires none == []
    ensures Merged(none) == []
  {
  }

  lemma MergedNext(sorted: seq<Interval>, i: nat)
    requires i < |sorted|
    ensures Merged(sorted[..i + 1]) == Add(Merged(sorted[..i]), sorted[i])
  {
    hide Add;
    assert sorted[..i + 1][..i] == sorted[..i];
  }

  lemma MergedFacts(sorted: seq<Interval>)
    requires InOrder(sorted)
    ensures Separated(Merged(sorted)) && SameTicks(Merged(sorted), sorted)
    ensures Forward(Merged(sorted)) <==> Settled(sorted)
  {
    hide InOrder, Covered, Forward, Settled, Merged, Separated;
    MergedShape(sorted);
    ForwardIffSettled(sorted);
    forall t ensures Covered(Merged(sorted), t) <==> Covered(sorted, t) {
      MergedTicks(sorted, t);
    }
  }

  // ---------- Busy time, span and gaps ----------

  function TotalLength(intervals: seq<Interval>): int {
    if intervals == [] then 0
    else
      var last := |intervals| - 1;
      TotalLength(intervals[..last]) + (intervals[last].end - intervals[last].start)
  }

  // What the backward intervals take away.
  function Deficit(intervals: seq<Interval>): nat {
    if intervals == [] then 0
    else
      var last := |intervals| - 1;
      Deficit(intervals[..last])
      + if Backward(intervals[last]) then intervals[last].start - intervals[last].end else 0
  }

  lemma {:induction false} DeficitIff(intervals: seq<Interval>)
    ensures Deficit(intervals) == 0 <==> Forward(intervals)
  {
    if intervals != [] {
      var init := intervals[..|intervals| - 1];
      DeficitIff(init);
      assert forall i :: 0 <= i < |init| ==> init[i] == intervals[i];
    }
  }

  // The idle stretches between neighbours.
  function Gaps(merged: seq<Interval>): seq<Interval> {
    if |merged| <= 1 then []
    else Gaps(merged[..|merged| - 1]) + [Interval(merged[|merged| - 2].end, merged[|merged| - 1].start)]
  }

  method FindGaps(merged: seq<Interval>) returns (gaps: seq<Interval>)
    requires Separated(merged)
    ensures gaps == Gaps(merged)
  {
    gaps := [];
    var i := 1;
    while i < |merged|
      invariant 1 <= i && (merged != [] ==> i <= |merged|)
      invariant gaps == Gaps(if i <= |merged| then merged[..i] else merged)
    {
      assert merged[..i + 1][..i] == merged[..i];
      var gap := merged[i].start - merged[i - 1].end;
      if gap > 0 {
        gaps := gaps + [Interval(merged[i - 1].end, merged[i].start)];
      }
      i := i + 1;
    }
    assert merged != [] ==> merged[..i] == merged;
  }

  // Ticks from lo up to hi at which some interval runs.
  ghost function Ticks(intervals: seq<Interval>, lo: int, hi: int): set<int> {
    set t | lo <= t < hi && Covered(intervals, t)
  }

  function Range(lo: int, hi: int): set<int>
    decreases hi - lo
  {
    if lo >= hi then {} else Range(lo, hi - 1) + {hi - 1}
  }

  lemma {:induction false} RangeIs(lo: int, hi: int)
    ensures |Range(lo, hi)| == (if lo <= hi then hi - lo else 0) && forall t :: t in Range(lo, hi) <==> lo <= t < hi
    decreases hi - lo
  {
    if lo < hi {
      RangeIs(lo, hi - 1);
    }
  }

  lemma UnionSize(a: set<int>, b: set<int>)
    requires a !! b
    ensures |a + b| == |a| + |b|
  {
  }

  predicate Bounds(intervals: seq<Interval>, lo: int, hi: int) {
    forall i :: 0 <= i < |intervals| ==> lo <= intervals[i].start && intervals[i].end <= hi
  }

  // The covered ticks of separated intervals are their summed length, were it not for backward ones.
  lemma {:induction false} BusyIsTicks(merged: seq<Interval>, lo: int, hi: int)
    requires Separated(merged) && Bounds(merged, lo, hi)
    ensures |Ticks(merged, lo, hi)| == TotalLength(merged) + Deficit(merged)
  {
    hide Ticks, Range, Covered;
    if merged == [] {
      NoTicksAt(merged, lo, hi);
    } else {
      var init, last := merged[..|merged| - 1], merged[|merged| - 1];
      assert merged == init + [last];
      InitWithin(init, last, lo, hi);
      hide Separated, Bounds;
      BusyIsTicks(init, lo, hi);
      SplitTicks(init, last, lo, hi);
      RangeIs(last.start, last.end);
      UnionSize(Ticks(init, lo, hi), Range(last.start, last.end));
    }
  }

  lemma NoTicksAt(none: seq<Interval>, lo: int, hi: int)
    requires none == []
    ensures Ticks(none, lo, hi) == {}
  {
  }

  lemma InitWithin(init: seq<Interval>, last: Interval, lo: int, hi: int)
    requires Separated(init + [last]) && Bounds(init + [last], lo, hi)
    ensures Separated(init) && Bounds(init, lo, hi)
    ensures lo <= last.start && last.end <= hi
  {
    var merged := init + [last];
    assert forall i :: 0 <= i < |init| ==> merged[i] == init[i];
    assert merged[|init|] == last;
  }

  lemma SplitTicks(init: seq<Interval>, last: Interval, lo: int, hi: int)
    requires Separated(init + [last]) && lo <= last.start && last.end <= hi
    ensures Ticks(init + [last], lo, hi) == Ticks(init, lo, hi) + Range(last.start, last.end)
    ensures Ticks(init, lo, hi) !! Range(last.start, last.end)
  {
    assert (init + [last])[|init|] == last;
    RangeIs(last.start, last.end);
    LastTicksNew(init, last);
    hide Covered, Range;
    forall t ensures t in Ticks(init + [last], lo, hi) <==> t in Ticks(init, lo, hi) + Range(last.start, last.end) {
      CoveredAppend(init, last, t);
      assert last.start <= t < last.end ==> lo <= t < hi;
    }
  }

  lemma LastTicksNew(init: seq<Interval>, last: Interval)
    requires Separated(init + [last])
    ensures forall t :: last.start <= t ==> !Covered(init, t)
  {
    var merged := init + [last];
    forall i | 0 <= i < |init| ensures init[i].end < last.start {
      assert merged[i] == init[i] && merged[|init|] == last;
    }
  }

  // Busy time and gaps make up the active span, whatever the durations.
  lemma {:induction false} BusyAndGapsFillSpan(merged: seq<Interval>)
    requires merged != []
    ensures TotalLength(merged) + TotalLength(Gaps(merged)) == merged[|merged| - 1].end - merged[0].start
  {
    if |merged| > 1 {
      var init := merged[..|merged| - 1];
      BusyAndGapsFillSpan(init);
      var gap := Interval(merged[|merged| - 2].end, merged[|merged| - 1].start);
      assert (Gaps(init) + [gap])[..|Gaps(init)|] == Gaps(init);
    } else {
      assert merged[..0] == [];
    }
  }

  lemma {:induction false} GapsFilled(merged: seq<Interval>)
    requires Separated(merged)
    ensures TotalLength(Gaps(merged)) >= 0
    ensures TotalLength(Gaps(merged)) == 0 <==> Gaps(merged) == []
    ensures forall i :: 0 <= i < |Gaps(merged)| ==> Gaps(merged)[i].start < Gaps(merged)[i].end
  {
    if |merged| > 1 {
      var init := merged[..|merged| - 1];
      GapsFilled(init);
      var gap := Interval(merged[|merged| - 2].end, merged[|merged| - 1].start);
      assert (Gaps(init) + [gap])[..|Gaps(init)|] == Gaps(init);
    }
  }

  // Gap k lies between interval k and the next.
  lemma {:induction false} GapsAt(merged: seq<Interval>)
    ensures |Gaps(merged)| == if merged == [] then 0 else |merged| - 1
    ensures forall k :: 0 <= k < |Gaps(merged)| ==> Gaps(merged)[k] == Interval(merged[k].end, merged[k + 1].start)
  {
    if |merged| > 1 {
      GapsAt(merged[..|merged| - 1]);
    }
  }

  lemma GapsNext(init: seq<Interval>, last: Interval)
    requires init != []
    ensures Gaps(init + [last]) == Gaps(init) + [Interval(init[|init| - 1].end, last.start)]
  {
    assert (init + [last])[..|init|] == init;
  }

  // Tick t is in the span but nothing runs at it.
  ghost predicate Idle(merged: seq<Interval>, t: int) {
    merged != [] && merged[0].start <= t < merged[|merged| - 1].end && !Covered(merged, t)
  }

  // Without backward intervals the gaps are exactly the idle ticks of the span.
  lemma {:induction false} GapsAreIdle(merged: seq<Interval>, t: int)
    requires Forward(merged) && Separated(merged)
    ensures Covered(Gaps(merged), t) <==> Idle(merged, t)
    decreases |merged|
  {
    hide Covered;
    if |merged| <= 1 {
      NothingCovered(Gaps(merged), t);
      OneCovered(merged, t);
    } else {
      hide Gaps;
      var init, last := merged[..|merged| - 1], merged[|merged| - 1];
      assert merged == init + [last];
      LastApart(init, last);
      GapsAreIdle(init, t);
      GapsNext(init, last);
      CoveredAppend(Gaps(init), Interval(init[|init| - 1].end, last.start), t);
      CoveredAppend(init, last, t);
      if Covered(init, t) {
        CoveredWithin(init, t);
      }
    }
  }

  lemma OneCovered(merged: seq<Interval>, t: int)
    requires |merged| <= 1
    ensures !Idle(merged, t)
  {
  }

  lemma LastApart(init: seq<Interval>, last: Interval)
    requires Forward(init + [last]) && Separated(init + [last]) && init != []
    ensures Forward(init) && Separated(init) && init[|init| - 1].end < last.start <= last.end
    ensures (init + [last])[0] == init[0] && init[0].start <= init[|init| - 1].end
  {
    var merged := init + [last];
    assert forall i :: 0 <= i < |init| ==> merged[i] == init[i];
    assert merged[|init|] == last;
  }

  lemma CoveredWithin(merged: seq<Interval>, t: int)
    requires Forward(merged) && Separated(merged) && Covered(merged, t)
    ensures merged[0].start <= t < merged[|merged| - 1].end
  {
    var i :| 0 <= i < |merged| && merged[i].start <= t < merged[i].end;
  }

  // ---------- Utilisation ----------

  datatype Usage = Usage(busy: int, span: int, utilPct: real, gaps: seq<Interval>)

  datatype UsageError = DivisionByZero

  // All intervals are empty and at the same tick.
  predicate OnePoint(intervals: seq<Interval>) {
    forall i :: 0 <= i < |intervals| ==> intervals[i].start == intervals[i].end == intervals[0].start
  }

  // lo is the earliest start and hi the latest end.
  ghost predicate Extent(intervals: seq<Interval>, lo: int, hi: int) {
    Bounds(intervals, lo, hi) && (exists i :: 0 <= i < |intervals| && intervals[i].start == lo)
    && EndOf(intervals, Interval(lo, hi))
  }

  // The busy time is the number of ticks at which something runs.
  ghost predicate CountsTicks(intervals: seq<Interval>, busy: int) {
    forall lo, hi :: Bounds(intervals, lo, hi) ==> busy == |Ticks(intervals, lo, hi)|
  }

  ghost predicate SpansExtent(intervals: seq<Interval>, span: int) {
    exists lo, hi :: Extent(intervals, lo, hi) && span == hi - lo
  }

  lemma SortedInOrder(intervals: seq<Interval>)
    ensures InOrder(Sorted(intervals)) && forall x :: x in Sorted(intervals) <==> x in intervals
  {
    hide SortBy;
    SortAscends(End(), intervals);
    SortTwice(Start(), End(), SortBy(End(), intervals));
    forall x: Interval ensures x in Sorted(intervals) <==> x in intervals {
      SortMember(End(), intervals, x);
      SortMember(Start(), SortBy(End(), intervals), x);
    }
  }

  lemma SameBounds(a: seq<Interval>, b: seq<Interval>, lo: int, hi: int)
    requires Bounds(a, lo, hi) && forall x :: x in a <==> x in b
    ensures Bounds(b, lo, hi)
  {
    forall i | 0 <= i < |b| ensures lo <= b[i].start && b[i].end <= hi {
      assert b[i] in b;
      var k :| 0 <= k < |a| && a[k] == b[i];
    }
  }

  lemma CoveredPermuted(a: seq<Interval>, b: seq<Interval>, t: int)
    requires Covered(a, t) && forall x :: x in a <==> x in b
    ensures Covered(b, t)
  {
    var i :| 0 <= i < |a| && a[i].start <= t < a[i].end;
    assert a[i] in b;
  }

  lemma SettledPermuted(a: seq<Interval>, b: seq<Interval>)
    requires Settled(a) && forall x :: x in a <==> x in b
    ensures Settled(b)
  {
    forall i | 0 <= i < |b| && Backward(b[i]) ensures Bridged(b, b[i]) {
      assert b[i] in b;
      var k :| 0 <= k < |a| && a[k] == b[i];
      var l :| 0 <= l < |a| && a[l].start < a[k].start <= a[l].end;
      assert a[l] in a;
      var j :| 0 <= j < |b| && b[j] == a[l];
    }
  }

  // Merging keeps any bounds, so the ticks can be counted on the merged intervals.
  lemma MergedBounds(sorted: seq<Interval>, lo: int, hi: int)
    requires InOrder(sorted) && Bounds(sorted, lo, hi)
    ensures Bounds(Merged(sorted), lo, hi)
  {
    hide InOrder, Merged;
    MergedShape(sorted);
    MergedEnds(sorted);
    MergedStarts(sorted, lo);
    forall k | 0 <= k < |Merged(sorted)| ensures lo <= Merged(sorted)[k].start && Merged(sorted)[k].end <= hi {
      assert EndOf(sorted, Merged(sorted)[k]);
    }
  }

  lemma {:induction false} MergedStarts(sorted: seq<Interval>, lo: int)
    requires forall i :: 0 <= i < |sorted| ==> lo <= sorted[i].start
    ensures forall k :: 0 <= k < |Merged(sorted)| ==> lo <= Merged(sorted)[k].start
  {
    if sorted != [] {
      MergedStarts(sorted[..|sorted| - 1], lo);
    }
  }

  // The summed length counts the ticks exactly when every backward interval starts within an earlier one.
  lemma CountsTicksIffSettled(intervals: seq<Interval>)
    ensures CountsTicks(intervals, TotalLength(Merged(Sorted(intervals)))) <==> Settled(intervals)
  {
    hide InOrder, Merged, Ticks, Bounds, Settled, Forward, Sorted, TotalLength, Deficit;
    var sorted, merged := Sorted(intervals), Merged(Sorted(intervals));
    SortedInOrder(intervals);
    SettledEither(sorted, intervals);
    ForwardIffSettled(sorted);
    DeficitIff(merged);
    forall lo, hi | Bounds(intervals, lo, hi)
      ensures |Ticks(intervals, lo, hi)| == TotalLength(merged) + Deficit(merged)
    {
      TicksOfMerged(intervals, lo, hi);
    }
    SomeBounds(intervals);
  }

  lemma SettledEither(a: seq<Interval>, b: seq<Interval>)
    requires forall x :: x in a <==> x in b
    ensures Settled(a) <==> Settled(b)
  {
    hide Settled;
    if Settled(a) {
      SettledPermuted(a, b);
    }
    if Settled(b) {
      SettledPermuted(b, a);
    }
  }

  lemma TicksOfMerged(intervals: seq<Interval>, lo: int, hi: int)
    requires Bounds(intervals, lo, hi)
    ensures var merged := Merged(Sorted(intervals));
            |Ticks(intervals, lo, hi)| == TotalLength(merged) + Deficit(merged)
  {
    hide InOrder, Merged, Bounds, Covered, Sorted, TotalLength, Deficit;
    var sorted, merged := Sorted(intervals), Merged(Sorted(intervals));
    SortedInOrder(intervals);
    SameBounds(intervals, sorted, lo, hi);
    MergedBounds(sorted, lo, hi);
    MergedShape(sorted);
    BusyIsTicks(merged, lo, hi);
    forall t ensures Covered(merged, t) <==> Covered(intervals, t) {
      MergedTicks(sorted, t);
      if Covered(sorted, t) {
        CoveredPermuted(sorted, intervals, t);
      }
      if Covered(intervals, t) {
        CoveredPermuted(intervals, sorted, t);
      }
    }
    assert Ticks(merged, lo, hi) == Ticks(intervals, lo, hi);
  }

  lemma {:induction false} SomeBounds(intervals: seq<Interval>)
    ensures exists lo, hi :: Bounds(intervals, lo, hi)
  {
    if intervals == [] {
      assert Bounds(intervals, 0, 0);
    } else {
      var init, last := intervals[..|intervals| - 1], intervals[|intervals| - 1];
      SomeBounds(init);
      var lo, hi :| Bounds(init, lo, hi);
      var lo', hi' := if lo <= last.start then lo else last.start, Max(hi, last.end);
      assert forall i :: 0 <= i < |init| ==> init[i] == intervals[i];
      assert Bounds(intervals, lo', hi');
    }
  }

  // Where the merged intervals are forward, they reach from the earliest start to the latest end.
  lemma MergedExtent(intervals: seq<Interval>)
    requires Settled(intervals) && intervals != []
    ensures var merged := Merged(Sorted(intervals));
            merged != [] && Extent(intervals, merged[0].start, merged[|merged| - 1].end)
  {
    hide Merged, Sorted, Settled;
    var sorted, merged := Sorted(intervals), Merged(Sorted(intervals));
    SortedInOrder(intervals);
    assert intervals[0] in sorted;
    SettledEither(sorted, intervals);
    ForwardIffSettled(sorted);
    MergedShape(sorted);
    MergedEnds(sorted);
    var lo, hi := merged[0].start, merged[|merged| - 1].end;
    LastEndIsLatest(sorted);
    FirstStartIsEarliest(sorted);
    hide InOrder;
    SameBounds(sorted, intervals, lo, hi);
    assert EndOf(sorted, merged[|merged| - 1]);
    var k :| 0 <= k < |sorted| && sorted[k].end == hi;
    assert sorted[k] in intervals && sorted[0] in intervals;
  }

  lemma LastEndIsLatest(sorted: seq<Interval>)
    requires InOrder(sorted) && Forward(Merged(sorted)) && sorted != []
    ensures Merged(sorted) != []
    ensures forall i :: 0 <= i < |sorted| ==> sorted[i].end <= Merged(sorted)[|Merged(sorted)| - 1].end
  {
    hide InOrder, Merged;
    MergedShape(sorted);
    forall i | 0 <= i < |sorted| ensures sorted[i].end <= Merged(sorted)[|Merged(sorted)| - 1].end {
      MergedHolds(sorted, i);
    }
  }

  lemma FirstStartIsEarliest(sorted: seq<Interval>)
    requires InOrder(sorted) && sorted != []
    ensures forall i :: 0 <= i < |sorted| ==> sorted[0].start <= sorted[i].start
  {
    forall i | 0 < i < |sorted| ensures sorted[0].start <= sorted[i].start {
      assert NotAfter(Start(), End(), sorted[0], sorted[i]);
    }
  }

  lemma EmptyExtentIff(intervals: seq<Interval>, lo: int, hi: int)
    requires Settled(intervals) && intervals != [] && Extent(intervals, lo, hi)
    ensures lo == hi <==> OnePoint(intervals)
    ensures lo <= hi
  {
    forall i | 0 <= i < |intervals| ensures lo < hi || intervals[i].start == intervals[i].end == lo == hi {
      if Backward(intervals[i]) {
        assert Bridged(intervals, intervals[i]);
      }
    }
  }

  // None without GPU events, and a division by zero when the span is zero. Unless some backward interval lies
  // outside all earlier ones, that is so exactly when all are empty and at one tick.
  method AnalyzeIntervals(intervals: seq<Interval>) returns (usage: Option<Result<Usage, UsageError>>)
    ensures usage.None? <==> intervals == []
    ensures usage.Some? ==>
      var merged := Merged(Sorted(intervals));
      && merged != [] && (usage.value.Err? <==> merged[|merged| - 1].end == merged[0].start)
      && (Settled(intervals) ==> (usage.value.Err? <==> OnePoint(intervals)))
    ensures usage.Some? && usage.value.Ok? ==>
      var u := usage.value.value;
      && u.busy == TotalLength(Merged(Sorted(intervals))) && u.utilPct * u.span as real == 100.0 * u.busy as real
      && u.gaps == Gaps(Merged(Sorted(intervals)))
      && u.busy + TotalLength(u.gaps) == u.span && (forall i :: 0 <= i < |u.gaps| ==> u.gaps[i].start < u.gaps[i].end)
      && (CountsTicks(intervals, u.busy) <==> Settled(intervals))
      && (Settled(intervals) ==>
            SpansExtent(intervals, u.span) && 0.0 <= u.utilPct <= 100.0 && (u.utilPct == 100.0 <==> u.gaps == []))
  {
    hide OnePoint, Extent, SameTicks, Sorted, TotalLength, Gaps, Settled, CountsTicks, Merged, InOrder;
    if intervals == [] {
      return None;
    }
    SortedInOrder(intervals);
    var sorted := Sorted(intervals);
    assert intervals[0] in sorted;
    MergedShape(sorted);
    var merged := Merge(sorted);
    var busy := TotalLength(merged);
    var span := merged[|merged| - 1].end - merged[0].start;
    if Settled(intervals) {
      MergedExtent(intervals);
      EmptyExtentIff(intervals, merged[0].start, merged[|merged| - 1].end);
    }
    if span == 0 {
      return Some(Err(DivisionByZero));
    }
    BusyAndGapsFillSpan(merged);
    GapsFilled(merged);
    CountsTicksIffSettled(intervals);
    BusyNonNegative(intervals);
    var gaps := FindGaps(merged);
    PercentBound(busy, span);
    usage := Some(Ok(Usage(busy, span, Percent(busy, span), gaps)));
  }

  lemma BusyNonNegative(intervals: seq<Interval>)
    ensures Settled(intervals) ==> TotalLength(Merged(Sorted(intervals))) >= 0
  {
    hide Settled, Ticks, Bounds, Merged, Sorted, TotalLength;
    CountsTicksIffSettled(intervals);
    SomeBounds(intervals);
  }

  // The gaps of settled intervals are the ticks of their extent at which nothing runs.
  lemma GapsAreUncovered(intervals: seq<Interval>, lo: int, hi: int, t: int)
    requires Settled(intervals) && Extent(intervals, lo, hi)
    ensures Covered(Gaps(Merged(Sorted(intervals))), t) <==> lo <= t < hi && !Covered(intervals, t)
  {
    hide InOrder, Merged, Covered, Sorted, Settled, Separated, Forward, Gaps, Extent;
    var sorted, merged := Sorted(intervals), Merged(Sorted(intervals));
    ExtentNotEmpty(intervals, lo, hi);
    SortedInOrder(intervals);
    SettledEither(sorted, intervals);
    ForwardIffSettled(sorted);
    MergedShape(sorted);
    MergedExtent(intervals);
    ExtentUnique(intervals, lo, hi, merged[0].start, merged[|merged| - 1].end);
    GapsAreIdle(merged, t);
    MergedTicks(sorted, t);
    if Covered(sorted, t) {
      CoveredPermuted(sorted, intervals, t);
    }
    if Covered(intervals, t) {
      CoveredPermuted(intervals, sorted, t);
    }
  }

  lemma ExtentNotEmpty(intervals: seq<Interval>, lo: int, hi: int)
    requires Extent(intervals, lo, hi)
    ensures intervals != []
  {
  }

  lemma ExtentUnique(intervals: seq<Interval>, lo: int, hi: int, lo': int, hi': int)
    requires Extent(intervals, lo, hi) && Extent(intervals, lo', hi')
    ensures lo == lo' && hi == hi'
  {
  }

  // busy / span * 100
  function Percent(busy: int, span: int): real
    requires span != 0
  {
    busy as real / span as real * 100.0
  }

  lemma PercentBound(busy: int, span: int)
    ensures span != 0 ==> Percent(busy, span) * span as real == 100.0 * busy as real
    ensures 0 <= busy <= span && span > 0 ==>
      0.0 <= Percent(busy, span) <= 100.0 && (Percent(busy, span) == 100.0 <==> busy == span)
  {
    if span != 0 {
      var q := busy as real / span as real;
      assert q * span as real == busy as real;
    }
  }

  // A negative duration outside all earlier intervals: five units of busy time for ten ticks, or no span at all.
  lemma BackwardInterval()
    ensures var late := [Interval(0, 10), Interval(20, 15)];
            Sorted(late) == late && Merged(late) == late && TotalLength(late) == 5
    ensures var back := [Interval(0, 10), Interval(20, 0)];
            var merged := Merged(Sorted(back));
            merged == [Interval(0, 10), Interval(20, 0)] && merged[1].end == merged[0].start
  {
    TwoApart(Interval(0, 10), Interval(20, 15));
    TwoApart(Interval(0, 10), Interval(20, 0));
    var late := [Interval(0, 10), Interval(20, 15)];
    assert late[..1] == [Interval(0, 10)] && late[..1][..0] == [];
  }

  lemma TwoApart(x: Interval, y: Interval)
    requires x.end < y.start && x.start < y.start
    ensures Sorted([x, y]) == [x, y] && Merged([x, y]) == [x, y]
  {
    var s := [x, y];
    TwoSorted(x, y);
    assert s[..1] == [x] && s[..1][..0] == [];
    assert Merged([x]) == [x];
  }

  lemma TwoSorted(x: Interval, y: Interval)
    requires x.start < y.start
    ensures Sorted([x, y]) == [x, y]
  {
    TwoInOrder(Start(), x, y);
    if x.end <= y.end {
      TwoInOrder(End(), x, y);
    } else {
      TwoSwapped(End(), x, y);
      TwoSwapped(Start(), y, x);
    }
  }

  lemma TwoInOrder(key: Interval -> int, x: Interval, y: Interval)
    requires key(x) <= key(y)
    ensures SortBy(key, [x, y]) == [x, y]
  {
    assert [x, y][1..] == [y] && [y][1..] == [];
    assert SortBy(key, [y]) == [y];
  }

  lemma TwoSwapped(key: Interval -> int, x: Interval, y: Interval)
    requires key(x) > key(y)
    ensures SortBy(key, [x, y]) == [y, x]
  {
    assert [x, y][1..] == [y] && [y][1..] == [];
    assert SortBy(key, [y]) == [y];
    assert Insert(key, x, [y][1..]) == [x];
  }
}
