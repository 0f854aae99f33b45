/** Conversation turns read off a loss mask: the rising and falling edges of the mask, zipped into runs. */
module MaskRuns {
  // ---------- The edges ----------

  function Bit(b: bool): int {
    if b then 1 else 0
  }

  function Edge(before: bool, after: bool): int {
    Bit(after) - Bit(before)
  }

  // mask[1:] - mask[:-1]
  function Diff(mask: seq<bool>): seq<int> {
    if |mask| <= 1 then []
    else Diff(mask[..|mask| - 1]) + [Edge(mask[|mask| - 2], mask[|mask| - 1])]
  }

  // The positions that hold v, in order.
  function Where(values: seq<int>, v: int): seq<int> {
    if values == [] then []
    else
      var last := |values| - 1;
      Where(values[..last], v) + (if values[last] == v then [last] else [])
  }

  function PlusOne(positions: seq<int>): seq<int> {
    if positions == [] then []
    else PlusOne(positions[..|positions| - 1]) + [positions[|positions| - 1] + 1]
  }

  function StartIndices(mask: seq<bool>): seq<int>
    requires mask != []
  {
    (if mask[0] then [0] else []) + PlusOne(Where(Diff(mask), 1))
  }

  function EndIndices(mask: seq<bool>): seq<int>
    requires mask != []
  {
    Where(Diff(mask), -1) + (if mask[|mask| - 1] then [|mask| - 1] else [])
  }

  datatype Run = Run(start: int, end: int)

  // zip stops at the shorter list.
  function Zip(starts: seq<int>, ends: seq<int>): seq<Run> {
    if starts == [] || ends == [] then [] else [Run(starts[0], ends[0])] + Zip(starts[1..], ends[1..])
  }

  function MaskStartAndEnd(mask: seq<bool>): seq<Run> {
    if mask == [] then [] else Zip(StartIndices(mask), EndIndices(mask))
  }

  // ---------- How the edges grow with the mask ----------

  lemma {:induction false} DiffLength(mask: seq<bool>)
    requires mask != []
    ensures |Diff(mask)| == |mask| - 1
  {
    if |mask| > 1 {
      DiffLength(mask[..|mask| - 1]);
    }
  }

  lemma DiffLast(longer: seq<bool>, mask: seq<bool>, before: bool, after: bool)
    requires |longer| > 1 && longer[..|longer| - 1] == mask
    requires longer[|longer| - 2] == before && longer[|longer| - 1] == after
    ensures Diff(longer) == Diff(mask) + [Edge(before, after)]
  {
    hide Edge;
  }

  lemma Snoc(mask: seq<bool>, b: bool)
    requires mask != []
    ensures var longer := mask + [b];
            longer[..|longer| - 1] == mask && longer[|longer| - 2] == mask[|mask| - 1] && longer[|longer| - 1] == b
  {
  }

  lemma DiffNext(mask: seq<bool>, b: bool)
    requires mask != []
    ensures Diff(mask + [b]) == Diff(mask) + [Edge(mask[|mask| - 1], b)]
  {
    hide Diff, Edge;
    Snoc(mask, b);
    DiffLast(mask + [b], mask, mask[|mask| - 1], b);
  }

  lemma WhereNext(values: seq<int>, x: int, v: int)
    ensures Where(values + [x], v) == Where(values, v) + (if x == v then [|values|] else [])
  {
    assert (values + [x])[..|values|] == values;
  }

  lemma PlusOneNext(positions: seq<int>, x: int)
    ensures PlusOne(positions + [x]) == PlusOne(positions) + [x + 1]
  {
    assert (positions + [x])[..|positions|] == positions;
  }

  // A longer mask gains a start where it rises.
  lemma StartsNext(mask: seq<bool>, b: bool)
    requires mask != []
    ensures StartIndices(mask + [b]) == StartIndices(mask) + (if b && !mask[|mask| - 1] then [|mask|] else [])
  {
    hide Diff, Where, PlusOne;
    DiffNext(mask, b);
    DiffLength(mask);
    WhereNext(Diff(mask), Edge(mask[|mask| - 1], b), 1);
    PlusOneNext(Where(Diff(mask), 1), |mask| - 1);
    assert (mask + [b])[0] == mask[0];
    assert Where(Diff(mask), 1) + [] == Where(Diff(mask), 1);
  }

  // It gains an end where it falls.
  lemma FallsNext(mask: seq<bool>, b: bool)
    requires mask != []
    ensures Where(Diff(mask + [b]), -1)
            == Where(Diff(mask), -1) + (if !b && mask[|mask| - 1] then [|mask| - 1] else [])
  {
    hide Diff, Where;
    DiffNext(mask, b);
    DiffLength(mask);
    WhereNext(Diff(mask), Edge(mask[|mask| - 1], b), -1);
  }

  // A run that reaches the end of the mask moves its end along.
  lemma EndsNext(mask: seq<bool>, b: bool)
    requires mask != []
    ensures mask[|mask| - 1] ==> EndIndices(mask) != [] && EndIndices(mask)[|EndIndices(mask)| - 1] == |mask| - 1
    ensures EndIndices(mask + [b]) == MoveEnd(EndIndices(mask), mask, b)
  {
    hide Diff, Where;
    FallsNext(mask, b);
    var settled := Where(Diff(mask), -1);
    assert (settled + [|mask| - 1])[..|settled|] == settled;
    assert settled + [] == settled;
  }

  function MoveEnd(ends: seq<int>, mask: seq<bool>, b: bool): seq<int>
    requires mask != []
  {
    if !b then ends
    else (if mask[|mask| - 1] && ends != [] then ends[..|ends| - 1] else ends) + [|mask|]
  }

  function AddStart(starts: seq<int>, mask: seq<bool>, b: bool): seq<int>
    requires mask != []
  {
    starts + (if b && !mask[|mask| - 1] then [|mask|] else [])
  }

  // ---------- Maximal runs ----------

  predicate IsRun(mask: seq<bool>, start: int, end: int) {
    && 0 <= start <= end < |mask| && (forall k :: start <= k <= end ==> mask[k])
    && (start > 0 ==> !mask[start - 1]) && (end + 1 < |mask| ==> !mask[end + 1])
  }

  ghost predicate AllRuns(mask: seq<bool>, starts: seq<int>, ends: seq<int>) {
    |starts| == |ends| && forall k :: 0 <= k < |starts| ==> IsRun(mask, starts[k], ends[k])
  }

  // In order, with an unset bit between neighbours.
  ghost predicate Apart(starts: seq<int>, ends: seq<int>) {
    |starts| == |ends| && forall j, k :: 0 <= j < k < |starts| ==> ends[j] + 1 < starts[k]
  }

  ghost predicate Listed(starts: seq<int>, ends: seq<int>, s: int, e: int) {
    |starts| == |ends| && exists k :: 0 <= k < |starts| && starts[k] == s && ends[k] == e
  }

  ghost predicate AllListed(mask: seq<bool>, starts: seq<int>, ends: seq<int>) {
    forall s, e :: IsRun(mask, s, e) ==> Listed(starts, ends, s, e)
  }

  ghost predicate EdgesOf(mask: seq<bool>, starts: seq<int>, ends: seq<int>) {
    && AllRuns(mask, starts, ends) && Apart(starts, ends) && AllListed(mask, starts, ends)
    && (mask != [] && mask[|mask| - 1] ==> ends != [] && ends[|ends| - 1] == |mask| - 1)
  }

  // Only the last run of a mask with its last bit set reaches the last position.
  lemma EndsBefore(mask: seq<bool>, starts: seq<int>, ends: seq<int>, k: nat)
    requires mask != [] && AllRuns(mask, starts, ends) && Apart(starts, ends) && k < |starts|
    ensures ends[k] < |mask|
    ensures !mask[|mask| - 1] || k < |starts| - 1 ==> ends[k] < |mask| - 1
  {
    assert IsRun(mask, starts[k], ends[k]);
    if k < |starts| - 1 {
      assert IsRun(mask, starts[k + 1], ends[k + 1]);
    }
  }

  // A run of the longer mask, in terms of the runs of the mask.
  lemma RunNext(mask: seq<bool>, b: bool, s: int, e: int)
    requires mask != []
    ensures IsRun(mask + [b], s, e) <==>
            (if e < |mask| then IsRun(mask, s, e) && (e < |mask| - 1 || !b)
             else e == |mask| && b && (if mask[|mask| - 1] then IsRun(mask, s, e - 1) else s == e))
  {
    var longer, n := mask + [b], |mask|;
    assert forall k :: 0 <= k < n ==> longer[k] == mask[k];
    assert longer[n] == b;
    if e == n && IsRun(longer, s, e) && s < n {
      assert longer[n - 1] && mask[n - 1];
    }
  }

  lemma StepRuns(mask: seq<bool>, b: bool, starts: seq<int>, ends: seq<int>)
    requires mask != [] && EdgesOf(mask, starts, ends)
    ensures AllRuns(mask + [b], AddStart(starts, mask, b), MoveEnd(ends, mask, b))
  {
    hide IsRun, AllListed;
    var starts', ends' := AddStart(starts, mask, b), MoveEnd(ends, mask, b);
    forall k | 0 <= k < |starts'| ensures IsRun(mask + [b], starts'[k], ends'[k]) {
      RunNext(mask, b, starts'[k], ends'[k]);
      if k < |starts| {
        EndsBefore(mask, starts, ends, k);
      }
    }
  }

  lemma StepApart(mask: seq<bool>, b: bool, starts: seq<int>, ends: seq<int>)
    requires mask != [] && EdgesOf(mask, starts, ends)
    ensures Apart(AddStart(starts, mask, b), MoveEnd(ends, mask, b))
  {
    hide IsRun, AllListed;
    forall k: nat | k < |starts| ensures ends[k] < |mask| && (b && !mask[|mask| - 1] ==> ends[k] + 1 < |mask|) {
      EndsBefore(mask, starts, ends, k);
    }
  }

  lemma StepListed(mask: seq<bool>, b: bool, starts: seq<int>, ends: seq<int>, s: int, e: int)
    requires mask != [] && EdgesOf(mask, starts, ends) && IsRun(mask + [b], s, e)
    ensures Listed(AddStart(starts, mask, b), MoveEnd(ends, mask, b), s, e)
  {
    hide IsRun;
    RunNext(mask, b, s, e);
    var starts', ends' := AddStart(starts, mask, b), MoveEnd(ends, mask, b);
    if e == |mask| && !mask[|mask| - 1] {
      assert starts'[|starts|] == s && ends'[|starts|] == e;
    } else {
      var e0 := if e == |mask| then e - 1 else e;
      assert Listed(starts, ends, s, e0);
      var k :| 0 <= k < |starts| && starts[k] == s && ends[k] == e0;
      EndsBefore(mask, starts, ends, k);
      assert starts'[k] == s && ends'[k] == e;
    }
  }

  // The edges are exactly the two ends of the maximal runs; both lists have the same length.
  lemma {:induction false} EdgesAreRuns(mask: seq<bool>)
    requires mask != []
    ensures EdgesOf(mask, StartIndices(mask), EndIndices(mask))
  {
    if |mask| == 1 {
      OneBit(mask);
    } else {
      hide StartIndices, EndIndices, IsRun, AllRuns, Apart, Listed;
      var init, b := mask[..|mask| - 1], mask[|mask| - 1];
      assert mask == init + [b];
      EdgesAreRuns(init);
      StartsNext(init, b);
      EndsNext(init, b);
      EndsNext(mask, b);
      var starts, ends := StartIndices(init), EndIndices(init);
      StepRuns(init, b, starts, ends);
      StepApart(init, b, starts, ends);
      forall s, e | IsRun(mask, s, e) ensures Listed(StartIndices(mask), EndIndices(mask), s, e) {
        StepListed(init, b, starts, ends, s, e);
      }
    }
  }

  lemma OneBit(mask: seq<bool>)
    requires |mask| == 1
    ensures EdgesOf(mask, StartIndices(mask), EndIndices(mask))
  {
    OneBitEdges(mask);
    hide StartIndices, EndIndices;
    if mask[0] {
      assert IsRun(mask, 0, 0);
      assert [0][0] == 0;
      assert Listed([0], [0], 0, 0);
    }
  }

  lemma OneBitEdges(mask: seq<bool>)
    requires |mask| == 1
    ensures StartIndices(mask) == EndIndices(mask) == if mask[0] then [0] else []
  {
    assert Diff(mask) == [] && PlusOne([]) == [];
  }

  lemma {:induction false} ZipAll(starts: seq<int>, ends: seq<int>)
    requires |starts| == |ends|
    ensures |Zip(starts, ends)| == |starts|
    ensures forall k :: 0 <= k < |starts| ==> Zip(starts, ends)[k] == Run(starts[k], ends[k])
  {
    if starts != [] {
      ZipAll(starts[1..], ends[1..]);
    }
  }

  // The returned pairs are the maximal runs of set bits, all of them, in order and apart.
  ghost predicate MaximalRuns(mask: seq<bool>, runs: seq<Run>) {
    && (forall k :: 0 <= k < |runs| ==> IsRun(mask, runs[k].start, runs[k].end))
    && (forall j, k :: 0 <= j < k < |runs| ==> runs[j].end + 1 < runs[k].start)
    && (forall s, e :: IsRun(mask, s, e) ==> Run(s, e) in runs)
  }

  lemma ZippedRuns(mask: seq<bool>, starts: seq<int>, ends: seq<int>, runs: seq<Run>)
    requires EdgesOf(mask, starts, ends) && |runs| == |starts|
    requires forall k :: 0 <= k < |starts| ==> runs[k] == Run(starts[k], ends[k])
    ensures MaximalRuns(mask, runs)
  {
    hide IsRun;
    forall s, e | IsRun(mask, s, e) ensures Run(s, e) in runs {
      assert Listed(starts, ends, s, e);
      var k :| 0 <= k < |starts| && starts[k] == s && ends[k] == e;
      assert runs[k] == Run(s, e);
    }
  }

  // Rising and falling edges agree in number, so zipping drops none, and the pairs are the maximal runs.
  lemma PairsAreMaximalRuns(mask: seq<bool>)
    ensures MaximalRuns(mask, MaskStartAndEnd(mask))
    ensures mask != [] ==> |StartIndices(mask)| == |EndIndices(mask)| == |MaskStartAndEnd(mask)|
  {
    if mask != [] {
      hide StartIndices, EndIndices, Zip, AllRuns, Apart, AllListed, MaximalRuns;
      EdgesAreRuns(mask);
      SameNumber(mask, StartIndices(mask), EndIndices(mask));
      ZipAll(StartIndices(mask), EndIndices(mask));
      ZippedRuns(mask, StartIndices(mask), EndIndices(mask), Zip(StartIndices(mask), EndIndices(mask)));
    }
  }

  lemma SameNumber(mask: seq<bool>, starts: seq<int>, ends: seq<int>)
    requires AllRuns(mask, starts, ends)
    ensures |starts| == |ends|
  {
  }
}
