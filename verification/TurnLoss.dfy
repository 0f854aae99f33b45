/** The loss scaled per conversation turn, in exact arithmetic with the square root as a parameter. */
module TurnLoss {
  import opened Arithmetic
  import opened MaskRuns
  import opened Sequences
  import opened Wrappers

  // One turn: the sum of its losses and its number of labels.
  datatype Turn = Turn(sum: real, length: int)

  datatype ScaleError = EmptyLossList | ShapeMismatch

  ghost predicate SquareRoot(root: int -> real) {
    forall n: int :: n > 0 ==> root(n) > 0.0 && root(n) * root(n) == n as real
  }

  // losses[start:end + 1].sum()
  function RangeSum(losses: seq<real>, start: int, end: int): real
    requires 0 <= start && end < |losses|
    decreases end - start
  {
    if end < start then 0.0 else RangeSum(losses, start, end - 1) + losses[end]
  }

  function Mean(turn: Turn): real
    requires turn.length > 0
  {
    turn.sum / turn.length as real
  }

  predicate AllFilled(turns: seq<Turn>) {
    forall k :: 0 <= k < |turns| ==> turns[k].length > 0
  }

  // sum of the square roots of the turn lengths
  function Base(turns: seq<Turn>, root: int -> real): real {
    if turns == [] then 0.0
    else Base(turns[..|turns| - 1], root) + root(turns[|turns| - 1].length)
  }

  // The documented numerator: each turn's loss sum over the root of its length.
  function RootScaledSum(turns: seq<Turn>, root: int -> real): real
    requires forall k :: 0 <= k < |turns| ==> root(turns[k].length) != 0.0
  {
    if turns == [] then 0.0
    else
      var last := turns[|turns| - 1];
      RootScaledSum(turns[..|turns| - 1], root) + last.sum / root(last.length)
  }

  function SumReal(values: seq<real>): real {
    if values == [] then 0.0 else SumReal(values[..|values| - 1]) + values[|values| - 1]
  }

  // A mask and losses of the same sample have one entry for each token.
  predicate SameShape(masks: seq<seq<bool>>, losses: seq<seq<real>>) {
    |masks| == |losses| && forall i :: 0 <= i < |masks| ==> |masks[i]| == |losses[i]|
  }

  function TurnOf(losses: seq<real>, run: Run): Turn
    requires 0 <= run.start <= run.end < |losses|
  {
    Turn(RangeSum(losses, run.start, run.end), run.end - run.start + 1)
  }

  predicate RunsFit(runs: seq<Run>, n: int) {
    forall k :: 0 <= k < |runs| ==> 0 <= runs[k].start <= runs[k].end < n
  }

  function SampleTurns(losses: seq<real>, runs: seq<Run>): (turns: seq<Turn>)
    requires RunsFit(runs, |losses|)
  {
    if runs == [] then []
    else SampleTurns(losses, runs[..|runs| - 1]) + [TurnOf(losses, runs[|runs| - 1])]
  }

  lemma RunsOfMaskFit(mask: seq<bool>)
    ensures RunsFit(MaskStartAndEnd(mask), |mask|)
  {
    PairsAreMaximalRuns(mask);
  }

  // All turns of the batch, sample by sample.
  function BatchTurns(masks: seq<seq<bool>>, losses: seq<seq<real>>): seq<Turn>
    requires SameShape(masks, losses)
  {
    if masks == [] then []
    else
      var last := |masks| - 1;
      RunsOfMaskFit(masks[last]);
      BatchTurns(masks[..last], losses[..last]) + SampleTurns(losses[last], MaskStartAndEnd(masks[last]))
  }

  // ---------- losses.view(-1) * loss_mask ----------

  // The masks are the rows of one tensor.
  predicate Rectangular(masks: seq<seq<bool>>, width: nat) {
    forall i :: 0 <= i < |masks| ==> |masks[i]| == width
  }

  // Two last dimensions broadcast when they are equal or one of them is 1.
  predicate Broadcast(m: int, n: int) {
    m == n || m == 1 || n == 1
  }

  function BroadcastWidth(m: nat, n: nat): nat
    requires Broadcast(m, n)
  {
    if m == 1 then n else m
  }

  // The product at column c of one row of the mask.
  function ProductAt(flat: seq<real>, row: seq<bool>, c: nat): real
    requires Broadcast(|flat|, |row|) && c < BroadcastWidth(|flat|, |row|)
  {
    if row[if |row| == 1 then 0 else c] then flat[if |flat| == 1 then 0 else c] else 0.0
  }

  function RowSum(flat: seq<real>, row: seq<bool>, n: nat): real
    requires Broadcast(|flat|, |row|) && n <= BroadcastWidth(|flat|, |row|)
  {
    if n == 0 then 0.0 else RowSum(flat, row, n - 1) + ProductAt(flat, row, n - 1)
  }

  // torch.sum of the product, row by row.
  function MaskedSum(flat: seq<real>, masks: seq<seq<bool>>): real
    requires forall i :: 0 <= i < |masks| ==> Broadcast(|flat|, |masks[i]|)
  {
    if masks == [] then 0.0
    else
      var last := |masks| - 1;
      MaskedSum(flat, masks[..last]) + RowSum(flat, masks[last], BroadcastWidth(|flat|, |masks[last]|))
  }

  method SumOfProduct(flat: seq<real>, masks: seq<seq<bool>>) returns (total: real)
    requires forall i :: 0 <= i < |masks| ==> Broadcast(|flat|, |masks[i]|)
    ensures total == MaskedSum(flat, masks)
  {
    hide ProductAt;
    total := 0.0;
    var i := 0;
    while i < |masks|
      invariant 0 <= i <= |masks| && total == MaskedSum(flat, masks[..i])
    {
      assert masks[..i + 1][..i] == masks[..i] && masks[..i + 1][i] == masks[i];
      var row := 0.0;
      var c := 0;
      while c < BroadcastWidth(|flat|, |masks[i]|)
        invariant 0 <= c <= BroadcastWidth(|flat|, |masks[i]|) && row == RowSum(flat, masks[i], c)
      {
        row := row + ProductAt(flat, masks[i], c);
        c := c + 1;
      }
      total := total + row;
      i := i + 1;
    }
    assert masks[..i] == masks;
  }

  predicate AllUnset(masks: seq<seq<bool>>) {
    forall i :: 0 <= i < |masks| ==> forall k :: 0 <= k < |masks[i]| ==> !masks[i][k]
  }

  lemma {:induction false} RowSumUnset(flat: seq<real>, row: seq<bool>, n: nat)
    requires Broadcast(|flat|, |row|) && n <= BroadcastWidth(|flat|, |row|)
    requires forall k :: 0 <= k < |row| ==> !row[k]
    ensures RowSum(flat, row, n) == 0.0
  {
    if n > 0 {
      RowSumUnset(flat, row, n - 1);
    }
  }

  lemma {:induction false} MaskedSumUnset(flat: seq<real>, masks: seq<seq<bool>>)
    requires AllUnset(masks) && forall i :: 0 <= i < |masks| ==> Broadcast(|flat|, |masks[i]|)
    ensures MaskedSum(flat, masks) == 0.0
  {
    if masks != [] {
      var last := |masks| - 1;
      MaskedSumUnset(flat, masks[..last]);
      RowSumUnset(flat, masks[last], BroadcastWidth(|flat|, |masks[last]|));
    }
  }

  // A set bit lies in a run.
  lemma BitHasRun(mask: seq<bool>, k: nat) returns (s: nat, e: nat)
    requires k < |mask| && mask[k]
    ensures IsRun(mask, s, e)
  {
    s, e := k, k;
    while s > 0 && mask[s - 1]
      invariant s <= k && forall j :: s <= j <= k ==> mask[j]
    {
      s := s - 1;
    }
    while e + 1 < |mask| && mask[e + 1]
      invariant k <= e < |mask| && forall j :: s <= j <= e ==> mask[j]
      decreases |mask| - e
    {
      e := e + 1;
    }
  }

  lemma NoRunsUnset(mask: seq<bool>)
    requires MaskStartAndEnd(mask) == []
    ensures forall k :: 0 <= k < |mask| ==> !mask[k]
  {
    PairsAreMaximalRuns(mask);
    hide MaskStartAndEnd;
    forall k: nat | k < |mask| ensures !mask[k] {
      if mask[k] {
        var s, e := BitHasRun(mask, k);
      }
    }
  }

  lemma NoTurnsNoRuns(losses: seq<real>, runs: seq<Run>)
    requires RunsFit(runs, |losses|) && SampleTurns(losses, runs) == []
    ensures runs == []
  {
  }

  // Without turns no bit of any mask is set.
  lemma {:induction false} NoTurnsUnset(masks: seq<seq<bool>>, losses: seq<seq<real>>)
    requires SameShape(masks, losses) && BatchTurns(masks, losses) == []
    ensures AllUnset(masks)
  {
    hide MaskStartAndEnd, SampleTurns;
    if masks != [] {
      var last := |masks| - 1;
      RunsOfMaskFit(masks[last]);
      NoTurnsUnset(masks[..last], losses[..last]);
      NoTurnsNoRuns(losses[last], MaskStartAndEnd(masks[last]));
      NoRunsUnset(masks[last]);
    }
  }

  lemma {:induction false} FlatLength(masks: seq<seq<bool>>, losses: seq<seq<real>>, width: nat)
    requires SameShape(masks, losses) && Rectangular(masks, width)
    ensures |Flatten(losses)| == |masks| * width
    decreases |masks|
  {
    if masks != [] {
      FlatLength(masks[1..], losses[1..], width);
      assert |losses[0]| == |masks[0]| == width;
      assert |masks| * width == width + |masks[1..]| * width;
    }
  }

  // All losses of B samples of S tokens broadcast against the B by S mask for one sample, or at most one token.
  lemma BroadcastIff(samples: nat, width: nat)
    ensures Broadcast(samples * width, width) <==> samples == 1 || width <= 1
  {
    if samples >= 2 && width >= 2 {
      assert samples * width >= 2 * width;
    } else if samples == 0 {
      assert samples * width == 0;
    }
  }

  // ---------- The loss of the batch ----------

  method ScaledLoss(masks: seq<seq<bool>>, losses: seq<seq<real>>, width: nat, contextParallelSize: int,
                    root: int -> real) returns (loss: Result<real, ScaleError>)
    requires SameShape(masks, losses) && Rectangular(masks, width) && SquareRoot(root)
    ensures loss.Err? <==>
            BatchTurns(masks, losses) == [] && (contextParallelSize <= 1 || !(|masks| == 1 || width <= 1))
    ensures loss.Err? ==> loss.error == if contextParallelSize <= 1 then EmptyLossList else ShapeMismatch
    ensures loss.Ok? && BatchTurns(masks, losses) == [] ==> loss.value == 0.0
    ensures var turns := BatchTurns(masks, losses);
            AllFilled(turns)
            && (turns != [] ==>
                  Base(turns, root) > 0.0 && loss.value == RootScaledSum(turns, root) / Base(turns, root))
  {
    hide SquareRoot, Normalized, Mean, Base, RootScaledSum, SumReal, BatchTurns, Flatten;
    var turns := CollectTurns(masks, losses);
    BatchFilled(masks, losses);
    if turns == [] {
      if contextParallelSize <= 1 {
        return Err(EmptyLossList);
      }
      loss := MaskedLoss(masks, losses, width);
      return;
    }
    BasePositive(turns, root);
    var lossList := Means(turns);
    var baseNum := SumOfRoots(turns, root);
    lossList := NormalizeTurns(lossList, turns, root, baseNum);
    ScaledTotal(turns, lossList, root, baseNum);
    loss := Ok(SumReal(lossList));
  }

  // The sum of the masked losses of a rank without turns: zero, or an error when the shapes do not broadcast.
  method MaskedLoss(masks: seq<seq<bool>>, losses: seq<seq<real>>, width: nat)
      returns (loss: Result<real, ScaleError>)
    requires SameShape(masks, losses) && Rectangular(masks, width) && BatchTurns(masks, losses) == []
    ensures loss == if |masks| == 1 || width <= 1 then Ok(0.0) else Err(ShapeMismatch)
  {
    hide BatchTurns, Flatten;
    var flat := Flatten(losses);
    FlatLength(masks, losses, width);
    BroadcastIff(|masks|, width);
    if !Broadcast(|flat|, width) {
      return Err(ShapeMismatch);
    }
    NoTurnsUnset(masks, losses);
    MaskedSumUnset(flat, masks);
    var total := SumOfProduct(flat, masks);
    loss := Ok(total);
  }

  lemma FirstRunHasBit(mask: seq<bool>, runs: seq<Run>)
    requires MaximalRuns(mask, runs)
    ensures runs != [] ==> exists k :: 0 <= k < |mask| && mask[k]
  {
    if runs != [] {
      var k := runs[0].start;
      assert IsRun(mask, k, runs[0].end);
      assert mask[k];
    }
  }

  lemma NoRunOfUnset(mask: seq<bool>)
    requires forall k :: 0 <= k < |mask| ==> !mask[k]
    ensures MaskStartAndEnd(mask) == []
  {
    PairsAreMaximalRuns(mask);
    hide MaskStartAndEnd, MaximalRuns;
    FirstRunHasBit(mask, MaskStartAndEnd(mask));
  }

  lemma {:induction false} UnsetNoTurns(masks: seq<seq<bool>>, losses: seq<seq<real>>)
    requires SameShape(masks, losses) && AllUnset(masks)
    ensures BatchTurns(masks, losses) == []
  {
    hide MaskStartAndEnd;
    if masks != [] {
      var last := |masks| - 1;
      UnsetNoTurns(masks[..last], losses[..last]);
      NoRunOfUnset(masks[last]);
    }
  }

  // Two samples of two tokens without loss tokens: with context parallelism this is a shape error.
  lemma TwoSilentSamples(losses: seq<seq<real>>)
    requires SameShape([[false, false], [false, false]], losses)
    ensures BatchTurns([[false, false], [false, false]], losses) == []
    ensures !Broadcast(|Flatten(losses)|, 2)
  {
    var masks := [[false, false], [false, false]];
    FlatLength(masks, losses, 2);
    UnsetNoTurns(masks, losses);
  }

  // Rewrites each turn's mean loss in place.
  method NormalizeTurns(means: seq<real>, turns: seq<Turn>, root: int -> real, baseNum: real)
      returns (lossList: seq<real>)
    requires AllFilled(turns) && |means| == |turns| && baseNum != 0.0
    requires forall k :: 0 <= k < |turns| ==> means[k] == Mean(turns[k])
    ensures |lossList| == |turns|
    ensures forall k :: 0 <= k < |turns| ==> lossList[k] == Scaled(turns[k], root, baseNum)
  {
    hide Normalized, Mean;
    lossList := means;
    var idx := 0;
    while idx < |lossList|
      invariant 0 <= idx <= |lossList| == |turns|
      invariant forall k :: 0 <= k < idx ==> lossList[k] == Scaled(turns[k], root, baseNum)
      invariant forall k :: idx <= k < |turns| ==> lossList[k] == Mean(turns[k])
    {
      lossList := lossList[idx := Normalized(lossList[idx], root(turns[idx].length), baseNum)];
      idx := idx + 1;
    }
  }

  // loss * sqrt(labels) / base
  function Normalized(loss: real, rootOfLength: real, base: real): real
    requires base != 0.0
  {
    loss * rootOfLength / base
  }

  function Scaled(turn: Turn, root: int -> real, base: real): real
    requires turn.length > 0 && base != 0.0
  {
    Normalized(Mean(turn), root(turn.length), base)
  }

  method CollectTurns(masks: seq<seq<bool>>, losses: seq<seq<real>>) returns (turns: seq<Turn>)
    requires SameShape(masks, losses)
    ensures turns == BatchTurns(masks, losses)
  {
    hide MaskStartAndEnd, SampleTurns;
    turns := [];
    var idx := 0;
    while idx < |masks|
      invariant 0 <= idx <= |masks| && turns == BatchTurns(masks[..idx], losses[..idx])
    {
      RunsOfMaskFit(masks[idx]);
      assert masks[..idx + 1][..idx] == masks[..idx] && losses[..idx + 1][..idx] == losses[..idx];
      var runs := MaskStartAndEnd(masks[idx]);
      var ofSample := TurnsOfSample(losses[idx], runs);
      turns := turns + ofSample;
      idx := idx + 1;
    }
    assert masks[..idx] == masks && losses[..idx] == losses;
  }

  method TurnsOfSample(losses: seq<real>, runs: seq<Run>) returns (turns: seq<Turn>)
    requires RunsFit(runs, |losses|)
    ensures turns == SampleTurns(losses, runs)
  {
    turns := [];
    var i := 0;
    while i < |runs|
      invariant 0 <= i <= |runs| && RunsFit(runs[..i], |losses|) && turns == SampleTurns(losses, runs[..i])
    {
      assert runs[..i + 1][..i] == runs[..i];
      turns := turns + [TurnOf(losses, runs[i])];
      i := i + 1;
    }
    assert runs[..i] == runs;
  }

  method Means(turns: seq<Turn>) returns (means: seq<real>)
    requires AllFilled(turns)
    ensures |means| == |turns| && forall k :: 0 <= k < |turns| ==> means[k] == Mean(turns[k])
  {
    means := [];
    var i := 0;
    while i < |turns|
      invariant 0 <= i <= |turns| && |means| == i
      invariant forall k :: 0 <= k < i ==> means[k] == Mean(turns[k])
    {
      means := means + [Mean(turns[i])];
      i := i + 1;
    }
  }

  method SumOfRoots(turns: seq<Turn>, root: int -> real) returns (base: real)
    ensures base == Base(turns, root)
  {
    base := 0.0;
    var i := 0;
    while i < |turns|
      invariant 0 <= i <= |turns| && base == Base(turns[..i], root)
    {
      assert turns[..i + 1][..i] == turns[..i];
      base := base + root(turns[i].length);
      i := i + 1;
    }
    assert turns[..i] == turns;
  }

  lemma {:induction false} SampleFilled(losses: seq<real>, runs: seq<Run>)
    requires RunsFit(runs, |losses|)
    ensures AllFilled(SampleTurns(losses, runs))
  {
    if runs != [] {
      SampleFilled(losses, runs[..|runs| - 1]);
    }
  }

  lemma {:induction false} BatchFilled(masks: seq<seq<bool>>, losses: seq<seq<real>>)
    requires SameShape(masks, losses)
    ensures AllFilled(BatchTurns(masks, losses))
  {
    hide MaskStartAndEnd, SampleTurns;
    if masks != [] {
      var last := |masks| - 1;
      BatchFilled(masks[..last], losses[..last]);
      RunsOfMaskFit(masks[last]);
      SampleFilled(losses[last], MaskStartAndEnd(masks[last]));
    }
  }

  lemma {:induction false} BasePositive(turns: seq<Turn>, root: int -> real)
    requires AllFilled(turns) && SquareRoot(root)
    ensures Base(turns, root) >= 0.0 && (turns != [] ==> Base(turns, root) > 0.0)
    ensures forall k :: 0 <= k < |turns| ==> root(turns[k].length) > 0.0
    ensures forall k :: 0 <= k < |turns| ==>
      root(turns[k].length) * root(turns[k].length) == turns[k].length as real
  {
    if turns != [] {
      BasePositive(turns[..|turns| - 1], root);
    }
  }

  // ---------- The documented formula ----------

  lemma Positive(a: real, b: real, product: real)
    requires a > 0.0 && b > 0.0 && a * b == product
    ensures product > 0.0
  {
  }

  // A mean times the root of the length is the sum over the root of the length.
  lemma MeanTimesRoot(sum: real, length: real, r: real)
    requires r > 0.0 && r * r == length
    ensures length > 0.0 && sum / length * r == sum / r
  {
    Positive(r, r, length);
    var mean := sum / length;
    DivTimes(sum, length);
    assert (mean * r) * r == mean * (r * r) == sum;
    TimesDiv(mean * r, r);
  }

  predicate RootsFit(turns: seq<Turn>, root: int -> real) {
    forall k :: 0 <= k < |turns| ==>
      root(turns[k].length) > 0.0 && root(turns[k].length) * root(turns[k].length) == turns[k].length as real
  }

  lemma ScaledIsQuotient(turn: Turn, root: int -> real, base: real)
    requires turn.length > 0 && base > 0.0
    requires root(turn.length) > 0.0 && root(turn.length) * root(turn.length) == turn.length as real
    ensures Scaled(turn, root, base) == (turn.sum / root(turn.length)) / base
  {
    MeanTimesRoot(turn.sum, turn.length as real, root(turn.length));
  }

  lemma {:induction false} ScaledTotal(turns: seq<Turn>, scaled: seq<real>, root: int -> real, base: real)
    requires AllFilled(turns) && RootsFit(turns, root) && base > 0.0 && |scaled| == |turns|
    requires forall k :: 0 <= k < |turns| ==> scaled[k] == Scaled(turns[k], root, base)
    ensures SumReal(scaled) == RootScaledSum(turns, root) / base
  {
    hide Scaled;
    if turns == [] {
      assert SumReal(scaled) == 0.0;
    } else {
      var last := |turns| - 1;
      ScaledTotal(turns[..last], scaled[..last], root, base);
      ScaledIsQuotient(turns[last], root, base);
      AddQuotients(RootScaledSum(turns[..last], root), turns[last].sum / root(turns[last].length), base);
    }
  }

  lemma AddQuotients(a: real, b: real, base: real)
    requires base > 0.0
    ensures (a + b) / base == a / base + b / base
  {
  }

  // ---------- The scaled loss is a weighted average ----------

  // total lies between lo and hi times the weight
  predicate Between(lo: real, hi: real, total: real, weight: real) {
    lo * weight <= total <= hi * weight
  }

  predicate MeansBetween(turns: seq<Turn>, lo: real, hi: real) {
    forall k :: 0 <= k < |turns| ==> Between(lo, hi, turns[k].sum, turns[k].length as real)
  }

  lemma RootShare(sum: real, length: real, r: real, lo: real, hi: real)
    requires r > 0.0 && r * r == length && Between(lo, hi, sum, length)
    ensures Between(lo, hi, sum / r, r)
  {
    var q := sum / r;
    DivTimes(sum, r);
    assert (lo * r) * r == lo * length && (hi * r) * r == hi * length;
    Cancel(lo * r, q, r);
    Cancel(q, hi * r, r);
  }

  lemma MulLess(a: real, b: real, r: real)
    requires r > 0.0 && a < b
    ensures a * r < b * r
  {
    assert (b - a) * r > 0.0;
  }

  lemma Cancel(a: real, b: real, r: real)
    requires r > 0.0 && a * r <= b * r
    ensures a <= b
  {
    if b < a {
      MulLess(b, a, r);
    }
  }

  lemma AddBounds(lo: real, hi: real, s: real, b: real, q: real, r: real)
    requires Between(lo, hi, s, b) && Between(lo, hi, q, r)
    ensures Between(lo, hi, s + q, b + r)
  {
    assert lo * (b + r) == lo * b + lo * r && hi * (b + r) == hi * b + hi * r;
  }

  lemma NothingBetween(lo: real, hi: real)
    ensures Between(lo, hi, 0.0, 0.0)
  {
  }

  lemma {:induction false} SumBetween(turns: seq<Turn>, root: int -> real, lo: real, hi: real)
    requires RootsFit(turns, root) && MeansBetween(turns, lo, hi)
    ensures Between(lo, hi, RootScaledSum(turns, root), Base(turns, root))
  {
    if turns == [] {
      NothingBetween(lo, hi);
    } else {
      hide Between;
      var init, last := turns[..|turns| - 1], turns[|turns| - 1];
      SumBetween(init, root, lo, hi);
      RootShare(last.sum, last.length as real, root(last.length), lo, hi);
      AddBounds(lo, hi, RootScaledSum(init, root), Base(init, root), last.sum / root(last.length), root(last.length));
    }
  }

  lemma BoundsOfQuotient(q: real, total: real, base: real, lo: real, hi: real)
    requires base > 0.0 && q * base == total && Between(lo, hi, total, base)
    ensures lo <= q <= hi
  {
    Cancel(lo, q, base);
    Cancel(q, hi, base);
  }

  // The weights add up to one: the scaled loss lies between any bounds on the turn means,
  // and equals their common value when they agree.
  lemma ScaledLossIsAverage(turns: seq<Turn>, root: int -> real, lo: real, hi: real)
    requires RootsFit(turns, root) && MeansBetween(turns, lo, hi) && Base(turns, root) > 0.0
    ensures lo <= RootScaledSum(turns, root) / Base(turns, root) <= hi
  {
    hide Between, MeansBetween;
    SumBetween(turns, root, lo, hi);
    var base, total := Base(turns, root), RootScaledSum(turns, root);
    DivTimes(total, base);
    BoundsOfQuotient(total / base, total, base, lo, hi);
  }

  lemma OneBetween(lo: real, hi: real, x: real)
    requires lo <= x <= hi
    ensures Between(lo, hi, x, 1.0)
  {
  }

  // Bounds on the losses of the tokens carry over to the turns, so to the scaled loss.
  lemma {:induction false} RangeBetween(losses: seq<real>, start: int, end: int, lo: real, hi: real)
    requires 0 <= start && start - 1 <= end < |losses|
    requires forall k :: start <= k <= end ==> lo <= losses[k] <= hi
    ensures Between(lo, hi, RangeSum(losses, start, end), (end - start + 1) as real)
    decreases end - start
  {
    if start <= end {
      RangeBetween(losses, start, end - 1, lo, hi);
      assert (end - start + 1) as real == (end - start) as real + 1.0;
      OneBetween(lo, hi, losses[end]);
      hide Between;
      AddBounds(lo, hi, RangeSum(losses, start, end - 1), (end - start) as real, losses[end], 1.0);
    } else {
      NothingBetween(lo, hi);
    }
  }

  predicate TokensBetween(mask: seq<bool>, losses: seq<real>, lo: real, hi: real)
    requires |mask| == |losses|
  {
    forall k :: 0 <= k < |mask| && mask[k] ==> lo <= losses[k] <= hi
  }

  lemma {:induction false} SampleBetween(mask: seq<bool>, losses: seq<real>, runs: seq<Run>, lo: real, hi: real)
    requires |mask| == |losses| && TokensBetween(mask, losses, lo, hi) && RunsFit(runs, |losses|)
    requires forall k :: 0 <= k < |runs| ==> IsRun(mask, runs[k].start, runs[k].end)
    ensures MeansBetween(SampleTurns(losses, runs), lo, hi)
  {
    hide Between;
    if runs != [] {
      var last := runs[|runs| - 1];
      SampleBetween(mask, losses, runs[..|runs| - 1], lo, hi);
      RangeBetween(losses, last.start, last.end, lo, hi);
    }
  }

  lemma {:induction false} BatchBetween(masks: seq<seq<bool>>, losses: seq<seq<real>>, lo: real, hi: real)
    requires SameShape(masks, losses)
    requires forall i :: 0 <= i < |masks| ==> TokensBetween(masks[i], losses[i], lo, hi)
    ensures MeansBetween(BatchTurns(masks, losses), lo, hi)
  {
    hide MaskStartAndEnd, SampleTurns, Between, TokensBetween, IsRun;
    if masks != [] {
      var last := |masks| - 1;
      BatchBetween(masks[..last], losses[..last], lo, hi);
      RunsOfMaskFit(masks[last]);
      PairsAreMaximalRuns(masks[last]);
      SampleBetween(masks[last], losses[last], MaskStartAndEnd(masks[last]), lo, hi);
    }
  }

  // The scaled loss stays between any bounds on the losses of the unmasked tokens.
  lemma BatchLossBetween(masks: seq<seq<bool>>, losses: seq<seq<real>>, root: int -> real, lo: real, hi: real)
    requires SameShape(masks, losses) && SquareRoot(root) && BatchTurns(masks, losses) != []
    requires forall i :: 0 <= i < |masks| ==> TokensBetween(masks[i], losses[i], lo, hi)
    ensures var turns := BatchTurns(masks, losses);
            RootsFit(turns, root) && Base(turns, root) > 0.0
            && lo <= RootScaledSum(turns, root) / Base(turns, root) <= hi
  {
    hide BatchTurns, TokensBetween, MeansBetween;
    BatchFilled(masks, losses);
    BasePositive(BatchTurns(masks, losses), root);
    BatchBetween(masks, losses, lo, hi);
    hide SquareRoot, Base, RootScaledSum;
    ScaledLossIsAverage(BatchTurns(masks, losses), root, lo, hi);
  }
}
