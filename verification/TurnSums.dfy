/** What the sums behind the scaled loss add up, and which turns they range over. */
module TurnSums {
  import opened MaskRuns
  import opened TurnLoss

  // ---------- Plain sums ----------

  lemma {:induction false} SumRealAppend(a: seq<real>, b: seq<real>)
    ensures SumReal(a + b) == SumReal(a) + SumReal(b)
  {
    if b == [] {
      assert a + b == a;
    } else {
      assert (a + b)[..|a + b| - 1] == a + b[..|b| - 1];
      SumRealAppend(a, b[..|b| - 1]);
    }
  }

  lemma SumRealOne(x: real)
    ensures SumReal([x]) == x && SumReal([]) == 0.0
  {
    assert [x][..0] == [];
  }

  // The loss of a turn is the sum of the losses from its first to its last token.
  lemma {:induction false} TurnSumIsSliceSum(losses: seq<real>, start: int, end: int)
    requires 0 <= start <= end + 1 <= |losses|
    ensures RangeSum(losses, start, end) == SumReal(losses[start..end + 1])
    decreases end - start
  {
    if start <= end {
      TurnSumIsSliceSum(losses, start, end - 1);
      assert losses[start..end + 1] == losses[start..end] + [losses[end]];
      SumRealAppend(losses[start..end], [losses[end]]);
      SumRealOne(losses[end]);
    }
  }

  // ---------- The two sums of the formula ----------

  lemma {:induction false} BaseAppend(a: seq<Turn>, b: seq<Turn>, root: int -> real)
    ensures Base(a + b, root) == Base(a, root) + Base(b, root)
  {
    if b == [] {
      assert a + b == a;
    } else {
      assert (a + b)[..|a + b| - 1] == a + b[..|b| - 1];
      BaseAppend(a, b[..|b| - 1], root);
    }
  }

  predicate RootFits(turn: Turn, root: int -> real) {
    root(turn.length) > 0.0 && root(turn.length) * root(turn.length) == turn.length as real
  }

  lemma RootScaledSumNext(turns: seq<Turn>, turn: Turn, root: int -> real)
    requires RootsFit(turns, root) && RootFits(turn, root)
    ensures RootsFit(turns + [turn], root)
    ensures RootScaledSum(turns + [turn], root) == RootScaledSum(turns, root) + turn.sum / root(turn.length)
  {
    var longer := turns + [turn];
    assert longer[..|longer| - 1] == turns && longer[|longer| - 1] == turn;
  }

  lemma FitsPrefix(turns: seq<Turn>, root: int -> real)
    requires RootsFit(turns, root) && turns != []
    ensures RootsFit(turns[..|turns| - 1], root) && RootFits(turns[|turns| - 1], root)
  {
  }

  lemma {:induction false} RootScaledSumAppend(a: seq<Turn>, b: seq<Turn>, root: int -> real)
    requires RootsFit(a, root) && RootsFit(b, root)
    ensures RootsFit(a + b, root)
    ensures RootScaledSum(a + b, root) == RootScaledSum(a, root) + RootScaledSum(b, root)
  {
    if b == [] {
      assert a + b == a;
    } else {
      hide RootScaledSum, RootsFit, RootFits;
      var init, last := b[..|b| - 1], b[|b| - 1];
      FitsPrefix(b, root);
      RootScaledSumAppend(a, init, root);
      RootScaledSumNext(init, last, root);
      RootScaledSumNext(a + init, last, root);
      assert init + [last] == b && a + init + [last] == a + b;
    }
  }

  // One turn adds the root of its length to the one sum, and its loss sum over that root to the other.
  lemma SumsOfOneTurn(turn: Turn, root: int -> real)
    requires root(turn.length) != 0.0
    ensures Base([turn], root) == root(turn.length) && Base([], root) == 0.0
    ensures RootScaledSum([turn], root) == turn.sum / root(turn.length) && RootScaledSum([], root) == 0.0
  {
    assert [turn][..0] == [];
  }

  // ---------- The turns ----------

  // The turn of a run: the losses from its first to its last token, and how many they are.
  function TurnOfRun(losses: seq<real>, run: Run): Turn
    requires 0 <= run.start <= run.end < |losses|
  {
    Turn(SumReal(losses[run.start..run.end + 1]), run.end + 1 - run.start)
  }

  // A sample has one turn for each run, in order.
  lemma {:induction false} SampleTurnsAre(losses: seq<real>, runs: seq<Run>)
    requires RunsFit(runs, |losses|)
    ensures |SampleTurns(losses, runs)| == |runs|
    ensures forall k :: 0 <= k < |runs| ==> SampleTurns(losses, runs)[k] == TurnOfRun(losses, runs[k])
  {
    if runs != [] {
      var last := runs[|runs| - 1];
      SampleTurnsAre(losses, runs[..|runs| - 1]);
      TurnSumIsSliceSum(losses, last.start, last.end);
      hide RangeSum, SumReal;
    }
  }

  // The turns of a batch are those of its samples, one sample after the other.
  lemma {:induction false} BatchTurnsAppend(
    masks: seq<seq<bool>>, losses: seq<seq<real>>, moreMasks: seq<seq<bool>>, moreLosses: seq<seq<real>>)
    requires SameShape(masks, losses) && SameShape(moreMasks, moreLosses)
    ensures SameShape(masks + moreMasks, losses + moreLosses)
    ensures BatchTurns(masks + moreMasks, losses + moreLosses)
            == BatchTurns(masks, losses) + BatchTurns(moreMasks, moreLosses)
  {
    hide MaskStartAndEnd, SampleTurns;
    if moreMasks == [] {
      assert masks + moreMasks == masks && losses + moreLosses == losses;
    } else {
      var n := |moreMasks| - 1;
      assert (masks + moreMasks)[..|masks| + n] == masks + moreMasks[..n];
      assert (losses + moreLosses)[..|masks| + n] == losses + moreLosses[..n];
      BatchTurnsAppend(masks, losses, moreMasks[..n], moreLosses[..n]);
    }
  }

  lemma BatchOfOne(mask: seq<bool>, losses: seq<real>)
    requires |mask| == |losses|
    ensures RunsFit(MaskStartAndEnd(mask), |losses|)
    ensures BatchTurns([mask], [losses]) == SampleTurns(losses, MaskStartAndEnd(mask))
  {
    RunsOfMaskFit(mask);
    hide MaskStartAndEnd, SampleTurns;
    assert [mask][..0] == [] && [losses][..0] == [];
  }

  // A single sample has exactly one turn for each maximal run of its mask, with the sum and number of its losses.
  lemma TurnsOfOneSample(mask: seq<bool>, losses: seq<real>)
    requires |mask| == |losses|
    ensures var runs, turns := MaskStartAndEnd(mask), BatchTurns([mask], [losses]);
            && MaximalRuns(mask, runs) && RunsFit(runs, |losses|) && |turns| == |runs|
            && forall k :: 0 <= k < |runs| ==> turns[k] == TurnOfRun(losses, runs[k])
  {
    hide MaskStartAndEnd, SampleTurns, BatchTurns, TurnOfRun, MaximalRuns;
    PairsAreMaximalRuns(mask);
    BatchOfOne(mask, losses);
    SampleTurnsAre(losses, MaskStartAndEnd(mask));
  }
}
