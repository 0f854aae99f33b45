/** What one turn of the game does to the buffer, the two sessions and the lists of both teams. */
module JunqiTurns {
  import opened Junqi
  import opened JunqiRuns
  import opened Sequences

  // ---------- The tokens of a move ----------

  // The token at position k of a real move.
  function TokenAt(o: Outcome, k: nat): int
    requires Answers(o) && k < (if o.resultId == 4 then 1 else 2) + |o.flags| + |o.deadPlayers|
  {
    var first := if o.resultId == 4 then 1 else 2;
    if k == 0 then o.action
    else if k < first then 157612 + o.resultId
    else if k < first + |o.flags| then 157600 + o.flags[k - first]
    else 157608 + o.deadPlayers[k - first - |o.flags|]
  }

  lemma {:induction false} LookupAt(ids: seq<int>, indices: seq<nat>, base: int)
    requires forall k :: 0 <= k < |indices| ==> indices[k] < |ids|
    requires forall k :: 0 <= k < |ids| ==> ids[k] == base + k
    ensures forall k :: 0 <= k < |indices| ==> Lookup(ids, indices)[k] == base + indices[k]
  {
    if indices != [] {
      LookupAt(ids, indices[1..], base);
    }
  }

  // A move appends its action, the result unless it is a pass, the flags shown and the players lost, in that order.
  lemma MoveTokensAre(o: Outcome)
    requires Answers(o)
    ensures |MoveTokens(o)| == (if o.resultId == 4 then 1 else 2) + |o.flags| + |o.deadPlayers|
    ensures forall k: nat :: k < |MoveTokens(o)| ==> MoveTokens(o)[k] == TokenAt(o, k)
  {
    hide Lookup, LogitsMask;
    LookupAt(FLAG_IDS, o.flags, 157600);
    LookupAt(DEAD_IDS, o.deadPlayers, 157608);
  }

  // The logits mask lists the allowed actions in ascending order.
  lemma {:induction false} LogitsMaskRises(actionMask: seq<bool>)
    ensures forall i, j :: 0 <= i < j < |LogitsMask(actionMask)| ==>
              LogitsMask(actionMask)[i] < LogitsMask(actionMask)[j]
  {
    if actionMask != [] {
      var n := |actionMask| - 1;
      var init := LogitsMask(actionMask[..n]);
      LogitsMaskRises(actionMask[..n]);
      forall i | 0 <= i < |init| ensures init[i] < n + FIRST_ACTION {
        assert init[i] in init;
        OnlyLegalActions(actionMask[..n], init[i]);
      }
    }
  }

  // ---------- Real turns and skipped turns ----------

  function Prompt(prompts: (seq<int>, seq<int>), group: nat): seq<int> {
    if group == 0 then prompts.0 else prompts.1
  }

  // Nothing was sent to the session.
  predicate SessionKept(before: Side, after: Side) {
    after.started == before.started && after.idx == before.idx && after.sent == before.sent
  }

  // n positions that are not trained on.
  ghost predicate Padded(before: Side, after: Side, n: nat) {
    && |after.mask| == |before.mask| + n && |after.logProbs| == |before.logProbs| + n
    && before.mask <= after.mask && before.logProbs <= after.logProbs
    && (forall p :: |before.mask| <= p < |after.mask| ==> after.mask[p] == 0)
    && (forall p :: |before.logProbs| <= p < |after.logProbs| ==> after.logProbs[p] == 0.0)
  }

  // One position that is trained on with this log-prob, then n that are not.
  ghost predicate Trained(before: Side, after: Side, logProb: real, n: nat) {
    && |after.mask| == |before.mask| + 1 + n && |after.logProbs| == |before.logProbs| + 1 + n
    && before.mask <= after.mask && before.logProbs <= after.logProbs
    && after.mask[|before.mask|] == 1 && after.logProbs[|before.logProbs|] == logProb
    && (forall p :: |before.mask| < p < |after.mask| ==> after.mask[p] == 0)
    && (forall p :: |before.logProbs| < p < |after.logProbs| ==> after.logProbs[p] == 0.0)
  }

  // The mover's session has now been sent its prompt and the whole buffer as it was before the move, the other
  // session nothing. The mover is trained on the action alone.
  ghost predicate MovedBy(s: State, t: State, prompts: (seq<int>, seq<int>), group: nat, o: Outcome)
    requires group < 2
  {
    var before, after := SideOf(s, group), SideOf(t, group);
    var other, other' := SideOf(s, 1 - group), SideOf(t, 1 - group);
    var n := |t.buffer| - |s.buffer|;
    && n >= 1 && s.buffer <= t.buffer
    && after.started && after.idx == |s.buffer| && after.sent == Prompt(prompts, group) + s.buffer
    && SessionKept(other, other')
    && Trained(before, after, o.logProb, n - 1) && Padded(other, other', n)
    && after.rewards == before.rewards + [[o.reward]]
    && after.logitsMasks == before.logitsMasks + [LogitsMask(o.actionMask)]
    && other'.logitsMasks == other.logitsMasks && |other'.rewards| == |other.rewards|
    && (forall k :: 0 <= k < |other.rewards| ==>
          other'.rewards[k] == if k == |other.rewards| - 1 then other.rewards[k] + [-o.reward] else other.rewards[k])
  }

  ghost predicate SkippedBy(s: State, t: State) {
    && t.buffer == s.buffer + [157599] && t.dead == s.dead && t.complete == s.complete
    && SessionKept(s.sides.0, t.sides.0) && SessionKept(s.sides.1, t.sides.1)
    && Padded(s.sides.0, t.sides.0, 1) && Padded(s.sides.1, t.sides.1, 1)
    && t.sides.0.rewards == s.sides.0.rewards && t.sides.0.logitsMasks == s.sides.0.logitsMasks
    && t.sides.1.rewards == s.sides.1.rewards && t.sides.1.logitsMasks == s.sides.1.logitsMasks
  }

  lemma WatchPads(side: Side, n: nat)
    ensures Padded(side, Watch(side, n), n) && SessionKept(side, Watch(side, n))
  {
    hide Repeat;
  }

  lemma MovedTrains(side: Side, o: Outcome)
    requires Answers(o)
    ensures Trained(side, Moved(side, o), o.logProb, |MoveTokens(o)| - 1) && SessionKept(side, Moved(side, o))
  {
    hide Repeat, MoveTokens, LogitsMask;
  }

  // Whatever the session had been sent, it now has the prompt and the whole buffer.
  lemma DeliverSends(side: Side, prompt: seq<int>, buffer: seq<int>)
    requires Delivered(side, prompt, buffer)
    ensures var d := Deliver(side, prompt, buffer);
            d.started && d.idx == |buffer| && d.sent == prompt + buffer
            && d == side.(started := d.started, idx := d.idx, sent := d.sent)
  {
    assert buffer == buffer[..side.idx] + buffer[side.idx..];
    if side.started {
      assert (prompt + buffer[..side.idx]) + [] + buffer[side.idx..] == prompt + buffer;
    } else {
      assert [] + prompt + buffer[0..] == prompt + buffer;
    }
  }

  lemma RealMoveIs(s: State, prompts: (seq<int>, seq<int>), group: nat, o: Outcome)
    requires group < 2 && Answers(o) && Synced(s) && Delivered(SideOf(s, group), Prompt(prompts, group), s.buffer)
    ensures var t := RealMove(s, prompts, group, o);
            && MovedBy(s, t, prompts, group, o)
            && t.buffer == s.buffer + MoveTokens(o)
            && t.dead == s.dead + (set p | p in o.deadPlayers)
  {
    hide Deliver, Moved, Watch, MoveTokens, LogitsMask, Delivered, Trained, Padded, Answers, GameOver;
    var d := Deliver(SideOf(s, group), Prompt(prompts, group), s.buffer);
    DeliverSends(SideOf(s, group), Prompt(prompts, group), s.buffer);
    MovedTrains(d, o);
    WatchPads(SideOf(s, 1 - group), |MoveTokens(o)|);
    MovedLists(d, o);
    WatchLists(SideOf(s, 1 - group), |MoveTokens(o)|);
    SameTraining(SideOf(s, group), d, Moved(d, o), o.logProb, |MoveTokens(o)| - 1);
    TokensNotEmpty(o);
    var w := Watch(SideOf(s, 1 - group), |MoveTokens(o)|);
    SamePadding(SideOf(s, 1 - group), w, w.(rewards := Opposed(w.rewards, o.reward)), |MoveTokens(o)|);
  }

  lemma TokensNotEmpty(o: Outcome)
    requires Answers(o)
    ensures |MoveTokens(o)| >= 1
  {
    hide LogitsMask;
  }

  lemma MovedLists(side: Side, o: Outcome)
    requires Answers(o)
    ensures Moved(side, o).rewards == side.rewards + [[o.reward]]
    ensures Moved(side, o).logitsMasks == side.logitsMasks + [LogitsMask(o.actionMask)]
  {
    hide Repeat, MoveTokens, LogitsMask;
  }

  lemma WatchLists(side: Side, n: nat)
    ensures Watch(side, n).rewards == side.rewards && Watch(side, n).logitsMasks == side.logitsMasks
  {
    hide Repeat;
  }

  lemma SameTraining(a: Side, b: Side, after: Side, logProb: real, n: nat)
    requires a.mask == b.mask && a.logProbs == b.logProbs && Trained(b, after, logProb, n)
    ensures Trained(a, after, logProb, n)
  {
  }

  lemma SamePadding(before: Side, a: Side, b: Side, n: nat)
    requires a.mask == b.mask && a.logProbs == b.logProbs && Padded(before, a, n)
    ensures Padded(before, b, n)
  {
  }

  lemma SkipIs(s: State)
    ensures SkippedBy(s, Skip(s))
  {
    hide Watch, Padded;
    WatchPads(s.sides.0, 1);
    WatchPads(s.sides.1, 1);
    WatchLists(s.sides.0, 1);
    WatchLists(s.sides.1, 1);
  }

  // ---------- On whole runs ----------

  // The state after a turn: unchanged once the game is over, a pass for everyone when the player is dead, and
  // otherwise a move of the player's team on everything that has happened so far.
  ghost predicate TurnEffect(s: State, t: State, prompts: (seq<int>, seq<int>), n: nat, o: Outcome) {
    && (s.complete ==> t == s)
    && (!s.complete && n % 4 in s.dead ==> SkippedBy(s, t))
    && (!s.complete && n % 4 !in s.dead ==>
          && Answers(o) && MovedBy(s, t, prompts, n % 2, o) && t.buffer == s.buffer + MoveTokens(o)
          && t.dead == s.dead + (set p | p in o.deadPlayers))
  }

  lemma TurnOfRun(prompts: (seq<int>, seq<int>), outcomes: seq<Outcome>, n: nat)
    requires n < |outcomes| && Fair(prompts, outcomes, n) && Fair(prompts, outcomes, n + 1)
    ensures TurnEffect(Run(prompts, outcomes, n), Run(prompts, outcomes, n + 1), prompts, n, outcomes[n])
  {
    hide Fair, Run, Turn, RolloutInvariant, TurnEffect;
    var s := Run(prompts, outcomes, n);
    RunKeepsInvariant(prompts, outcomes, n);
    if s.complete {
      RunStops(prompts, outcomes, n, n + 1);
      NoTurn(s, prompts, n, outcomes[n]);
    } else {
      RunStep(prompts, outcomes, n, s);
      TurnIs(s, prompts, n, outcomes[n]);
    }
  }

  lemma NoTurn(s: State, prompts: (seq<int>, seq<int>), i: nat, o: Outcome)
    requires s.complete
    ensures TurnEffect(s, s, prompts, i, o)
  {
    hide MovedBy, SkippedBy, MoveTokens, Answers;
  }

  lemma TurnIs(s: State, prompts: (seq<int>, seq<int>), i: nat, o: Outcome)
    requires Ready(s, i, o) && RolloutInvariant(s, prompts) && !s.complete
    ensures TurnEffect(s, Turn(s, prompts, i, o), prompts, i, o)
  {
    hide RealMove, Skip, MovedBy, SkippedBy, MoveTokens, Answers, Aligned, Trainable, Delivered, Exclusive;
    if i % 4 in s.dead {
      SkipIs(s);
    } else {
      RealMoveIs(s, prompts, i % 2, o);
    }
  }

  // Before the first turn there is nothing.
  lemma RunStart(prompts: (seq<int>, seq<int>), outcomes: seq<Outcome>)
    ensures var s := Run(prompts, outcomes, 0);
            && s.buffer == [] && s.dead == {} && !s.complete
            && s.sides.0 == s.sides.1 == Side([], [], [], [], 0, false, [])
  {
  }

  // A pass that the board allows, and nothing else.
  predicate Passes(o: Outcome) {
    && |o.actionMask| > 5934 && o.actionMask[5934] && o.action == 157599 && o.resultId == 4
    && o.flags == [] && o.deadPlayers == []
  }

  lemma PassIsAnswer(o: Outcome)
    requires Passes(o)
    ensures Answers(o) && MoveTokens(o) == [157599]
  {
    OnlyLegalActions(o.actionMask, o.action);
    hide LogitsMask;
    assert Lookup(FLAG_IDS, o.flags) == [] && Lookup(DEAD_IDS, o.deadPlayers) == [];
  }

  // Nothing in the contract of the board and the server keeps a game from going on: with allowed passes only, it
  // lasts for any number of turns.
  lemma {:induction false} PassingGame(prompts: (seq<int>, seq<int>), outcomes: seq<Outcome>, n: nat)
    requires n <= |outcomes| && forall k :: 0 <= k < n ==> Passes(outcomes[k])
    ensures Fair(prompts, outcomes, n)
    ensures var s := Run(prompts, outcomes, n); !s.complete && s.dead == {} && s.buffer == Repeat(157599, n)
  {
    hide Turn, Answers, Passes, MoveTokens;
    if n > 0 {
      PassingGame(prompts, outcomes, n - 1);
      PassIsAnswer(outcomes[n - 1]);
      PassTurn(Run(prompts, outcomes, n - 1), prompts, n - 1, outcomes[n - 1]);
    }
  }

  lemma PassTurn(s: State, prompts: (seq<int>, seq<int>), i: nat, o: Outcome)
    requires Ready(s, i, o) && Passes(o) && s.dead == {} && !s.complete
    ensures s.dead + Players(o.deadPlayers) != {0, 1, 2, 3}
    ensures var t := Turn(s, prompts, i, o); !t.complete && t.dead == {} && t.buffer == s.buffer + [157599]
  {
    PassIsAnswer(o);
    hide Answers, MoveTokens, Moved, Watch, Deliver, Opposed, GameOver;
    assert 0 !in s.dead + Players(o.deadPlayers);
  }
}
