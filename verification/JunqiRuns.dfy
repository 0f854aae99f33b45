/** What every rollout of the game keeps: aligned lists, masks that point at legal actions, a
    session that has seen exactly a prefix of the buffer, and rewards that cancel. */
module JunqiRuns {
  import opened Arithmetic
  import opened Junqi
  import opened Sequences

  // ---------- Alignment of the lists ----------

  // The trainable positions, in order.
  function Ones(mask: seq<int>): seq<nat> {
    if mask == [] then []
    else
      var n := |mask| - 1;
      Ones(mask[..n]) + (if mask[n] == 1 then [n] else [])
  }

  lemma {:induction false} OnesZeros(mask: seq<int>, n: nat)
    ensures Ones(mask + Repeat(0, n)) == Ones(mask)
  {
    if n == 0 {
      assert mask + Repeat(0, 0) == mask;
    } else {
      assert (mask + Repeat(0, n))[..|mask| + n - 1] == mask + Repeat(0, n - 1);
      assert (mask + Repeat(0, n))[|mask| + n - 1] == 0;
      OnesZeros(mask, n - 1);
    }
  }

  lemma OnesMove(mask: seq<int>, n: nat)
    ensures Ones(mask + [1] + Repeat(0, n)) == Ones(mask) + [|mask|]
  {
    OnesZeros(mask + [1], n);
    assert (mask + [1])[..|mask|] == mask;
  }

  lemma {:induction false} OnesInRange(mask: seq<int>)
    ensures forall k :: 0 <= k < |Ones(mask)| ==> Ones(mask)[k] < |mask| && mask[Ones(mask)[k]] == 1
    ensures forall p :: 0 <= p < |mask| && mask[p] == 1 ==> p in Ones(mask)
    ensures forall j, k :: 0 <= j < k < |Ones(mask)| ==> Ones(mask)[j] < Ones(mask)[k]
  {
    if mask != [] {
      OnesInRange(mask[..|mask| - 1]);
    }
  }

  // The k-th trainable position holds a token that the k-th logits mask allowed.
  ghost predicate Trainable(side: Side, buffer: seq<int>) {
    && |Ones(side.mask)| == |side.logitsMasks| == |side.rewards|
    && forall k :: 0 <= k < |Ones(side.mask)| ==>
         Ones(side.mask)[k] < |buffer| && buffer[Ones(side.mask)[k]] in side.logitsMasks[k]
  }

  ghost predicate Aligned(side: Side, buffer: seq<int>) {
    && |side.mask| == |side.logProbs| == |buffer|
    && (forall p :: 0 <= p < |side.mask| ==> side.mask[p] == 0 || side.mask[p] == 1)
    && (forall p :: 0 <= p < |side.mask| && side.mask[p] == 0 ==> side.logProbs[p] == 0.0)
  }

  // The session has been sent the prompt and a prefix of the buffer, each position once.
  ghost predicate Delivered(side: Side, prompt: seq<int>, buffer: seq<int>) {
    && side.idx <= |buffer| && side.sent == (if side.started then prompt + buffer[..side.idx] else [])
    && (!side.started ==> side.idx == 0)
  }

  ghost predicate Exclusive(a: Side, b: Side) {
    |a.mask| == |b.mask| && forall p :: 0 <= p < |a.mask| ==> a.mask[p] == 0 || b.mask[p] == 0
  }

  ghost predicate SideOk(side: Side, prompt: seq<int>, buffer: seq<int>) {
    Aligned(side, buffer) && Trainable(side, buffer) && Delivered(side, prompt, buffer)
  }

  ghost predicate RolloutInvariant(s: State, prompts: (seq<int>, seq<int>)) {
    SideOk(s.sides.0, prompts.0, s.buffer) && SideOk(s.sides.1, prompts.1, s.buffer) && Exclusive(s.sides.0, s.sides.1)
  }

  lemma WatchKeeps(side: Side, prompt: seq<int>, buffer: seq<int>, tokens: seq<int>, rewards: seq<seq<real>>)
    requires SideOk(side, prompt, buffer) && |rewards| == |side.rewards|
    ensures SideOk(Watch(side, |tokens|).(rewards := rewards), prompt, buffer + tokens)
  {
    OnesZeros(side.mask, |tokens|);
    var w := Watch(side, |tokens|).(rewards := rewards);
    WatchTrainable(side, buffer, tokens, rewards);
    WatchAligned(side, buffer, tokens, rewards);
    assert (buffer + tokens)[..side.idx] == buffer[..side.idx];
  }

  lemma WatchTrainable(side: Side, buffer: seq<int>, tokens: seq<int>, rewards: seq<seq<real>>)
    requires Trainable(side, buffer) && |rewards| == |side.rewards|
    ensures Trainable(Watch(side, |tokens|).(rewards := rewards), buffer + tokens)
  {
    OnesZeros(side.mask, |tokens|);
  }

  lemma WatchAligned(side: Side, buffer: seq<int>, tokens: seq<int>, rewards: seq<seq<real>>)
    requires Aligned(side, buffer)
    ensures Aligned(Watch(side, |tokens|).(rewards := rewards), buffer + tokens)
  {
  }

  lemma DeliverKeeps(side: Side, prompt: seq<int>, buffer: seq<int>)
    requires SideOk(side, prompt, buffer)
    ensures SideOk(Deliver(side, prompt, buffer), prompt, buffer)
  {
    assert buffer[..|buffer|] == buffer;
    assert buffer[..side.idx] + buffer[side.idx..] == buffer;
    if side.started {
      assert (prompt + buffer[..side.idx]) + [] + buffer[side.idx..] == prompt + buffer;
    } else {
      assert [] + prompt + buffer[0..] == prompt + buffer;
    }
  }

  lemma MovedKeeps(side: Side, prompt: seq<int>, buffer: seq<int>, o: Outcome)
    requires SideOk(side, prompt, buffer) && Answers(o)
    ensures SideOk(Moved(side, o), prompt, buffer + MoveTokens(o))
  {
    MovedTrainable(side, buffer, o);
    MovedAligned(side, buffer, o);
    assert (buffer + MoveTokens(o))[..side.idx] == buffer[..side.idx];
  }

  lemma MovedTrainable(side: Side, buffer: seq<int>, o: Outcome)
    requires Trainable(side, buffer) && Answers(o) && |side.mask| == |buffer|
    ensures Trainable(Moved(side, o), buffer + MoveTokens(o))
  {
    hide LogitsMask;
    var tokens, m := MoveTokens(o), Moved(side, o);
    OnesMove(side.mask, |tokens| - 1);
    hide MoveTokens, Repeat, Ones;
    forall k | 0 <= k < |Ones(m.mask)|
      ensures Ones(m.mask)[k] < |buffer + tokens| && (buffer + tokens)[Ones(m.mask)[k]] in m.logitsMasks[k]
    {
      if k < |Ones(side.mask)| {
        assert Ones(m.mask)[k] == Ones(side.mask)[k];
      } else {
        assert Ones(m.mask)[k] == |buffer|;
      }
    }
  }

  lemma MovedAligned(side: Side, buffer: seq<int>, o: Outcome)
    requires Aligned(side, buffer) && Answers(o)
    ensures Aligned(Moved(side, o), buffer + MoveTokens(o))
  {
    hide MoveTokens, LogitsMask;
  }

  lemma StillExclusive(a: Side, b: Side, buffer: seq<int>, o: Outcome)
    requires Exclusive(a, b) && Answers(o)
    ensures Exclusive(Moved(a, o), Watch(b, |MoveTokens(o)|)) && Exclusive(Watch(b, |MoveTokens(o)|), Moved(a, o))
  {
    hide MoveTokens, LogitsMask;
  }

  lemma MoveKeeps(mover: Side, other: Side, prompt: seq<int>, otherPrompt: seq<int>, buffer: seq<int>, o: Outcome)
    requires SideOk(mover, prompt, buffer) && SideOk(other, otherPrompt, buffer)
    requires Exclusive(mover, other) && Answers(o)
    ensures var tokens := MoveTokens(o);
            var m := Moved(Deliver(mover, prompt, buffer), o);
            var w := Watch(other, |tokens|);
            var w' := w.(rewards := Opposed(w.rewards, o.reward));
            && SideOk(m, prompt, buffer + tokens) && SideOk(w', otherPrompt, buffer + tokens)
            && Exclusive(m, w') && Exclusive(w', m)
  {
    assert mover.idx <= |buffer|;
    assert Deliver(mover, prompt, buffer).idx <= |buffer|;
    hide SideOk, MoveTokens, LogitsMask, Opposed;
    DeliverKeeps(mover, prompt, buffer);
    MovedKeeps(Deliver(mover, prompt, buffer), prompt, buffer, o);
    OpposedKeeps(other, otherPrompt, buffer, o);
    StillExclusive(Deliver(mover, prompt, buffer), other, buffer, o);
  }

  lemma OpposedKeeps(other: Side, prompt: seq<int>, buffer: seq<int>, o: Outcome)
    requires SideOk(other, prompt, buffer) && Answers(o)
    ensures var w := Watch(other, |MoveTokens(o)|);
            SideOk(w.(rewards := Opposed(w.rewards, o.reward)), prompt, buffer + MoveTokens(o))
  {
    WatchKeeps(other, prompt, buffer, MoveTokens(o), Opposed(other.rewards, o.reward));
  }

  lemma WatchExclusive(a: Side, b: Side)
    requires Exclusive(a, b)
    ensures Exclusive(Watch(a, 1), Watch(b, 1))
  {
  }

  lemma TurnKeeps(s: State, prompts: (seq<int>, seq<int>), i: nat, o: Outcome)
    requires RolloutInvariant(s, prompts) && (i % 4 !in s.dead ==> Answers(o))
    ensures Synced(s) && RolloutInvariant(Turn(s, prompts, i, o), prompts)
  {
    assert Synced(s);
    hide SideOk, Exclusive, Answers, MoveTokens, Moved, Opposed, GameOver, Players;
    if i % 4 in s.dead {
      WatchKeeps(s.sides.0, prompts.0, s.buffer, [PASS], s.sides.0.rewards);
      WatchKeeps(s.sides.1, prompts.1, s.buffer, [PASS], s.sides.1.rewards);
      WatchExclusive(s.sides.0, s.sides.1);
    } else if i % 2 == 0 {
      MoveKeeps(s.sides.0, s.sides.1, prompts.0, prompts.1, s.buffer, o);
    } else {
      MoveKeeps(s.sides.1, s.sides.0, prompts.1, prompts.0, s.buffer, o);
    }
  }

  // After every turn of every rollout.
  lemma {:induction false} RunKeepsInvariant(prompts: (seq<int>, seq<int>), outcomes: seq<Outcome>, n: nat)
    requires n <= |outcomes| && Fair(prompts, outcomes, n)
    ensures RolloutInvariant(Run(prompts, outcomes, n), prompts)
  {
    hide RolloutInvariant, Turn, Answers;
    if n == 0 {
      InitKeeps(prompts);
    } else {
      RunKeepsInvariant(prompts, outcomes, n - 1);
      var s := Run(prompts, outcomes, n - 1);
      if !s.complete {
        TurnKeeps(s, prompts, n - 1, outcomes[n - 1]);
      }
    }
  }

  lemma InitKeeps(prompts: (seq<int>, seq<int>))
    ensures RolloutInvariant(Init(), prompts)
  {
  }

  // The board is only ever given actions its own mask allows.
  lemma {:induction false} OnlyLegalActions(actionMask: seq<bool>, action: int)
    ensures action in LogitsMask(actionMask)
       <==> 0 <= action - 151665 < |actionMask| && actionMask[action - 151665]
  {
    if actionMask != [] {
      OnlyLegalActions(actionMask[..|actionMask| - 1], action);
    }
  }

  // ---------- Rewards ----------

  datatype Move = Move(group: nat, reward: real)

  // The real moves of the first n turns, in order.
  function Moves(prompts: (seq<int>, seq<int>), outcomes: seq<Outcome>, n: nat): seq<Move>
    requires n <= |outcomes| && Fair(prompts, outcomes, n)
  {
    if n == 0 then []
    else
      var s := Run(prompts, outcomes, n - 1);
      Moves(prompts, outcomes, n - 1)
      + if s.complete || (n - 1) % 4 in s.dead then [] else [Move((n - 1) % 2, outcomes[n - 1].reward)]
  }

  // The negated rewards of the opponent's moves before the team's next own move.
  function Replies(moves: seq<Move>, group: nat): seq<real> {
    if moves == [] || moves[0].group == group then [] else [-moves[0].reward] + Replies(moves[1..], group)
  }

  // One entry per own move: its reward, then the replies to it.
  function Entries(moves: seq<Move>, group: nat): seq<seq<real>> {
    if moves == [] then []
    else
      (if moves[0].group == group then [[moves[0].reward] + Replies(moves[1..], group)] else [])
      + Entries(moves[1..], group)
  }

  predicate NoMoveOf(moves: seq<Move>, group: nat) {
    moves == [] || (moves[0].group != group && NoMoveOf(moves[1..], group))
  }

  lemma {:induction false} RepliesSnoc(moves: seq<Move>, m: Move, group: nat)
    ensures Replies(moves + [m], group)
         == if m.group != group && NoMoveOf(moves, group) then Replies(moves, group) + [-m.reward]
            else Replies(moves, group)
  {
    hide Opposed;
    if moves == [] {
      NoneOpposed(m.reward);
      assert [] + [m] == [m];
      assert [m][1..] == [];
    } else {
      assert (moves + [m])[1..] == moves[1..] + [m];
      RepliesSnoc(moves[1..], m, group);
    }
  }

  lemma {:induction false} NoEntries(moves: seq<Move>, group: nat)
    ensures Entries(moves, group) == [] <==> NoMoveOf(moves, group)
  {
    if moves != [] {
      NoEntries(moves[1..], group);
    }
  }

  // A further move opens an entry for its own team and extends the opponent's last one.
  lemma {:induction false} EntriesSnoc(moves: seq<Move>, m: Move, group: nat)
    ensures Entries(moves + [m], group)
         == if m.group == group then Entries(moves, group) + [[m.reward]] else Opposed(Entries(moves, group), m.reward)
  {
    if moves == [] {
      assert [] + [m] == [m];
      assert [m][1..] == [];
      assert [m.reward] + Replies([], group) == [m.reward];
    } else {
      var rest := moves[1..];
      assert (moves + [m])[1..] == rest + [m];
      EntriesSnoc(rest, m, group);
      RepliesSnoc(rest, m, group);
      NoEntries(rest, group);
      if moves[0].group == group && m.group != group {
        var first := [moves[0].reward] + Replies(rest, group);
        OpposedCons(first, Entries(rest, group), m.reward);
        if Entries(rest, group) == [] {
          assert [moves[0].reward] + (Replies(rest, group) + [-m.reward]) == first + [-m.reward];
        }
      }
    }
  }

  lemma NoneOpposed(reward: real)
    ensures Opposed([], reward) == []
  {
  }

  lemma OpposedCons(first: seq<real>, rest: seq<seq<real>>, reward: real)
    ensures Opposed([first] + rest, reward)
         == if rest == [] then [first + [-reward]] else [first] + Opposed(rest, reward)
  {
    var all := [first] + rest;
    if rest == [] {
      assert all[..|all| - 1] == [];
    } else {
      assert all[..|all| - 1] == [first] + rest[..|rest| - 1];
    }
  }

  // The reward lists of both teams are exactly these entries.
  lemma {:induction false} RewardsAreEntries(prompts: (seq<int>, seq<int>), outcomes: seq<Outcome>, n: nat)
    requires n <= |outcomes| && Fair(prompts, outcomes, n)
    ensures Run(prompts, outcomes, n).sides.0.rewards == Entries(Moves(prompts, outcomes, n), 0)
    ensures Run(prompts, outcomes, n).sides.1.rewards == Entries(Moves(prompts, outcomes, n), 1)
  {
    if n > 0 {
      RewardsAreEntries(prompts, outcomes, n - 1);
      var s, moves := Run(prompts, outcomes, n - 1), Moves(prompts, outcomes, n - 1);
      assert moves + [] == moves;
      if !s.complete && (n - 1) % 4 !in s.dead {
        var m := Move((n - 1) % 2, outcomes[n - 1].reward);
        EntriesSnoc(moves, m, 0);
        EntriesSnoc(moves, m, 1);
        TurnRewards(s, prompts, n - 1, outcomes[n - 1]);
      }
    }
  }

  lemma TurnRewards(s: State, prompts: (seq<int>, seq<int>), i: nat, o: Outcome)
    requires Synced(s) && i % 4 !in s.dead && Answers(o)
    ensures var t := Turn(s, prompts, i, o);
            && SideOf(t, i % 2).rewards == SideOf(s, i % 2).rewards + [[o.reward]]
            && SideOf(t, 1 - i % 2).rewards == Opposed(SideOf(s, 1 - i % 2).rewards, o.reward)
  {
  }

  function Total(rewards: seq<real>): real {
    if rewards == [] then 0.0 else rewards[0] + Total(rewards[1..])
  }

  function GrandTotal(entries: seq<seq<real>>): real {
    if entries == [] then 0.0 else Total(entries[0]) + GrandTotal(entries[1..])
  }

  // What the first team to move earns before the other team's first move.
  function Lead(moves: seq<Move>): real {
    if moves == [] then 0.0
    else if |moves| > 1 && moves[1].group != moves[0].group then moves[0].reward
    else moves[0].reward + Lead(moves[1..])
  }

  lemma {:induction false} TotalSnoc(rewards: seq<real>, r: real)
    ensures Total(rewards + [r]) == Total(rewards) + r
  {
    if rewards == [] {
      assert [] + [r] == [r];
      assert Total([r][1..]) == 0.0;
    } else {
      assert (rewards + [r])[1..] == rewards[1..] + [r];
      TotalSnoc(rewards[1..], r);
    }
  }

  lemma {:induction false} GrandTotalSnoc(entries: seq<seq<real>>, e: seq<real>)
    ensures GrandTotal(entries + [e]) == GrandTotal(entries) + Total(e)
  {
    if entries == [] {
      assert [] + [e] == [e];
      assert GrandTotal([e][1..]) == 0.0;
    } else {
      assert (entries + [e])[1..] == entries[1..] + [e];
      GrandTotalSnoc(entries[1..], e);
    }
  }

  lemma GrandTotalOpposed(entries: seq<seq<real>>, r: real)
    ensures GrandTotal(Opposed(entries, r)) == GrandTotal(entries) - if entries == [] then 0.0 else r
  {
    if entries != [] {
      var n := |entries| - 1;
      GrandTotalSnoc(entries[..n], entries[n] + [-r]);
      GrandTotalSnoc(entries[..n], entries[n]);
      TotalSnoc(entries[n], -r);
      assert entries == entries[..n] + [entries[n]];
    }
  }

  lemma {:induction false} LeadSnoc(moves: seq<Move>, m: Move)
    requires m.group < 2 && forall k :: 0 <= k < |moves| ==> moves[k].group < 2
    ensures Lead(moves + [m]) == if NoMoveOf(moves, 1 - m.group) then Lead(moves) + m.reward else Lead(moves)
  {
    if moves == [] {
      assert [] + [m] == [m];
      assert Lead([m][1..]) == 0.0;
    } else {
      assert (moves + [m])[1..] == moves[1..] + [m];
      if |moves| > 1 && moves[1].group == moves[0].group {
        LeadSnoc(moves[1..], m);
      } else if |moves| == 1 {
        LeadSnoc([], m);
        assert moves[1..] == [];
      } else {
        assert moves[1..][0] == moves[1];
      }
    }
  }

  // Over both teams everything cancels except what was earned before the opponent's first move.
  lemma {:induction false} RewardsCancel(moves: seq<Move>)
    requires forall k :: 0 <= k < |moves| ==> moves[k].group < 2
    ensures GrandTotal(Entries(moves, 0)) + GrandTotal(Entries(moves, 1)) == Lead(moves)
  {
    hide Entries, GrandTotal, Lead, NoMoveOf;
    if moves == [] {
      NothingMoved();
    } else {
      var n := |moves| - 1;
      assert moves == moves[..n] + [moves[n]];
      RewardsCancel(moves[..n]);
      LeadSnoc(moves[..n], moves[n]);
      TotalsSnoc(moves[..n], moves[n]);
    }
  }

  lemma NothingMoved()
    ensures Entries([], 0) == [] && Entries([], 1) == [] && GrandTotal([]) == 0.0 == Lead([])
  {
  }

  // One more move adds its reward, and takes it back when the opponent already has an entry.
  lemma TotalsSnoc(before: seq<Move>, m: Move)
    requires m.group < 2
    ensures GrandTotal(Entries(before + [m], m.group)) == GrandTotal(Entries(before, m.group)) + m.reward
    ensures GrandTotal(Entries(before + [m], 1 - m.group))
         == GrandTotal(Entries(before, 1 - m.group)) - if NoMoveOf(before, 1 - m.group) then 0.0 else m.reward
  {
    hide Entries, GrandTotal, Total, Opposed, NoMoveOf;
    EntriesSnoc(before, m, m.group);
    EntriesSnoc(before, m, 1 - m.group);
    GrandTotalSnoc(Entries(before, m.group), [m.reward]);
    TotalOfOne(m.reward);
    GrandTotalOpposed(Entries(before, 1 - m.group), m.reward);
    NoEntries(before, 1 - m.group);
  }

  lemma TotalOfOne(r: real)
    ensures Total([r]) == r
  {
    assert Total([r][1..]) == 0.0;
  }

  lemma {:induction false} MovesByTeams(prompts: (seq<int>, seq<int>), outcomes: seq<Outcome>, n: nat)
    requires n <= |outcomes| && Fair(prompts, outcomes, n)
    ensures forall k :: 0 <= k < |Moves(prompts, outcomes, n)| ==> Moves(prompts, outcomes, n)[k].group < 2
  {
    if n > 0 {
      MovesByTeams(prompts, outcomes, n - 1);
    }
  }

  lemma RolloutRewardsCancel(prompts: (seq<int>, seq<int>), outcomes: seq<Outcome>, n: nat)
    requires n <= |outcomes| && Fair(prompts, outcomes, n)
    ensures var s := Run(prompts, outcomes, n);
            GrandTotal(s.sides.0.rewards) + GrandTotal(s.sides.1.rewards) == Lead(Moves(prompts, outcomes, n))
  {
    RewardsAreEntries(prompts, outcomes, n);
    MovesByTeams(prompts, outcomes, n);
    RewardsCancel(Moves(prompts, outcomes, n));
  }

  // ---------- The end of the game ----------

  predicate TeamDead(dead: set<nat>) {
    {0, 2} <= dead || {1, 3} <= dead
  }

  function Bit(p: nat, dead: set<nat>): nat {
    if p in dead then 1 else 0
  }

  lemma CountDead(dead: set<nat>)
    requires dead <= {0, 1, 2, 3}
    ensures |dead| == Bit(0, dead) + Bit(1, dead) + Bit(2, dead) + Bit(3, dead)
  {
    RemoveOne(dead, 0);
    RemoveOne(dead - {0}, 1);
    RemoveOne(dead - {0} - {1}, 2);
    RemoveOne(dead - {0} - {1} - {2}, 3);
    assert dead - {0} - {1} - {2} - {3} == {};
  }

  lemma RemoveOne(s: set<nat>, p: nat)
    ensures |s| == |s - {p}| + Bit(p, s)
  {
    if p !in s {
      assert s - {p} == s;
    }
  }

  // The two cardinality tests detect a dead team, unless all four players are dead.
  lemma GameOverIffTeamDead(dead: set<nat>)
    requires dead <= {0, 1, 2, 3}
    ensures GameOver(dead) <==> TeamDead(dead) && dead != {0, 1, 2, 3}
  {
    CountDead(dead);
    if |dead| == 4 {
      assert dead == {0, 1, 2, 3};
    }
    if |dead| == 2 && {0, 2} <= dead {
      assert dead == {0, 2};
    }
    if |dead| == 2 && {1, 3} <= dead {
      assert dead == {1, 3};
    }
  }

  // A rollout is complete exactly when a whole team is dead.
  lemma {:induction false} CompleteIffTeamDead(prompts: (seq<int>, seq<int>), outcomes: seq<Outcome>, n: nat)
    requires n <= |outcomes| && Fair(prompts, outcomes, n)
    ensures var s := Run(prompts, outcomes, n);
            && s.dead <= {0, 1, 2, 3} && s.dead != {0, 1, 2, 3}
            && (s.complete <==> TeamDead(s.dead))
  {
    hide Turn, GameOver;
    if n > 0 {
      CompleteIffTeamDead(prompts, outcomes, n - 1);
      var s := Run(prompts, outcomes, n - 1);
      if !s.complete {
        var o := outcomes[n - 1];
        TurnEnds(s, prompts, n - 1, o);
        if (n - 1) % 4 !in s.dead {
          assert Players(o.deadPlayers) <= {0, 1, 2, 3};
          GameOverIffTeamDead(s.dead + Players(o.deadPlayers));
          assert o.deadPlayers == [] ==> s.dead + Players(o.deadPlayers) == s.dead;
        }
      }
    }
  }

  lemma TurnEnds(s: State, prompts: (seq<int>, seq<int>), i: nat, o: Outcome)
    requires Synced(s) && (i % 4 !in s.dead ==> Answers(o))
    ensures var t := Turn(s, prompts, i, o);
            if i % 4 in s.dead then t.dead == s.dead && t.complete == s.complete
            else t.dead == s.dead + Players(o.deadPlayers) && t.complete == (o.deadPlayers != [] && GameOver(t.dead))
  {
  }

  lemma {:induction false} DeadStayDead(prompts: (seq<int>, seq<int>), outcomes: seq<Outcome>, k: nat, n: nat)
    requires k <= n <= |outcomes| && Fair(prompts, outcomes, n)
    ensures Fair(prompts, outcomes, k)
    ensures Run(prompts, outcomes, k).dead <= Run(prompts, outcomes, n).dead
    ensures Run(prompts, outcomes, k).complete ==> Run(prompts, outcomes, n).complete
    decreases n
  {
    hide Turn;
    FairPrefix(prompts, outcomes, n, k);
    if k < n {
      DeadStayDead(prompts, outcomes, k, n - 1);
      var s := Run(prompts, outcomes, n - 1);
      if !s.complete {
        TurnEnds(s, prompts, n - 1, outcomes[n - 1]);
      }
    }
  }

  ghost predicate RealTurn(prompts: (seq<int>, seq<int>), outcomes: seq<Outcome>, j: nat)
    requires j <= |outcomes| && Fair(prompts, outcomes, j)
  {
    !Run(prompts, outcomes, j).complete && j % 4 !in Run(prompts, outcomes, j).dead
  }

  // While the game goes on, every four consecutive turns hold a real move by each team.
  lemma BothTeamsKeepMoving(prompts: (seq<int>, seq<int>), outcomes: seq<Outcome>, i: nat, group: nat)
    returns (j: nat)
    requires i + 4 <= |outcomes| && Fair(prompts, outcomes, i + 4) && !Run(prompts, outcomes, i + 4).complete
    requires group < 2
    ensures i <= j < i + 4 && j % 2 == group
    ensures Fair(prompts, outcomes, j) && RealTurn(prompts, outcomes, j)
  {
    hide Run, Fair;
    CompleteIffTeamDead(prompts, outcomes, i + 4);
    var dead := Run(prompts, outcomes, i + 4).dead;
    var p := if group == 0 then (if 0 !in dead then 0 else 2) else (if 1 !in dead then 1 else 3);
    assert p !in dead;
    j := TurnOf(i, p);
    DeadStayDead(prompts, outcomes, j, i + 4);
  }

  lemma TurnOf(i: nat, p: nat) returns (j: nat)
    requires p < 4
    ensures i <= j < i + 4 && j % 4 == p && j % 2 == p % 2
  {
    var q, r := i / 4, i % 4;
    assert i == 4 * q + r;
    j := if p >= r then i + p - r else i + 4 + p - r;
    MultipleOfFour(if p >= r then q else q + 1, p);
  }

  lemma MultipleOfFour(q: nat, p: nat)
    requires p < 4
    ensures (4 * q + p) % 4 == p && (4 * q + p) % 2 == p % 2
  {
    QuotientUnique(4 * q + p, q, p, 4);
    QuotientUnique(4 * q + p, 2 * q + p / 2, p % 2, 2);
  }
}
