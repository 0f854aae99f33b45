/** One rollout of the four-player game: players 0..3 in two teams by parity share one token
    buffer, while each team keeps its own loss mask, log-probs, rewards and logits masks and is
    sent the buffer piece by piece through its own session. */
module Junqi {
  import opened Sequences

  const FIRST_ACTION := 151665
  const PASS := 157599
  const FLAG_IDS: seq<int> := [157600, 157601, 157602, 157603, 157604, 157605, 157606, 157607]
  const DEAD_IDS: seq<int> := [157608, 157609, 157610, 157611]
  const RESULT_IDS: seq<int> := [157612, 157613, 157614, 157615]

  // What the board and the server answer on one turn.
  datatype Outcome = Outcome(
    actionMask: seq<bool>, action: int, logProb: real,
    resultId: nat, flags: seq<nat>, deadPlayers: seq<nat>, reward: real)

  // np.where(mask)[0] + 151665
  function LogitsMask(actionMask: seq<bool>): seq<int> {
    if actionMask == [] then []
    else
      var n := |actionMask| - 1;
      LogitsMask(actionMask[..n]) + (if actionMask[n] then [n + FIRST_ACTION] else [])
  }

  // The contract of the server and the board for one turn.
  predicate Answers(o: Outcome) {
    && o.action in LogitsMask(o.actionMask)
    && o.resultId <= 4 && (o.resultId == 4 ==> o.action == PASS)
    && (forall k :: 0 <= k < |o.flags| ==> o.flags[k] < 8)
    && (forall k :: 0 <= k < |o.deadPlayers| ==> o.deadPlayers[k] < 4)
  }

  // One team's side of the rollout, and everything sent to its session so far.
  datatype Side = Side(mask: seq<int>, logProbs: seq<real>, rewards: seq<seq<real>>, logitsMasks: seq<seq<int>>,
                       idx: nat, started: bool, sent: seq<int>)

  datatype State = State(buffer: seq<int>, sides: (Side, Side), dead: set<nat>, complete: bool)

  const FRESH := Side([], [], [], [], 0, false, [])

  function Init(): State {
    State([], (FRESH, FRESH), {}, false)
  }

  function Lookup(ids: seq<int>, indices: seq<nat>): (r: seq<int>)
    requires forall k :: 0 <= k < |indices| ==> indices[k] < |ids|
    ensures |r| == |indices|
  {
    if indices == [] then [] else [ids[indices[0]]] + Lookup(ids, indices[1..])
  }

  // The tokens a real move appends: the action, its result, then flags shown and players lost.
  function MoveTokens(o: Outcome): (t: seq<int>)
    requires Answers(o)
    ensures |t| >= 1 && t[0] == o.action
  {
    (if o.resultId == 4 then [PASS] else [o.action, RESULT_IDS[o.resultId]])
    + Lookup(FLAG_IDS, o.flags) + Lookup(DEAD_IDS, o.deadPlayers)
  }

  // A side that did not move: n untrainable positions.
  function Watch(side: Side, n: nat): Side {
    side.(mask := side.mask + Repeat(0, n), logProbs := side.logProbs + Repeat(0.0, n))
  }

  // What is sent: the prompt once, then whatever the buffer has gained.
  function Deliver(side: Side, prompt: seq<int>, buffer: seq<int>): Side
    requires side.idx <= |buffer|
  {
    side.(sent := side.sent + (if side.started then [] else prompt) + buffer[side.idx..],
          started := true, idx := |buffer|)
  }

  function Moved(side: Side, o: Outcome): Side
    requires Answers(o)
  {
    var n := |MoveTokens(o)| - 1;
    side.(mask := side.mask + [1] + Repeat(0, n), logProbs := side.logProbs + [o.logProb] + Repeat(0.0, n),
          rewards := side.rewards + [[o.reward]], logitsMasks := side.logitsMasks + [LogitsMask(o.actionMask)])
  }

  // The opponent's last entry also collects the negated reward, if it has an entry.
  function Opposed(rewards: seq<seq<real>>, reward: real): seq<seq<real>> {
    if rewards == [] then []
    else rewards[..|rewards| - 1] + [rewards[|rewards| - 1] + [-reward]]
  }

  function SideOf(s: State, group: nat): Side {
    if group == 0 then s.sides.0 else s.sides.1
  }

  function Players(s: seq<nat>): set<nat> {
    set p | p in s
  }

  // len(dead) == 3, or two dead of the same team.
  predicate GameOver(dead: set<nat>) {
    |dead| == 3 || (|dead| == 2 && (dead == {0, 2} || dead == {1, 3}))
  }

  function RealMove(s: State, prompts: (seq<int>, seq<int>), group: nat, o: Outcome): State
    requires group < 2 && Answers(o) && SideOf(s, group).idx <= |s.buffer|
  {
    var tokens := MoveTokens(o);
    var mover := Moved(Deliver(SideOf(s, group), if group == 0 then prompts.0 else prompts.1, s.buffer), o);
    var watcher := Watch(SideOf(s, 1 - group), |tokens|);
    var other := watcher.(rewards := Opposed(watcher.rewards, o.reward));
    var dead := s.dead + Players(o.deadPlayers);
    State(s.buffer + tokens, if group == 0 then (mover, other) else (other, mover), dead,
          o.deadPlayers != [] && GameOver(dead))
  }

  function Skip(s: State): State {
    s.(buffer := s.buffer + [PASS], sides := (Watch(s.sides.0, 1), Watch(s.sides.1, 1)))
  }

  predicate Synced(s: State) {
    s.sides.0.idx <= |s.buffer| && s.sides.1.idx <= |s.buffer|
  }

  predicate Ready(s: State, i: nat, o: Outcome) {
    Synced(s) && (i % 4 !in s.dead ==> Answers(o))
  }

  function Turn(s: State, prompts: (seq<int>, seq<int>), i: nat, o: Outcome): (t: State)
    requires Ready(s, i, o)
    ensures Synced(t)
  {
    if i % 4 in s.dead then Skip(s) else RealMove(s, prompts, i % 2, o)
  }

  // The oracle answers properly on every real move of the first n turns, and somebody survives.
  predicate Fair(prompts: (seq<int>, seq<int>), outcomes: seq<Outcome>, n: nat)
    requires n <= |outcomes|
    decreases n, 0
  {
    n == 0 || (Fair(prompts, outcomes, n - 1) &&
      var s := Run(prompts, outcomes, n - 1);
      !s.complete && (n - 1) % 4 !in s.dead ==>
        Answers(outcomes[n - 1]) && s.dead + Players(outcomes[n - 1].deadPlayers) != {0, 1, 2, 3})
  }

  // The state after n turns, or at the break.
  function Run(prompts: (seq<int>, seq<int>), outcomes: seq<Outcome>, n: nat): (s: State)
    requires n <= |outcomes| && Fair(prompts, outcomes, n)
    ensures Synced(s)
    decreases n, 1
  {
    if n == 0 then Init()
    else
      var s := Run(prompts, outcomes, n - 1);
      if s.complete then s else Turn(s, prompts, n - 1, outcomes[n - 1])
  }

  // ---------- The rollout loop ----------

  // The lists of the loop, each with one entry for either team.
  datatype Lists = Lists(buffer: seq<int>, idx: seq<nat>, started: seq<bool>, sent: seq<seq<int>>,
                         lossMask: seq<seq<int>>, logitsMasks: seq<seq<seq<int>>>,
                         rewardList: seq<seq<seq<real>>>, logProbs: seq<seq<real>>)

  ghost predicate ForTwo(l: Lists) {
    |l.idx| == |l.started| == |l.sent| == |l.lossMask| == |l.logitsMasks| == |l.rewardList| == |l.logProbs| == 2
  }

  ghost function SideIn(l: Lists, g: nat): Side
    requires ForTwo(l) && g < 2
  {
    Side(l.lossMask[g], l.logProbs[g], l.rewardList[g], l.logitsMasks[g], l.idx[g], l.started[g], l.sent[g])
  }

  ghost predicate Holds(s: State, l: Lists) {
    ForTwo(l) && s.buffer == l.buffer && s.sides.0 == SideIn(l, 0) && s.sides.1 == SideIn(l, 1)
  }

  // Appends tokens that neither team is trained on, if there are any.
  method AppendBlock(l: Lists, group: nat, tokens: seq<int>) returns (l': Lists)
    requires group < 2 && ForTwo(l)
    ensures ForTwo(l')
    ensures l' == l.(buffer := l.buffer + tokens, lossMask := l'.lossMask, logProbs := l'.logProbs)
    ensures forall g :: 0 <= g < 2 ==>
              l'.lossMask[g] == l.lossMask[g] + Repeat(0, |tokens|)
              && l'.logProbs[g] == l.logProbs[g] + Repeat(0.0, |tokens|)
  {
    l' := l;
    if tokens != [] {
      hide Repeat;
      var n, other := |tokens|, 1 - group;
      var lossMask := l.lossMask[group := l.lossMask[group] + Repeat(0, n)];
      lossMask := lossMask[other := lossMask[other] + Repeat(0, n)];
      var logProbs := l.logProbs[group := l.logProbs[group] + Repeat(0.0, n)];
      logProbs := logProbs[other := logProbs[other] + Repeat(0.0, n)];
      l' := l.(buffer := l.buffer + tokens, lossMask := lossMask, logProbs := logProbs);
    }
  }

  // The action and its result: one trained position for the mover, none for the other team.
  method AppendAction(l: Lists, group: nat, o: Outcome) returns (l': Lists)
    requires group < 2 && ForTwo(l) && Answers(o)
    ensures ForTwo(l')
    ensures var n := if o.resultId == 4 then 1 else 2;
            && l' == l.(buffer := l.buffer + MoveTokens(o)[..n], lossMask := l'.lossMask, logProbs := l'.logProbs)
            && l'.lossMask[group] == l.lossMask[group] + [1] + Repeat(0, n - 1)
            && l'.lossMask[1 - group] == l.lossMask[1 - group] + Repeat(0, n)
            && l'.logProbs[group] == l.logProbs[group] + [o.logProb] + Repeat(0.0, n - 1)
            && l'.logProbs[1 - group] == l.logProbs[1 - group] + Repeat(0.0, n)
  {
    hide Lookup, LogitsMask;
    var buffer, lossMask, logProbs, other := l.buffer, l.lossMask, l.logProbs, 1 - group;
    if o.resultId == 4 {
      buffer := buffer + [PASS];
      lossMask := lossMask[group := lossMask[group] + [1]];
      lossMask := lossMask[other := lossMask[other] + [0]];
      logProbs := logProbs[group := logProbs[group] + [o.logProb]];
      logProbs := logProbs[other := logProbs[other] + [0.0]];
    } else {
      buffer := buffer + [o.action, RESULT_IDS[o.resultId]];
      lossMask := lossMask[group := lossMask[group] + [1, 0]];
      lossMask := lossMask[other := lossMask[other] + [0, 0]];
      logProbs := logProbs[group := logProbs[group] + [o.logProb, 0.0]];
      logProbs := logProbs[other := logProbs[other] + [0.0, 0.0]];
    }
    FirstTokens(o);
    OneOrTwo(0);
    OneOrTwo(0.0);
    hide Repeat, MoveTokens;
    assert l.lossMask[group] + [1, 0] == l.lossMask[group] + [1] + [0];
    assert l.logProbs[group] + [o.logProb, 0.0] == l.logProbs[group] + [o.logProb] + [0.0];
    l' := l.(buffer := buffer, lossMask := lossMask, logProbs := logProbs);
  }

  lemma FirstTokens(o: Outcome)
    requires Answers(o)
    ensures var n := if o.resultId == 4 then 1 else 2;
            && MoveTokens(o)[..n] == (if o.resultId == 4 then [PASS] else [o.action, RESULT_IDS[o.resultId]])
            && MoveTokens(o) == MoveTokens(o)[..n] + Lookup(FLAG_IDS, o.flags) + Lookup(DEAD_IDS, o.deadPlayers)
            && |MoveTokens(o)| == n + |o.flags| + |o.deadPlayers|
  {
    hide Lookup, LogitsMask;
  }

  lemma OneOrTwo<A>(x: A)
    ensures Repeat(x, 0) == [] && Repeat(x, 1) == [x] && Repeat(x, 2) == [x, x]
  {
  }

  // The move's own tokens, then one block for flags and one for lost players.
  method AppendMove(l: Lists, group: nat, o: Outcome) returns (l': Lists)
    requires group < 2 && ForTwo(l) && Answers(o)
    ensures ForTwo(l')
    ensures var n := |MoveTokens(o)|;
            && l' == l.(buffer := l.buffer + MoveTokens(o), lossMask := l'.lossMask, logProbs := l'.logProbs)
            && l'.lossMask[group] == l.lossMask[group] + [1] + Repeat(0, n - 1)
            && l'.lossMask[1 - group] == l.lossMask[1 - group] + Repeat(0, n)
            && l'.logProbs[group] == l.logProbs[group] + [o.logProb] + Repeat(0.0, n - 1)
            && l'.logProbs[1 - group] == l.logProbs[1 - group] + Repeat(0.0, n)
  {
    hide Repeat, Lookup, LogitsMask, MoveTokens;
    var flags, deads := Lookup(FLAG_IDS, o.flags), Lookup(DEAD_IDS, o.deadPlayers);
    FirstTokens(o);
    l' := AppendAction(l, group, o);
    l' := AppendBlock(l', group, flags);
    l' := AppendBlock(l', group, deads);
    ghost var n, other := if o.resultId == 4 then 1 else 2, 1 - group;
    assert l'.buffer == l.buffer + (MoveTokens(o)[..n] + flags + deads);
    ThreeBlocks(l.lossMask[group] + [1], 0, n - 1, |flags|, |deads|);
    ThreeBlocks(l.logProbs[group] + [o.logProb], 0.0, n - 1, |flags|, |deads|);
    ThreeBlocks(l.lossMask[other], 0, n, |flags|, |deads|);
    ThreeBlocks(l.logProbs[other], 0.0, n, |flags|, |deads|);
  }

  lemma ThreeBlocks<A>(s: seq<A>, x: A, a: nat, b: nat, c: nat)
    ensures s + Repeat(x, a) + Repeat(x, b) + Repeat(x, c) == s + Repeat(x, a + b + c)
  {
    hide Repeat;
    RepeatAdd(s, x, a, b);
    RepeatAdd(s, x, a + b, c);
  }

  method SkipTurn(l: Lists, group: nat, ghost s: State) returns (l': Lists)
    requires group < 2 && Holds(s, l)
    ensures Holds(Skip(s), l')
  {
    hide Repeat;
    l' := AppendBlock(l, group, [PASS]);
  }

  method PlayTurn(l: Lists, prompts: (seq<int>, seq<int>), group: nat, o: Outcome, ghost s: State)
    returns (l': Lists)
    requires group < 2 && Answers(o) && Holds(s, l) && SideOf(s, group).idx <= |s.buffer|
    ensures Holds(RealMove(s, prompts, group, o), l')
  {
    hide MoveTokens, LogitsMask, Repeat, Opposed, Answers, GameOver, Players;
    var other := 1 - group;
    var bufSlice := l.buffer[l.idx[group]..];
    var inputIds := (if l.started[group] then [] else if group == 0 then prompts.0 else prompts.1) + bufSlice;
    l' := l.(idx := l.idx[group := |l.buffer|], started := l.started[group := true],
             sent := l.sent[group := l.sent[group] + inputIds]);
    assert l.sent[group] + inputIds
        == l.sent[group] + (if l.started[group] then [] else if group == 0 then prompts.0 else prompts.1) + bufSlice;
    l' := AppendMove(l', group, o);
    var rewardList := l.rewardList[group := l.rewardList[group] + [[o.reward]]];
    rewardList := rewardList[other := Opposed(rewardList[other], o.reward)];
    l' := l'.(rewardList := rewardList,
              logitsMasks := l.logitsMasks[group := l.logitsMasks[group] + [LogitsMask(o.actionMask)]]);
  }

  method Generate(prompts: (seq<int>, seq<int>), outcomes: seq<Outcome>, turns: nat)
    returns (l: Lists, isComplete: bool)
    requires turns <= |outcomes| && Fair(prompts, outcomes, turns)
    ensures Holds(Run(prompts, outcomes, turns), l) && Run(prompts, outcomes, turns).complete == isComplete
  {
    hide Holds, Turn, RealMove, Skip, Answers, Fair, Run, GameOver, Players;
    l, isComplete := Lists([], [0, 0], [false, false], [[], []], [[], []], [[], []], [[], []], [[], []]), false;
    var deadPlayers: set<nat> := {};
    ghost var s := Init();
    RunInit(prompts, outcomes, l);
    var i := 0;
    while i < turns
      invariant i <= turns && Fair(prompts, outcomes, i) && s == Run(prompts, outcomes, i)
      invariant Holds(s, l) && s.dead == deadPlayers && !s.complete && !isComplete
      decreases turns - i
    {
      var player, group := i % 4, i % 2;
      FairPrefix(prompts, outcomes, turns, i + 1);
      RunStep(prompts, outcomes, i, s);
      TurnCases(s, prompts, i, outcomes[i]);
      if player in deadPlayers {
        l := SkipTurn(l, group, s);
        s := Turn(s, prompts, i, outcomes[i]);
        i := i + 1;
        continue;
      }
      var o := outcomes[i];
      l := PlayTurn(l, prompts, group, o, s);
      s := Turn(s, prompts, i, o);
      i := i + 1;
      deadPlayers := deadPlayers + Players(o.deadPlayers);
      if o.deadPlayers != [] {
        if GameOver(deadPlayers) {
          isComplete := true;
          RunStops(prompts, outcomes, i, turns);
          break;
        }
      }
    }
  }

  lemma TurnCases(s: State, prompts: (seq<int>, seq<int>), i: nat, o: Outcome)
    requires Ready(s, i, o)
    ensures SideOf(s, i % 2).idx <= |s.buffer|
    ensures i % 4 in s.dead ==>
      Turn(s, prompts, i, o) == Skip(s) && Skip(s).dead == s.dead && Skip(s).complete == s.complete
    ensures i % 4 !in s.dead ==>
      && Turn(s, prompts, i, o) == RealMove(s, prompts, i % 2, o)
      && RealMove(s, prompts, i % 2, o).dead == s.dead + Players(o.deadPlayers)
      && RealMove(s, prompts, i % 2, o).complete
         == (o.deadPlayers != [] && GameOver(s.dead + Players(o.deadPlayers)))
  {
    hide MoveTokens, Moved, Watch, Deliver, Opposed, Answers, GameOver, Players;
  }

  lemma RunInit(prompts: (seq<int>, seq<int>), outcomes: seq<Outcome>, l: Lists)
    requires l == Lists([], [0, 0], [false, false], [[], []], [[], []], [[], []], [[], []], [[], []])
    ensures Fair(prompts, outcomes, 0) && Run(prompts, outcomes, 0) == Init() && Holds(Init(), l)
  {
  }

  lemma RunStep(prompts: (seq<int>, seq<int>), outcomes: seq<Outcome>, i: nat, s: State)
    requires i < |outcomes| && Fair(prompts, outcomes, i) && Fair(prompts, outcomes, i + 1)
    requires s == Run(prompts, outcomes, i) && !s.complete
    ensures Ready(s, i, outcomes[i])
    ensures Run(prompts, outcomes, i + 1) == Turn(s, prompts, i, outcomes[i])
  {
    hide Turn, Answers, GameOver, Players;
  }

  lemma {:induction false} FairPrefix(prompts: (seq<int>, seq<int>), outcomes: seq<Outcome>, n: nat, k: nat)
    requires k <= n <= |outcomes| && Fair(prompts, outcomes, n)
    ensures Fair(prompts, outcomes, k)
    decreases n
  {
    hide Turn, Answers, GameOver, Players;
    if k < n {
      FairPrefix(prompts, outcomes, n - 1, k);
    }
  }

  lemma {:induction false} RunStops(prompts: (seq<int>, seq<int>), outcomes: seq<Outcome>, k: nat, n: nat)
    requires k <= n <= |outcomes| && Fair(prompts, outcomes, n)
    ensures Fair(prompts, outcomes, k)
    ensures Run(prompts, outcomes, k).complete ==> Run(prompts, outcomes, n) == Run(prompts, outcomes, k)
    decreases n
  {
    hide Turn, Answers, GameOver, Players;
    FairPrefix(prompts, outcomes, n, k);
    if k < n {
      RunStops(prompts, outcomes, k, n - 1);
    }
  }
}
