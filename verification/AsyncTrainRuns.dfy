/** What the log of the asynchronous training loop promises: order, ownership and staleness. */
module AsyncTrainRuns {
  import opened AsyncTrain
  import opened Wrappers

  // The full log of a run with at least one rollout, as TrainLoop leaves it.
  function RunLog(cfg: Config): seq<Event>
    requires Usable(cfg)
  {
    Until(cfg, cfg.numRollout) + [Dispose({})]
  }

  function TrainedOn(log: seq<Event>, role: Role): seq<Event> {
    if log == [] then []
    else (if log[0].Train? && log[0].role == role then [log[0]] else []) + TrainedOn(log[1..], role)
  }

  lemma {:induction false} TrainedOnAppend(a: seq<Event>, b: seq<Event>, role: Role)
    ensures TrainedOn(a + b, role) == TrainedOn(a, role) + TrainedOn(b, role)
  {
    if a == [] {
      assert a + b == b;
    } else {
      assert (a + b)[1..] == a[1..] + b;
      TrainedOnAppend(a[1..], b, role);
    }
  }

  lemma {:induction false} TrainedOnNone(log: seq<Event>, role: Role)
    requires forall e :: e in log ==> !e.Train?
    ensures TrainedOn(log, role) == []
  {
    if log != [] {
      assert log[0] in log;
      TrainedOnNone(log[1..], role);
    }
  }

  // From which rollout on the role is trained; the actor may have to wait, or never starts.
  function FirstTrained(cfg: Config, role: Role): Option<nat> {
    match role
    case Critic => if cfg.useCritic then Some(cfg.startRollout) else None
    case Actor =>
      if !cfg.useCritic then Some(cfg.startRollout)
      else if cfg.criticTrainOnly then None
      else Some(if cfg.numCriticOnlySteps > cfg.startRollout then cfg.numCriticOnlySteps else cfg.startRollout)
  }

  function Consecutive(cfg: Config, role: Role, first: nat, k: nat): (r: seq<Event>)
    requires Usable(cfg)
    ensures |r| == if k > first then k - first else 0
    ensures forall i :: 0 <= i < |r| ==> r[i] == Train(role, first + i, OwnData(cfg, first + i))
  {
    if k <= first then [] else Consecutive(cfg, role, first, k - 1) + [Train(role, k - 1, OwnData(cfg, k - 1))]
  }

  lemma TrainedInIteration(cfg: Config, role: Role, k: nat)
    requires Usable(cfg) && k >= cfg.startRollout
    ensures var first := FirstTrained(cfg, role);
            TrainedOn(Iteration(cfg, k), role)
            == if first.Some? && k >= first.value then [Train(role, k, OwnData(cfg, k))] else []
  {
    OnlySecond(Generating(cfg, k), Trainings(cfg, k), Saves(cfg, k), Updating(cfg, k), Evaluating(cfg, k), role);
    TrainedByTrainings(cfg, role, k);
  }

  lemma OnlySecond(a: seq<Event>, b: seq<Event>, c: seq<Event>, d: seq<Event>, e: seq<Event>, role: Role)
    requires forall x :: x in a || x in c || x in d || x in e ==> !x.Train?
    ensures TrainedOn(a + b + c + d + e, role) == TrainedOn(b, role)
  {
    TrainedOnAppend(a, b, role);
    TrainedOnAppend(a + b, c, role);
    TrainedOnAppend(a + b + c, d, role);
    TrainedOnAppend(a + b + c + d, e, role);
    TrainedOnNone(a, role);
    TrainedOnNone(c, role);
    TrainedOnNone(d, role);
    TrainedOnNone(e, role);
  }

  lemma TrainedByTrainings(cfg: Config, role: Role, k: nat)
    requires Usable(cfg) && k >= cfg.startRollout
    ensures var first := FirstTrained(cfg, role);
            TrainedOn(Trainings(cfg, k), role)
            == if first.Some? && k >= first.value then [Train(role, k, OwnData(cfg, k))] else []
  {
    var c := if cfg.useCritic then [Train(Critic, k, OwnData(cfg, k))] else [];
    var a := if TrainsActor(cfg, k) then [Train(Actor, k, OwnData(cfg, k))] else [];
    TrainedOnAppend(c, a, role);
  }

  lemma NothingTrainedYet(cfg: Config, role: Role)
    ensures TrainedOn(Start(cfg), role) == []
  {
    TrainedOnNone(Start(cfg), role);
  }

  lemma {:induction false} TrainedUntil(cfg: Config, role: Role, k: nat)
    requires Usable(cfg) && k >= cfg.startRollout
    ensures var first := FirstTrained(cfg, role);
            TrainedOn(Until(cfg, k), role) == if first.Some? then Consecutive(cfg, role, first.value, k) else []
    decreases k
  {
    hide Until, Iteration, OwnData, Usable, TrainedOn, Start;
    UntilNext(cfg, k);
    if k == cfg.startRollout {
      NothingTrainedYet(cfg, role);
    } else {
      TrainedUntil(cfg, role, k - 1);
      TrainedOnAppend(Until(cfg, k - 1), Iteration(cfg, k - 1), role);
      TrainedInIteration(cfg, role, k - 1);
    }
  }

  // Each role is trained on consecutive rollouts up to the last one, each exactly once, in order,
  // and each with that rollout's own data.
  lemma EachRolloutTrainedOnce(cfg: Config, role: Role)
    requires Usable(cfg) && cfg.startRollout < cfg.numRollout
    ensures var first := FirstTrained(cfg, role);
            var trained := TrainedOn(RunLog(cfg), role);
            && (first.None? ==> trained == [])
            && (first.Some? ==>
                  && |trained| == (if first.value < cfg.numRollout then cfg.numRollout - first.value else 0)
                  && forall i :: 0 <= i < |trained| ==>
                       trained[i].Train? && trained[i].id == trained[i].data.rollout == first.value + i
                       && trained[i].data.versions == {ActorTrained(cfg, GeneratedWith(cfg, first.value + i))})
  {
    TrainedUntil(cfg, role, cfg.numRollout);
    TrainedOnAppend(Until(cfg, cfg.numRollout), [Dispose({})], role);
    TrainedOnNone([Dispose({})], role);
  }

  function Min(a: int, b: int): int { if a < b then a else b }

  function Max(a: int, b: int): int { if a > b then a else b }

  // How many iterations old the weights behind rollout k are when it is trained on: at most the
  // update interval, and exactly this many.
  lemma Staleness(cfg: Config, k: nat)
    requires Usable(cfg) && !cfg.criticTrainOnly && k > cfg.startRollout
    ensures k - GeneratedWith(cfg, k) == Min(k - cfg.startRollout, 1 + (k - 1) % cfg.updateInterval)
    ensures 1 <= k - GeneratedWith(cfg, k) <= cfg.updateInterval
  {
    var n := cfg.updateInterval;
    assert k - 1 == (k - 1) / n * n + (k - 1) % n;
  }

  lemma {:induction false} ActorTrainedLength(cfg: Config, k: nat)
    requires FirstTrained(cfg, Actor).Some?
    ensures |ActorTrained(cfg, k)| == Max(0, k - FirstTrained(cfg, Actor).value)
  {
    if k > cfg.startRollout {
      ActorTrainedLength(cfg, k - 1);
    }
  }

  lemma {:induction false} ActorTrainedGrows(cfg: Config, j: nat, k: nat)
    requires j <= k
    ensures ActorTrained(cfg, j) <= ActorTrained(cfg, k)
    decreases k
  {
    if j < k && k > cfg.startRollout {
      ActorTrainedGrows(cfg, j, k - 1);
    }
  }

  // The weights behind rollout k hold a first part of the actor's trainings before k, and miss only the
  // ones since those weights were sent: as many as iterations, less those before the actor's first training.
  lemma MissingTrainings(cfg: Config, k: nat)
    requires Usable(cfg) && FirstTrained(cfg, Actor).Some? && k > cfg.startRollout && !cfg.criticTrainOnly
    ensures var first, sent := FirstTrained(cfg, Actor).value, GeneratedWith(cfg, k);
            && ActorTrained(cfg, sent) <= ActorTrained(cfg, k)
            && |ActorTrained(cfg, k)| - |ActorTrained(cfg, sent)| == Max(0, k - Max(sent, first))
            && Max(0, k - Max(sent, first)) <= cfg.updateInterval
  {
    Staleness(cfg, k);
    hide GeneratedWith;
    ActorTrainedLength(cfg, k);
    ActorTrainedLength(cfg, GeneratedWith(cfg, k));
    ActorTrainedGrows(cfg, GeneratedWith(cfg, k), k);
  }

  lemma UntilNext(cfg: Config, k: nat)
    requires Usable(cfg)
    ensures k <= cfg.startRollout ==> Until(cfg, k) == Start(cfg)
    ensures k > cfg.startRollout ==> Until(cfg, k) == Until(cfg, k - 1) + Iteration(cfg, k - 1)
  {
    hide Iteration, Start;
  }

  predicate QuietEvent(e: Event) {
    (e.Update? ==> e.inFlight == {}) && !e.Dispose?
  }

  lemma QuietIteration(cfg: Config, k: nat, e: Event)
    requires Usable(cfg) && e in Iteration(cfg, k)
    ensures QuietEvent(e)
  {
    hide Usable, OwnData, ActorTrained, UpdatesAfter, TrainsActor, ShouldRunPeriodicAction;
  }

  lemma {:induction false} QuietUntil(cfg: Config, k: nat, e: Event)
    requires Usable(cfg) && e in Until(cfg, k)
    ensures QuietEvent(e)
    decreases k
  {
    hide Until, Iteration, QuietEvent, Usable, Start;
    UntilNext(cfg, k);
    if k <= cfg.startRollout {
      QuietStart(cfg, e);
    } else if e in Iteration(cfg, k - 1) {
      QuietIteration(cfg, k - 1, e);
    } else {
      QuietUntil(cfg, k - 1, e);
    }
  }

  lemma QuietStart(cfg: Config, e: Event)
    requires e in Start(cfg)
    ensures QuietEvent(e)
  {
  }

  // No generation is in flight when weights are replaced or the rollout manager is disposed of.
  lemma NothingInFlightAtUpdates(cfg: Config)
    requires Usable(cfg)
    ensures forall e :: e in RunLog(cfg) ==> (e.Update? || e.Dispose?) ==> e.inFlight == {}
  {
    forall e | e in Until(cfg, cfg.numRollout) ensures QuietEvent(e) {
      QuietUntil(cfg, cfg.numRollout, e);
    }
  }

  // The rollouts the actor was trained on, read off the log.
  function ActorIds(log: seq<Event>): Weights {
    if log == [] then []
    else (if log[0].Train? && log[0].role == Actor then [log[0].id] else []) + ActorIds(log[1..])
  }

  // Every update sends exactly the trainings recorded before it.
  ghost predicate SendsCurrent(before: Weights, log: seq<Event>)
    decreases log
  {
    log != [] ==>
      (log[0].Update? ==> log[0].weights == before)
      && SendsCurrent(before + ActorIds(log[..1]), log[1..])
  }

  lemma {:induction false} ActorIdsAppend(a: seq<Event>, b: seq<Event>)
    ensures ActorIds(a + b) == ActorIds(a) + ActorIds(b)
  {
    if a == [] {
      assert a + b == b;
    } else {
      assert (a + b)[1..] == a[1..] + b;
      ActorIdsAppend(a[1..], b);
    }
  }

  lemma {:induction false} SendsCurrentAppend(before: Weights, a: seq<Event>, b: seq<Event>)
    requires SendsCurrent(before, a) && SendsCurrent(before + ActorIds(a), b)
    ensures SendsCurrent(before, a + b)
    decreases a
  {
    if a == [] {
      assert a + b == b && before + [] == before;
    } else {
      assert (a + b)[1..] == a[1..] + b && (a + b)[..1] == a[..1] == [a[0]];
      ActorIdsAppend([a[0]], a[1..]);
      assert a == [a[0]] + a[1..];
      assert before + ActorIds(a) == (before + ActorIds([a[0]])) + ActorIds(a[1..]);
      SendsCurrentAppend(before + ActorIds([a[0]]), a[1..], b);
    }
  }

  lemma {:induction false} NoActor(before: Weights, log: seq<Event>)
    requires forall e :: e in log ==> !e.Update? && !(e.Train? && e.role == Actor)
    ensures ActorIds(log) == [] && SendsCurrent(before, log)
    decreases log
  {
    if log != [] {
      assert log[0] in log;
      assert log[..1] == [log[0]] && ActorIds([log[0]][1..]) == [];
      assert before + ActorIds(log[..1]) == before;
      NoActor(before, log[1..]);
    }
  }

  // One event of its own kind.
  lemma OneEvent(before: Weights, e: Event)
    requires e.Update? ==> e.weights == before
    ensures SendsCurrent(before, [e])
    ensures ActorIds([e]) == if e.Train? && e.role == Actor then [e.id] else []
  {
    assert [e][1..] == [];
  }

  lemma TrainingsCurrent(cfg: Config, before: Weights, k: nat)
    requires Usable(cfg)
    ensures SendsCurrent(before, Trainings(cfg, k))
    ensures ActorIds(Trainings(cfg, k)) == if TrainsActor(cfg, k) then [k] else []
  {
    hide OwnData, SendsCurrent, ActorIds;
    var c := if cfg.useCritic then [Train(Critic, k, OwnData(cfg, k))] else [];
    NoActor(before, c);
    ActorIdsAppend(c, if TrainsActor(cfg, k) then [Train(Actor, k, OwnData(cfg, k))] else []);
    assert before + [] == before;
    if TrainsActor(cfg, k) {
      OneEvent(before, Train(Actor, k, OwnData(cfg, k)));
      SendsCurrentAppend(before, c, [Train(Actor, k, OwnData(cfg, k))]);
    } else {
      NoActor(before, []);
      SendsCurrentAppend(before, c, []);
    }
  }

  lemma IterationCurrent(cfg: Config, k: nat)
    requires Usable(cfg) && k >= cfg.startRollout
    ensures SendsCurrent(ActorTrained(cfg, k), Iteration(cfg, k))
    ensures ActorTrained(cfg, k) + ActorIds(Iteration(cfg, k)) == ActorTrained(cfg, k + 1)
  {
    QuietParts(cfg, k);
    ActorNext(cfg, k);
    var now, later := ActorTrained(cfg, k), ActorTrained(cfg, k + 1);
    UpdatingCurrent(cfg, k);
    TrainingsCurrent(cfg, now, k);
    hide SendsCurrent, ActorIds, Trainings, Saves, Generating, Updating, Evaluating, ActorTrained;
    assert now + [] == now && later + [] == later;
    NoActor(now, Generating(cfg, k));
    Joined(now, Generating(cfg, k), Trainings(cfg, k), now, later);
    var trained := Generating(cfg, k) + Trainings(cfg, k);
    NoActor(later, Saves(cfg, k));
    Joined(now, trained, Saves(cfg, k), later, later);
    Joined(now, trained + Saves(cfg, k), Updating(cfg, k), later, later);
    NoActor(later, Evaluating(cfg, k));
    Joined(now, trained + Saves(cfg, k) + Updating(cfg, k), Evaluating(cfg, k), later, later);
  }

  lemma UpdatingCurrent(cfg: Config, k: nat)
    requires Usable(cfg)
    ensures SendsCurrent(ActorTrained(cfg, k + 1), Updating(cfg, k)) && ActorIds(Updating(cfg, k)) == []
  {
    hide SendsCurrent, ActorIds, ActorTrained, UpdatesAfter;
    if UpdatesAfter(cfg, k) {
      OneEvent(ActorTrained(cfg, k + 1), Update(ActorTrained(cfg, k + 1), {}));
    } else {
      NoActor(ActorTrained(cfg, k + 1), Updating(cfg, k));
    }
  }

  lemma QuietParts(cfg: Config, k: nat)
    requires Usable(cfg)
    ensures forall e :: e in Generating(cfg, k) || e in Saves(cfg, k) || e in Evaluating(cfg, k) ==>
              !e.Update? && !e.Train?
    ensures forall e :: e in Trainings(cfg, k) ==> !e.Update?
    ensures forall e :: e in Updating(cfg, k) ==> !e.Train?
  {
    hide OwnData, ActorTrained;
  }

  // Two parts of a log, with the actor's weights before, between and after them.
  lemma Joined(now: Weights, a: seq<Event>, b: seq<Event>, between: Weights, later: Weights)
    requires SendsCurrent(now, a) && now + ActorIds(a) == between
    requires SendsCurrent(between, b) && between + ActorIds(b) == later
    ensures SendsCurrent(now, a + b) && now + ActorIds(a + b) == later
  {
    hide SendsCurrent, ActorIds;
    SendsCurrentAppend(now, a, b);
    ActorIdsAppend(a, b);
    assert now + (ActorIds(a) + ActorIds(b)) == (now + ActorIds(a)) + ActorIds(b);
  }

  lemma {:induction false} UntilCurrent(cfg: Config, k: nat)
    requires Usable(cfg) && k >= cfg.startRollout
    ensures SendsCurrent([], Until(cfg, k)) && ActorIds(Until(cfg, k)) == ActorTrained(cfg, k)
    decreases k
  {
    hide Until, Iteration, SendsCurrent, ActorIds, Usable, Start;
    UntilNext(cfg, k);
    if k == cfg.startRollout {
      ActorTrainedStart(cfg);
      StartCurrent(cfg);
    } else {
      UntilCurrent(cfg, k - 1);
      IterationCurrent(cfg, k - 1);
      hide ActorTrained;
      Joined([], Until(cfg, k - 1), Iteration(cfg, k - 1), ActorTrained(cfg, k - 1), ActorTrained(cfg, k));
      assert [] + ActorIds(Until(cfg, k)) == ActorIds(Until(cfg, k));
    }
  }

  lemma ActorTrainedStart(cfg: Config)
    ensures ActorTrained(cfg, cfg.startRollout) == []
  {
  }

  lemma StartCurrent(cfg: Config)
    ensures SendsCurrent([], Start(cfg)) && ActorIds(Start(cfg)) == []
  {
    hide SendsCurrent, ActorIds;
    var updates := if cfg.criticTrainOnly then [] else [Update([], {})];
    var weights: Weights := [];
    if updates != [] {
      OneEvent(weights, Update([], {}));
    } else {
      NoActor(weights, updates);
    }
    NoActor(weights, [Generate(cfg.startRollout)]);
    Joined(weights, updates, [Generate(cfg.startRollout)], weights, weights);
    assert weights + ActorIds(Start(cfg)) == ActorIds(Start(cfg));
  }

  // At every position of a current log, an update holds the actor trainings recorded before it.
  lemma {:induction false} CurrentAt(before: Weights, log: seq<Event>, i: nat)
    requires SendsCurrent(before, log) && i < |log| && log[i].Update?
    ensures log[i].weights == before + ActorIds(log[..i])
    decreases i
  {
    if i == 0 {
      assert log[..0] == [] && before + [] == before;
    } else {
      CurrentAt(before + ActorIds(log[..1]), log[1..], i - 1);
      assert log[..i] == log[..1] + log[1..][..i - 1];
      ActorIdsAppend(log[..1], log[1..][..i - 1]);
    }
  }

  // Every weight update sends exactly the rollouts the actor was trained on before it, in order.
  lemma UpdatesAreCurrent(cfg: Config, i: nat)
    requires Usable(cfg) && cfg.startRollout < cfg.numRollout
    requires i < |RunLog(cfg)| && RunLog(cfg)[i].Update?
    ensures RunLog(cfg)[i].weights == ActorIds(RunLog(cfg)[..i])
  {
    hide SendsCurrent, ActorIds, Until;
    var weights: Weights := [];
    var log := Until(cfg, cfg.numRollout);
    UntilCurrent(cfg, cfg.numRollout);
    assert RunLog(cfg)[..i] == log[..i] && RunLog(cfg)[i] == log[i];
    CurrentAt(weights, log, i);
    assert weights + ActorIds(log[..i]) == ActorIds(log[..i]);
  }

  function Updates(log: seq<Event>): seq<Weights> {
    if log == [] then [] else (if log[0].Update? then [log[0].weights] else []) + Updates(log[1..])
  }

  // The actor's weights at the start and after every multiple of the update interval, if it is trained at all.
  function Schedule(cfg: Config, k: nat): seq<Weights>
    requires Usable(cfg)
  {
    if cfg.criticTrainOnly then []
    else if k <= cfg.startRollout then [[]]
    else Schedule(cfg, k - 1) + (if k % cfg.updateInterval == 0 then [ActorTrained(cfg, k)] else [])
  }

  lemma {:induction false} UpdatesAppend(a: seq<Event>, b: seq<Event>)
    ensures Updates(a + b) == Updates(a) + Updates(b)
  {
    if a == [] {
      assert a + b == b;
    } else {
      assert (a + b)[1..] == a[1..] + b;
      UpdatesAppend(a[1..], b);
    }
  }

  lemma {:induction false} NoUpdates(log: seq<Event>)
    requires forall e :: e in log ==> !e.Update?
    ensures Updates(log) == []
  {
    if log != [] {
      assert log[0] in log;
      NoUpdates(log[1..]);
    }
  }

  // No update is skipped and none is sent in between.
  lemma {:induction false} UpdatesFollowSchedule(cfg: Config, k: nat)
    requires Usable(cfg) && k >= cfg.startRollout
    ensures Updates(Until(cfg, k)) == Schedule(cfg, k)
    decreases k
  {
    hide Until, Iteration, UpdatesAfter, ActorTrained, Usable, Updates, Start;
    UntilNext(cfg, k);
    if k == cfg.startRollout {
      FirstUpdateSent(cfg);
    } else {
      UpdatesFollowSchedule(cfg, k - 1);
      UpdatesAppend(Until(cfg, k - 1), Iteration(cfg, k - 1));
      UpdatesOfIteration(cfg, k - 1);
      AfterOrNot(cfg, k);
    }
  }

  lemma FirstUpdateSent(cfg: Config)
    ensures Updates(Start(cfg)) == if cfg.criticTrainOnly then [] else [[]]
  {
    NoUpdates([Generate(cfg.startRollout)]);
    assert !cfg.criticTrainOnly ==> Start(cfg)[1..] == [Generate(cfg.startRollout)];
  }

  lemma AfterOrNot(cfg: Config, k: nat)
    requires Usable(cfg) && k > 0
    ensures UpdatesAfter(cfg, k - 1) <==> k % cfg.updateInterval == 0 && !cfg.criticTrainOnly
  {
  }

  lemma UpdatesOfIteration(cfg: Config, k: nat)
    requires Usable(cfg)
    ensures Updates(Iteration(cfg, k)) == if UpdatesAfter(cfg, k) then [ActorTrained(cfg, k + 1)] else []
  {
    QuietParts(cfg, k);
    UpdatesOfUpdating(cfg, k);
    hide Generating, Trainings, Saves, Updating, Evaluating, Updates;
    var front := Generating(cfg, k) + Trainings(cfg, k) + Saves(cfg, k);
    NoUpdates(front);
    NoUpdates(Evaluating(cfg, k));
    UpdatesAppend(front, Updating(cfg, k));
    UpdatesAppend(front + Updating(cfg, k), Evaluating(cfg, k));
  }

  lemma UpdatesOfUpdating(cfg: Config, k: nat)
    requires Usable(cfg)
    ensures Updates(Updating(cfg, k)) == if UpdatesAfter(cfg, k) then [ActorTrained(cfg, k + 1)] else []
  {
    hide ActorTrained;
    assert UpdatesAfter(cfg, k) ==> Updating(cfg, k)[1..] == [];
  }

  // When saving is on, each model that is trained at all is saved after the last rollout, with no training
  // of that model behind the save.
  lemma LastRolloutIsSaved(cfg: Config, role: Role) returns (before: seq<Event>, after: seq<Event>)
    requires Usable(cfg) && cfg.startRollout < cfg.numRollout && cfg.saveInterval.Some?
    requires if role == Actor then !cfg.criticTrainOnly else cfg.useCritic
    ensures RunLog(cfg) == before + [Save(role, cfg.numRollout - 1)] + after
    ensures TrainedOn(after, role) == []
  {
    hide Until, Iteration, Generating, Trainings, Saves, Updating, Evaluating, TrainedOn, Usable;
    var last := cfg.numRollout - 1;
    var front, rest := SavedAt(cfg, last, role);
    UntilNext(cfg, cfg.numRollout);
    var init := Until(cfg, last);
    var tail := [Dispose({})];
    IterationParts(cfg, last);
    SplitLog(init, Generating(cfg, last), Trainings(cfg, last), front, [Save(role, last)], rest,
             Updating(cfg, last), Evaluating(cfg, last), tail);
    before := init + Generating(cfg, last) + Trainings(cfg, last) + front;
    after := rest + Updating(cfg, last) + Evaluating(cfg, last) + tail;
    QuietParts(cfg, last);
    NoTraining(rest, Updating(cfg, last), Evaluating(cfg, last), tail, role);
  }

  lemma IterationParts(cfg: Config, k: nat)
    requires Usable(cfg)
    ensures Iteration(cfg, k)
            == Generating(cfg, k) + Trainings(cfg, k) + Saves(cfg, k) + Updating(cfg, k) + Evaluating(cfg, k)
  {
    hide Generating, Trainings, Saves, Updating, Evaluating;
  }

  lemma NoTraining(a: seq<Event>, b: seq<Event>, c: seq<Event>, d: seq<Event>, role: Role)
    requires forall e :: e in a || e in b || e in c || e in d ==> !e.Train?
    ensures TrainedOn(a + b + c + d, role) == []
  {
    TrainedOnNone(a + b + c + d, role);
  }

  lemma SplitLog<T>(a: seq<T>, b: seq<T>, c: seq<T>, d: seq<T>, e: seq<T>, f: seq<T>, g: seq<T>, h: seq<T>, i: seq<T>)
    ensures a + (b + c + (d + e + f) + g + h) + i == (a + b + c + d) + e + (f + g + h + i)
  {
  }

  lemma SavedAt(cfg: Config, k: nat, role: Role) returns (front: seq<Event>, rest: seq<Event>)
    requires Usable(cfg) && cfg.saveInterval.Some? && k == cfg.numRollout - 1
    requires if role == Actor then !cfg.criticTrainOnly else cfg.useCritic
    ensures Saves(cfg, k) == front + [Save(role, k)] + rest
    ensures forall e :: e in rest ==> !e.Train?
  {
    var dataset := if cfg.globalDataset then [SaveDataset(k)] else [];
    var actor := if cfg.criticTrainOnly then [] else [Save(Actor, k)];
    var critic := if cfg.useCritic then [Save(Critic, k)] else [];
    if role == Actor {
      front, rest := [], critic + dataset;
    } else {
      front, rest := actor, dataset;
    }
  }
}
