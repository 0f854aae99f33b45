/** Where every event of a training run stands: what happens how often, in which order, and under which weights. */
module AsyncTrainLog {
  import opened AsyncTrain
  import opened AsyncTrainRuns
  import opened Wrappers

  // ---------- Which settings ----------

  // No modulus that is ever taken is zero.
  lemma UsableIff(cfg: Config)
    ensures Usable(cfg)
            <==> cfg.updateInterval != 0 && cfg.saveInterval != Some(0) && cfg.evalInterval != Some(0)
                 && (cfg.saveInterval == cfg.evalInterval == None || cfg.rolloutsPerEpoch != Some(0))
  {
  }

  // ---------- How often ----------

  // The step after rollout k completes an interval or an epoch.
  predicate Due(k: nat, interval: Option<nat>, perEpoch: Option<nat>)
    requires interval.Some? ==> interval.value >= 1 && (perEpoch.Some? ==> perEpoch.value >= 1)
  {
    interval.Some?
    && ((k + 1) % interval.value == 0 || (perEpoch.Some? && (k + 1) % perEpoch.value == 0))
  }

  predicate SaveDue(cfg: Config, k: nat)
    requires Usable(cfg)
  {
    cfg.saveInterval.Some? && (Due(k, cfg.saveInterval, cfg.rolloutsPerEpoch) || k == cfg.numRollout - 1)
  }

  // The iteration an event belongs to; -1 for the events before and after the loop.
  function IterationOf(cfg: Config, e: Event): int {
    match e
    case Generate(id) => if id == cfg.startRollout then -1 else id - 1
    case Train(_, id, _) => id
    case Save(_, id) => id
    case SaveDataset(id) => id
    case Eval(id) => id
    case _ => -1
  }

  lemma IterationMembers(cfg: Config, k: nat, e: Event)
    requires Usable(cfg) && k >= cfg.startRollout && e in Iteration(cfg, k)
    ensures e.Update? || IterationOf(cfg, e) == k
  {
    hide Usable, OwnData, ActorTrained, UpdatesAfter, TrainsActor, ShouldRunPeriodicAction;
  }

  // How often an event that is no update stands in the log up to iteration k.
  lemma {:induction false} CountUntil(cfg: Config, k: nat, e: Event)
    requires Usable(cfg) && !e.Update? && IterationOf(cfg, e) >= 0 && k >= cfg.startRollout
    ensures multiset(Until(cfg, k))[e]
            == if cfg.startRollout <= IterationOf(cfg, e) < k
               then multiset(Iteration(cfg, IterationOf(cfg, e)))[e] else 0
    decreases k
  {
    hide Until, Iteration, Usable;
    UntilNext(cfg, k);
    if k > cfg.startRollout {
      CountUntil(cfg, k - 1, e);
      if e in Iteration(cfg, k - 1) {
        IterationMembers(cfg, k - 1, e);
      }
    }
  }

  lemma CountInLog(cfg: Config, e: Event)
    requires Usable(cfg) && cfg.startRollout < cfg.numRollout && !e.Update? && IterationOf(cfg, e) >= 0
    ensures multiset(RunLog(cfg))[e]
            == if cfg.startRollout <= IterationOf(cfg, e) < cfg.numRollout
               then multiset(Iteration(cfg, IterationOf(cfg, e)))[e] else 0
  {
    hide Until, Iteration, Usable;
    CountUntil(cfg, cfg.numRollout, e);
  }

  lemma OneOrNone<T>(x: T, a: seq<T>, b: seq<T>, c: seq<T>, d: seq<T>, e: seq<T>)
    ensures multiset(a + b + c + d + e)[x]
            == multiset(a)[x] + multiset(b)[x] + multiset(c)[x] + multiset(d)[x] + multiset(e)[x]
  {
  }

  lemma CountInIteration(cfg: Config, k: nat, e: Event)
    requires Usable(cfg)
    ensures multiset(Iteration(cfg, k))[e]
            == multiset(Generating(cfg, k))[e] + multiset(Trainings(cfg, k))[e] + multiset(Saves(cfg, k))[e]
               + multiset(Updating(cfg, k))[e] + multiset(Evaluating(cfg, k))[e]
  {
    hide Generating, Trainings, Saves, Updating, Evaluating;
    OneOrNone(e, Generating(cfg, k), Trainings(cfg, k), Saves(cfg, k), Updating(cfg, k), Evaluating(cfg, k));
  }

  // Each kind of event comes from one part of an iteration.
  lemma OwnPart(cfg: Config, k: nat, e: Event)
    requires Usable(cfg)
    ensures !e.Generate? ==> multiset(Generating(cfg, k))[e] == 0
    ensures !e.Train? ==> multiset(Trainings(cfg, k))[e] == 0
    ensures !(e.Save? || e.SaveDataset?) ==> multiset(Saves(cfg, k))[e] == 0
    ensures !e.Update? ==> multiset(Updating(cfg, k))[e] == 0
    ensures !e.Eval? ==> multiset(Evaluating(cfg, k))[e] == 0
  {
    KindsOfParts(cfg, k);
    hide Usable, Generating, Trainings, Saves, Updating, Evaluating;
    assert e !in Generating(cfg, k) ==> multiset(Generating(cfg, k))[e] == 0;
    assert e !in Trainings(cfg, k) ==> multiset(Trainings(cfg, k))[e] == 0;
    assert e !in Saves(cfg, k) ==> multiset(Saves(cfg, k))[e] == 0;
    assert e !in Updating(cfg, k) ==> multiset(Updating(cfg, k))[e] == 0;
    assert e !in Evaluating(cfg, k) ==> multiset(Evaluating(cfg, k))[e] == 0;
  }

  lemma KindsOfParts(cfg: Config, k: nat)
    requires Usable(cfg)
    ensures forall e :: e in Generating(cfg, k) ==> e.Generate?
    ensures forall e :: e in Trainings(cfg, k) ==> e.Train?
    ensures forall e :: e in Saves(cfg, k) ==> e.Save? || e.SaveDataset?
    ensures forall e :: e in Updating(cfg, k) ==> e.Update?
    ensures forall e :: e in Evaluating(cfg, k) ==> e.Eval?
  {
    hide Usable, OwnData, ActorTrained, UpdatesAfter, TrainsActor, ShouldRunPeriodicAction;
  }

  lemma SavesOf(cfg: Config, k: nat)
    requires Usable(cfg)
    ensures multiset(Saves(cfg, k))[Save(Actor, k)] == if SaveDue(cfg, k) && !cfg.criticTrainOnly then 1 else 0
    ensures multiset(Saves(cfg, k))[Save(Critic, k)] == if SaveDue(cfg, k) && cfg.useCritic then 1 else 0
    ensures multiset(Saves(cfg, k))[SaveDataset(k)] == if SaveDue(cfg, k) && cfg.globalDataset then 1 else 0
  {
    SaveDueIff(cfg, k);
    hide SaveDue, ShouldRunPeriodicAction, Usable;
  }

  lemma SaveDueIff(cfg: Config, k: nat)
    requires Usable(cfg)
    ensures ShouldRunPeriodicAction(k, cfg.saveInterval, cfg.rolloutsPerEpoch, Some(cfg.numRollout))
            <==> SaveDue(cfg, k)
  {
  }

  // A model is saved after rollout k, once, if and only if it is saved at all, saving is on, and an interval or an
  // epoch ends there or the rollout is the last one.
  lemma SavesInLog(cfg: Config, role: Role, k: nat)
    requires Usable(cfg) && cfg.startRollout < cfg.numRollout
    ensures multiset(RunLog(cfg))[Save(role, k)]
            == if cfg.startRollout <= k < cfg.numRollout && SaveDue(cfg, k)
                  && (if role == Actor then !cfg.criticTrainOnly else cfg.useCritic) then 1 else 0
  {
    hide RunLog, Iteration, Generating, Trainings, Saves, Updating, Evaluating, Usable, SaveDue;
    CountInLog(cfg, Save(role, k));
    CountInIteration(cfg, k, Save(role, k));
    OwnPart(cfg, k, Save(role, k));
    SavesOf(cfg, k);
  }

  lemma DatasetSavesInLog(cfg: Config, k: nat)
    requires Usable(cfg) && cfg.startRollout < cfg.numRollout
    ensures multiset(RunLog(cfg))[SaveDataset(k)]
            == if cfg.startRollout <= k < cfg.numRollout && SaveDue(cfg, k) && cfg.globalDataset then 1 else 0
  {
    hide RunLog, Iteration, Generating, Trainings, Saves, Updating, Evaluating, Usable, SaveDue;
    CountInLog(cfg, SaveDataset(k));
    CountInIteration(cfg, k, SaveDataset(k));
    OwnPart(cfg, k, SaveDataset(k));
    SavesOf(cfg, k);
  }

  // An evaluation follows rollout k, once, if and only if an interval or an epoch ends there.
  lemma EvalsInLog(cfg: Config, k: nat)
    requires Usable(cfg) && cfg.startRollout < cfg.numRollout
    ensures multiset(RunLog(cfg))[Eval(k)]
            == if cfg.startRollout <= k < cfg.numRollout && Due(k, cfg.evalInterval, cfg.rolloutsPerEpoch) then 1 else 0
  {
    EvalOf(cfg, k);
    hide RunLog, Iteration, Generating, Trainings, Saves, Updating, Evaluating, Usable, Due;
    CountInLog(cfg, Eval(k));
    CountInIteration(cfg, k, Eval(k));
    OwnPart(cfg, k, Eval(k));
  }

  lemma EvalOf(cfg: Config, k: nat)
    requires Usable(cfg)
    ensures multiset(Evaluating(cfg, k))[Eval(k)] == if Due(k, cfg.evalInterval, cfg.rolloutsPerEpoch) then 1 else 0
  {
  }

  // Every rollout of the run is generated, once, and no other.
  lemma GeneratesInLog(cfg: Config, k: nat)
    requires Usable(cfg) && cfg.startRollout < cfg.numRollout
    ensures multiset(RunLog(cfg))[Generate(k)] == if cfg.startRollout <= k < cfg.numRollout then 1 else 0
  {
    hide Until, Iteration, Generating, Trainings, Saves, Updating, Evaluating, Usable;
    if k == cfg.startRollout || k == 0 {
      OuterGenerate(cfg, cfg.numRollout, k);
    } else {
      CountInLog(cfg, Generate(k));
      CountInIteration(cfg, k - 1, Generate(k));
      OwnPart(cfg, k - 1, Generate(k));
      GenerateOf(cfg, k);
    }
  }

  lemma GenerateOf(cfg: Config, k: nat)
    requires k > 0
    ensures multiset(Generating(cfg, k - 1))[Generate(k)] == if k < cfg.numRollout then 1 else 0
  {
  }

  lemma {:induction false} OuterGenerate(cfg: Config, n: nat, k: nat)
    requires Usable(cfg) && (k == cfg.startRollout || k == 0)
    ensures multiset(Until(cfg, n))[Generate(k)] == if k == cfg.startRollout then 1 else 0
    decreases n
  {
    hide Until, Iteration, Usable;
    UntilNext(cfg, n);
    if n > cfg.startRollout {
      OuterGenerate(cfg, n - 1, k);
      NotGenerated(cfg, n - 1, k);
    }
  }

  lemma NotGenerated(cfg: Config, n: nat, k: nat)
    requires Usable(cfg) && n >= cfg.startRollout && k <= n
    ensures Generate(k) !in Iteration(cfg, n)
  {
    hide Usable, OwnData, ActorTrained, UpdatesAfter, TrainsActor, ShouldRunPeriodicAction;
  }

  // ---------- In which order ----------

  predicate Ranked(e: Event) {
    !e.Update? && !e.Dispose?
  }

  // The next generation starts first, then come the critic and the actor, the saves and the evaluation.
  function Rank(e: Event): int
    requires Ranked(e)
  {
    match e
    case Generate(id) => 10 * id - 10
    case Train(role, id, _) => 10 * id + (if role == Critic then 1 else 2)
    case Save(role, id) => 10 * id + (if role == Actor then 3 else 4)
    case SaveDataset(id) => 10 * id + 5
    case Eval(id) => 10 * id + 6
  }

  ghost predicate Rising(log: seq<Event>) {
    forall i, j :: 0 <= i < j < |log| && Ranked(log[i]) && Ranked(log[j]) ==> Rank(log[i]) < Rank(log[j])
  }

  ghost predicate RanksWithin(log: seq<Event>, lo: int, hi: int) {
    forall i :: 0 <= i < |log| && Ranked(log[i]) ==> lo <= Rank(log[i]) < hi
  }

  lemma RisingJoin(a: seq<Event>, b: seq<Event>, lo: int, mid: int, hi: int)
    requires Rising(a) && Rising(b) && RanksWithin(a, lo, mid) && RanksWithin(b, mid, hi) && lo <= mid <= hi
    ensures Rising(a + b) && RanksWithin(a + b, lo, hi)
  {
    hide Ranked, Rank;
  }

  lemma IterationRises(cfg: Config, k: nat)
    requires Usable(cfg)
    ensures Rising(Iteration(cfg, k)) && RanksWithin(Iteration(cfg, k), 10 * k, 10 * k + 10)
  {
    var a, b, c := Generating(cfg, k), Trainings(cfg, k), Saves(cfg, k);
    var d, e := Updating(cfg, k), Evaluating(cfg, k);
    PartsRise(cfg, k);
    TrainingsRise(cfg, k);
    SavesRise(cfg, k);
    hide Iteration, Generating, Trainings, Saves, Updating, Evaluating, Rising, RanksWithin;
    RisingJoin(a, b, 10 * k, 10 * k + 1, 10 * k + 3);
    RisingJoin(a + b, c, 10 * k, 10 * k + 3, 10 * k + 6);
    RisingJoin(a + b + c, d, 10 * k, 10 * k + 6, 10 * k + 6);
    RisingJoin(a + b + c + d, e, 10 * k, 10 * k + 6, 10 * k + 10);
    IterationParts(cfg, k);
  }

  lemma PartsRise(cfg: Config, k: nat)
    requires Usable(cfg)
    ensures Rising(Generating(cfg, k)) && RanksWithin(Generating(cfg, k), 10 * k, 10 * k + 1)
    ensures Rising(Updating(cfg, k)) && RanksWithin(Updating(cfg, k), 10 * k + 6, 10 * k + 6)
    ensures Rising(Evaluating(cfg, k)) && RanksWithin(Evaluating(cfg, k), 10 * k + 6, 10 * k + 10)
  {
    hide Usable, OwnData, ActorTrained, UpdatesAfter, ShouldRunPeriodicAction;
  }

  lemma TrainingsRise(cfg: Config, k: nat)
    requires Usable(cfg)
    ensures Rising(Trainings(cfg, k)) && RanksWithin(Trainings(cfg, k), 10 * k + 1, 10 * k + 3)
  {
    hide Usable, OwnData, TrainsActor;
  }

  lemma SavesRise(cfg: Config, k: nat)
    requires Usable(cfg)
    ensures Rising(Saves(cfg, k)) && RanksWithin(Saves(cfg, k), 10 * k + 3, 10 * k + 6)
  {
    hide Usable, ShouldRunPeriodicAction;
  }

  lemma {:induction false} UntilRises(cfg: Config, k: nat)
    requires Usable(cfg) && k >= cfg.startRollout
    ensures Rising(Until(cfg, k)) && RanksWithin(Until(cfg, k), 10 * cfg.startRollout - 10, 10 * k)
    decreases k
  {
    hide Until, Iteration, Usable, Rising, RanksWithin;
    UntilNext(cfg, k);
    if k == cfg.startRollout {
      StartRises(cfg);
    } else {
      UntilRises(cfg, k - 1);
      IterationRises(cfg, k - 1);
      RisingJoin(Until(cfg, k - 1), Iteration(cfg, k - 1), 10 * cfg.startRollout - 10, 10 * k - 10, 10 * k);
    }
  }

  lemma StartRises(cfg: Config)
    ensures Rising(Start(cfg)) && RanksWithin(Start(cfg), 10 * cfg.startRollout - 10, 10 * cfg.startRollout)
  {
  }

  // In every run rollout k + 1 is started before anything is done with rollout k; then come the trainings of k, its
  // saves and its evaluation, all before anything is done with rollout k + 1.
  lemma EventsInOrder(cfg: Config)
    requires Usable(cfg) && cfg.startRollout < cfg.numRollout
    ensures Rising(RunLog(cfg))
  {
    hide Until;
    UntilRises(cfg, cfg.numRollout);
  }

  // ---------- Under which weights ----------

  // How many iterations' updates have been sent when the event happens.
  function IterationsBefore(cfg: Config, e: Event): nat {
    match e
    case Generate(id) => if id == 0 then 0 else id - 1
    case Train(_, id, _) => id
    case Save(_, id) => id
    case SaveDataset(id) => id
    case Eval(id) => id + 1
    case _ => cfg.numRollout
  }

  ghost predicate SeesAt(cfg: Config, before: seq<Weights>, log: seq<Event>, i: nat)
    requires Usable(cfg) && i < |log|
  {
    !log[i].Update? ==> before + Updates(log[..i]) == Schedule(cfg, IterationsBefore(cfg, log[i]))
  }

  // Every event but an update follows exactly the updates that are scheduled before it.
  ghost predicate SeesSchedule(cfg: Config, before: seq<Weights>, log: seq<Event>)
    requires Usable(cfg)
  {
    forall i: nat :: i < |log| ==> SeesAt(cfg, before, log, i)
  }

  lemma SeesLater(cfg: Config, before: seq<Weights>, a: seq<Event>, b: seq<Event>, i: nat)
    requires Usable(cfg) && i < |b| && SeesAt(cfg, before + Updates(a), b, i)
    ensures SeesAt(cfg, before, a + b, |a| + i)
  {
    hide Updates, Schedule, IterationsBefore, Usable;
    assert (a + b)[..|a| + i] == a + b[..i];
    UpdatesAppend(a, b[..i]);
    assert before + Updates(a) + Updates(b[..i]) == before + (Updates(a) + Updates(b[..i]));
  }

  lemma SeesJoin(cfg: Config, before: seq<Weights>, a: seq<Event>, b: seq<Event>)
    requires Usable(cfg) && SeesSchedule(cfg, before, a) && SeesSchedule(cfg, before + Updates(a), b)
    ensures SeesSchedule(cfg, before, a + b)
  {
    hide SeesAt, Updates, Usable;
    forall i: nat | i < |a + b| ensures SeesAt(cfg, before, a + b, i) {
      if i < |a| {
        SeesEarlier(cfg, before, a, b, i);
      } else {
        SeesLater(cfg, before, a, b, i - |a|);
      }
    }
  }

  lemma SeesEarlier(cfg: Config, before: seq<Weights>, a: seq<Event>, b: seq<Event>, i: nat)
    requires Usable(cfg) && i < |a| && SeesAt(cfg, before, a, i)
    ensures SeesAt(cfg, before, a + b, i)
  {
    hide Updates, Schedule, IterationsBefore, Usable;
    assert (a + b)[..i] == a[..i];
  }

  // Events without an update among them all see the same updates.
  lemma QuietSees(cfg: Config, before: seq<Weights>, log: seq<Event>, k: nat)
    requires Usable(cfg) && before == Schedule(cfg, k)
    requires forall e :: e in log ==> !e.Update? && Schedule(cfg, IterationsBefore(cfg, e)) == Schedule(cfg, k)
    ensures SeesSchedule(cfg, before, log) && Updates(log) == []
  {
    hide Updates, Schedule, IterationsBefore, Usable;
    NoUpdates(log);
    forall i: nat | i < |log| ensures SeesAt(cfg, before, log, i) {
      assert log[i] in log;
      NoUpdates(log[..i]);
    }
  }

  lemma IterationSees(cfg: Config, k: nat)
    requires Usable(cfg) && k >= cfg.startRollout
    ensures SeesSchedule(cfg, Schedule(cfg, k), Iteration(cfg, k))
    ensures Schedule(cfg, k) + Updates(Iteration(cfg, k)) == Schedule(cfg, k + 1)
  {
    hide Schedule, Updates, Iteration, Generating, Trainings, Saves, Updating, Evaluating, IterationsBefore;
    hide Usable, SeesSchedule, UpdatesAfter, ActorTrained;
    var front := Generating(cfg, k) + Trainings(cfg, k) + Saves(cfg, k);
    var now := Schedule(cfg, k);
    FrontMembers(cfg, k);
    UpdatesOfIteration(cfg, k);
    UpdatesOfUpdating(cfg, k);
    ScheduleNext(cfg, k);
    EvaluatingMembers(cfg, k);
    QuietSees(cfg, now, front, k);
    UpdatingSees(cfg, now, k);
    assert now + Updates(front) == now;
    SeesJoin(cfg, now, front, Updating(cfg, k));
    UpdatesAppend(front, Updating(cfg, k));
    assert [] + Updates(Updating(cfg, k)) == Updates(Updating(cfg, k));
    QuietSees(cfg, Schedule(cfg, k + 1), Evaluating(cfg, k), k + 1);
    SeesJoin(cfg, now, front + Updating(cfg, k), Evaluating(cfg, k));
    IterationParts(cfg, k);
  }

  lemma ScheduleNext(cfg: Config, k: nat)
    requires Usable(cfg) && k >= cfg.startRollout
    ensures Schedule(cfg, k) + (if UpdatesAfter(cfg, k) then [ActorTrained(cfg, k + 1)] else []) == Schedule(cfg, k + 1)
  {
    hide ActorTrained;
  }

  lemma FrontMembers(cfg: Config, k: nat)
    requires Usable(cfg)
    ensures forall e :: e in Generating(cfg, k) + Trainings(cfg, k) + Saves(cfg, k) ==>
              !e.Update? && IterationsBefore(cfg, e) == k
  {
    hide Usable, OwnData, TrainsActor, ShouldRunPeriodicAction;
  }

  lemma EvaluatingMembers(cfg: Config, k: nat)
    requires Usable(cfg)
    ensures forall e :: e in Evaluating(cfg, k) ==> !e.Update? && IterationsBefore(cfg, e) == k + 1
  {
    hide Usable, ShouldRunPeriodicAction;
  }

  lemma UpdatingSees(cfg: Config, before: seq<Weights>, k: nat)
    requires Usable(cfg)
    ensures SeesSchedule(cfg, before, Updating(cfg, k))
  {
    hide Usable, ActorTrained, Schedule, Updates;
  }

  lemma {:induction false} UntilSees(cfg: Config, k: nat)
    requires Usable(cfg) && k >= cfg.startRollout
    ensures SeesSchedule(cfg, [], Until(cfg, k))
    decreases k
  {
    hide Until, Iteration, Schedule, Updates, Usable, SeesSchedule;
    UntilNext(cfg, k);
    if k == cfg.startRollout {
      StartSees(cfg);
    } else {
      UntilSees(cfg, k - 1);
      UpdatesFollowSchedule(cfg, k - 1);
      IterationSees(cfg, k - 1);
      assert [] + Updates(Until(cfg, k - 1)) == Schedule(cfg, k - 1);
      SeesJoin(cfg, [], Until(cfg, k - 1), Iteration(cfg, k - 1));
    }
  }

  lemma StartSees(cfg: Config)
    requires Usable(cfg)
    ensures SeesSchedule(cfg, [], Start(cfg))
  {
    var id := cfg.startRollout;
    if cfg.criticTrainOnly {
      assert Start(cfg)[..0] == [];
    } else {
      assert Start(cfg)[..1] == [Update([], {})] && [Update([], {})][1..] == [];
    }
  }

  // The updates recorded before an event are exactly those scheduled before it: an evaluation sees the update of its
  // own iteration, and training, saving and generating do not.
  lemma EventsSeeTheSchedule(cfg: Config, i: nat)
    requires Usable(cfg) && cfg.startRollout < cfg.numRollout && i < |RunLog(cfg)| && !RunLog(cfg)[i].Update?
    ensures Updates(RunLog(cfg)[..i]) == Schedule(cfg, IterationsBefore(cfg, RunLog(cfg)[i]))
  {
    hide Until, Schedule, Updates, Usable;
    var log := Until(cfg, cfg.numRollout);
    UntilSees(cfg, cfg.numRollout);
    UpdatesFollowSchedule(cfg, cfg.numRollout);
    if i < |log| {
      assert RunLog(cfg)[..i] == log[..i];
      assert SeesAt(cfg, [], log, i);
    } else {
      assert RunLog(cfg)[..i] == log;
    }
  }

  // ---------- Which data ----------

  lemma TrainedInIteration(cfg: Config, k: nat, e: Event)
    requires Usable(cfg) && e.Train? && e in Iteration(cfg, k)
    ensures e.data == OwnData(cfg, e.id)
  {
    hide Usable, OwnData, ActorTrained, UpdatesAfter, TrainsActor, ShouldRunPeriodicAction;
  }

  lemma {:induction false} TrainedUntil(cfg: Config, k: nat, e: Event)
    requires Usable(cfg) && e.Train? && e in Until(cfg, k)
    ensures e.data == OwnData(cfg, e.id)
    decreases k
  {
    hide Until, Iteration, Usable, OwnData;
    UntilNext(cfg, k);
    if k > cfg.startRollout {
      if e in Iteration(cfg, k - 1) {
        TrainedInIteration(cfg, k - 1, e);
      } else {
        TrainedUntil(cfg, k - 1, e);
      }
    }
  }

  // The last weights scheduled before iteration k are those it is served.
  lemma {:induction false} LastScheduled(cfg: Config, k: nat)
    requires Usable(cfg) && !cfg.criticTrainOnly
    ensures Schedule(cfg, k) != []
    ensures Schedule(cfg, k)[|Schedule(cfg, k)| - 1]
            == if k <= cfg.startRollout then [] else ActorTrained(cfg, Served(cfg, k))
    decreases k
  {
    hide Usable, ActorTrained;
    if k > cfg.startRollout {
      LastScheduled(cfg, k - 1);
      ServedNext(cfg, k - 1);
      ServedNext(cfg, cfg.startRollout);
      NothingTrained(cfg, cfg.startRollout);
      AfterOrNot(cfg, k);
    }
  }

  lemma NothingTrained(cfg: Config, k: nat)
    requires k <= cfg.startRollout
    ensures ActorTrained(cfg, k) == []
  {
  }

  // Whoever is trained on rollout k is trained on data that was generated with one version of the weights: the last
  // one sent before that generation was started.
  lemma TrainedOnLastSent(cfg: Config, i: nat, j: nat)
    requires Usable(cfg) && cfg.startRollout < cfg.numRollout && i < |RunLog(cfg)| && j < |RunLog(cfg)|
    requires RunLog(cfg)[i].Generate? && RunLog(cfg)[j].Train? && RunLog(cfg)[j].id == RunLog(cfg)[i].id
    ensures var k, sent := RunLog(cfg)[i].id, Updates(RunLog(cfg)[..i]);
            RunLog(cfg)[j].data == Data(k, {if sent == [] then [] else sent[|sent| - 1]})
            && (sent == [] <==> cfg.criticTrainOnly)
  {
    hide Until, Schedule, Updates, Usable, ActorTrained, Served;
    var k := RunLog(cfg)[i].id;
    var log := Until(cfg, cfg.numRollout);
    EventsSeeTheSchedule(cfg, i);
    assert j < |log| && log[j] in log;
    TrainedUntil(cfg, cfg.numRollout, log[j]);
    OwnWeights(cfg, k);
  }

  lemma OwnWeights(cfg: Config, k: nat)
    requires Usable(cfg)
    ensures var sent := Schedule(cfg, if k == 0 then 0 else k - 1);
            OwnData(cfg, k) == Data(k, {if sent == [] then [] else sent[|sent| - 1]})
            && (sent == [] <==> cfg.criticTrainOnly)
  {
    hide ActorTrained;
    NothingTrained(cfg, cfg.startRollout);
    if cfg.criticTrainOnly {
      assert Schedule(cfg, if k == 0 then 0 else k - 1) == [];
    } else {
      LastScheduled(cfg, if k == 0 then 0 else k - 1);
      hide Schedule;
      if k > cfg.startRollout && k - 1 == cfg.startRollout {
        ServedNext(cfg, cfg.startRollout);
      }
    }
  }
}
