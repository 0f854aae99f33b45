/** The asynchronous training loop: rollout k+1 is generated while rollout k is trained on, and the
    generation in flight is awaited before the weights it uses are replaced. */
module AsyncTrain {
  import opened Arithmetic
  import opened Wrappers

  datatype Config = Config(
    startRollout: nat, numRollout: nat, updateInterval: nat,
    useCritic: bool, criticTrainOnly: bool, numCriticOnlySteps: nat,
    saveInterval: Option<nat>, evalInterval: Option<nat>, rolloutsPerEpoch: Option<nat>, globalDataset: bool)

  // A modulus of zero is a ZeroDivisionError in the source.
  predicate Usable(cfg: Config) {
    && cfg.updateInterval >= 1
    && (cfg.saveInterval.Some? ==> cfg.saveInterval.value >= 1)
    && (cfg.evalInterval.Some? ==> cfg.evalInterval.value >= 1)
    && (cfg.rolloutsPerEpoch.Some? && (cfg.saveInterval.Some? || cfg.evalInterval.Some?) ==>
          cfg.rolloutsPerEpoch.value >= 1)
  }

  // What the weights hold: the rollouts the actor was trained on, in order.
  type Weights = seq<int>

  // Generated data carries every version of the weights that was served while it was being generated.
  datatype Data = Data(rollout: nat, versions: set<Weights>)

  datatype Role = Actor | Critic

  datatype Event =
    | Generate(id: nat)
    | Train(role: Role, id: nat, data: Data)
    | Save(role: Role, id: nat)
    | SaveDataset(id: nat)
    | Update(weights: Weights, inFlight: set<nat>)
    | Eval(id: nat)
    | Dispose(inFlight: set<nat>)

  function ShouldRunPeriodicAction(id: nat, interval: Option<nat>, perEpoch: Option<nat>, numRollout: Option<nat>): bool
    requires interval.Some? ==> interval.value >= 1
    requires interval.Some? && perEpoch.Some? ==> perEpoch.value >= 1
  {
    if interval.None? then false
    else if numRollout.Some? && id == numRollout.value - 1 then true
    else (id + 1) % interval.value == 0 || (perEpoch.Some? && (id + 1) % perEpoch.value == 0)
  }

  predicate TrainsActor(cfg: Config, id: nat) {
    !cfg.useCritic || (id >= cfg.numCriticOnlySteps && !cfg.criticTrainOnly)
  }

  // ---------- The remote side ----------

  // The remote side at one moment: the log, the actor's weights, the weights served for generation,
  // the generations in flight with the weights they have used, and the finished ones.
  datatype Remote = Remote(log: seq<Event>, actor: Weights, served: Weights,
                           running: map<nat, set<Weights>>, finished: map<nat, Data>)

  // Some generations in flight, any of them, run to completion.
  ghost predicate Progresses(r: Remote, s: Remote) {
    && s.log == r.log && s.actor == r.actor && s.served == r.served
    && s.running.Keys <= r.running.Keys && (forall k :: k in s.running ==> s.running[k] == r.running[k])
    && s.finished == r.finished + map k | k in r.running && k !in s.running :: Data(k, r.running[k])
  }

  // The steps of the remote side, each after some progress.
  ghost predicate GenerateStep(r: Remote, s: Remote, id: nat) {
    exists m: Remote ::
      Progresses(r, m) && s == m.(log := m.log + [Generate(id)], running := m.running[id := {m.served}])
  }

  function Reached(running: map<nat, set<Weights>>, weights: Weights): map<nat, set<Weights>> {
    map k | k in running :: running[k] + {weights}
  }

  // New weights reach the generations that are still running.
  ghost predicate UpdateStep(r: Remote, s: Remote) {
    exists m: Remote ::
      Progresses(r, m)
      && s == m.(log := m.log + [Update(m.actor, m.running.Keys)], served := m.actor,
                 running := Reached(m.running, m.actor))
  }

  ghost predicate DisposeStep(r: Remote, s: Remote) {
    exists m: Remote :: Progresses(r, m) && s == m.(log := m.log + [Dispose(m.running.Keys)])
  }

  // Rollout engine, actor and critic behind remote handles. Generations finish at arbitrary times.
  class Cluster {
    var log: seq<Event>
    var actor: Weights
    var served: Weights
    var running: map<nat, set<Weights>>
    var finished: map<nat, Data>

    ghost function Now(): Remote
      reads this
    {
      Remote(log, actor, served, running, finished)
    }

    ghost predicate Known(id: nat)
      reads this
    {
      id in running || id in finished
    }

    // What awaiting the generation would return if no weights changed from now on.
    ghost function Pending(id: nat): Data
      requires Known(id)
      reads this
    {
      if id in running then Data(id, running[id]) else finished[id]
    }

    constructor ()
      ensures Now() == Remote([], [], [], map[], map[])
    {
      log, actor, served, running, finished := [], [], [], map[], map[];
    }

    // Some generations in flight run to completion.
    method Progress()
      modifies this`running, this`finished
      ensures Progresses(old(Now()), Now())
      ensures forall id :: Known(id) <==> old(Known(id))
      ensures forall id :: Known(id) ==> old(Known(id)) && Pending(id) == old(Pending(id))
    {
      var left := running.Keys;
      while left != {}
        invariant left <= running.Keys
        invariant Progresses(old(Now()), Now())
        invariant forall id :: Known(id) <==> old(Known(id))
        invariant forall id :: Known(id) ==> Pending(id) == old(Pending(id))
        decreases |left|
      {
        var id :| id in left;
        left := left - {id};
        if * {
          OneFinishes(old(Now()), Now(), id);
          finished := finished[id := Data(id, running[id])];
          running := running - {id};
        }
      }
    }

    method StartGenerate(id: nat)
      requires !Known(id)
      modifies this
      ensures GenerateStep(old(Now()), Now(), id)
      ensures log == old(log) + [Generate(id)] && served == old(served) && actor == old(actor)
      ensures running.Keys <= old(running.Keys) + {id}
      ensures forall k :: Known(k) <==> old(Known(k)) || k == id
      ensures forall k :: old(Known(k)) ==> Pending(k) == old(Pending(k))
      ensures Pending(id) == Data(id, {served})
    {
      Progress();
      ghost var m := Now();
      running := running[id := {served}];
      log := log + [Generate(id)];
      assert Progresses(old(Now()), m);
    }

    // ray.get on a generation.
    method Await(id: nat) returns (data: Data)
      requires Known(id)
      modifies this
      ensures Progresses(old(Now()), Now())
      ensures log == old(log) && served == old(served) && actor == old(actor)
      ensures data == old(Pending(id)) && running.Keys <= old(running.Keys) - {id}
      ensures forall k :: Known(k) <==> old(Known(k))
      ensures forall k :: Known(k) ==> old(Known(k)) && Pending(k) == old(Pending(k))
    {
      Progress();
      if id in running {
        OneFinishes(old(Now()), Now(), id);
        finished := finished[id := Data(id, running[id])];
        running := running - {id};
      }
      data := finished[id];
    }

    // Anything that trains no actor and leaves the generations alone.
    method Record(e: Event)
      requires !(e.Train? && e.role == Actor)
      modifies this
      ensures log == old(log) + [e] && served == old(served) && actor == old(actor)
      ensures running.Keys <= old(running.Keys)
      ensures forall k :: Known(k) <==> old(Known(k))
      ensures forall k :: Known(k) ==> old(Known(k)) && Pending(k) == old(Pending(k))
    {
      Progress();
      log := log + [e];
    }

    // Training the actor changes its weights; what is served stays as it is.
    method TrainActor(id: nat, data: Data)
      modifies this
      ensures log == old(log) + [Train(Actor, id, data)] && served == old(served) && actor == old(actor) + [id]
      ensures running.Keys <= old(running.Keys)
      ensures forall k :: Known(k) <==> old(Known(k))
      ensures forall k :: Known(k) ==> old(Known(k)) && Pending(k) == old(Pending(k))
    {
      Progress();
      log := log + [Train(Actor, id, data)];
      actor := actor + [id];
    }

    // The actor's current weights are served from now on.
    method UpdateWeights()
      modifies this
      ensures UpdateStep(old(Now()), Now())
      ensures served == actor == old(actor)
      ensures exists inFlight ::
                inFlight <= old(running.Keys) && log == old(log) + [Update(actor, inFlight)] && running.Keys == inFlight
      ensures old(running.Keys) == {} ==> log == old(log) + [Update(actor, {})]
      ensures forall k :: Known(k) <==> old(Known(k))
      ensures forall k :: Known(k) && k in running ==>
                old(Known(k)) && Pending(k) == Data(k, old(Pending(k)).versions + {actor})
      ensures forall k :: Known(k) && k !in running ==> old(Known(k)) && Pending(k) == old(Pending(k))
    {
      Progress();
      label before:
      ghost var m := Now();
      served := actor;
      log := log + [Update(actor, running.Keys)];
      running := Reached(running, actor);
      assert forall k :: k in running ==> Known(k) && Pending(k) == Data(k, old@before(running[k]) + {actor});
      assert Progresses(old(Now()), m);
    }

    method DisposeManager()
      modifies this
      ensures DisposeStep(old(Now()), Now())
      ensures exists inFlight :: inFlight <= old(running.Keys) && log == old(log) + [Dispose(inFlight)]
      ensures old(running.Keys) == {} ==> log == old(log) + [Dispose({})]
    {
      Progress();
      ghost var m := Now();
      log := log + [Dispose(running.Keys)];
      assert Progresses(old(Now()), m);
    }
  }

  lemma OneFinishes(r: Remote, s: Remote, id: nat)
    requires Progresses(r, s) && id in s.running
    ensures Progresses(r, s.(finished := s.finished[id := Data(id, s.running[id])], running := s.running - {id}))
  {
  }

  // ---------- What the loop should have done ----------

  // The actor's weights when iteration k begins.
  function ActorTrained(cfg: Config, k: nat): Weights {
    if k <= cfg.startRollout then []
    else ActorTrained(cfg, k - 1) + (if TrainsActor(cfg, k - 1) then [k - 1] else [])
  }

  // The iteration at whose start the weights served during iteration k were sent, and the one for the
  // weights rollout k is generated with.
  function Served(cfg: Config, k: nat): nat
    requires cfg.updateInterval >= 1
  {
    var latest := k / cfg.updateInterval * cfg.updateInterval;
    if cfg.criticTrainOnly || latest < cfg.startRollout then cfg.startRollout else latest
  }

  function GeneratedWith(cfg: Config, k: nat): nat
    requires cfg.updateInterval >= 1
  {
    if k <= cfg.startRollout then cfg.startRollout else Served(cfg, k - 1)
  }

  function OwnData(cfg: Config, k: nat): Data
    requires cfg.updateInterval >= 1
  {
    Data(k, {ActorTrained(cfg, GeneratedWith(cfg, k))})
  }

  function Trainings(cfg: Config, k: nat): seq<Event>
    requires Usable(cfg)
  {
    (if cfg.useCritic then [Train(Critic, k, OwnData(cfg, k))] else [])
    + (if TrainsActor(cfg, k) then [Train(Actor, k, OwnData(cfg, k))] else [])
  }

  function Saves(cfg: Config, k: nat): seq<Event>
    requires Usable(cfg)
  {
    if !ShouldRunPeriodicAction(k, cfg.saveInterval, cfg.rolloutsPerEpoch, Some(cfg.numRollout)) then []
    else (if cfg.criticTrainOnly then [] else [Save(Actor, k)])
         + (if cfg.useCritic then [Save(Critic, k)] else [])
         + (if cfg.globalDataset then [SaveDataset(k)] else [])
  }

  predicate UpdatesAfter(cfg: Config, k: nat)
    requires Usable(cfg)
  {
    (k + 1) % cfg.updateInterval == 0 && !cfg.criticTrainOnly
  }

  function Generating(cfg: Config, k: nat): seq<Event> {
    if k + 1 < cfg.numRollout then [Generate(k + 1)] else []
  }

  function Updating(cfg: Config, k: nat): seq<Event>
    requires Usable(cfg)
  {
    if UpdatesAfter(cfg, k) then [Update(ActorTrained(cfg, k + 1), {})] else []
  }

  function Evaluating(cfg: Config, k: nat): seq<Event>
    requires Usable(cfg)
  {
    if ShouldRunPeriodicAction(k, cfg.evalInterval, cfg.rolloutsPerEpoch, None) then [Eval(k)] else []
  }

  function Iteration(cfg: Config, k: nat): seq<Event>
    requires Usable(cfg)
  {
    Generating(cfg, k) + Trainings(cfg, k) + Saves(cfg, k) + Updating(cfg, k) + Evaluating(cfg, k)
  }

  function Start(cfg: Config): seq<Event> {
    (if cfg.criticTrainOnly then [] else [Update([], {})]) + [Generate(cfg.startRollout)]
  }

  function Until(cfg: Config, k: nat): seq<Event>
    requires Usable(cfg)
    decreases k
  {
    if k <= cfg.startRollout then Start(cfg) else Until(cfg, k - 1) + Iteration(cfg, k - 1)
  }

  // ---------- The loop ----------

  // Between iterations: either the next rollout is still a future, or its data was awaited before
  // the weights changed; either way it is rollout k's own data from one version.
  ghost predicate Ready(cfg: Config, cluster: Cluster, k: nat, next: Option<nat>, curr: Option<Data>)
    requires Usable(cfg)
    reads cluster
  {
    && cluster.served == ActorTrained(cfg, Served(cfg, k)) && cluster.actor == ActorTrained(cfg, k)
    && (forall id: nat :: cluster.Known(id) ==> cfg.startRollout <= id <= k)
    && cluster.running.Keys <= (if next.Some? then {k} else {})
    && (next.Some? ==> next.value == k && cluster.Known(k) && cluster.Pending(k) == OwnData(cfg, k))
    && (next.None? ==> curr == Some(OwnData(cfg, k)))
  }

  lemma ServedNext(cfg: Config, k: nat)
    requires Usable(cfg) && k >= cfg.startRollout
    ensures Served(cfg, k + 1) == if UpdatesAfter(cfg, k) then k + 1 else Served(cfg, k)
    ensures Served(cfg, cfg.startRollout) == cfg.startRollout
  {
    var n := cfg.updateInterval;
    assert k + 1 == (k + 1) / n * n + (k + 1) % n;
    assert k == k / n * n + k % n;
    if (k + 1) % n != 0 {
      SameQuotient(k, n);
    }
  }

  lemma ActorNext(cfg: Config, k: nat)
    requires k >= cfg.startRollout
    ensures ActorTrained(cfg, k + 1) == ActorTrained(cfg, k) + if TrainsActor(cfg, k) then [k] else []
  {
  }

  lemma SameQuotient(k: nat, n: nat)
    requires n >= 1 && (k + 1) % n != 0
    ensures (k + 1) / n == k / n
  {
    var q, r := (k + 1) / n, (k + 1) % n;
    assert k + 1 == q * n + r;
    DivMod(q, n, r - 1);
  }

  method RunTraining(cfg: Config, cluster: Cluster, id: nat, curr: Data)
    requires Usable(cfg) && curr == OwnData(cfg, id)
    modifies cluster
    ensures cluster.log == old(cluster.log) + Trainings(cfg, id) + Saves(cfg, id)
    ensures cluster.served == old(cluster.served) && cluster.running.Keys <= old(cluster.running.Keys)
    ensures cluster.actor == old(cluster.actor) + if TrainsActor(cfg, id) then [id] else []
    ensures forall k :: cluster.Known(k) <==> old(cluster.Known(k))
    ensures forall k :: cluster.Known(k) ==> old(cluster.Known(k)) && cluster.Pending(k) == old(cluster.Pending(k))
  {
    hide OwnData, ShouldRunPeriodicAction, Saves;
    if cfg.useCritic {
      cluster.Record(Train(Critic, id, curr));
      if id >= cfg.numCriticOnlySteps && !cfg.criticTrainOnly {
        cluster.TrainActor(id, curr);
      }
    } else {
      cluster.TrainActor(id, curr);
    }
    assert cluster.log == old(cluster.log) + Trainings(cfg, id);
    SaveModels(cfg, cluster, id);
  }

  method SaveModels(cfg: Config, cluster: Cluster, id: nat)
    requires Usable(cfg)
    modifies cluster
    ensures cluster.log == old(cluster.log) + Saves(cfg, id)
    ensures cluster.served == old(cluster.served) && cluster.actor == old(cluster.actor)
    ensures cluster.running.Keys <= old(cluster.running.Keys)
    ensures forall k :: cluster.Known(k) <==> old(cluster.Known(k))
    ensures forall k :: cluster.Known(k) ==> old(cluster.Known(k)) && cluster.Pending(k) == old(cluster.Pending(k))
  {
    hide ShouldRunPeriodicAction;
    if ShouldRunPeriodicAction(id, cfg.saveInterval, cfg.rolloutsPerEpoch, Some(cfg.numRollout)) {
      if !cfg.criticTrainOnly {
        cluster.Record(Save(Actor, id));
      }
      if cfg.useCritic {
        cluster.Record(Save(Critic, id));
      }
      if cfg.globalDataset {
        cluster.Record(SaveDataset(id));
      }
    }
  }

  // While rollout k is trained on, the only generation that can be running is the one for k + 1.
  ghost predicate Training(cfg: Config, cluster: Cluster, k: nat, next: Option<nat>, curr: Option<Data>)
    requires Usable(cfg)
    reads cluster
  {
    && curr == Some(OwnData(cfg, k)) && cluster.served == ActorTrained(cfg, Served(cfg, k))
    && (forall id: nat :: cluster.Known(id) ==> cfg.startRollout <= id <= k + 1)
    && cluster.running.Keys <= (if k + 1 < cfg.numRollout then {k + 1} else {})
    && (next.Some? ==> cluster.Known(next.value))
    && (k + 1 < cfg.numRollout ==> next == Some(k + 1) && cluster.Pending(k + 1) == OwnData(cfg, k + 1))
  }

  // Collect the data of rollout k and start the next generation early.
  method NextRollout(cfg: Config, cluster: Cluster, k: nat, next: Option<nat>, curr: Option<Data>)
    returns (next': Option<nat>, curr': Option<Data>)
    requires Usable(cfg) && cfg.startRollout <= k < cfg.numRollout && Ready(cfg, cluster, k, next, curr)
    modifies cluster
    ensures Training(cfg, cluster, k, next', curr') && cluster.actor == ActorTrained(cfg, k)
    ensures cluster.log == old(cluster.log) + Generating(cfg, k)
  {
    next', curr' := next, curr;
    if next.Some? {
      var data := cluster.Await(next.value);
      curr' := Some(data);
    }
    if k + 1 < cfg.numRollout {
      cluster.StartGenerate(k + 1);
      next' := Some(k + 1);
    }
  }

  // On an update iteration, await the generation in flight first.
  method SyncWeights(cfg: Config, cluster: Cluster, k: nat, next: Option<nat>, curr: Option<Data>)
    returns (next': Option<nat>, curr': Option<Data>)
    requires Usable(cfg) && cfg.startRollout <= k < cfg.numRollout && Training(cfg, cluster, k, next, curr)
    requires cluster.actor == ActorTrained(cfg, k + 1)
    modifies cluster
    ensures k + 1 < cfg.numRollout ==> Ready(cfg, cluster, k + 1, next', curr')
    ensures k + 1 == cfg.numRollout ==> cluster.running.Keys == {}
    ensures cluster.log == old(cluster.log) + Updating(cfg, k)
  {
    ServedNext(cfg, k);
    next', curr' := next, curr;
    if (k + 1) % cfg.updateInterval == 0 {
      if next.Some? {
        var data := cluster.Await(next.value);
        curr' := Some(data);
      } else {
        curr' := None;
      }
      next' := None;
      if !cfg.criticTrainOnly {
        cluster.UpdateWeights();
      }
    }
  }

  ghost predicate Between(cfg: Config, cluster: Cluster, k: nat, next: Option<nat>, curr: Option<Data>)
    requires Usable(cfg)
    reads cluster
  {
    if k < cfg.numRollout then Ready(cfg, cluster, k, next, curr) else cluster.running.Keys == {}
  }

  // Training and saving leave the next generation as it is.
  method TrainOnCurrent(cfg: Config, cluster: Cluster, k: nat, next: Option<nat>, curr: Option<Data>)
    requires Usable(cfg) && cfg.startRollout <= k < cfg.numRollout && Training(cfg, cluster, k, next, curr)
    requires cluster.actor == ActorTrained(cfg, k)
    modifies cluster
    ensures Training(cfg, cluster, k, next, curr) && cluster.actor == ActorTrained(cfg, k + 1)
    ensures cluster.log == old(cluster.log) + Trainings(cfg, k) + Saves(cfg, k)
  {
    hide Served, Trainings, Saves, OwnData, ActorTrained;
    ActorNext(cfg, k);
    RunTraining(cfg, cluster, k, curr.value);
  }

  method Evaluate(cfg: Config, cluster: Cluster, k: nat, next: Option<nat>, curr: Option<Data>)
    requires Usable(cfg) && Between(cfg, cluster, k + 1, next, curr)
    modifies cluster
    ensures Between(cfg, cluster, k + 1, next, curr)
    ensures cluster.log == old(cluster.log) + Evaluating(cfg, k)
  {
    hide Served, OwnData, ActorTrained, ShouldRunPeriodicAction;
    if ShouldRunPeriodicAction(k, cfg.evalInterval, cfg.rolloutsPerEpoch, None) {
      cluster.Record(Eval(k));
    }
  }

  method TrainIteration(cfg: Config, cluster: Cluster, k: nat, next: Option<nat>, curr: Option<Data>)
    returns (next': Option<nat>, curr': Option<Data>)
    requires Usable(cfg) && cfg.startRollout <= k < cfg.numRollout && Ready(cfg, cluster, k, next, curr)
    modifies cluster
    ensures Between(cfg, cluster, k + 1, next', curr')
    ensures cluster.log == old(cluster.log) + Iteration(cfg, k)
  {
    hide Served, Trainings, Saves, Generating, Updating, Evaluating, OwnData, ActorTrained, Ready, Training;
    next', curr' := NextRollout(cfg, cluster, k, next, curr);
    TrainOnCurrent(cfg, cluster, k, next', curr');
    next', curr' := SyncWeights(cfg, cluster, k, next', curr');
    Evaluate(cfg, cluster, k, next', curr');
  }

  // The first weights are sent before the first generation starts.
  method StartUp(cfg: Config) returns (cluster: Cluster, next: Option<nat>)
    requires Usable(cfg)
    ensures fresh(cluster) && cluster.log == Start(cfg) && next == Some(cfg.startRollout)
    ensures Ready(cfg, cluster, cfg.startRollout, next, None)
  {
    hide Progresses, GenerateStep, UpdateStep, DisposeStep;
    cluster := new Cluster();
    if !cfg.criticTrainOnly {
      cluster.UpdateWeights();
    }
    assert cluster.log + [Generate(cfg.startRollout)] == Start(cfg);
    cluster.StartGenerate(cfg.startRollout);
    next := Some(cfg.startRollout);
    ServedNext(cfg, cfg.startRollout);
  }

  // In every run, whatever the order in which generations finish, the log is the one above: with
  // at least one rollout to train on, nothing is in flight at any update or at dispose.
  method TrainLoop(cfg: Config) returns (cluster: Cluster)
    requires Usable(cfg)
    ensures fresh(cluster)
    ensures cfg.startRollout < cfg.numRollout ==> cluster.log == Until(cfg, cfg.numRollout) + [Dispose({})]
    ensures cfg.startRollout >= cfg.numRollout ==>
              exists inFlight :: inFlight <= {cfg.startRollout} && cluster.log == Start(cfg) + [Dispose(inFlight)]
  {
    hide Served, Iteration, OwnData, ActorTrained, Start, DisposeStep;
    var next;
    cluster, next := StartUp(cfg);
    var curr: Option<Data> := None;
    var k := cfg.startRollout;
    while k < cfg.numRollout
      invariant cfg.startRollout <= k && (k <= cfg.numRollout || k == cfg.startRollout)
      invariant cluster.log == Until(cfg, k)
      invariant if k == cfg.startRollout then Ready(cfg, cluster, k, next, curr)
                else Between(cfg, cluster, k, next, curr)
      decreases cfg.numRollout - k
    {
      next, curr := TrainIteration(cfg, cluster, k, next, curr);
      k := k + 1;
    }
    cluster.DisposeManager();
  }

  const NOTHING_STARTED := Remote([], [], [], map[], map[])

  // A remote side with only the first generation, running or finished.
  function FirstStarted(cfg: Config, finished: bool): Remote {
    var id := cfg.startRollout;
    if finished then Remote(Start(cfg), [], [], map[], map[id := Data(id, {[]})])
    else Remote(Start(cfg), [], [], map[id := {[]}], map[])
  }

  lemma FirstUpdate()
    ensures UpdateStep(NOTHING_STARTED, NOTHING_STARTED.(log := [Update([], {})]))
  {
    var r := NOTHING_STARTED;
    assert Progresses(r, r);
    var none := Reached(r.running, r.actor);
    assert none == map[] && r.running.Keys == {};
    assert r.(log := [Update([], {})])
        == r.(log := r.log + [Update(r.actor, r.running.Keys)], served := r.actor, running := none);
  }

  lemma FirstGenerate(cfg: Config)
    ensures var r := NOTHING_STARTED.(log := if cfg.criticTrainOnly then [] else [Update([], {})]);
            GenerateStep(r, FirstStarted(cfg, false), cfg.startRollout)
  {
    var r := NOTHING_STARTED.(log := if cfg.criticTrainOnly then [] else [Update([], {})]);
    assert Progresses(r, r);
  }

  lemma FirstDispose(cfg: Config, finished: bool)
    ensures DisposeStep(FirstStarted(cfg, false), FirstStarted(cfg, finished).(log := Start(cfg)
              + [Dispose(if finished then {} else {cfg.startRollout})]))
  {
    var r, m := FirstStarted(cfg, false), FirstStarted(cfg, finished);
    assert m.running.Keys == if finished then {} else {cfg.startRollout};
    assert Progresses(r, m);
  }

  // With no rollout to train on, both are possible: the generation started first may still be running
  // when the manager is disposed of, or it may have finished.
  lemma DisposeMayInterrupt(cfg: Config, finished: bool)
    ensures exists updated: Remote, started: Remote, disposed: Remote ::
              && (if cfg.criticTrainOnly then updated == NOTHING_STARTED else UpdateStep(NOTHING_STARTED, updated))
              && GenerateStep(updated, started, cfg.startRollout) && DisposeStep(started, disposed)
              && disposed.log == Start(cfg) + [Dispose(if finished then {} else {cfg.startRollout})]
  {
    hide UpdateStep, GenerateStep, DisposeStep;
    FirstUpdate();
    FirstGenerate(cfg);
    FirstDispose(cfg, finished);
    var updated := NOTHING_STARTED.(log := if cfg.criticTrainOnly then [] else [Update([], {})]);
    var disposed := FirstStarted(cfg, finished).(log := Start(cfg)
      + [Dispose(if finished then {} else {cfg.startRollout})]);
    assert GenerateStep(updated, FirstStarted(cfg, false), cfg.startRollout)
      && DisposeStep(FirstStarted(cfg, false), disposed);
  }
}
