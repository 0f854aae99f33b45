/** The optimizer parameter scheduler: stepping, saving its state and loading it into another scheduler. */
module LrScheduler {
  import opened LrCurves
  import opened Wrappers

  datatype ParamGroup = ParamGroup(options: GroupOptions, lr: real, weightDecay: real)

  // A checkpoint: current key names, and the older ones it may use instead.
  datatype StateDict = StateDict(startLr: Option<real>, maxLr: Option<real>, minLr: Option<real>,
                                 warmupIter: Option<int>, warmupSteps: Option<int>, lrWarmupSteps: Option<int>,
                                 endIter: Option<int>, decaySteps: Option<int>, lrDecaySteps: Option<int>,
                                 decayStyle: Option<DecayStyle>, lrDecayStyle: Option<DecayStyle>,
                                 numIters: Option<int>, numSteps: Option<int>,
                                 startWd: Option<real>, endWd: Option<real>,
                                 wdIncrSteps: Option<int>, wdIncrStyle: Option<WdStyle>)

  // The mutable part of a scheduler and of its optimizer.
  datatype State = State(config: Config, numSteps: int, groups: seq<ParamGroup>)

  // How checkpoint values are taken over.
  datatype Policy = Policy(overrideValues: bool, useCheckpoint: bool)

  function WeightDecayOf(c: Config, m: Curves, g: GroupOptions, n: int): Result<real, SchedulerError> {
    match WdAt(c, m, g, n)
    case Ok(wd) => Ok(Product(wd, Get(g.wdMult, 1.0)))
    case Err(e) => Err(e)
  }

  // What one group gets at step n: the learning rate first, then the weight decay.
  function Updated(c: Config, f: Fixed, m: Curves, n: int, g: GroupOptions): Result<ParamGroup, SchedulerError> {
    match LrAt(c, f, m, g, n)
    case Err(e) => Err(e)
    case Ok(lr) =>
      match WeightDecayOf(c, m, g, n)
      case Err(e) => Err(e)
      case Ok(wd) => Ok(ParamGroup(g, lr, wd))
  }

  // All groups get the values of step n, unless one of them fails.
  function Refresh(c: Config, f: Fixed, m: Curves, n: int, groups: seq<ParamGroup>)
      : Result<seq<ParamGroup>, SchedulerError>
  {
    if groups == [] then Ok([])
    else
      match Refresh(c, f, m, n, groups[..|groups| - 1])
      case Err(e) => Err(e)
      case Ok(init) =>
        match Updated(c, f, m, n, groups[|groups| - 1].options)
        case Err(e) => Err(e)
        case Ok(last) => Ok(init + [last])
  }

  function StepState(s: State, f: Fixed, m: Curves, increment: int): Result<State, SchedulerError> {
    match Refresh(s.config, f, m, s.numSteps + increment, s.groups)
    case Err(e) => Err(e)
    case Ok(groups) => Ok(State(s.config, s.numSteps + increment, groups))
  }

  function SaveState(s: State): StateDict {
    StateDict(None, Some(s.config.maxLr), Some(s.config.minLr), None, None, Some(s.config.warmupSteps),
              None, None, Some(s.config.decaySteps), None, Some(s.config.decayStyle), None, Some(s.numSteps),
              Some(s.config.startWd), Some(s.config.endWd), Some(s.config.wdIncrSteps), Some(s.config.wdIncrStyle))
  }

  // The first key that is present.
  function First<T>(a: Option<T>, b: Option<T>): Option<T> {
    if a.Some? then a else b
  }

  // _check_and_set
  function CheckAndSet<T(==)>(policy: Policy, own: T, saved: Option<T>): Result<T, SchedulerError> {
    if saved.None? then Err(MissingKey)
    else if policy.overrideValues then Ok(own)
    else if !policy.useCheckpoint && own != saved.value then Err(ValueMismatch)
    else Ok(saved.value)
  }

  // The learning rate settings after loading.
  function LoadLr(c: Config, sd: StateDict, policy: Policy): Result<Config, SchedulerError> {
    match CheckAndSet(policy, c.maxLr, First(sd.startLr, sd.maxLr))
    case Err(e) => Err(e)
    case Ok(maxLr) =>
      match CheckAndSet(policy, c.minLr, sd.minLr)
      case Err(e) => Err(e)
      case Ok(minLr) =>
        match CheckAndSet(policy, c.warmupSteps, First(First(sd.warmupIter, sd.warmupSteps), sd.lrWarmupSteps))
        case Err(e) => Err(e)
        case Ok(warmupSteps) =>
          match CheckAndSet(policy, c.decaySteps, First(First(sd.endIter, sd.decaySteps), sd.lrDecaySteps))
          case Err(e) => Err(e)
          case Ok(decaySteps) =>
            match CheckAndSet(policy, c.decayStyle, First(sd.decayStyle, sd.lrDecayStyle))
            case Err(e) => Err(e)
            case Ok(decayStyle) =>
              Ok(c.(maxLr := maxLr, minLr := minLr, warmupSteps := warmupSteps, decaySteps := decaySteps,
                    decayStyle := decayStyle))
  }

  // The weight decay settings after loading; checkpoints without a start_wd leave them alone.
  function LoadWd(c: Config, sd: StateDict, policy: Policy): Result<Config, SchedulerError> {
    if sd.startWd.None? then Ok(c)
    else
      match CheckAndSet(policy, c.startWd, sd.startWd)
      case Err(e) => Err(e)
      case Ok(startWd) =>
        match CheckAndSet(policy, c.endWd, sd.endWd)
        case Err(e) => Err(e)
        case Ok(endWd) =>
          match CheckAndSet(policy, c.wdIncrSteps, sd.wdIncrSteps)
          case Err(e) => Err(e)
          case Ok(wdIncrSteps) =>
            match CheckAndSet(policy, c.wdIncrStyle, sd.wdIncrStyle)
            case Err(e) => Err(e)
            case Ok(wdIncrStyle) =>
              Ok(c.(startWd := startWd, endWd := endWd, wdIncrSteps := wdIncrSteps, wdIncrStyle := wdIncrStyle))
  }

  // The saved steps are added by one step, before the weight decay settings are taken over.
  function LoadState(s: State, f: Fixed, m: Curves, sd: StateDict, policy: Policy): Result<State, SchedulerError> {
    match LoadLr(s.config, sd, policy)
    case Err(e) => Err(e)
    case Ok(c) =>
      var numSteps := First(sd.numIters, sd.numSteps);
      if numSteps.None? then Err(MissingKey)
      else
        match StepState(State(c, s.numSteps, s.groups), f, m, numSteps.value)
        case Err(e) => Err(e)
        case Ok(t) =>
          match LoadWd(c, sd, policy)
          case Err(e) => Err(e)
          case Ok(c') => Ok(t.(config := c'))
  }

  // Sets both values of each group in turn and stops at the first failure.
  method RefreshGroups(c: Config, f: Fixed, m: Curves, n: int, groups: seq<ParamGroup>)
      returns (after: seq<ParamGroup>, failure: Option<SchedulerError>)
    ensures match Refresh(c, f, m, n, groups)
            case Ok(refreshed) => failure.None? && after == refreshed
            case Err(e) => failure == Some(e)
  {
    hide Updated, Refresh;
    after, failure := groups, None;
    var i := 0;
    NothingToRefresh(c, f, m, n, groups[..0]);
    while i < |groups|
      invariant 0 <= i <= |groups| == |after| && after[i..] == groups[i..]
      invariant Refresh(c, f, m, n, groups[..i]) == Ok(after[..i])
    {
      assert after[i] == after[i..][0] == groups[i];
      RefreshNext(c, f, m, n, groups, i);
      var updated := Updated(c, f, m, n, after[i].options);
      if updated.Err? {
        RefreshFails(c, f, m, n, groups, i + 1);
        failure := Some(updated.error);
        return;
      }
      var before := after;
      after := after[i := updated.value];
      assert after[..i + 1] == before[..i] + [after[i]];
      assert after[i + 1..] == before[i..][1..] == groups[i..][1..] == groups[i + 1..];
      i := i + 1;
    }
    assert groups[..i] == groups && after[..i] == after;
  }

  lemma NothingToRefresh(c: Config, f: Fixed, m: Curves, n: int, none: seq<ParamGroup>)
    requires none == []
    ensures Refresh(c, f, m, n, none) == Ok([])
  {
  }

  lemma RefreshNext(c: Config, f: Fixed, m: Curves, n: int, groups: seq<ParamGroup>, i: nat)
    requires i < |groups| && Refresh(c, f, m, n, groups[..i]).Ok?
    ensures Refresh(c, f, m, n, groups[..i + 1]) ==
            match Updated(c, f, m, n, groups[i].options)
            case Err(e) => Err(e)
            case Ok(last) => Ok(Refresh(c, f, m, n, groups[..i]).value + [last])
  {
    hide Updated;
    assert groups[..i + 1][..i] == groups[..i] && groups[..i + 1][i] == groups[i];
  }

  // The first failure is the failure of the whole step.
  lemma {:induction false} RefreshFails(c: Config, f: Fixed, m: Curves, n: int, groups: seq<ParamGroup>, i: nat)
    requires i <= |groups| && Refresh(c, f, m, n, groups[..i]).Err?
    ensures Refresh(c, f, m, n, groups) == Refresh(c, f, m, n, groups[..i])
    decreases |groups|
  {
    hide Updated;
    if i < |groups| {
      var init := groups[..|groups| - 1];
      assert init[..i] == groups[..i];
      RefreshFails(c, f, m, n, init, i);
    } else {
      assert groups[..i] == groups;
    }
  }

  class OptimizerParamScheduler {
    const fixed: Fixed
    const curves: Curves
    const policy: Policy
    var config: Config
    var numSteps: int
    var groups: seq<ParamGroup>

    ghost function Contents(): State
      reads this
    {
      State(config, numSteps, groups)
    }

    constructor (config: Config, fixed: Fixed, curves: Curves, policy: Policy, groups: seq<ParamGroup>)
      requires ValidConfig(config, fixed) && !(policy.overrideValues && policy.useCheckpoint)
      requires Refresh(config, fixed, curves, 0, groups).Ok?
      ensures this.fixed == fixed && this.curves == curves && this.policy == policy
      ensures Ok(Contents()) == StepState(State(config, 0, groups), fixed, curves, 0)
    {
      this.fixed, this.curves, this.policy := fixed, curves, policy;
      this.config := config;
      numSteps := 0;
      this.groups := groups;
      new;
      var done := Step(0);
    }

    // __init__ with its assertions: what it takes to get a scheduler.
    static method Create(config: Config, fixed: Fixed, curves: Curves, policy: Policy, groups: seq<ParamGroup>)
      returns (r: Result<OptimizerParamScheduler, SchedulerError>)
      ensures r.Ok? <==>
              && config.minLr >= 0.0 && config.maxLr >= config.minLr && fixed.initLr <= config.maxLr
              && config.decaySteps > 0 && config.warmupSteps < config.decaySteps
              && (config.decayStyle == WSD ==> fixed.wsdDecaySteps.Some?)
              && config.startWd >= 0.0 && config.endWd >= config.startWd
              && (policy.overrideValues ==> !policy.useCheckpoint)
              && StepState(State(config, 0, groups), fixed, curves, 0).Ok?
      ensures r.Ok? ==> fresh(r.value) && r.value.fixed == fixed && r.value.policy == policy
                        && Ok(r.value.Contents()) == StepState(State(config, 0, groups), fixed, curves, 0)
    {
      hide Refresh;
      if !ValidConfig(config, fixed) || (policy.overrideValues && policy.useCheckpoint) {
        return Err(AssertionFailed);
      }
      var refreshed := Refresh(config, fixed, curves, 0, groups);
      if refreshed.Err? {
        return Err(refreshed.error);
      }
      var scheduler := new OptimizerParamScheduler(config, fixed, curves, policy, groups);
      return Ok(scheduler);
    }

    method Step(increment: int) returns (done: Result<(), SchedulerError>)
      modifies this`numSteps, this`groups
      ensures match StepState(old(Contents()), fixed, curves, increment)
              case Ok(s) => done.Ok? && Contents() == s
              case Err(e) => done == Err(e) && numSteps == old(numSteps) + increment
    {
      hide Refresh;
      numSteps := numSteps + increment;
      var failure;
      groups, failure := RefreshGroups(config, fixed, curves, numSteps, groups);
      done := if failure.Some? then Err(failure.value) else Ok(());
    }

    // Under the current key names only: the step count and every setting but the initial rate, the length and
    // style of the WSD decay, and the options of the groups.
    method SaveStateDict() returns (sd: StateDict)
      ensures sd.maxLr == Some(config.maxLr) && sd.minLr == Some(config.minLr)
      ensures sd.lrWarmupSteps == Some(config.warmupSteps) && sd.lrDecaySteps == Some(config.decaySteps)
      ensures sd.lrDecayStyle == Some(config.decayStyle) && sd.numSteps == Some(numSteps)
      ensures sd.startWd == Some(config.startWd) && sd.endWd == Some(config.endWd)
      ensures sd.wdIncrSteps == Some(config.wdIncrSteps) && sd.wdIncrStyle == Some(config.wdIncrStyle)
      ensures sd.startLr.None? && sd.warmupIter.None? && sd.warmupSteps.None? && sd.endIter.None?
              && sd.decaySteps.None? && sd.decayStyle.None? && sd.numIters.None?
    {
      sd := SaveState(State(config, numSteps, groups));
    }

    method LoadStateDict(sd: StateDict) returns (done: Result<(), SchedulerError>)
      modifies this
      ensures match LoadState(old(Contents()), fixed, curves, sd, policy)
              case Ok(s) => done.Ok? && Contents() == s
              case Err(e) => done == Err(e)
    {
      hide Refresh;
      var loaded := LoadLr(config, sd, policy);
      if loaded.Err? {
        return Err(loaded.error);
      }
      config := loaded.value;
      var steps := First(sd.numIters, sd.numSteps);
      if steps.None? {
        return Err(MissingKey);
      }
      done := Step(steps.value);
      if done.Err? {
        return;
      }
      var withWd := LoadWd(config, sd, policy);
      if withWd.Err? {
        return Err(withWd.error);
      }
      config := withWd.value;
    }
  }
}
