/** Which key of a checkpoint each setting is loaded from, and when loading fails. */
module LrKeys {
  import opened LrCurves
  import opened LrScheduler
  import opened Wrappers

  // Override keeps the scheduler's own value, everything else takes the saved one.
  function Taken<T>(policy: Policy, own: T, saved: T): T {
    if policy.overrideValues then own else saved
  }

  // Without either policy the saved value must be the scheduler's own.
  predicate Allowed<T(==)>(policy: Policy, own: T, saved: T) {
    policy.overrideValues || policy.useCheckpoint || own == saved
  }

  // The learning rate settings after loading, where all keys are there: older key names come first.
  predicate RatesLoaded(own: Config, sd: StateDict, policy: Policy, c: Config) {
    && (if sd.startLr.Some? then c.maxLr == Taken(policy, own.maxLr, sd.startLr.value)
        else sd.maxLr.Some? && c.maxLr == Taken(policy, own.maxLr, sd.maxLr.value))
    && sd.minLr.Some? && c.minLr == Taken(policy, own.minLr, sd.minLr.value)
    && (if sd.warmupIter.Some? then c.warmupSteps == Taken(policy, own.warmupSteps, sd.warmupIter.value)
        else if sd.warmupSteps.Some? then c.warmupSteps == Taken(policy, own.warmupSteps, sd.warmupSteps.value)
        else sd.lrWarmupSteps.Some? && c.warmupSteps == Taken(policy, own.warmupSteps, sd.lrWarmupSteps.value))
    && (if sd.endIter.Some? then c.decaySteps == Taken(policy, own.decaySteps, sd.endIter.value)
        else if sd.decaySteps.Some? then c.decaySteps == Taken(policy, own.decaySteps, sd.decaySteps.value)
        else sd.lrDecaySteps.Some? && c.decaySteps == Taken(policy, own.decaySteps, sd.lrDecaySteps.value))
    && (if sd.decayStyle.Some? then c.decayStyle == Taken(policy, own.decayStyle, sd.decayStyle.value)
        else sd.lrDecayStyle.Some? && c.decayStyle == Taken(policy, own.decayStyle, sd.lrDecayStyle.value))
  }

  predicate WeightDecayKept(own: Config, c: Config) {
    && c.startWd == own.startWd && c.endWd == own.endWd
    && c.wdIncrSteps == own.wdIncrSteps && c.wdIncrStyle == own.wdIncrStyle
  }

  // A checkpoint without a start value leaves the weight decay settings alone; otherwise it has all four.
  predicate WeightDecayLoaded(own: Config, sd: StateDict, policy: Policy, c: Config) {
    if sd.startWd.None? then WeightDecayKept(own, c)
    else
      && c.startWd == Taken(policy, own.startWd, sd.startWd.value)
      && sd.endWd.Some? && c.endWd == Taken(policy, own.endWd, sd.endWd.value)
      && sd.wdIncrSteps.Some? && c.wdIncrSteps == Taken(policy, own.wdIncrSteps, sd.wdIncrSteps.value)
      && sd.wdIncrStyle.Some? && c.wdIncrStyle == Taken(policy, own.wdIncrStyle, sd.wdIncrStyle.value)
  }

  // The saved steps: the older key name comes first.
  predicate StepsSaved(sd: StateDict, n: int) {
    if sd.numIters.Some? then n == sd.numIters.value else sd.numSteps == Some(n)
  }

  // After loading: every setting from its key, the saved steps on top of the scheduler's own, and every group at the
  // step count reached, under the loaded rate settings and the weight decay settings from before.
  lemma LoadedSettings(t: State, f: Fixed, m: Curves, sd: StateDict, policy: Policy)
    requires LoadState(t, f, m, sd, policy).Ok?
    ensures var after := LoadState(t, f, m, sd, policy).value;
            && RatesLoaded(t.config, sd, policy, after.config)
            && WeightDecayLoaded(t.config, sd, policy, after.config)
            && exists n: int, c: Config ::
                 && StepsSaved(sd, n) && RatesLoaded(t.config, sd, policy, c) && WeightDecayKept(t.config, c)
                 && after.numSteps == t.numSteps + n
                 && Refresh(c, f, m, t.numSteps + n, t.groups) == Ok(after.groups)
  {
    hide Refresh;
    var c := LoadLr(t.config, sd, policy).value;
    RatesFrom(t.config, sd, policy);
    WeightDecayFrom(c, sd, policy);
    hide LoadLr, LoadWd;
    var n := if sd.numIters.Some? then sd.numIters.value else sd.numSteps.value;
    assert StepsSaved(sd, n);
  }

  lemma RatesFrom(own: Config, sd: StateDict, policy: Policy)
    ensures LoadLr(own, sd, policy).Ok? ==>
      RatesLoaded(own, sd, policy, LoadLr(own, sd, policy).value)
      && WeightDecayKept(own, LoadLr(own, sd, policy).value)
  {
  }

  lemma WeightDecayFrom(own: Config, sd: StateDict, policy: Policy)
    ensures LoadWd(own, sd, policy).Ok? ==>
      var c := LoadWd(own, sd, policy).value;
      && WeightDecayLoaded(own, sd, policy, c)
      && c.maxLr == own.maxLr && c.minLr == own.minLr && c.warmupSteps == own.warmupSteps
      && c.decaySteps == own.decaySteps && c.decayStyle == own.decayStyle
  {
  }

  // ---------- Failures ----------

  predicate RateKeys(sd: StateDict) {
    && (sd.startLr.Some? || sd.maxLr.Some?) && sd.minLr.Some?
    && (sd.warmupIter.Some? || sd.warmupSteps.Some? || sd.lrWarmupSteps.Some?)
    && (sd.endIter.Some? || sd.decaySteps.Some? || sd.lrDecaySteps.Some?)
    && (sd.decayStyle.Some? || sd.lrDecayStyle.Some?)
  }

  predicate WeightDecayKeys(sd: StateDict) {
    sd.startWd.Some? ==> sd.endWd.Some? && sd.wdIncrSteps.Some? && sd.wdIncrStyle.Some?
  }

  // The rate settings are taken over if and only if no key is missing and every value is allowed.
  lemma RatesLoadIff(own: Config, sd: StateDict, policy: Policy)
    ensures LoadLr(own, sd, policy).Ok?
            <==> RateKeys(sd)
                 && Allowed(policy, own.maxLr, if sd.startLr.Some? then sd.startLr.value else sd.maxLr.value)
                 && Allowed(policy, own.minLr, sd.minLr.value)
                 && Allowed(policy, own.warmupSteps,
                            if sd.warmupIter.Some? then sd.warmupIter.value
                            else if sd.warmupSteps.Some? then sd.warmupSteps.value else sd.lrWarmupSteps.value)
                 && Allowed(policy, own.decaySteps,
                            if sd.endIter.Some? then sd.endIter.value
                            else if sd.decaySteps.Some? then sd.decaySteps.value else sd.lrDecaySteps.value)
                 && Allowed(policy, own.decayStyle,
                            if sd.decayStyle.Some? then sd.decayStyle.value else sd.lrDecayStyle.value)
  {
  }

  lemma WeightDecayLoadsIff(own: Config, sd: StateDict, policy: Policy)
    ensures LoadWd(own, sd, policy).Ok?
            <==> sd.startWd.Some? ==>
                   && WeightDecayKeys(sd) && Allowed(policy, own.startWd, sd.startWd.value)
                   && Allowed(policy, own.endWd, sd.endWd.value)
                   && Allowed(policy, own.wdIncrSteps, sd.wdIncrSteps.value)
                   && Allowed(policy, own.wdIncrStyle, sd.wdIncrStyle.value)
  {
  }

  // Loading succeeds if and only if both kinds of settings do, the step count is saved, and the step succeeds.
  lemma LoadsIff(t: State, f: Fixed, m: Curves, sd: StateDict, policy: Policy)
    ensures LoadState(t, f, m, sd, policy).Ok?
            <==> LoadLr(t.config, sd, policy).Ok? && LoadWd(t.config, sd, policy).Ok?
                 && exists n: int ::
                      && StepsSaved(sd, n)
                      && StepState(t.(config := LoadLr(t.config, sd, policy).value), f, m, n).Ok?
  {
    hide StepState;
    WeightDecayLoadsIff(t.config, sd, policy);
    if LoadLr(t.config, sd, policy).Ok? {
      RatesFrom(t.config, sd, policy);
      WeightDecayLoadsIff(LoadLr(t.config, sd, policy).value, sd, policy);
      hide LoadLr, LoadWd;
      if sd.numIters.Some? || sd.numSteps.Some? {
        var n := if sd.numIters.Some? then sd.numIters.value else sd.numSteps.value;
        assert StepsSaved(sd, n);
        forall k: int ensures StepsSaved(sd, k) <==> k == n {
        }
      }
    }
  }
}
