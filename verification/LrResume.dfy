/** What a checkpoint of the scheduler restores, and what it does not. */
module LrResume {
  import opened LrCurves
  import opened LrScheduler
  import opened Wrappers

  predicate SameOptions(a: seq<ParamGroup>, b: seq<ParamGroup>) {
    |a| == |b| && forall i :: 0 <= i < |a| ==> a[i].options == b[i].options
  }

  // Every group holds what Updated says, and a group that fails fails them all.
  lemma {:induction false} RefreshIff(c: Config, f: Fixed, m: Curves, n: int, groups: seq<ParamGroup>)
    ensures Refresh(c, f, m, n, groups).Ok? <==>
            forall i :: 0 <= i < |groups| ==> Updated(c, f, m, n, groups[i].options).Ok?
    ensures Refresh(c, f, m, n, groups).Ok? ==>
      var after := Refresh(c, f, m, n, groups).value;
      |after| == |groups| && forall i :: 0 <= i < |groups| ==> Ok(after[i]) == Updated(c, f, m, n, groups[i].options)
  {
    hide Updated;
    if groups != [] {
      var init := groups[..|groups| - 1];
      RefreshIff(c, f, m, n, init);
      assert forall i :: 0 <= i < |init| ==> init[i] == groups[i];
    }
  }

  lemma UpdatedKeepsOptions(c: Config, f: Fixed, m: Curves, n: int, g: GroupOptions)
    ensures Updated(c, f, m, n, g).Ok? ==> Updated(c, f, m, n, g).value.options == g
  {
  }

  lemma RefreshKeepsOptions(c: Config, f: Fixed, m: Curves, n: int, groups: seq<ParamGroup>)
    requires Refresh(c, f, m, n, groups).Ok?
    ensures SameOptions(Refresh(c, f, m, n, groups).value, groups)
  {
    RefreshIff(c, f, m, n, groups);
    hide Updated;
    forall i | 0 <= i < |groups| ensures Refresh(c, f, m, n, groups).value[i].options == groups[i].options {
      UpdatedKeepsOptions(c, f, m, n, groups[i].options);
    }
  }

  // What a step writes depends on the options of the groups, not on their previous values.
  lemma {:induction false} RefreshForgets(
    c: Config, f: Fixed, m: Curves, n: int, a: seq<ParamGroup>, b: seq<ParamGroup>)
    requires SameOptions(a, b)
    ensures Refresh(c, f, m, n, a) == Refresh(c, f, m, n, b)
  {
    hide Updated;
    if a != [] {
      RefreshForgets(c, f, m, n, a[..|a| - 1], b[..|b| - 1]);
    }
  }

  // Two steps in a row are one step of both increments.
  lemma StepsAdd(s: State, f: Fixed, m: Curves, a: int, b: int)
    requires StepState(s, f, m, a).Ok?
    ensures StepState(StepState(s, f, m, a).value, f, m, b) == StepState(s, f, m, a + b)
  {
    hide Refresh;
    RefreshKeepsOptions(s.config, f, m, s.numSteps + a, s.groups);
    RefreshForgets(s.config, f, m, s.numSteps + a + b, StepState(s, f, m, a).value.groups, s.groups);
    assert s.numSteps + (a + b) == s.numSteps + a + b;
  }

  // ---------- The policies ----------

  const FROM_CHECKPOINT := Policy(false, true)

  const KEEP_OWN := Policy(true, false)

  const MUST_AGREE := Policy(false, false)

  // With checkpoint values, loading takes over all saved settings and adds the saved steps.
  lemma LoadSaved(s: State, t: State, f: Fixed, m: Curves)
    ensures LoadLr(t.config, SaveState(s), FROM_CHECKPOINT)
            == Ok(s.config.(startWd := t.config.startWd, endWd := t.config.endWd,
                            wdIncrSteps := t.config.wdIncrSteps, wdIncrStyle := t.config.wdIncrStyle))
    ensures var c := LoadLr(t.config, SaveState(s), FROM_CHECKPOINT).value;
            LoadState(t, f, m, SaveState(s), FROM_CHECKPOINT)
            == match Refresh(c, f, m, t.numSteps + s.numSteps, t.groups)
               case Ok(groups) => Ok(State(s.config, t.numSteps + s.numSteps, groups))
               case Err(e) => Err(e)
  {
    hide Refresh;
  }

  // With override, the scheduler keeps its own settings and only adds the saved steps.
  lemma OverrideKeepsSettings(s: State, t: State, f: Fixed, m: Curves)
    ensures LoadState(t, f, m, SaveState(s), KEEP_OWN) == StepState(t, f, m, s.numSteps)
  {
    hide Refresh;
  }

  // With neither, loading succeeds exactly when all saved settings are the scheduler's own and the step does.
  lemma StrictLoadsIffEqual(s: State, t: State, f: Fixed, m: Curves)
    ensures LoadState(t, f, m, SaveState(s), MUST_AGREE).Ok?
            <==> t.config == s.config && StepState(t, f, m, s.numSteps).Ok?
    ensures LoadState(t, f, m, SaveState(s), MUST_AGREE).Ok? ==>
      LoadState(t, f, m, SaveState(s), MUST_AGREE) == StepState(t, f, m, s.numSteps)
  {
    hide Refresh;
  }

  // ---------- Resuming ----------

  // The learning rates of all groups agree from step n on, under the settings a checkpoint does not hold.
  ghost predicate SameRates(c: Config, f: Fixed, f': Fixed, m: Curves, g: GroupOptions, n: int) {
    forall k: int :: n <= k ==> LrAt(c, f, m, g, k) == LrAt(c, f', m, g, k)
  }

  ghost predicate NeverFails(s: State, f: Fixed, m: Curves) {
    forall k: nat :: StepState(s, f, m, k).Ok?
  }

  ghost predicate StepsAgree(s: State, f: Fixed, t: State, f': Fixed, m: Curves) {
    forall k: nat :: StepState(t, f', m, k) == StepState(s, f, m, k)
  }

  // After every further step the resumed scheduler is in the state of the uninterrupted one, if and only if it had
  // not been stepped before loading and the settings that are not saved give the same rates from there on.
  lemma ResumeIsUninterruptedIff(s: State, f: Fixed, t: State, f': Fixed, m: Curves)
    requires SameOptions(s.groups, t.groups) && NeverFails(s, f, m)
    requires LoadState(t, f', m, SaveState(s), FROM_CHECKPOINT).Ok?
    ensures StepsAgree(s, f, LoadState(t, f', m, SaveState(s), FROM_CHECKPOINT).value, f', m)
            <==> t.numSteps == 0
                 && forall i :: 0 <= i < |s.groups| ==>
                      SameRates(s.config, f, f', m, s.groups[i].options, s.numSteps)
  {
    LoadSaved(s, t, f', m);
    hide SameRates, NeverFails, StepsAgree, SameOptions, LoadState, LoadLr, Refresh;
    var c := LoadLr(t.config, SaveState(s), FROM_CHECKPOINT).value;
    var resumed := LoadState(t, f', m, SaveState(s), FROM_CHECKPOINT).value;
    RefreshKeepsOptions(c, f', m, t.numSteps + s.numSteps, t.groups);
    SameOptionsTrans(resumed.groups, t.groups, s.groups);
    if t.numSteps == 0 {
      AgreeIffRates(s, f, resumed, f', m);
    } else {
      FirstStepDiffers(s, f, resumed, f', m);
    }
  }

  lemma SameOptionsTrans(a: seq<ParamGroup>, b: seq<ParamGroup>, c: seq<ParamGroup>)
    requires SameOptions(a, b) && SameOptions(c, b)
    ensures SameOptions(a, c)
  {
  }

  lemma FirstStepDiffers(s: State, f: Fixed, t: State, f': Fixed, m: Curves)
    requires NeverFails(s, f, m) && t.numSteps != s.numSteps
    ensures !StepsAgree(s, f, t, f', m)
  {
    hide Refresh;
    assert StepState(s, f, m, 0).Ok?;
    assert StepState(t, f', m, 0) != StepState(s, f, m, 0);
  }

  lemma AgreeIffRates(s: State, f: Fixed, t: State, f': Fixed, m: Curves)
    requires NeverFails(s, f, m) && t.numSteps == s.numSteps && t.config == s.config && SameOptions(t.groups, s.groups)
    ensures StepsAgree(s, f, t, f', m) <==>
            forall i :: 0 <= i < |s.groups| ==> SameRates(s.config, f, f', m, s.groups[i].options, s.numSteps)
  {
    hide Refresh, LrAt, SameOptions;
    if StepsAgree(s, f, t, f', m) {
      forall i, k: int | 0 <= i < |s.groups| && s.numSteps <= k
        ensures LrAt(s.config, f, m, s.groups[i].options, k) == LrAt(s.config, f', m, s.groups[i].options, k)
      {
        RatesOfStep(s, f, t, f', m, k - s.numSteps, i);
      }
    } else {
      var k: nat :| StepState(t, f', m, k) != StepState(s, f, m, k);
      if forall i :: 0 <= i < |s.groups| ==> SameRates(s.config, f, f', m, s.groups[i].options, s.numSteps) {
        StepOfRates(s, f, t, f', m, k);
      }
    }
  }

  // A step that ends in the same state wrote the same rates.
  lemma RatesOfStep(s: State, f: Fixed, t: State, f': Fixed, m: Curves, k: nat, i: nat)
    requires StepState(s, f, m, k).Ok? && StepState(t, f', m, k) == StepState(s, f, m, k) && i < |s.groups|
    requires t.numSteps == s.numSteps && t.config == s.config && SameOptions(t.groups, s.groups)
    ensures LrAt(s.config, f, m, s.groups[i].options, s.numSteps + k)
            == LrAt(s.config, f', m, s.groups[i].options, s.numSteps + k)
  {
    RefreshIff(s.config, f, m, s.numSteps + k, s.groups);
    RefreshIff(s.config, f', m, s.numSteps + k, t.groups);
    hide Refresh, LrAt, WeightDecayOf;
    var n := s.numSteps + k;
    assert Updated(s.config, f, m, n, s.groups[i].options) == Updated(s.config, f', m, n, t.groups[i].options);
  }

  lemma StepOfRates(s: State, f: Fixed, t: State, f': Fixed, m: Curves, k: nat)
    requires t.numSteps == s.numSteps && t.config == s.config && SameOptions(t.groups, s.groups)
    requires forall i :: 0 <= i < |s.groups| ==> SameRates(s.config, f, f', m, s.groups[i].options, s.numSteps)
    ensures StepState(t, f', m, k) == StepState(s, f, m, k)
  {
    hide LrAt, WeightDecayOf;
    var n := s.numSteps + k;
    forall i | 0 <= i < |s.groups|
      ensures Updated(s.config, f', m, n, s.groups[i].options) == Updated(s.config, f, m, n, s.groups[i].options)
    {
      assert SameRates(s.config, f, f', m, s.groups[i].options, s.numSteps);
    }
    RefreshForgets(s.config, f', m, n, t.groups, s.groups);
    SameUpdates(s.config, f, f', m, n, s.groups);
  }

  lemma {:induction false} SameUpdates(c: Config, f: Fixed, f': Fixed, m: Curves, n: int, groups: seq<ParamGroup>)
    requires forall i :: 0 <= i < |groups| ==>
               Updated(c, f', m, n, groups[i].options) == Updated(c, f, m, n, groups[i].options)
    ensures Refresh(c, f', m, n, groups) == Refresh(c, f, m, n, groups)
  {
    hide Updated;
    if groups != [] {
      var init := groups[..|groups| - 1];
      assert forall i :: 0 <= i < |init| ==> init[i] == groups[i];
      SameUpdates(c, f, f', m, n, init);
    }
  }

  // ---------- When the settings that are not saved matter ----------

  // The first step from n on that is not in warmup.
  function FirstDecay(c: Config, n: int): int {
    if c.warmupSteps > 0 && n <= c.warmupSteps then c.warmupSteps + 1 else n
  }

  // Two lengths of the annealing that give the same rates from step n on.
  predicate SameAnnealing(decaySteps: int, a: int, b: int, n: int) {
    n > decaySteps || a == b || (a <= 0 && b <= 0) || (n == decaySteps && a > 0 && b > 0)
  }

  // The initial rate matters while warmup goes on, the length of the annealing while WSD still decays something.
  predicate SameSettings(c: Config, f: Fixed, f': Fixed, g: GroupOptions, n: int) {
    && (n < c.warmupSteps ==> f.initLr == f'.initLr)
    && (c.decayStyle == WSD && MaxLr(c, g) != MinLr(c, g) ==>
          f.wsdDecaySteps.Some? && f'.wsdDecaySteps.Some?
          && SameAnnealing(c.decaySteps, f.wsdDecaySteps.value, f'.wsdDecaySteps.value, FirstDecay(c, n)))
  }

  // With the same annealing style, the rates agree if and only if the settings that still matter do.
  lemma SameRatesIff(c: Config, f: Fixed, f': Fixed, m: Curves, g: GroupOptions, n: int)
    requires WellSpaced(c, f) && WellSpaced(c, f') && Supported(c, f) && Supported(c, f') && Genuine(m) && n >= 0
    requires f.wsdDecayStyle == f'.wsdDecayStyle
    ensures SameRates(c, f, f', m, g, n) <==> SameSettings(c, f, f', g, n)
  {
    hide LrAt, Genuine;
    if SameSettings(c, f, f', g, n) {
      forall k: int | n <= k ensures LrAt(c, f, m, g, k) == LrAt(c, f', m, g, k) {
        RatesAgreeAt(c, f, f', m, g, n, k);
      }
    } else {
      var k := DifferentRate(c, f, f', m, g, n);
    }
  }

  lemma RatesAgreeAt(c: Config, f: Fixed, f': Fixed, m: Curves, g: GroupOptions, n: int, k: int)
    requires WellSpaced(c, f) && WellSpaced(c, f') && Supported(c, f) && Supported(c, f') && Genuine(m)
    requires f.wsdDecayStyle == f'.wsdDecayStyle && 0 <= n <= k && SameSettings(c, f, f', g, n)
    ensures LrAt(c, f, m, g, k) == LrAt(c, f', m, g, k)
  {
    if c.warmupSteps > 0 && k <= c.warmupSteps {
      hide LrAt, Genuine;
      LrInWarmup(c, f, m, g, k);
      LrInWarmup(c, f', m, g, k);
    } else if c.decayStyle == WSD {
      hide LrAt, Genuine, Level, Lerp;
      LrAfterWarmup(c, f, m, g, k);
      LrAfterWarmup(c, f', m, g, k);
      if MaxLr(c, g) != MinLr(c, g) {
        SameLevel(c, f, f', m, n, k);
      } else {
        LerpFlat(MinLr(c, g), Level(c, f, m, k));
        LerpFlat(MinLr(c, g), Level(c, f', m, k));
      }
    } else {
      OnlyWsdUsesFixed(c, f, f', m, g, k);
    }
  }

  lemma LerpFlat(x: real, a: real)
    ensures Lerp(x, x, a) == x
  {
  }

  // After warmup the constructor's own settings are used by WSD alone.
  lemma OnlyWsdUsesFixed(c: Config, f: Fixed, f': Fixed, m: Curves, g: GroupOptions, k: int)
    requires c.decayStyle != WSD && !(c.warmupSteps > 0 && k <= c.warmupSteps)
    ensures LrAt(c, f, m, g, k) == LrAt(c, f', m, g, k)
  {
    hide Ratio, Lerp, RootScaled, Anneal;
  }

  // The annealing curve of length d one step before the end of the decay, and at the end.
  lemma AnnealAtEnd(style: WsdStyle, m: Curves, decaySteps: int, d: int)
    requires Genuine(m) && style != OtherWsd
    ensures Anneal(style, m, decaySteps, d, decaySteps) == Ok(if d > 0 then 0.0 else 1.0)
    ensures d > 0 ==> WsdShape(style, m, Ratio(d - 1, d)).Some?
    ensures d > 0 ==> Anneal(style, m, decaySteps, d, decaySteps - 1) == Ok(WsdShape(style, m, Ratio(d - 1, d)).value)
  {
    hide WsdShape, Genuine, Ratio;
    AnnealFalls(style, m, decaySteps, d, decaySteps, decaySteps);
    if d > 0 {
      AnnealFalls(style, m, decaySteps, d, decaySteps - 1, decaySteps - 1);
      RatioEnds(d);
      RatioWithin(d - 1, d);
      WsdShapeFalls(style, m, Ratio(d - 1, d), Ratio(d - 1, d));
    }
  }

  // In WSD the level is the annealing curve, and nothing is left after the end.
  lemma LevelOfWsd(c: Config, f: Fixed, m: Curves, k: int)
    requires WellSpaced(c, f) && Supported(c, f) && Genuine(m) && c.decayStyle == WSD
    requires AtLeast(c.warmupSteps, 0) <= k && !(c.warmupSteps > 0 && k <= c.warmupSteps)
    ensures Level(c, f, m, k) == if k > c.decaySteps then 0.0 else
              var a := Anneal(f.wsdDecayStyle, m, c.decaySteps, f.wsdDecaySteps.value, k);
              if a.Ok? then a.value else 0.0
  {
    hide Anneal, Genuine;
    if k <= c.decaySteps {
      CoefficientFalls(c, f, m, k, k);
    }
  }

  lemma SameLevel(c: Config, f: Fixed, f': Fixed, m: Curves, n: int, k: int)
    requires WellSpaced(c, f) && WellSpaced(c, f') && Supported(c, f) && Supported(c, f') && Genuine(m)
    requires f.wsdDecayStyle == f'.wsdDecayStyle && c.decayStyle == WSD && 0 <= n <= k
    requires !(c.warmupSteps > 0 && k <= c.warmupSteps)
    requires SameAnnealing(c.decaySteps, f.wsdDecaySteps.value, f'.wsdDecaySteps.value, FirstDecay(c, n))
    ensures Level(c, f, m, k) == Level(c, f', m, k)
  {
    hide Genuine, Level;
    LevelOfWsd(c, f, m, k);
    LevelOfWsd(c, f', m, k);
    if k <= c.decaySteps {
      AnnealSame(f.wsdDecayStyle, m, c.decaySteps, f.wsdDecaySteps.value, f'.wsdDecaySteps.value, FirstDecay(c, n), k);
    }
  }

  lemma AnnealSame(style: WsdStyle, m: Curves, decaySteps: int, a: int, b: int, n: int, k: int)
    requires Genuine(m) && style != OtherWsd && SameAnnealing(decaySteps, a, b, n) && n <= k <= decaySteps
    ensures Anneal(style, m, decaySteps, a, k) == Anneal(style, m, decaySteps, b, k)
  {
    AnnealAtEnd(style, m, decaySteps, a);
    AnnealAtEnd(style, m, decaySteps, b);
    hide WsdShape, Genuine, Ratio;
  }

  // Where a setting that matters differs, some rate from step n on does.
  lemma DifferentRate(c: Config, f: Fixed, f': Fixed, m: Curves, g: GroupOptions, n: int) returns (k: int)
    requires WellSpaced(c, f) && WellSpaced(c, f') && Supported(c, f) && Supported(c, f') && Genuine(m) && n >= 0
    requires f.wsdDecayStyle == f'.wsdDecayStyle && !SameSettings(c, f, f', g, n)
    ensures n <= k && LrAt(c, f, m, g, k) != LrAt(c, f', m, g, k)
  {
    if n < c.warmupSteps && f.initLr != f'.initLr {
      k := n;
      LrInWarmup(c, f, m, g, n);
      LrInWarmup(c, f', m, g, n);
      RatioWithin(n, c.warmupSteps);
      hide LrAt, Lerp, Ratio, Genuine;
      if f.initLr < f'.initLr {
        LerpStarts(f.initLr, f'.initLr, MaxLr(c, g), Ratio(n, c.warmupSteps));
      } else {
        LerpStarts(f'.initLr, f.initLr, MaxLr(c, g), Ratio(n, c.warmupSteps));
      }
    } else {
      k := DifferentLevel(c, f, f', m, n);
      LrAfterWarmup(c, f, m, g, k);
      LrAfterWarmup(c, f', m, g, k);
      hide LrAt, Lerp, Level, Genuine;
      if Level(c, f, m, k) < Level(c, f', m, k) {
        LerpDiffers(MinLr(c, g), MaxLr(c, g), Level(c, f, m, k), Level(c, f', m, k));
      } else {
        LerpDiffers(MinLr(c, g), MaxLr(c, g), Level(c, f', m, k), Level(c, f, m, k));
      }
    }
  }

  lemma DifferentLevel(c: Config, f: Fixed, f': Fixed, m: Curves, n: int) returns (k: int)
    requires WellSpaced(c, f) && WellSpaced(c, f') && Supported(c, f) && Supported(c, f') && Genuine(m) && n >= 0
    requires f.wsdDecayStyle == f'.wsdDecayStyle && c.decayStyle == WSD
    requires !SameAnnealing(c.decaySteps, f.wsdDecaySteps.value, f'.wsdDecaySteps.value, FirstDecay(c, n))
    ensures n <= k && AtLeast(c.warmupSteps, 0) <= k
    ensures Level(c, f, m, k) != Level(c, f', m, k)
  {
    hide WsdShape, Genuine, Ratio, Level, Anneal;
    var style, d, a, b := f.wsdDecayStyle, c.decaySteps, f.wsdDecaySteps.value, f'.wsdDecaySteps.value;
    AnnealAtEnd(style, m, d, a);
    AnnealAtEnd(style, m, d, b);
    k := if a > 0 && b > 0 then d - 1 else d;
    LevelOfWsd(c, f, m, k);
    LevelOfWsd(c, f', m, k);
    if a > 0 && b > 0 {
      LengthsDiffer(style, m, a, b);
    }
  }

  lemma LengthsDiffer(style: WsdStyle, m: Curves, a: int, b: int)
    requires Genuine(m) && style != OtherWsd && a > 0 && b > 0 && a != b
    ensures WsdShape(style, m, Ratio(a - 1, a)) != WsdShape(style, m, Ratio(b - 1, b))
  {
    hide WsdShape, Genuine, Ratio;
    RatioWithin(a - 1, a);
    RatioWithin(b - 1, b);
    if a < b {
      RatioBeforeEnd(a, b);
      WsdShapeFalls(style, m, Ratio(a - 1, a), Ratio(b - 1, b));
    } else {
      RatioBeforeEnd(b, a);
      WsdShapeFalls(style, m, Ratio(b - 1, b), Ratio(a - 1, a));
    }
  }

  // So whether a resumed run is the uninterrupted one can be told from the settings alone.
  lemma ResumeIffSameSettings(s: State, f: Fixed, t: State, f': Fixed, m: Curves)
    requires SameOptions(s.groups, t.groups) && NeverFails(s, f, m)
    requires LoadState(t, f', m, SaveState(s), FROM_CHECKPOINT).Ok?
    requires WellSpaced(s.config, f) && WellSpaced(s.config, f') && Supported(s.config, f) && Supported(s.config, f')
    requires Genuine(m) && f.wsdDecayStyle == f'.wsdDecayStyle && s.numSteps >= 0
    ensures StepsAgree(s, f, LoadState(t, f', m, SaveState(s), FROM_CHECKPOINT).value, f', m)
            <==> t.numSteps == 0
                 && forall i :: 0 <= i < |s.groups| ==>
                      SameSettings(s.config, f, f', s.groups[i].options, s.numSteps)
  {
    hide StepsAgree, SameRates, SameSettings, NeverFails, SameOptions, LoadState, Genuine, WellSpaced, Supported;
    ResumeIsUninterruptedIff(s, f, t, f', m);
    forall i | 0 <= i < |s.groups|
      ensures SameRates(s.config, f, f', m, s.groups[i].options, s.numSteps)
              <==> SameSettings(s.config, f, f', s.groups[i].options, s.numSteps)
    {
      SameRatesIff(s.config, f, f', m, s.groups[i].options, s.numSteps);
    }
  }

  // ---------- Right after loading ----------

  // The rates follow the checkpoint, the weight decays the scheduler's own settings: the saved ones arrive after
  // the values were written.
  lemma LoadedValues(s: State, t: State, f: Fixed, m: Curves, i: nat)
    requires LoadState(t, f, m, SaveState(s), FROM_CHECKPOINT).Ok? && i < |t.groups|
    ensures var groups := LoadState(t, f, m, SaveState(s), FROM_CHECKPOINT).value.groups;
            var n := t.numSteps + s.numSteps;
            |groups| == |t.groups| && groups[i].options == t.groups[i].options
            && Ok(groups[i].lr) == LrAt(s.config, f, m, groups[i].options, n)
            && Ok(groups[i].weightDecay) == WeightDecayOf(t.config, m, groups[i].options, n)
  {
    LoadSaved(s, t, f, m);
    var c := LoadLr(t.config, SaveState(s), FROM_CHECKPOINT).value;
    var n := t.numSteps + s.numSteps;
    RefreshIff(c, f, m, n, t.groups);
    SameLr(s.config, c, f, m, t.groups[i].options, n);
    SameWd(t.config, c, m, t.groups[i].options, n);
    hide Refresh, LoadState, LoadLr, LrAt, WeightDecayOf;
  }

  lemma SameLr(a: Config, b: Config, f: Fixed, m: Curves, g: GroupOptions, n: int)
    requires a.maxLr == b.maxLr && a.minLr == b.minLr && a.warmupSteps == b.warmupSteps
    requires a.decaySteps == b.decaySteps && a.decayStyle == b.decayStyle
    ensures LrAt(a, f, m, g, n) == LrAt(b, f, m, g, n)
  {
    hide Ratio, Lerp, WarmupLr, Anneal, RootScaled;
  }

  lemma SameWd(a: Config, b: Config, m: Curves, g: GroupOptions, n: int)
    requires a.startWd == b.startWd && a.endWd == b.endWd
    requires a.wdIncrSteps == b.wdIncrSteps && a.wdIncrStyle == b.wdIncrStyle
    ensures WeightDecayOf(a, m, g, n) == WeightDecayOf(b, m, g, n)
  {
    hide Ratio, Lerp, Product;
  }

  // The point two settings have reached between their start and end values is the same, or is multiplied by zero.
  predicate SameWeightDecay(a: Config, b: Config, m: Curves, g: GroupOptions, n: int) {
    Get(g.wdMult, 1.0) == 0.0
    || Lerp(StartWd(a, g), EndWd(a, g), WdLevel(a, m, n)) == Lerp(StartWd(b, g), EndWd(b, g), WdLevel(b, m, n))
  }

  lemma SameWeightDecayIff(a: Config, b: Config, m: Curves, g: GroupOptions, n: int)
    requires WeightDecayOf(a, m, g, n).Ok? && WeightDecayOf(b, m, g, n).Ok?
    ensures WeightDecayOf(a, m, g, n) == WeightDecayOf(b, m, g, n) <==> SameWeightDecay(a, b, m, g, n)
  {
    WdIsLerp(a, m, g, n);
    WdIsLerp(b, m, g, n);
    ProductCancels(WdAt(a, m, g, n).value, WdAt(b, m, g, n).value, Get(g.wdMult, 1.0));
    hide Lerp, Product, WdLevel, WdAt;
  }

  lemma ProductCancels(x: real, y: real, k: real)
    ensures Product(x, k) == Product(y, k) <==> k == 0.0 || x == y
  {
    assert Product(x, k) - Product(y, k) == (x - y) * k;
    NonZeroProduct(x - y, k);
  }

  lemma NonZeroProduct(x: real, k: real)
    ensures x * k == 0.0 <==> x == 0.0 || k == 0.0
  {
  }

  // Loading into a fresh scheduler with the same groups leaves a group the saved weight decay if and only if the
  // scheduler's own increment has reached the same point as the saved one, or the group's multiplier is zero.
  lemma LoadedWeightDecayIff(s: State, f: Fixed, t: State, f': Fixed, m: Curves, i: nat)
    requires t.numSteps == 0 && SameOptions(s.groups, t.groups) && i < |s.groups|
    requires StepState(s, f, m, 0) == Ok(s) && LoadState(t, f', m, SaveState(s), FROM_CHECKPOINT).Ok?
    ensures var loaded := LoadState(t, f', m, SaveState(s), FROM_CHECKPOINT).value;
            |loaded.groups| == |s.groups|
            && (loaded.groups[i].weightDecay == s.groups[i].weightDecay
                <==> SameWeightDecay(t.config, s.config, m, s.groups[i].options, s.numSteps))
  {
    LoadedValues(s, t, f', m, i);
    RefreshIff(s.config, f, m, s.numSteps, s.groups);
    var o := s.groups[i].options;
    SettledGroup(s, f, m, i);
    SameWeightDecayIff(t.config, s.config, m, o, s.numSteps);
    hide LoadState, Refresh, WeightDecayOf, SameWeightDecay;
  }

  lemma SettledGroup(s: State, f: Fixed, m: Curves, i: nat)
    requires StepState(s, f, m, 0) == Ok(s) && i < |s.groups|
    ensures WeightDecayOf(s.config, m, s.groups[i].options, s.numSteps) == Ok(s.groups[i].weightDecay)
    ensures LrAt(s.config, f, m, s.groups[i].options, s.numSteps) == Ok(s.groups[i].lr)
  {
    RefreshIff(s.config, f, m, s.numSteps, s.groups);
    hide Refresh, LrAt, WeightDecayOf;
  }

  // The steps an increment is spread over, and the value reached times those steps.
  function WdSteps(c: Config, n: int): int {
    if Ramps(c, n) then c.wdIncrSteps else 1
  }

  function WdTimesSteps(c: Config, g: GroupOptions, n: int): real {
    if Ramps(c, n) then
      Product((c.wdIncrSteps - n) as real, StartWd(c, g)) + Product(n as real, EndWd(c, g))
    else EndWd(c, g)
  }

  // Without the cosine style the condition is one on the settings alone: equal end values where both increments
  // are over, and otherwise the two linear ramps, multiplied out.
  lemma SameLinearWeightDecayIff(a: Config, b: Config, m: Curves, g: GroupOptions, n: int)
    requires a.wdIncrStyle != CosineWd && b.wdIncrStyle != CosineWd && n >= 0
    requires WeightDecayOf(a, m, g, n).Ok? && WeightDecayOf(b, m, g, n).Ok?
    ensures SameWeightDecay(a, b, m, g, n) <==>
            Get(g.wdMult, 1.0) == 0.0
            || Product(WdTimesSteps(a, g, n), WdSteps(b, n) as real)
               == Product(WdTimesSteps(b, g, n), WdSteps(a, n) as real)
  {
    LinearPoint(a, m, g, n);
    LinearPoint(b, m, g, n);
    hide Lerp, Product, WdLevel, WdTimesSteps, WdAt;
    CrossMultiply(Lerp(StartWd(a, g), EndWd(a, g), WdLevel(a, m, n)), WdTimesSteps(a, g, n), WdSteps(a, n) as real,
                  Lerp(StartWd(b, g), EndWd(b, g), WdLevel(b, m, n)), WdTimesSteps(b, g, n), WdSteps(b, n) as real);
  }

  lemma LinearPoint(c: Config, m: Curves, g: GroupOptions, n: int)
    requires c.wdIncrStyle != CosineWd && n >= 0 && WeightDecayOf(c, m, g, n).Ok?
    ensures WdSteps(c, n) > 0
    ensures Product(Lerp(StartWd(c, g), EndWd(c, g), WdLevel(c, m, n)), WdSteps(c, n) as real) == WdTimesSteps(c, g, n)
  {
    LerpEnds(StartWd(c, g), EndWd(c, g));
    if Ramps(c, n) {
      LerpTimes(StartWd(c, g), EndWd(c, g), n as real, c.wdIncrSteps as real);
    }
  }

  lemma LerpTimes(x: real, y: real, n: real, k: real)
    requires k > 0.0
    ensures Product(Lerp(x, y, n / k), k) == Product(k - n, x) + Product(n, y)
  {
    var q := n / k;
    assert q * k == n;
    assert Lerp(x, y, q) * k == x * k + (q * k) * (y - x);
  }

  lemma CrossMultiply(p: real, x: real, k: real, q: real, y: real, l: real)
    requires k > 0.0 && l > 0.0 && Product(p, k) == x && Product(q, l) == y
    ensures p == q <==> Product(x, l) == Product(y, k)
  {
    assert x * l == p * (k * l) && y * k == q * (k * l);
    ProductSign(k, l);
    ProductCancels(p, q, k * l);
  }

  // ---------- Concrete cases ----------

  const PLAIN := GroupOptions(None, None, None, None, None)

  function Constant(endWd: real): Config {
    Config(1.0, 0.0, 0, 10, ConstantLr, 0.0, endWd, 10, LinearWd)
  }

  // Saved halfway to 1.0 as 0.5, loaded into a scheduler that increments to 2.0: the weight decay left is 1.0.
  lemma StaleWeightDecay(f: Fixed, m: Curves)
    ensures var s := State(Constant(1.0), 5, [ParamGroup(PLAIN, 1.0, 0.5)]);
            var t := State(Constant(2.0), 0, [ParamGroup(PLAIN, 1.0, 0.0)]);
            StepState(s, f, m, 0) == Ok(s)
            && LoadState(t, f, m, SaveState(s), FROM_CHECKPOINT)
               == Ok(State(Constant(1.0), 5, [ParamGroup(PLAIN, 1.0, 1.0)]))
  {
    var s := State(Constant(1.0), 5, [ParamGroup(PLAIN, 1.0, 0.5)]);
    var t := State(Constant(2.0), 0, [ParamGroup(PLAIN, 1.0, 0.0)]);
    LoadSaved(s, t, f, m);
    HalfWay(1.0, f, m);
    HalfWay(2.0, f, m);
    OneGroup(Constant(1.0), f, m, 5, s.groups);
    OneGroup(Constant(2.0), f, m, 5, t.groups);
    hide LrAt, WdAt, Refresh, LoadState;
  }

  lemma HalfWay(endWd: real, f: Fixed, m: Curves)
    ensures Updated(Constant(endWd), f, m, 5, PLAIN) == Ok(ParamGroup(PLAIN, 1.0, endWd / 2.0))
  {
    assert Ratio(5, 10) == 0.5;
  }

  lemma OneGroup(c: Config, f: Fixed, m: Curves, n: int, groups: seq<ParamGroup>)
    requires |groups| == 1 && Updated(c, f, m, n, groups[0].options).Ok?
    ensures Refresh(c, f, m, n, groups) == Ok([Updated(c, f, m, n, groups[0].options).value])
  {
    hide Updated;
    assert groups[..0] == [];
    assert Refresh(c, f, m, n, groups[..0]) == Ok([]);
    var last := Updated(c, f, m, n, groups[0].options).value;
    assert [] + [last] == [last];
  }

  // The same checkpoint in two fresh schedulers that differ in the initial rate only: the rates differ in warmup.
  lemma InitialRateMatters(m: Curves)
    ensures var c := Config(1.0, 0.0, 10, 20, ConstantLr, 0.0, 0.0, 10, ConstantWd);
            LrAt(c, Fixed(0.0, None, OtherWsd), m, PLAIN, 5) == Ok(0.5)
            && LrAt(c, Fixed(0.5, None, OtherWsd), m, PLAIN, 5) == Ok(0.75)
  {
  }

  // A fresh scheduler with the same settings is brought to exactly the saved state.
  lemma SameSettingsRestoreState(s: State, t: State, f: Fixed, m: Curves)
    requires StepState(s, f, m, 0) == Ok(s)
    requires t.config == s.config && t.numSteps == 0 && SameOptions(s.groups, t.groups)
    ensures LoadState(t, f, m, SaveState(s), FROM_CHECKPOINT) == Ok(s)
  {
    LoadSaved(s, t, f, m);
    hide Refresh, SameOptions;
    RefreshForgets(s.config, f, m, s.numSteps, s.groups, t.groups);
    assert LoadLr(t.config, SaveState(s), FROM_CHECKPOINT) == Ok(s.config);
  }
}
