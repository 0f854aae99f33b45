/** The exact learning rate and weight decay at every step, for every style, from the settings alone. */
module LrValues {
  import opened LrCurves
  import opened LrScheduler
  import opened Wrappers

  // A group's own value, where it has one.
  function Own(own: Option<real>, shared: real): real {
    match own
    case Some(x) => x
    case None => shared
  }

  // n steps of d on the way from one value to the other, multiplied out.
  ghost predicate OnTheWay(x: real, from: real, to: real, n: int, d: int) {
    x * d as real == from * (d - n) as real + to * n as real
  }

  // A fraction of the way from one value to another.
  function Between(from: real, to: real, fraction: real): real {
    from + fraction * (to - from)
  }

  predicate WarmingUp(c: Config, n: int) {
    c.warmupSteps > 0 && n <= c.warmupSteps
  }

  // ---------- Arithmetic ----------

  lemma LerpOnTheWay(from: real, to: real, n: int, d: int)
    requires d > 0
    ensures OnTheWay(Lerp(from, to, Ratio(n, d)), from, to, n, d)
  {
    var q := Ratio(n, d);
    assert q * d as real == n as real;
    assert (q * (to - from)) * d as real == (q * d as real) * (to - from);
    assert (d - n) as real == d as real - n as real;
  }

  lemma ComplementRatio(n: int, d: int)
    requires d > 0
    ensures 1.0 - Ratio(n, d) == Ratio(d - n, d)
  {
    var q, r, x := Ratio(n, d), Ratio(d - n, d), d as real;
    assert q * x == n as real && r * x == (d - n) as real == x - n as real;
    assert (1.0 - q) * x == x - q * x;
    CancelFactor(1.0 - q, r, x);
  }

  lemma CancelFactor(x: real, y: real, k: real)
    requires k > 0.0 && x * k == y * k
    ensures x == y
  {
    assert (x - y) * k == 0.0;
  }

  lemma OwnIsGet(c: Config, g: GroupOptions)
    ensures Own(g.maxLr, c.maxLr) == MaxLr(c, g) && Own(g.minLr, c.minLr) == MinLr(c, g)
    ensures Own(g.startWd, c.startWd) == StartWd(c, g) && Own(g.endWd, c.endWd) == EndWd(c, g)
    ensures Own(g.wdMult, 1.0) == Get(g.wdMult, 1.0)
  {
  }

  // The rate at a point of the decay whose coefficient is known.
  lemma RateAtCoefficient(c: Config, f: Fixed, m: Curves, g: GroupOptions, n: int, x: real)
    requires !WarmingUp(c, n) && n <= c.decaySteps && c.decayStyle != ConstantLr && c.decayStyle != InverseSquareRoot
    requires Coefficient(c, f, m, n) == Ok(x)
    ensures LrAt(c, f, m, g, n) == Ok(Between(Own(g.minLr, c.minLr), Own(g.maxLr, c.maxLr), x))
  {
    hide Coefficient, Own, Get, WarmupLr, Lerp, Between;
    OwnIsGet(c, g);
    LerpIsBetween(MinLr(c, g), MaxLr(c, g), x);
  }

  lemma LerpIsBetween(from: real, to: real, x: real)
    ensures Lerp(from, to, x) == Between(from, to, x)
    ensures Between(from, to, 1.0) == to
  {
  }

  // ---------- Learning rate ----------

  // In warmup: n of the warmup steps from the initial rate to the maximum.
  lemma RateInWarmup(c: Config, f: Fixed, m: Curves, g: GroupOptions, n: int)
    requires WarmingUp(c, n)
    ensures LrAt(c, f, m, g, n).Ok?
    ensures OnTheWay(LrAt(c, f, m, g, n).value, f.initLr, Own(g.maxLr, c.maxLr), n, c.warmupSteps)
  {
    hide LrAt, Lerp, Ratio, OnTheWay;
    LrInWarmup(c, f, m, g, n);
    LerpOnTheWay(f.initLr, MaxLr(c, g), n, c.warmupSteps);
  }

  // A constant rate is the maximum; any other is the minimum once the decay is over.
  lemma RateOutsideDecay(c: Config, f: Fixed, m: Curves, g: GroupOptions, n: int)
    requires !WarmingUp(c, n)
    ensures c.decayStyle == ConstantLr ==> LrAt(c, f, m, g, n) == Ok(Own(g.maxLr, c.maxLr))
    ensures c.decayStyle != ConstantLr && n > c.decaySteps ==> LrAt(c, f, m, g, n) == Ok(Own(g.minLr, c.minLr))
  {
    hide Coefficient, InverseRoot, WarmupLr;
  }

  // Linear decay: the steps since warmup out of all of them, from the maximum to the minimum.
  lemma RateLinear(c: Config, f: Fixed, m: Curves, g: GroupOptions, n: int)
    requires WellSpaced(c, f) && c.decayStyle == LinearLr && !WarmingUp(c, n) && c.warmupSteps <= n <= c.decaySteps
    ensures LrAt(c, f, m, g, n).Ok?
    ensures OnTheWay(LrAt(c, f, m, g, n).value, Own(g.maxLr, c.maxLr), Own(g.minLr, c.minLr),
                     n - c.warmupSteps, c.decaySteps - c.warmupSteps)
  {
    var k, d := n - c.warmupSteps, c.decaySteps - c.warmupSteps;
    RatioWithin(k, d);
    hide OnTheWay, Lerp, Ratio;
    ComplementRatio(k, d);
    LerpOnTheWay(MinLr(c, g), MaxLr(c, g), d - k, d);
    Backwards(Lerp(MinLr(c, g), MaxLr(c, g), Ratio(d - k, d)), MinLr(c, g), MaxLr(c, g), k, d);
  }

  lemma Backwards(x: real, from: real, to: real, k: int, d: int)
    requires OnTheWay(x, from, to, d - k, d)
    ensures OnTheWay(x, to, from, k, d)
  {
  }

  // Cosine decay: the cosine curve at the fraction of the steps since warmup.
  lemma RateCosine(c: Config, f: Fixed, m: Curves, g: GroupOptions, n: int)
    requires WellSpaced(c, f) && c.decayStyle == CosineLr && !WarmingUp(c, n) && c.warmupSteps <= n <= c.decaySteps
    ensures var lo, hi := Own(g.minLr, c.minLr), Own(g.maxLr, c.maxLr);
            var fraction := (n - c.warmupSteps) as real / (c.decaySteps - c.warmupSteps) as real;
            LrAt(c, f, m, g, n) == Ok(Between(lo, hi, m.cosine(fraction)))
  {
    var k, d := n - c.warmupSteps, c.decaySteps - c.warmupSteps;
    RatioWithin(k, d);
    assert Coefficient(c, f, m, n) == Ok(m.cosine(k as real / d as real));
    RateAtCoefficient(c, f, m, g, n, m.cosine(k as real / d as real));
    hide LrAt, Own, Coefficient, Between;
  }

  // The curve of an annealing style; the linear one has its own lemma.
  function AnnealCurve(style: WsdStyle, m: Curves): real -> real
    requires style != OtherWsd && style != LinearWsd
  {
    match style
    case CosineWsd => m.cosine
    case ExponentialWsd => m.exponential
    case MinusSqrtWsd => m.minusSqrt
  }

  // WSD: the maximum until the annealing starts, then its curve at the fraction of the annealing steps.
  lemma RateWsd(c: Config, f: Fixed, m: Curves, g: GroupOptions, n: int)
    requires WellSpaced(c, f) && c.decayStyle == WSD && !WarmingUp(c, n) && c.warmupSteps <= n <= c.decaySteps
    ensures var lo, hi, len := Own(g.minLr, c.minLr), Own(g.maxLr, c.maxLr), f.wsdDecaySteps.value;
            var done := n - (c.decaySteps - len);
            && (done <= 0 ==> LrAt(c, f, m, g, n) == Ok(hi))
            && (done > 0 && f.wsdDecayStyle == LinearWsd ==>
                  len > 0 && LrAt(c, f, m, g, n).Ok? && OnTheWay(LrAt(c, f, m, g, n).value, hi, lo, done, len))
            && (done > 0 && f.wsdDecayStyle != LinearWsd && f.wsdDecayStyle != OtherWsd ==>
                  && len > 0
                  && LrAt(c, f, m, g, n)
                     == Ok(Between(lo, hi, AnnealCurve(f.wsdDecayStyle, m)(done as real / len as real))))
  {
    var len := f.wsdDecaySteps.value;
    var done := n - (c.decaySteps - len);
    OwnIsGet(c, g);
    if done <= 0 {
      WsdCoefficient(c, f, m, n);
      RateAtCoefficient(c, f, m, g, n, 1.0);
      LerpIsBetween(MinLr(c, g), MaxLr(c, g), 1.0);
      hide LrAt, Coefficient, Own, Between;
    } else if f.wsdDecayStyle == LinearWsd {
      WsdCoefficient(c, f, m, n);
      ComplementRatio(done, len);
      hide LrAt, Coefficient, Ratio, OnTheWay, Own, Get, Lerp, Between;
      RateAtCoefficient(c, f, m, g, n, Ratio(len - done, len));
      LerpIsBetween(MinLr(c, g), MaxLr(c, g), Ratio(len - done, len));
      LerpOnTheWay(MinLr(c, g), MaxLr(c, g), len - done, len);
      Backwards(Lerp(MinLr(c, g), MaxLr(c, g), Ratio(len - done, len)), MinLr(c, g), MaxLr(c, g), done, len);
    } else if f.wsdDecayStyle != OtherWsd {
      WsdCoefficient(c, f, m, n);
      RateAtCoefficient(c, f, m, g, n, AnnealCurve(f.wsdDecayStyle, m)(done as real / len as real));
      hide LrAt, Coefficient, Own, Between;
    }
  }

  lemma WsdCoefficient(c: Config, f: Fixed, m: Curves, n: int)
    requires WellSpaced(c, f) && c.decayStyle == WSD && c.warmupSteps <= n <= c.decaySteps
    ensures var len := f.wsdDecaySteps.value;
            var done := n - (c.decaySteps - len);
            && (done <= 0 ==> Coefficient(c, f, m, n) == Ok(1.0))
            && (done > 0 ==> len > 0)
            && (done > 0 && f.wsdDecayStyle == LinearWsd ==> Coefficient(c, f, m, n) == Ok(1.0 - Ratio(done, len)))
            && (done > 0 && f.wsdDecayStyle != LinearWsd && f.wsdDecayStyle != OtherWsd ==>
                  Coefficient(c, f, m, n) == Ok(AnnealCurve(f.wsdDecayStyle, m)(done as real / len as real)))
  {
    RatioWithin(n - c.warmupSteps, c.decaySteps - c.warmupSteps);
  }

  // Inverse square root: maximum * sqrt(w) / sqrt(n), with w and n at least 1, but not below the minimum.
  lemma RateInverse(c: Config, f: Fixed, m: Curves, g: GroupOptions, n: int)
    requires Genuine(m) && c.decayStyle == InverseSquareRoot && !WarmingUp(c, n) && n <= c.decaySteps
    ensures LrAt(c, f, m, g, n).Ok?
    ensures var lo, hi, lr := Own(g.minLr, c.minLr), Own(g.maxLr, c.maxLr), LrAt(c, f, m, g, n).value;
            var w, k := (if c.warmupSteps > 1 then c.warmupSteps else 1), (if n > 1 then n else 1);
            && m.root(k) > 0.0
            && lr >= lo && lr * m.root(k) >= hi * m.root(w) && (lr == lo || lr * m.root(k) == hi * m.root(w))
  {
    RootAtLeast(m, n);
    var w, k := m.root(AtLeast(c.warmupSteps, 1)), m.root(AtLeast(n, 1));
    hide Genuine;
    RootScaledTimes(MaxLr(c, g), w, k);
    TimesMono(RootScaled(MaxLr(c, g), w, k), MinLr(c, g), k);
    hide RootScaled;
  }

  lemma RootScaledTimes(maxLr: real, w: real, n: real)
    requires n > 0.0
    ensures RootScaled(maxLr, w, n) * n == maxLr * w
  {
  }

  lemma TimesMono(x: real, y: real, k: real)
    requires k > 0.0
    ensures x <= y ==> x * k <= y * k
  {
  }

  // A rate is missing exactly within the decay of a style that is not supported, or within the annealing of one.
  lemma RateFailsIff(c: Config, f: Fixed, m: Curves, g: GroupOptions, n: int)
    requires WellSpaced(c, f) && Genuine(m) && n >= 0
    ensures LrAt(c, f, m, g, n).Err? <==>
            !WarmingUp(c, n) && n <= c.decaySteps
            && (c.decayStyle == OtherLr
                || (c.decayStyle == WSD && f.wsdDecayStyle == OtherWsd && n > c.decaySteps - f.wsdDecaySteps.value))
  {
    if !WarmingUp(c, n) && n <= c.decaySteps {
      RatioWithin(n - c.warmupSteps, c.decaySteps - c.warmupSteps);
      RootAtLeast(m, n);
    }
    hide Ratio, Lerp, RootScaled, Genuine, WarmupLr;
  }

  // ---------- Weight decay ----------

  // While the increment goes on, the linear style is n of its steps on the way, the cosine style is the cosine curve
  // at the fraction that is left; afterwards, and for the constant style, the end value. All times the multiplier.
  ghost predicate WeightDecayAt(c: Config, m: Curves, g: GroupOptions, n: int, wd: real) {
    var from, to := Own(g.startWd, c.startWd), Own(g.endWd, c.endWd);
    && (n > c.wdIncrSteps || c.wdIncrStyle == ConstantWd ==> wd == to)
    && (n <= c.wdIncrSteps && c.wdIncrStyle == LinearWd ==> OnTheWay(wd, from, to, n, c.wdIncrSteps))
    && (n <= c.wdIncrSteps && c.wdIncrStyle == CosineWd ==>
          c.wdIncrSteps > 0 && wd == Between(from, to, m.cosine(1.0 - n as real / c.wdIncrSteps as real)))
  }

  lemma WeightDecayIs(c: Config, m: Curves, g: GroupOptions, n: int)
    requires WeightDecayOf(c, m, g, n).Ok? && n >= 0
    ensures exists wd: real ::
              WeightDecayAt(c, m, g, n, wd) && WeightDecayOf(c, m, g, n) == Ok(Times(wd, Own(g.wdMult, 1.0)))
  {
    hide WeightDecayAt, WdAt, Own, Get, Times, Product;
    var wd := WdAt(c, m, g, n).value;
    OwnIsGet(c, g);
    WdIsAt(c, m, g, n);
    ProductIsTimes(wd, Get(g.wdMult, 1.0));
    assert WeightDecayOf(c, m, g, n) == Ok(Times(wd, Own(g.wdMult, 1.0)));
  }

  function Times(x: real, y: real): real {
    x * y
  }

  lemma ProductIsTimes(x: real, y: real)
    ensures Product(x, y) == Times(x, y)
  {
  }

  lemma WdIsAt(c: Config, m: Curves, g: GroupOptions, n: int)
    requires WdAt(c, m, g, n).Ok? && n >= 0
    ensures WeightDecayAt(c, m, g, n, WdAt(c, m, g, n).value)
  {
    OwnIsGet(c, g);
    hide Own, Get, OnTheWay, Lerp, Between;
    if n <= c.wdIncrSteps && c.wdIncrStyle == LinearWd {
      LerpOnTheWay(StartWd(c, g), EndWd(c, g), n, c.wdIncrSteps);
    } else if n <= c.wdIncrSteps && c.wdIncrStyle == CosineWd {
      LerpIsBetween(StartWd(c, g), EndWd(c, g), m.cosine(1.0 - n as real / c.wdIncrSteps as real));
    }
  }

  // ---------- What a step writes ----------

  // Every group keeps its options and gets the rate and the weight decay of the new step count, each in its field.
  lemma StepWrites(s: State, f: Fixed, m: Curves, increment: int, i: nat)
    requires StepState(s, f, m, increment).Ok? && i < |s.groups|
    ensures var t := StepState(s, f, m, increment).value;
            && t.config == s.config && t.numSteps == s.numSteps + increment && |t.groups| == |s.groups|
            && t.groups[i].options == s.groups[i].options
            && LrAt(s.config, f, m, s.groups[i].options, t.numSteps) == Ok(t.groups[i].lr)
            && WeightDecayOf(s.config, m, s.groups[i].options, t.numSteps) == Ok(t.groups[i].weightDecay)
  {
    RefreshWrites(s.config, f, m, s.numSteps + increment, s.groups, i);
    hide Refresh, LrAt, WeightDecayOf;
  }

  lemma {:induction false} RefreshWrites(c: Config, f: Fixed, m: Curves, n: int, groups: seq<ParamGroup>, i: nat)
    requires Refresh(c, f, m, n, groups).Ok? && i < |groups|
    ensures var after := Refresh(c, f, m, n, groups).value;
            && |after| == |groups| && after[i].options == groups[i].options
            && LrAt(c, f, m, groups[i].options, n) == Ok(after[i].lr)
            && WeightDecayOf(c, m, groups[i].options, n) == Ok(after[i].weightDecay)
  {
    hide LrAt, WeightDecayOf;
    if i < |groups| - 1 {
      RefreshWrites(c, f, m, n, groups[..|groups| - 1], i);
    } else {
      RefreshLength(c, f, m, n, groups[..|groups| - 1]);
    }
  }

  lemma {:induction false} RefreshLength(c: Config, f: Fixed, m: Curves, n: int, groups: seq<ParamGroup>)
    requires Refresh(c, f, m, n, groups).Ok?
    ensures |Refresh(c, f, m, n, groups).value| == |groups|
  {
    hide LrAt, WeightDecayOf;
    if groups != [] {
      RefreshLength(c, f, m, n, groups[..|groups| - 1]);
    }
  }
}
