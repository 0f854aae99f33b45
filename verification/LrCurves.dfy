/** Learning rate and weight decay as functions of the step count, in exact arithmetic. */
module LrCurves {
  import opened Wrappers

  // OtherLr stands for every name that is not supported; likewise OtherWd, and OtherWsd also for a missing name.
  datatype DecayStyle = ConstantLr | LinearLr | CosineLr | InverseSquareRoot | WSD | OtherLr

  datatype WsdStyle = LinearWsd | CosineWsd | ExponentialWsd | MinusSqrtWsd | OtherWsd

  datatype WdStyle = ConstantWd | LinearWd | CosineWd | OtherWd

  // The settings a checkpoint holds.
  datatype Config = Config(maxLr: real, minLr: real, warmupSteps: int, decaySteps: int, decayStyle: DecayStyle,
                           startWd: real, endWd: real, wdIncrSteps: int, wdIncrStyle: WdStyle)

  // The settings only the constructor gets.
  datatype Fixed = Fixed(initLr: real, wsdDecaySteps: Option<int>, wsdDecayStyle: WsdStyle)

  // What a parameter group overrides, and its multiplier of the weight decay.
  datatype GroupOptions = GroupOptions(maxLr: Option<real>, minLr: Option<real>,
                                       startWd: Option<real>, endWd: Option<real>, wdMult: Option<real>)

  datatype SchedulerError =
    AssertionFailed | DivisionByZero | MissingSetting | Unsupported | ValueMismatch | MissingKey

  // The functions of the math library: 0.5 * (cos(pi * x) + 1), 2 * 0.5 ** x - 1, 1 - sqrt(x) and n ** 0.5.
  datatype Curves = Curves(cosine: real -> real, exponential: real -> real, minusSqrt: real -> real, root: int -> real)

  // From 1 at 0 to 0 at 1, strictly falling in between.
  ghost predicate Falls(shape: real -> real) {
    shape(0.0) == 1.0 && shape(1.0) == 0.0 && forall x, y :: 0.0 <= x < y <= 1.0 ==> shape(y) < shape(x)
  }

  // What is used of these functions.
  ghost predicate Genuine(m: Curves) {
    && Falls(m.cosine) && Falls(m.exponential) && Falls(m.minusSqrt)
    && forall n: int :: n > 0 ==> m.root(n) > 0.0 && m.root(n) * m.root(n) == n as real
  }

  function Get<T>(o: Option<T>, default: T): T {
    if o.Some? then o.value else default
  }

  function MaxLr(c: Config, g: GroupOptions): real {
    Get(g.maxLr, c.maxLr)
  }

  function MinLr(c: Config, g: GroupOptions): real {
    Get(g.minLr, c.minLr)
  }

  // Warmup ends before the decay does, and WSD has a length.
  predicate WellSpaced(c: Config, f: Fixed) {
    c.decaySteps > 0 && c.warmupSteps < c.decaySteps && (c.decayStyle == WSD ==> f.wsdDecaySteps.Some?)
  }

  // What the constructor asserts.
  predicate ValidConfig(c: Config, f: Fixed) {
    && WellSpaced(c, f)
    && c.minLr >= 0.0 && c.maxLr >= c.minLr && f.initLr <= c.maxLr
    && c.startWd >= 0.0 && c.endWd >= c.startWd
  }

  predicate Supported(c: Config, f: Fixed) {
    c.decayStyle != OtherLr && (c.decayStyle == WSD ==> f.wsdDecayStyle != OtherWsd)
  }

  // ---------- Learning rate ----------

  // from + fraction * (to - from)
  function Lerp(from: real, to: real, fraction: real): real {
    from + fraction * (to - from)
  }

  function Ratio(a: int, b: int): real
    requires b != 0
  {
    a as real / b as real
  }

  function Larger(a: real, b: real): real {
    if a >= b then a else b
  }

  function AtLeast(n: int, low: int): int {
    if n >= low then n else low
  }

  // The annealing curve; None for a style that is not supported.
  function WsdShape(style: WsdStyle, m: Curves, ratio: real): Option<real> {
    match style
    case LinearWsd => Some(1.0 - ratio)
    case CosineWsd => Some(m.cosine(ratio))
    case ExponentialWsd => Some(m.exponential(ratio))
    case MinusSqrtWsd => Some(m.minusSqrt(ratio))
    case OtherWsd => None
  }

  // WSD: the maximum is kept until the last wsd_decay_steps.
  function Anneal(style: WsdStyle, m: Curves, decaySteps: int, wsdSteps: int, n: int): Result<real, SchedulerError> {
    if n <= decaySteps - wsdSteps then Ok(1.0)
    else if wsdSteps == 0 then Err(DivisionByZero)
    else
      match WsdShape(style, m, Ratio(n - (decaySteps - wsdSteps), wsdSteps))
      case Some(coeff) => Ok(coeff)
      case None => Err(AssertionFailed)
  }

  // How much of the way from min_lr to max_lr is left at step n.
  function Coefficient(c: Config, f: Fixed, m: Curves, n: int): Result<real, SchedulerError> {
    if c.decaySteps == c.warmupSteps then Err(DivisionByZero)
    else
      var ratio := Ratio(n - c.warmupSteps, c.decaySteps - c.warmupSteps);
      if !(0.0 <= ratio <= 1.0) then Err(AssertionFailed)
      else if c.decayStyle == LinearLr then Ok(1.0 - ratio)
      else if c.decayStyle == CosineLr then Ok(m.cosine(ratio))
      else if c.decayStyle != WSD then Err(Unsupported)
      else if f.wsdDecaySteps.None? then Err(MissingSetting)
      else Anneal(f.wsdDecayStyle, m, c.decaySteps, f.wsdDecaySteps.value, n)
  }

  function WarmupLr(initLr: real, maxLr: real, n: int, w: int): real
    requires w != 0
  {
    initLr + (maxLr - initLr) * n as real / w as real
  }

  // maxLr * w ** 0.5 / n ** 0.5
  function RootScaled(maxLr: real, w: real, n: real): real
    requires n != 0.0
  {
    maxLr * w / n
  }

  function InverseRoot(maxLr: real, minLr: real, m: Curves, w: int, n: int): Result<real, SchedulerError> {
    if m.root(AtLeast(n, 1)) == 0.0 then Err(DivisionByZero)
    else Ok(Larger(minLr, RootScaled(maxLr, m.root(AtLeast(w, 1)), m.root(AtLeast(n, 1)))))
  }

  function LrAt(c: Config, f: Fixed, m: Curves, g: GroupOptions, n: int): Result<real, SchedulerError> {
    if c.warmupSteps > 0 && n <= c.warmupSteps then Ok(WarmupLr(f.initLr, MaxLr(c, g), n, c.warmupSteps))
    else if c.decayStyle == ConstantLr then Ok(MaxLr(c, g))
    else if n > c.decaySteps then Ok(MinLr(c, g))
    else if c.decayStyle == InverseSquareRoot then InverseRoot(MaxLr(c, g), MinLr(c, g), m, c.warmupSteps, n)
    else
      match Coefficient(c, f, m, n)
      case Ok(coeff) => Ok(Lerp(MinLr(c, g), MaxLr(c, g), coeff))
      case Err(e) => Err(e)
  }

  // ---------- Arithmetic of ratios and interpolation ----------

  lemma RatioMono(a: int, b: int, d: int)
    requires d > 0 && a <= b
    ensures Ratio(a, d) <= Ratio(b, d)
  {
    var x, y, z := a as real, b as real, d as real;
    assert x <= y;
  }

  lemma RatioEnds(d: int)
    requires d != 0
    ensures Ratio(0, d) == 0.0 && Ratio(d, d) == 1.0
  {
    QuotientOfSelf(d as real);
  }

  lemma QuotientOfSelf(x: real)
    requires x != 0.0
    ensures x / x == 1.0 && 0.0 / x == 0.0
  {
    var q := x / x;
    assert q * x == x;
  }

  lemma RatioStrict(a: int, b: int, d: int)
    requires 0 < d && a < b
    ensures Ratio(a, d) < Ratio(b, d)
  {
  }

  // The fraction of the annealing that is done one step before its end grows with its length.
  lemma RatioBeforeEnd(d: int, e: int)
    requires 0 < d < e
    ensures Ratio(d - 1, d) < Ratio(e - 1, e)
  {
    var x, y := d as real, e as real;
    assert (d - 1) as real == x - 1.0 && (e - 1) as real == y - 1.0;
    LessOneOver(x);
    LessOneOver(y);
    assert 1.0 / y < 1.0 / x by {
      InverseStrict(x, y);
    }
  }

  lemma LessOneOver(x: real)
    requires x > 0.0
    ensures (x - 1.0) / x == 1.0 - 1.0 / x
  {
  }

  lemma InverseStrict(x: real, y: real)
    requires 0.0 < x < y
    ensures 1.0 / y < 1.0 / x
  {
  }

  function Product(x: real, y: real): real {
    x * y
  }

  lemma ProductSign(x: real, y: real)
    ensures x >= 0.0 && y >= 0.0 ==> Product(x, y) >= 0.0
    ensures x > 0.0 && y < 0.0 ==> Product(x, y) < 0.0
    ensures x > 0.0 && y > 0.0 ==> Product(x, y) > 0.0
  {
  }

  lemma LerpStep(from: real, to: real, a: real, b: real)
    ensures Lerp(from, to, b) == Lerp(from, to, a) + Product(b - a, to - from)
  {
    var d := to - from;
    assert (b - a) * d == b * d - a * d;
  }

  lemma LerpMono(from: real, to: real, a: real, b: real)
    requires a <= b && from <= to
    ensures Lerp(from, to, a) <= Lerp(from, to, b)
  {
    hide Lerp, Product;
    LerpStep(from, to, a, b);
    ProductSign(b - a, to - from);
  }

  lemma LerpAnti(from: real, to: real, a: real, b: real)
    requires a < b && to < from
    ensures Lerp(from, to, b) < Lerp(from, to, a)
  {
    hide Lerp, Product;
    LerpStep(from, to, a, b);
    ProductSign(b - a, to - from);
  }

  lemma LerpEnds(from: real, to: real)
    ensures Lerp(from, to, 0.0) == from && Lerp(from, to, 1.0) == to
  {
  }

  // Different fractions of a way that goes somewhere are different places.
  lemma LerpDiffers(from: real, to: real, a: real, b: real)
    requires a < b && from != to
    ensures Lerp(from, to, a) != Lerp(from, to, b)
  {
    hide Lerp, Product;
    LerpStep(from, to, a, b);
    ProductSign(b - a, to - from);
  }

  // Short of the end, different starts are different places.
  lemma LerpStarts(from: real, other: real, to: real, a: real)
    requires a < 1.0 && from < other
    ensures Lerp(from, to, a) < Lerp(other, to, a)
  {
    assert Lerp(other, to, a) - Lerp(from, to, a) == Product(1.0 - a, other - from);
    ProductSign(1.0 - a, other - from);
  }

  // ---------- Where the learning rate is defined ----------

  lemma RatioWithin(a: int, d: int)
    requires 0 <= a <= d && d > 0
    ensures 0.0 <= Ratio(a, d) <= 1.0 && (a < d ==> Ratio(a, d) < 1.0) && (a > 0 ==> Ratio(a, d) > 0.0)
  {
    hide Ratio;
    RatioEnds(d);
    RatioMono(0, a, d);
    RatioMono(a, d, d);
    if a < d {
      RatioStrict(a, d, d);
    }
    if a > 0 {
      RatioStrict(0, a, d);
    }
  }

  lemma FallsWithin(shape: real -> real, x: real)
    requires Falls(shape) && 0.0 <= x <= 1.0
    ensures 0.0 <= shape(x) <= 1.0 && (x < 1.0 ==> shape(x) > 0.0)
  {
  }

  lemma WsdShapeFalls(style: WsdStyle, m: Curves, x: real, y: real)
    requires Genuine(m) && style != OtherWsd && 0.0 <= x <= y <= 1.0
    ensures WsdShape(style, m, x).Some? && WsdShape(style, m, y).Some?
    ensures 0.0 <= WsdShape(style, m, y).value <= WsdShape(style, m, x).value <= 1.0
    ensures x < y ==> WsdShape(style, m, y).value < WsdShape(style, m, x).value
    ensures x == 0.0 ==> WsdShape(style, m, x).value == 1.0
    ensures y == 1.0 ==> WsdShape(style, m, y).value == 0.0
  {
  }

  // The annealing part falls from at most one, and is gone at the end if it has any length.
  lemma AnnealFalls(style: WsdStyle, m: Curves, decaySteps: int, wsdSteps: int, i: int, j: int)
    requires Genuine(m) && style != OtherWsd && i <= j <= decaySteps
    ensures Anneal(style, m, decaySteps, wsdSteps, i).Ok? && Anneal(style, m, decaySteps, wsdSteps, j).Ok?
    ensures 0.0 <= Anneal(style, m, decaySteps, wsdSteps, j).value
               <= Anneal(style, m, decaySteps, wsdSteps, i).value <= 1.0
    ensures j < decaySteps ==> Anneal(style, m, decaySteps, wsdSteps, j).value > 0.0
    ensures j == decaySteps ==> Anneal(style, m, decaySteps, wsdSteps, j).value == if wsdSteps > 0 then 0.0 else 1.0
  {
    hide WsdShape, Ratio, Genuine;
    var start := decaySteps - wsdSteps;
    if j > start {
      RatioWithin(j - start, wsdSteps);
      RatioEnds(wsdSteps);
      WsdShapeFalls(style, m, Ratio(j - start, wsdSteps), 1.0);
      if i > start {
        RatioWithin(i - start, wsdSteps);
        RatioMono(i - start, j - start, wsdSteps);
        WsdShapeFalls(style, m, Ratio(i - start, wsdSteps), Ratio(j - start, wsdSteps));
      }
    }
  }

  lemma CoefficientFalls(c: Config, f: Fixed, m: Curves, i: int, j: int)
    requires WellSpaced(c, f) && Supported(c, f) && Genuine(m)
    requires c.decayStyle != ConstantLr && c.decayStyle != InverseSquareRoot
    requires c.warmupSteps <= i <= j <= c.decaySteps
    ensures Coefficient(c, f, m, i).Ok? && Coefficient(c, f, m, j).Ok?
    ensures 0.0 <= Coefficient(c, f, m, j).value <= Coefficient(c, f, m, i).value <= 1.0
    ensures j < c.decaySteps ==> Coefficient(c, f, m, j).value > 0.0
  {
    hide Ratio, Anneal;
    var w, d := c.warmupSteps, c.decaySteps - c.warmupSteps;
    RatioWithin(i - w, d);
    RatioWithin(j - w, d);
    RatioMono(i - w, j - w, d);
    if c.decayStyle == CosineLr {
      FallsWithin(m.cosine, Ratio(i - w, d));
      FallsWithin(m.cosine, Ratio(j - w, d));
    } else if c.decayStyle == WSD {
      AnnealFalls(f.wsdDecayStyle, m, c.decaySteps, f.wsdDecaySteps.value, i, j);
    }
  }

  lemma RootAtLeast(m: Curves, n: int)
    requires Genuine(m)
    ensures m.root(AtLeast(n, 1)) > 0.0
  {
  }

  // With a supported style the learning rate is defined at every step.
  lemma LrDefined(c: Config, f: Fixed, m: Curves, g: GroupOptions, n: int)
    requires WellSpaced(c, f) && Supported(c, f) && Genuine(m) && n >= 0
    ensures LrAt(c, f, m, g, n).Ok?
  {
    hide Coefficient, Genuine;
    RootAtLeast(m, n);
    if c.decayStyle != ConstantLr && c.decayStyle != InverseSquareRoot && c.warmupSteps <= n <= c.decaySteps {
      CoefficientFalls(c, f, m, n, n);
    }
  }

  // ---------- Warmup ----------

  lemma WarmupQuotient(initLr: real, maxLr: real, n: int, w: int)
    requires w > 0
    ensures WarmupLr(initLr, maxLr, n, w) == Lerp(initLr, maxLr, Ratio(n, w))
  {
  }

  lemma LrInWarmup(c: Config, f: Fixed, m: Curves, g: GroupOptions, n: int)
    requires c.warmupSteps > 0 && n <= c.warmupSteps
    ensures LrAt(c, f, m, g, n) == Ok(Lerp(f.initLr, MaxLr(c, g), Ratio(n, c.warmupSteps)))
    ensures n == c.warmupSteps ==> LrAt(c, f, m, g, n) == Ok(MaxLr(c, g))
  {
    WarmupQuotient(f.initLr, MaxLr(c, g), n, c.warmupSteps);
    hide Ratio, Lerp, WarmupLr;
    RatioEnds(c.warmupSteps);
    LerpEnds(f.initLr, MaxLr(c, g));
  }

  ghost predicate RisesInWarmup(c: Config, f: Fixed, m: Curves, g: GroupOptions) {
    forall i: int, j: int :: 0 <= i <= j <= c.warmupSteps && c.warmupSteps > 0 ==>
      LrAt(c, f, m, g, i).Ok? && LrAt(c, f, m, g, j).Ok? && LrAt(c, f, m, g, i).value <= LrAt(c, f, m, g, j).value
  }

  // The learning rate of a group never drops during warmup exactly when there is no warmup or the group's
  // maximum is not below the initial rate.
  lemma WarmupRisesIff(c: Config, f: Fixed, m: Curves, g: GroupOptions)
    ensures RisesInWarmup(c, f, m, g) <==> c.warmupSteps <= 0 || f.initLr <= MaxLr(c, g)
  {
    hide LrAt, Lerp, Ratio;
    var maxLr, w := MaxLr(c, g), c.warmupSteps;
    if w > 0 && f.initLr <= maxLr {
      forall i: int, j: int | 0 <= i <= j <= w
        ensures LrAt(c, f, m, g, i).Ok? && LrAt(c, f, m, g, j).Ok?
        ensures LrAt(c, f, m, g, i).value <= LrAt(c, f, m, g, j).value
      {
        LrInWarmup(c, f, m, g, i);
        LrInWarmup(c, f, m, g, j);
        RatioMono(i, j, w);
        LerpMono(f.initLr, maxLr, Ratio(i, w), Ratio(j, w));
      }
    } else if w > 0 {
      LrInWarmup(c, f, m, g, 0);
      LrInWarmup(c, f, m, g, w);
      RatioEnds(w);
      LerpEnds(f.initLr, maxLr);
      assert LrAt(c, f, m, g, w).value < LrAt(c, f, m, g, 0).value;
    }
  }

  // ---------- After warmup ----------

  // The learning rate after warmup as one fraction of the way from min_lr to max_lr.
  function Level(c: Config, f: Fixed, m: Curves, n: int): real {
    if c.warmupSteps > 0 && n <= c.warmupSteps then 1.0
    else if c.decayStyle == ConstantLr then 1.0
    else if n > c.decaySteps then 0.0
    else if Coefficient(c, f, m, n).Ok? then Coefficient(c, f, m, n).value
    else 0.0
  }

  lemma LevelFalls(c: Config, f: Fixed, m: Curves, i: int, j: int)
    requires WellSpaced(c, f) && Supported(c, f) && Genuine(m) && c.decayStyle != InverseSquareRoot
    requires AtLeast(c.warmupSteps, 0) <= i <= j
    ensures 0.0 <= Level(c, f, m, j) <= Level(c, f, m, i) <= 1.0
    ensures i < c.decaySteps ==> Level(c, f, m, i) > 0.0
  {
    hide Coefficient, Genuine;
    if c.decayStyle != ConstantLr && j <= c.decaySteps {
      CoefficientFalls(c, f, m, i, j);
      CoefficientFalls(c, f, m, i, i);
    } else if c.decayStyle != ConstantLr && i <= c.decaySteps {
      CoefficientFalls(c, f, m, i, i);
    }
  }

  lemma LrAfterWarmup(c: Config, f: Fixed, m: Curves, g: GroupOptions, n: int)
    requires WellSpaced(c, f) && Supported(c, f) && Genuine(m) && c.decayStyle != InverseSquareRoot
    requires AtLeast(c.warmupSteps, 0) <= n
    ensures LrAt(c, f, m, g, n) == Ok(Lerp(MinLr(c, g), MaxLr(c, g), Level(c, f, m, n)))
  {
    hide Coefficient, Genuine, Lerp;
    LerpEnds(MinLr(c, g), MaxLr(c, g));
    if c.warmupSteps > 0 && n == c.warmupSteps {
      LrInWarmup(c, f, m, g, n);
    } else if c.decayStyle != ConstantLr && n <= c.decaySteps {
      CoefficientFalls(c, f, m, n, n);
    }
  }

  ghost predicate FallsAfterWarmup(c: Config, f: Fixed, m: Curves, g: GroupOptions) {
    forall i: int, j: int :: AtLeast(c.warmupSteps, 0) <= i <= j ==>
      LrAt(c, f, m, g, i).Ok? && LrAt(c, f, m, g, j).Ok? && LrAt(c, f, m, g, j).value <= LrAt(c, f, m, g, i).value
  }

  // When a decay never makes the rate of a group grow.
  predicate DecayFalls(c: Config, m: Curves, g: GroupOptions) {
    match c.decayStyle
    case ConstantLr => true
    case InverseSquareRoot =>
      if c.warmupSteps > 0 then 0.0 <= MaxLr(c, g) && MinLr(c, g) <= MaxLr(c, g)
      else
        0.0 <= MaxLr(c, g) || c.decaySteps == 1
        || (m.root(c.decaySteps) != 0.0 && RootScaled(MaxLr(c, g), 1.0, m.root(c.decaySteps)) <= MinLr(c, g))
    case _ => MinLr(c, g) <= MaxLr(c, g)
  }

  // After warmup the learning rate of a group never grows exactly when the style is constant or the group's
  // maximum is not below its minimum; for the inverse square root the sign of the maximum matters as well.
  lemma DecayFallsIff(c: Config, f: Fixed, m: Curves, g: GroupOptions)
    requires WellSpaced(c, f) && Supported(c, f) && Genuine(m)
    ensures FallsAfterWarmup(c, f, m, g) <==> DecayFalls(c, m, g)
  {
    if c.decayStyle == InverseSquareRoot {
      InverseFallsIff(c, f, m, g);
    } else {
      BlendFallsIff(c, f, m, g);
    }
  }

  lemma BlendFallsIff(c: Config, f: Fixed, m: Curves, g: GroupOptions)
    requires WellSpaced(c, f) && Supported(c, f) && Genuine(m) && c.decayStyle != InverseSquareRoot
    ensures FallsAfterWarmup(c, f, m, g) <==> c.decayStyle == ConstantLr || MinLr(c, g) <= MaxLr(c, g)
  {
    hide LrAt, Lerp, Level, Genuine;
    var minLr, maxLr := MinLr(c, g), MaxLr(c, g);
    if c.decayStyle == ConstantLr || minLr <= maxLr {
      forall i: int, j: int | AtLeast(c.warmupSteps, 0) <= i <= j
        ensures LrAt(c, f, m, g, i).Ok? && LrAt(c, f, m, g, j).Ok?
        ensures LrAt(c, f, m, g, j).value <= LrAt(c, f, m, g, i).value
      {
        LrAfterWarmup(c, f, m, g, i);
        LrAfterWarmup(c, f, m, g, j);
        LevelFalls(c, f, m, i, j);
        if c.decayStyle == ConstantLr {
          ConstantLevel(c, f, m, i);
          ConstantLevel(c, f, m, j);
        } else {
          LerpMono(minLr, maxLr, Level(c, f, m, j), Level(c, f, m, i));
        }
      }
    } else {
      var i, j := AtLeast(c.warmupSteps, 0), c.decaySteps + 1;
      LrAfterWarmup(c, f, m, g, i);
      LrAfterWarmup(c, f, m, g, j);
      LevelFalls(c, f, m, i, i);
      LevelGone(c, f, m);
      LerpAnti(minLr, maxLr, Level(c, f, m, j), Level(c, f, m, i));
      assert LrAt(c, f, m, g, i).value < LrAt(c, f, m, g, j).value;
    }
  }

  lemma ConstantLevel(c: Config, f: Fixed, m: Curves, n: int)
    requires c.decayStyle == ConstantLr
    ensures Level(c, f, m, n) == 1.0
  {
  }

  lemma LevelGone(c: Config, f: Fixed, m: Curves)
    requires c.decayStyle != ConstantLr && c.warmupSteps < c.decaySteps
    ensures Level(c, f, m, c.decaySteps + 1) == 0.0
  {
  }

  // ---------- Inverse square root ----------

  lemma RootRises(m: Curves, i: int, j: int)
    requires Genuine(m) && 0 < i < j
    ensures 0.0 < m.root(i) < m.root(j)
  {
    if m.root(j) <= m.root(i) {
      SquaresOrdered(m.root(j), m.root(i));
    }
  }

  lemma SquaresOrdered(x: real, y: real)
    requires 0.0 < x <= y
    ensures x * x <= y * y
  {
  }

  lemma RootOfOne(m: Curves)
    requires Genuine(m)
    ensures m.root(1) == 1.0
  {
    var x := m.root(1);
    if x < 1.0 {
      OneSide(x, 1.0);
    } else if x > 1.0 {
      OneSide(1.0, x);
    }
  }

  lemma OneSide(x: real, y: real)
    requires 0.0 < x < y
    ensures x * x < y * y
  {
    assert x * x < x * y;
    assert x * y < y * y;
  }

  lemma RootScaledOrder(maxLr: real, w: real, a: real, b: real)
    requires w > 0.0 && 0.0 < a < b
    ensures maxLr >= 0.0 ==> RootScaled(maxLr, w, b) <= RootScaled(maxLr, w, a)
    ensures maxLr < 0.0 ==> RootScaled(maxLr, w, a) < RootScaled(maxLr, w, b)
  {
    var p, ia, ib := maxLr * w, 1.0 / a, 1.0 / b;
    InverseStrict(a, b);
    assert RootScaled(maxLr, w, a) == p * ia && RootScaled(maxLr, w, b) == p * ib;
    SignOfProduct(maxLr, w);
    TimesOrder(p, ib, ia);
  }

  lemma SignOfProduct(x: real, w: real)
    requires w > 0.0
    ensures (x >= 0.0 ==> x * w >= 0.0) && (x < 0.0 ==> x * w < 0.0)
  {
  }

  lemma TimesOrder(p: real, x: real, y: real)
    requires x < y
    ensures p >= 0.0 ==> p * x <= p * y
    ensures p < 0.0 ==> p * y < p * x
  {
    var d := y - x;
    assert p * y == p * x + p * d;
    SignOfProduct(p, d);
  }

  lemma RootScaledSame(maxLr: real, w: real)
    requires w > 0.0
    ensures RootScaled(maxLr, w, w) == maxLr
  {
  }

  // The rate at step n of the decay, for a group.
  function InverseValue(c: Config, m: Curves, g: GroupOptions, n: int): real
    requires m.root(AtLeast(n, 1)) != 0.0
  {
    Larger(MinLr(c, g), RootScaled(MaxLr(c, g), m.root(AtLeast(c.warmupSteps, 1)), m.root(AtLeast(n, 1))))
  }

  lemma InverseAt(c: Config, f: Fixed, m: Curves, g: GroupOptions, n: int)
    requires Genuine(m) && c.decayStyle == InverseSquareRoot && n >= 0
    ensures m.root(AtLeast(n, 1)) > 0.0
    ensures n > c.warmupSteps || c.warmupSteps <= 0 ==>
      LrAt(c, f, m, g, n) == Ok(if n > c.decaySteps then MinLr(c, g) else InverseValue(c, m, g, n))
  {
    RootAtLeast(m, n);
    hide RootScaled, Genuine;
  }

  lemma InverseOrder(c: Config, m: Curves, g: GroupOptions, i: int, j: int)
    requires Genuine(m) && 0 <= i <= j
    ensures m.root(AtLeast(i, 1)) > 0.0 && m.root(AtLeast(j, 1)) > 0.0
    ensures MaxLr(c, g) >= 0.0 ==> InverseValue(c, m, g, j) <= InverseValue(c, m, g, i)
    ensures MaxLr(c, g) < 0.0 ==> InverseValue(c, m, g, i) <= InverseValue(c, m, g, j)
    ensures AtLeast(i, 1) == AtLeast(j, 1) ==> InverseValue(c, m, g, i) == InverseValue(c, m, g, j)
  {
    RootAtLeast(m, i);
    RootAtLeast(m, j);
    RootAtLeast(m, c.warmupSteps);
    hide RootScaled;
    if AtLeast(i, 1) < AtLeast(j, 1) {
      RootRises(m, AtLeast(i, 1), AtLeast(j, 1));
      RootScaledOrder(MaxLr(c, g), m.root(AtLeast(c.warmupSteps, 1)), m.root(AtLeast(i, 1)), m.root(AtLeast(j, 1)));
    }
  }

  // At the end of warmup, or at step 0 or 1 without one, the root factor is one.
  lemma InverseFirst(c: Config, m: Curves, g: GroupOptions, n: int)
    requires Genuine(m) && AtLeast(n, 1) == AtLeast(c.warmupSteps, 1)
    ensures m.root(AtLeast(n, 1)) > 0.0
    ensures InverseValue(c, m, g, n) == Larger(MinLr(c, g), MaxLr(c, g))
  {
    RootAtLeast(m, n);
    RootScaledSame(MaxLr(c, g), m.root(AtLeast(n, 1)));
    hide RootScaled;
  }

  lemma InverseFallsIff(c: Config, f: Fixed, m: Curves, g: GroupOptions)
    requires WellSpaced(c, f) && Genuine(m) && c.decayStyle == InverseSquareRoot
    ensures FallsAfterWarmup(c, f, m, g) <==> DecayFalls(c, m, g)
  {
    hide LrAt, RootScaled, InverseValue, Genuine;
    if DecayFalls(c, m, g) {
      forall i: int, j: int | AtLeast(c.warmupSteps, 0) <= i <= j
        ensures LrAt(c, f, m, g, i).Ok? && LrAt(c, f, m, g, j).Ok?
        ensures LrAt(c, f, m, g, j).value <= LrAt(c, f, m, g, i).value
      {
        InverseFallsAt(c, f, m, g, i, j);
      }
    } else {
      InverseGrows(c, f, m, g);
    }
  }

  lemma InverseLow(c: Config, m: Curves, g: GroupOptions, n: int)
    requires m.root(AtLeast(n, 1)) != 0.0
    ensures InverseValue(c, m, g, n) >= MinLr(c, g)
  {
    hide RootScaled;
  }

  lemma InverseFallsAt(c: Config, f: Fixed, m: Curves, g: GroupOptions, i: int, j: int)
    requires WellSpaced(c, f) && Genuine(m) && c.decayStyle == InverseSquareRoot && DecayFalls(c, m, g)
    requires AtLeast(c.warmupSteps, 0) <= i <= j
    ensures LrAt(c, f, m, g, i).Ok? && LrAt(c, f, m, g, j).Ok?
    ensures LrAt(c, f, m, g, j).value <= LrAt(c, f, m, g, i).value
  {
    InverseAt(c, f, m, g, i);
    InverseAt(c, f, m, g, j);
    InverseLow(c, m, g, i);
    InverseOrder(c, m, g, i, j);
    if c.warmupSteps > 0 {
      LrInWarmup(c, f, m, g, c.warmupSteps);
      InverseFirst(c, m, g, c.warmupSteps);
      InverseOrder(c, m, g, c.warmupSteps, j);
    } else if MaxLr(c, g) < 0.0 && j <= c.decaySteps {
      InverseFlat(c, m, g, i, j);
    }
    hide LrAt, RootScaled, InverseValue, Genuine;
  }

  // A negative maximum whose growing factor stays below the minimum, or has no room to grow.
  lemma InverseFlat(c: Config, m: Curves, g: GroupOptions, i: int, j: int)
    requires Genuine(m) && c.decayStyle == InverseSquareRoot && DecayFalls(c, m, g) && c.decaySteps > 0
    requires c.warmupSteps <= 0 && MaxLr(c, g) < 0.0 && 0 <= i <= j <= c.decaySteps
    ensures m.root(AtLeast(i, 1)) > 0.0 && m.root(AtLeast(j, 1)) > 0.0
    ensures InverseValue(c, m, g, j) <= InverseValue(c, m, g, i)
  {
    InverseOrder(c, m, g, i, j);
    InverseOrder(c, m, g, j, c.decaySteps);
    InverseLow(c, m, g, i);
    RootOfOne(m);
    hide Genuine;
    if c.decaySteps > 1 {
      assert AtLeast(c.warmupSteps, 1) == 1 && AtLeast(c.decaySteps, 1) == c.decaySteps;
      assert InverseValue(c, m, g, c.decaySteps) == MinLr(c, g);
    }
  }

  // Where the condition fails, some later rate is larger.
  lemma InverseGrows(c: Config, f: Fixed, m: Curves, g: GroupOptions)
    requires WellSpaced(c, f) && Genuine(m) && c.decayStyle == InverseSquareRoot && !DecayFalls(c, m, g)
    ensures !FallsAfterWarmup(c, f, m, g)
  {
    var w, d := c.warmupSteps, c.decaySteps;
    if w > 0 {
      LrInWarmup(c, f, m, g, w);
      InverseAt(c, f, m, g, w + 1);
      InverseAt(c, f, m, g, d + 1);
      if MaxLr(c, g) < 0.0 && MinLr(c, g) <= MaxLr(c, g) {
        RootRises(m, w, w + 1);
        RootScaledOrder(MaxLr(c, g), m.root(w), m.root(w), m.root(w + 1));
        RootScaledSame(MaxLr(c, g), m.root(w));
        hide LrAt, RootScaled, Genuine;
        assert LrAt(c, f, m, g, w).value < LrAt(c, f, m, g, w + 1).value;
      } else {
        hide LrAt, RootScaled, Genuine;
        assert LrAt(c, f, m, g, w).value < LrAt(c, f, m, g, d + 1).value;
      }
    } else {
      InverseAt(c, f, m, g, 0);
      InverseAt(c, f, m, g, d);
      RootOfOne(m);
      RootRises(m, 1, d);
      RootScaledOrder(MaxLr(c, g), 1.0, 1.0, m.root(d));
      RootScaledSame(MaxLr(c, g), 1.0);
      hide LrAt, RootScaled, Genuine;
      assert LrAt(c, f, m, g, 0).value < LrAt(c, f, m, g, d).value;
    }
  }

  // ---------- Bounds ----------

  lemma LrBounds(c: Config, f: Fixed, m: Curves, g: GroupOptions, n: int)
    requires WellSpaced(c, f) && Supported(c, f) && Genuine(m) && n >= 0
    requires f.initLr <= MaxLr(c, g) && MinLr(c, g) <= MaxLr(c, g)
    requires c.decayStyle == InverseSquareRoot ==> 0.0 <= MaxLr(c, g)
    ensures LrAt(c, f, m, g, n).Ok?
    ensures LrAt(c, f, m, g, n).value <= MaxLr(c, g)
    ensures LrAt(c, f, m, g, n).value >= if n < c.warmupSteps then f.initLr else MinLr(c, g)
  {
    var minLr, maxLr, w := MinLr(c, g), MaxLr(c, g), c.warmupSteps;
    if n <= w && w > 0 {
      LrInWarmup(c, f, m, g, n);
      hide LrAt, Lerp, Ratio, Genuine;
      RatioWithin(n, w);
      LerpEnds(f.initLr, maxLr);
      LerpMono(f.initLr, maxLr, 0.0, Ratio(n, w));
      LerpMono(f.initLr, maxLr, Ratio(n, w), 1.0);
    } else if c.decayStyle == InverseSquareRoot {
      InverseAt(c, f, m, g, n);
      InverseLow(c, m, g, n);
      InverseFirst(c, m, g, AtLeast(w, 0));
      InverseOrder(c, m, g, AtLeast(w, 0), n);
      hide LrAt, RootScaled, InverseValue, Genuine;
    } else {
      LrAfterWarmup(c, f, m, g, n);
      LevelFalls(c, f, m, n, n);
      hide LrAt, Lerp, Level, Genuine;
      LerpEnds(minLr, maxLr);
      LerpMono(minLr, maxLr, 0.0, Level(c, f, m, n));
      LerpMono(minLr, maxLr, Level(c, f, m, n), 1.0);
    }
  }

  // ---------- Weight decay ----------

  function StartWd(c: Config, g: GroupOptions): real {
    Get(g.startWd, c.startWd)
  }

  function EndWd(c: Config, g: GroupOptions): real {
    Get(g.endWd, c.endWd)
  }

  function WdAt(c: Config, m: Curves, g: GroupOptions, n: int): Result<real, SchedulerError> {
    if n > c.wdIncrSteps then Ok(EndWd(c, g))
    else if c.wdIncrStyle == ConstantWd then
      if StartWd(c, g) == EndWd(c, g) then Ok(EndWd(c, g)) else Err(AssertionFailed)
    else if c.wdIncrSteps == 0 then Err(DivisionByZero)
    else
      var ratio := Ratio(n, c.wdIncrSteps);
      if !(0.0 <= ratio <= 1.0) then Err(AssertionFailed)
      else if c.wdIncrStyle == LinearWd then Ok(Lerp(StartWd(c, g), EndWd(c, g), ratio))
      else if c.wdIncrStyle == CosineWd then Ok(Lerp(StartWd(c, g), EndWd(c, g), m.cosine(1.0 - ratio)))
      else Err(Unsupported)
  }

  // Failing means a constant style with different ends, or another one over no steps or without support.
  lemma WdFailsIff(c: Config, m: Curves, g: GroupOptions, n: int)
    requires n >= 0
    ensures WdAt(c, m, g, n).Err? <==>
            n <= c.wdIncrSteps
            && (if c.wdIncrStyle == ConstantWd then StartWd(c, g) != EndWd(c, g)
                else c.wdIncrSteps == 0 || c.wdIncrStyle == OtherWd)
  {
    hide Ratio;
    if n <= c.wdIncrSteps && c.wdIncrSteps > 0 {
      RatioWithin(n, c.wdIncrSteps);
    }
  }

  // The increment is still going on.
  predicate Ramps(c: Config, n: int) {
    n <= c.wdIncrSteps && c.wdIncrStyle != ConstantWd
  }

  // How far the increment has come.
  function WdLevel(c: Config, m: Curves, n: int): real {
    if !Ramps(c, n) || c.wdIncrSteps == 0 then 1.0
    else if c.wdIncrStyle == CosineWd then m.cosine(1.0 - Ratio(n, c.wdIncrSteps))
    else Ratio(n, c.wdIncrSteps)
  }

  lemma WdIsLerp(c: Config, m: Curves, g: GroupOptions, n: int)
    requires WdAt(c, m, g, n).Ok?
    ensures WdAt(c, m, g, n).value == Lerp(StartWd(c, g), EndWd(c, g), WdLevel(c, m, n))
  {
    LerpEnds(StartWd(c, g), EndWd(c, g));
    hide Ratio, Lerp;
  }

  lemma WdLevelRises(c: Config, m: Curves, i: int, j: int)
    requires Genuine(m) && 0 <= i <= j
    ensures 0.0 <= WdLevel(c, m, i) <= WdLevel(c, m, j) <= 1.0
  {
    hide Ratio;
    if Ramps(c, i) && c.wdIncrSteps > 0 {
      RatioWithin(i, c.wdIncrSteps);
      FallsWithin(m.cosine, 1.0 - Ratio(i, c.wdIncrSteps));
      if Ramps(c, j) {
        RatioWithin(j, c.wdIncrSteps);
        RatioMono(i, j, c.wdIncrSteps);
        FallsWithin(m.cosine, 1.0 - Ratio(j, c.wdIncrSteps));
      }
    }
  }

  // The weight decay climbs from its start to its end value.
  lemma WdRises(c: Config, m: Curves, g: GroupOptions, i: int, j: int)
    requires Genuine(m) && 0 <= i <= j && WdAt(c, m, g, i).Ok? && WdAt(c, m, g, j).Ok?
    requires StartWd(c, g) <= EndWd(c, g)
    ensures StartWd(c, g) <= WdAt(c, m, g, i).value <= WdAt(c, m, g, j).value <= EndWd(c, g)
  {
    var s, e := StartWd(c, g), EndWd(c, g);
    WdIsLerp(c, m, g, i);
    WdIsLerp(c, m, g, j);
    WdLevelRises(c, m, i, j);
    hide Lerp, WdLevel, WdAt, Genuine;
    LerpEnds(s, e);
    LerpMono(s, e, 0.0, WdLevel(c, m, i));
    LerpMono(s, e, WdLevel(c, m, i), WdLevel(c, m, j));
    LerpMono(s, e, WdLevel(c, m, j), 1.0);
  }
}
