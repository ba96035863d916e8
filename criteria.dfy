/** The three per-family rules of the evaluator (`ThermometerCriteria`,
    `HumidityCriteria`, `MonoxideCriteria`). Readings are reals; the square
    root of the sample variance is never taken, because `sqrt(v) < t` is
    decided exactly by `t > 0 && v < t * t`. */
module Criteria {
  import opened Wrappers

  /** The five thresholds of the configuration module. */
  datatype Config = Config(
    allowedMeanDiff: real,
    ultraPrecisionStdDev: real,
    veryPrecisionStdDev: real,
    humidityAllowedDiff: real,
    monoxideAllowedDiff: real)

  datatype Verdict = InsufficientData | UltraPrecise | VeryPrecise | Precise | Keep | Discard
  {
    /** The string the evaluator yields for the verdict. */
    function Text(): string {
      match this
      case InsufficientData => "insufficient data"
      case UltraPrecise => "ultra precise"
      case VeryPrecise => "very precise"
      case Precise => "precise"
      case Keep => "keep"
      case Discard => "discard"
    }
  }

  /** The verdicts a thermometer can get. */
  predicate IsThermometerVerdict(v: Verdict) {
    v == InsufficientData || v == UltraPrecise || v == VeryPrecise || v == Precise
  }

  /** Raised by the thermometer rule for a single reading: the sample
      variance divides by `len - 1 == 0`. */
  datatype CriterionError = DivisionByZero

  function Abs(x: real): real {
    if x < 0.0 then -x else x
  }

  // ---------------------------------------------------------------------------
  // Sums, mean and sample variance

  /** The sum of f(v) over the values, in order. */
  function SumOf(vs: seq<real>, f: real -> real): real {
    if vs == [] then 0.0 else f(vs[0]) + SumOf(vs[1..], f)
  }

  function Identity(x: real): real {
    x
  }

  /** x |-> (x - m)^2 */
  function SquaredDistanceFrom(m: real): real -> real {
    x => (x - m) * (x - m)
  }

  function Sum(vs: seq<real>): real {
    SumOf(vs, Identity)
  }

  /** `sum(values) / len(values)`. */
  function Mean(vs: seq<real>): real
    requires vs != []
  {
    Sum(vs) / |vs| as real
  }

  /** `sum((v - mean) ** 2 for v in values) / (len(values) - 1)`. */
  function Variance(vs: seq<real>): real
    requires |vs| >= 2
  {
    SumOf(vs, SquaredDistanceFrom(Mean(vs))) / (|vs| - 1) as real
  }

  /** A sum does not depend on where one of its terms sits. */
  lemma {:induction false} SumOfRemove(vs: seq<real>, i: nat, f: real -> real)
    requires i < |vs|
    ensures SumOf(vs, f) == f(vs[i]) + SumOf(vs[..i] + vs[i + 1..], f)
  {
    if i > 0 {
      SumOfRemove(vs[1..], i - 1, f);
      assert vs[1..][..i - 1] + vs[1..][i..] == (vs[..i] + vs[i + 1..])[1..];
    } else {
      assert vs[..i] + vs[i + 1..] == vs[1..];
    }
  }

  /** Removing position i takes one occurrence of its value out of the multiset. */
  lemma MultisetRemove(ws: seq<real>, i: nat)
    requires i < |ws|
    ensures multiset(ws[..i] + ws[i + 1..]) == multiset(ws) - multiset{ws[i]}
  {
    assert ws == ws[..i] + [ws[i]] + ws[i + 1..];
    assert multiset(ws) == multiset(ws[..i]) + multiset{ws[i]} + multiset(ws[i + 1..]);
  }

  /** The inductive step of SumOfPermutation: matching vs[0] with ws[i]. */
  lemma SumOfMatched(vs: seq<real>, ws: seq<real>, i: nat, f: real -> real)
    requires vs != [] && i < |ws| && ws[i] == vs[0]
    requires SumOf(vs[1..], f) == SumOf(ws[..i] + ws[i + 1..], f)
    ensures SumOf(vs, f) == SumOf(ws, f)
  {
    SumOfRemove(ws, i, f);
  }

  /** The first position of x in ws. */
  function FindIndex(ws: seq<real>, x: real): (i: nat)
    requires x in ws
    ensures i < |ws| && ws[i] == x
  {
    if ws[0] == x then 0 else 1 + FindIndex(ws[1..], x)
  }

  /** Matching vs[0] with ws[i] leaves two permutations of each other. */
  lemma PermutationRest(vs: seq<real>, ws: seq<real>, i: nat)
    requires multiset(vs) == multiset(ws) && vs != [] && i < |ws| && ws[i] == vs[0]
    ensures multiset(vs[1..]) == multiset(ws[..i] + ws[i + 1..])
  {
    calc {
      multiset(vs[1..]);
      { assert vs[..0] + vs[1..] == vs[1..]; MultisetRemove(vs, 0); }
      multiset(vs) - multiset{vs[0]};
      multiset(ws) - multiset{ws[i]};
      { MultisetRemove(ws, i); }
      multiset(ws[..i] + ws[i + 1..]);
    }
  }

  /** A sum does not depend on the order of its terms. */
  lemma {:induction false} SumOfPermutation(vs: seq<real>, ws: seq<real>, f: real -> real)
    requires multiset(vs) == multiset(ws)
    ensures SumOf(vs, f) == SumOf(ws, f)
    decreases |vs|
  {
    if vs != [] {
      assert vs[0] in multiset(ws);
      var i := FindIndex(ws, vs[0]);
      PermutationRest(vs, ws, i);
      SumOfPermutation(vs[1..], ws[..i] + ws[i + 1..], f);
      SumOfMatched(vs, ws, i, f);
    } else {
      assert |ws| == |multiset(ws)| == 0;
    }
  }

  /** Mean and sample variance do not depend on the order of the readings. */
  lemma StatisticsPermutation(vs: seq<real>, ws: seq<real>)
    requires vs != [] && multiset(vs) == multiset(ws)
    ensures |ws| == |vs| && Mean(ws) == Mean(vs)
    ensures |vs| >= 2 ==> Variance(ws) == Variance(vs)
  {
    assert |vs| == |multiset(vs)| == |multiset(ws)| == |ws|;
    SumOfPermutation(vs, ws, Identity);
    SumOfPermutation(vs, ws, SquaredDistanceFrom(Mean(vs)));
  }

  // ---------------------------------------------------------------------------
  // Standard deviation against a threshold

  /** `sqrt(variance) < t`, decided without the square root. */
  predicate StdDevBelow(variance: real, t: real) {
    t > 0.0 && variance < t * t
  }

  lemma MultiplyMonotonic(a: real, b: real, c: real)
    requires a >= 0.0 && b <= c
    ensures a * b <= a * c
  {
    assert a * c - a * b == a * (c - b);
  }

  lemma MultiplyStrict(a: real, b: real, c: real)
    requires a > 0.0 && b < c
    ensures a * b < a * c
  {
    assert a * c - a * b == a * (c - b);
  }

  /** For the non-negative square root `std` of a variance, `std < t` holds
      exactly when `StdDevBelow(variance, t)` does, whatever the sign of t. */
  lemma StdDevComparison(std: real, variance: real, t: real)
    requires std >= 0.0 && std * std == variance
    ensures std < t <==> StdDevBelow(variance, t)
  {
    if std < t {
      calc {
        variance;
      ==
        std * std;
      <=  { MultiplyMonotonic(std, std, t); }
        std * t;
      ==
        t * std;
      <   { MultiplyStrict(t, std, t); }
        t * t;
      }
    } else if t > 0.0 {
      MultiplyMonotonic(t, t, std);
      MultiplyMonotonic(std, t, std);
    }
  }

  /** A sum of squares is never negative, so the variance has a square root. */
  lemma {:induction false} SquaresNonNegative(vs: seq<real>, m: real)
    ensures SumOf(vs, SquaredDistanceFrom(m)) >= 0.0
  {
    if vs != [] {
      SquaresNonNegative(vs[1..], m);
      var d := vs[0] - m;
      assert SquaredDistanceFrom(m)(vs[0]) == d * d >= 0.0;
    }
  }

  lemma VarianceNonNegative(vs: seq<real>)
    requires |vs| >= 2
    ensures Variance(vs) >= 0.0
  {
    SquaresNonNegative(vs, Mean(vs));
  }

  // ---------------------------------------------------------------------------
  // The three rules

  /** `ThermometerCriteria.evaluate`: no readings give "insufficient data", one
      reading divides by zero; otherwise a mean within tolerance is graded by
      the spread, and a mean outside it is "precise". */
  function Thermometer(vs: seq<real>, reference: real, cfg: Config): (r: Result<Verdict, CriterionError>)
    ensures r.Err? <==> |vs| == 1
    ensures r.Ok? ==> IsThermometerVerdict(r.value)
    ensures r == Ok(InsufficientData) <==> vs == []
  {
    if vs == [] then Ok(InsufficientData)
    else if |vs| == 1 then Err(DivisionByZero)
    else if Abs(Mean(vs) - reference) <= cfg.allowedMeanDiff then
      var variance := Variance(vs);
      if StdDevBelow(variance, cfg.ultraPrecisionStdDev) then Ok(UltraPrecise)
      else if StdDevBelow(variance, cfg.veryPrecisionStdDev) then Ok(VeryPrecise)
      else Ok(Precise)
    else Ok(Precise)
  }

  /** A mean further than the allowed difference from the reference gives
      "precise", whatever the spread. */
  lemma ThermometerFarMean(vs: seq<real>, reference: real, cfg: Config)
    requires |vs| >= 2 && Abs(Mean(vs) - reference) > cfg.allowedMeanDiff
    ensures Thermometer(vs, reference, cfg) == Ok(Precise)
  {
  }

  /** Within the allowed mean difference the tiers are decided by the
      standard deviation `std`: below the ultra threshold "ultra precise",
      else below the very threshold "very precise", else "precise". */
  lemma ThermometerTiers(vs: seq<real>, reference: real, cfg: Config, std: real)
    requires |vs| >= 2 && Abs(Mean(vs) - reference) <= cfg.allowedMeanDiff
    requires std >= 0.0 && std * std == Variance(vs)
    ensures std < cfg.ultraPrecisionStdDev ==> Thermometer(vs, reference, cfg) == Ok(UltraPrecise)
    ensures cfg.ultraPrecisionStdDev <= std < cfg.veryPrecisionStdDev ==> Thermometer(vs, reference, cfg) == Ok(VeryPrecise)
    ensures cfg.ultraPrecisionStdDev <= std && cfg.veryPrecisionStdDev <= std ==> Thermometer(vs, reference, cfg) == Ok(Precise)
  {
    StdDevComparison(std, Variance(vs), cfg.ultraPrecisionStdDev);
    StdDevComparison(std, Variance(vs), cfg.veryPrecisionStdDev);
  }

  /** The thermometer verdict does not depend on the order of the readings. */
  lemma ThermometerPermutation(vs: seq<real>, ws: seq<real>, reference: real, cfg: Config)
    requires multiset(vs) == multiset(ws)
    ensures Thermometer(vs, reference, cfg) == Thermometer(ws, reference, cfg)
  {
    if vs != [] {
      StatisticsPermutation(vs, ws);
    } else {
      assert |ws| == |multiset(ws)| == 0;
    }
  }

  /** The early-return scan of `HumidityCriteria` and `MonoxideCriteria`: is
      some reading, looked at in order, further than `allowed` from the
      reference? */
  predicate AnyOutside(vs: seq<real>, reference: real, allowed: real) {
    vs != [] && (Abs(vs[0] - reference) > allowed || AnyOutside(vs[1..], reference, allowed))
  }

  lemma {:induction false} AnyOutsideExists(vs: seq<real>, reference: real, allowed: real)
    ensures AnyOutside(vs, reference, allowed) <==> exists i :: 0 <= i < |vs| && Abs(vs[i] - reference) > allowed
  {
    if vs != [] {
      AnyOutsideExists(vs[1..], reference, allowed);
      if AnyOutside(vs[1..], reference, allowed) {
        var i :| 0 <= i < |vs[1..]| && Abs(vs[1..][i] - reference) > allowed;
        assert vs[i + 1] == vs[1..][i];
      }
      if exists i :: 0 <= i < |vs| && Abs(vs[i] - reference) > allowed {
        var i :| 0 <= i < |vs| && Abs(vs[i] - reference) > allowed;
        if i > 0 {
          assert vs[1..][i - 1] == vs[i];
        }
      }
    }
  }

  /** The shared rule of humidity and monoxide sensors. */
  function Tolerance(vs: seq<real>, reference: real, allowed: real): (v: Verdict)
    ensures vs == [] <==> v == InsufficientData
    ensures vs != [] ==> v == Keep || v == Discard
  {
    if vs == [] then InsufficientData
    else if AnyOutside(vs, reference, allowed) then Discard
    else Keep
  }

  /** On readings, "discard" exactly when some reading is further than the
      allowed difference from the reference, and "keep" exactly when none is. */
  lemma ToleranceDiscard(vs: seq<real>, reference: real, allowed: real)
    requires vs != []
    ensures Tolerance(vs, reference, allowed) == Discard <==> exists i :: 0 <= i < |vs| && Abs(vs[i] - reference) > allowed
    ensures Tolerance(vs, reference, allowed) == Keep <==> forall i :: 0 <= i < |vs| ==> Abs(vs[i] - reference) <= allowed
  {
    AnyOutsideExists(vs, reference, allowed);
  }

  /** The tolerance verdict does not depend on the order of the readings. */
  lemma TolerancePermutation(vs: seq<real>, ws: seq<real>, reference: real, allowed: real)
    requires multiset(vs) == multiset(ws)
    ensures Tolerance(vs, reference, allowed) == Tolerance(ws, reference, allowed)
  {
    assert |vs| == |multiset(vs)| == |multiset(ws)| == |ws|;
    AnyOutsideExists(vs, reference, allowed);
    AnyOutsideExists(ws, reference, allowed);
    if exists i :: 0 <= i < |vs| && Abs(vs[i] - reference) > allowed {
      var i :| 0 <= i < |vs| && Abs(vs[i] - reference) > allowed;
      assert vs[i] in multiset(ws);
      var j :| 0 <= j < |ws| && ws[j] == vs[i];
    }
    if exists j :: 0 <= j < |ws| && Abs(ws[j] - reference) > allowed {
      var j :| 0 <= j < |ws| && Abs(ws[j] - reference) > allowed;
      assert ws[j] in multiset(vs);
      var i :| 0 <= i < |vs| && vs[i] == ws[j];
    }
  }

  /** `HumidityCriteria.evaluate`. */
  function Humidity(vs: seq<real>, reference: real, cfg: Config): Verdict {
    Tolerance(vs, reference, cfg.humidityAllowedDiff)
  }

  /** `MonoxideCriteria.evaluate`. */
  function Monoxide(vs: seq<real>, reference: real, cfg: Config): Verdict {
    Tolerance(vs, reference, cfg.monoxideAllowedDiff)
  }

  /** Every rule gives "insufficient data" for no readings. */
  lemma NoReadings(reference: real, cfg: Config)
    ensures Thermometer([], reference, cfg) == Ok(InsufficientData)
    ensures Humidity([], reference, cfg) == InsufficientData
    ensures Monoxide([], reference, cfg) == InsufficientData
  {
  }
}
