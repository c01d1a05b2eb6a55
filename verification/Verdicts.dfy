/**
 * The verdict on one row told from the numbers that go in: when it fails, when it warns, how
 * large its score is, and which direction, reason and confidence are reported.
 *
 * A budget or a tolerance is the largest of several amounts, so "more than the budget" is
 * stated as "more than every amount".
 */
module Verdicts {
  import opened Basics
  import opened Statistics
  import opened Gate
  import opened GateLaws

  /** What a change has to exceed. */
  function Amounts(p: Policy, baseline: real, abs: real, ratio: real): seq<real> {
    [abs, baseline * (ratio - 1.0), p.noiseFloor, 0.000000001]
  }

  /** What a value may scatter around a centre. */
  function Tolerances(p: Policy, centre: real, mad: real, iqr: real): seq<real> {
    [p.noiseFloor, p.toleranceAbs, if centre > 0.0 then p.toleranceRatio * centre else 0.0, 3.0 * mad, 1.5 * iqr]
  }

  ghost predicate Largest(x: real, s: seq<real>) {
    x in s && forall y :: y in s ==> y <= x
  }

  lemma {:induction false} BudgetIsLargest(a: Comparison, abs: real, ratio: real)
    requires a.baseline.value > 0.0
    ensures Largest(a.BudgetOf(abs, ratio), Amounts(a.policy, a.baseline.value, abs, ratio))
  {
    var s := Amounts(a.policy, a.baseline.value, abs, ratio);
    var x := a.BudgetOf(abs, ratio);
    assert s[0] in s && s[1] in s && s[2] in s && s[3] in s;
    assert x == s[0] || x == s[1] || x == s[2] || x == s[3];
  }

  lemma {:induction false} BandIsLargest(p: Policy, centre: real, mad: real, iqr: real)
    ensures Largest(Band(p, centre, mad, iqr), Tolerances(p, centre, mad, iqr))
  {
    var s, x := Tolerances(p, centre, mad, iqr), Band(p, centre, mad, iqr);
    assert p.toleranceRatio * centre == centre * p.toleranceRatio;
    assert s[0] in s && s[1] in s && s[2] in s && s[3] in s && s[4] in s;
    assert x == s[0] || x == s[1] || x == s[2] || x == s[3] || x == s[4];
  }

  lemma {:induction false} AboveLargest(x: real, m: real, s: seq<real>)
    requires Largest(m, s)
    ensures x > m <==> forall y :: y in s ==> x > y
  {
  }

  // ---------------------------------------------------------------- paired rows

  function PairedTolerances(p: Policy, current: Stats, baseline: Stats): seq<real>
    requires current.deltaMedian.Some?
  {
    var m := current.deltaMedian.value;
    Tolerances(p, baseline.value, OrElse(current.deltaMad, 0.0), OrElse(current.deltaP75, m) - OrElse(current.deltaP25, m))
  }

  /** The pairs show a slowdown of more than every amount: by the evidence quantile of the deltas, or by their median less every tolerance. */
  ghost predicate PairsExceed(p: Policy, current: Stats, baseline: Stats, amounts: seq<real>)
    requires current.deltaMedian.Some?
  {
    if current.deltaSamples != [] then
      var q := Percentile(current.deltaSamples, p.evidenceQuantile);
      q.Some? && forall y :: y in amounts ==> q.value > y
    else
      forall t, y :: t in PairedTolerances(p, current, baseline) && y in amounts ==> current.deltaMedian.value - t > y
  }

  /** Enough samples and pairs, with a delta, from an enabled gate with a baseline. */
  predicate EnoughPairs(p: Policy, current: Stats, baseline: Stats) {
    && p.enabled && baseline.value > 0.0
    && current.samples >= p.minCurrentSamples && current.pairedSamples >= p.minPairedSamples
    && current.deltaMedian.Some?
  }

  lemma {:induction false} EvidenceExceeds(a: Comparison, abs: real, ratio: real)
    requires a.policy.mode == Paired && a.baseline.value > 0.0 && a.current.deltaMedian.Some?
    ensures a.EvidenceLower() > a.BudgetOf(abs, ratio) <==>
            PairsExceed(a.policy, a.current, a.baseline, Amounts(a.policy, a.baseline.value, abs, ratio))
  {
    hide Band, Amounts, Tolerances, Percentile;
    var amounts := Amounts(a.policy, a.baseline.value, abs, ratio);
    BudgetIsLargest(a, abs, ratio);
    AboveLargest(a.EvidenceLower(), a.BudgetOf(abs, ratio), amounts);
    if a.current.deltaSamples != [] {
      ShiftLaws(a.current.deltaSamples, 0.0);
    } else {
      var m := a.current.deltaMedian.value;
      var tolerances := PairedTolerances(a.policy, a.current, a.baseline);
      BandIsLargest(a.policy, a.baseline.value, OrElse(a.current.deltaMad, 0.0), OrElse(a.current.deltaP75, m) - OrElse(a.current.deltaP25, m));
      assert Largest(a.PairedTolerance(), tolerances) && a.EvidenceLower() == m - a.PairedTolerance();
    }
  }

  /**
   * The evidence interval of a paired row: from the evidence quantile of the deltas to the opposite one, or around
   * the median delta by the largest tolerance.
   */
  lemma {:induction false} EvidenceInterval(a: Comparison)
    requires a.policy.mode == Paired && a.current.deltaMedian.Some?
    ensures var deltas, q := a.current.deltaSamples, a.policy.evidenceQuantile;
            if deltas != [] then Percentile(deltas, q) == Some(a.EvidenceLower()) && Percentile(deltas, 1.0 - q) == Some(a.EvidenceUpper())
            else
              exists t :: Largest(t, PairedTolerances(a.policy, a.current, a.baseline))
                          && a.EvidenceLower() == a.current.deltaMedian.value - t && a.EvidenceUpper() == a.current.deltaMedian.value + t
  {
    hide Band, Tolerances, Percentile;
    if a.current.deltaSamples != [] {
      ShiftLaws(a.current.deltaSamples, 0.0);
    } else {
      var m := a.current.deltaMedian.value;
      BandIsLargest(a.policy, a.baseline.value, OrElse(a.current.deltaMad, 0.0), OrElse(a.current.deltaP75, m) - OrElse(a.current.deltaP25, m));
      assert Largest(a.PairedTolerance(), PairedTolerances(a.policy, a.current, a.baseline));
    }
  }

  /** When a paired row fails, warns, and is unknown; in every other case it passes. */
  lemma {:induction false} PairedStatus(a: Comparison)
    requires a.policy.mode == Paired
    ensures var p, cur, base := a.policy, a.current, a.baseline;
            var counts := EnoughPairs(p, cur, base) && (cur.value - base.value > p.noiseFloor || base.value - cur.value > p.noiseFloor);
            var fails := counts && PairsExceed(p, cur, base, Amounts(p, base.value, p.failAbs, p.failRatio));
            var warns := counts && PairsExceed(p, cur, base, Amounts(p, base.value, p.warnAbs, p.warnRatio));
            && (a.StatusOf() == Fail <==> fails)
            && (a.StatusOf() == Warn <==> warns && !fails)
            && (a.StatusOf() == Unknown <==> base.value <= 0.0)
  {
    hide PairsExceed, Percentile, Band, Amounts;
    if a.baseline.value > 0.0 && a.current.deltaMedian.Some? {
      EvidenceExceeds(a, a.policy.failAbs, a.policy.failRatio);
      EvidenceExceeds(a, a.policy.warnAbs, a.policy.warnRatio);
    }
  }

  /** The point of the interval that is nearest to zero. */
  predicate NearestToZero(x: real, lower: real, upper: real) {
    lower <= x <= upper && (x > 0.0 ==> x == lower) && (x < 0.0 ==> x == upper)
  }

  /**
   * The score of a paired row, in warn budgets: no change within the noise floor, and else the point of the evidence
   * interval that is nearest to zero, unless median and interval contradict each other.
   */
  lemma {:induction false} PairedImpact(a: Comparison)
    requires a.policy.mode == Paired && a.policy.enabled && a.baseline.value > 0.0
    requires a.current.deltaMedian.Some? && OwnSummary(a.current) && a.policy.evidenceQuantile <= 0.5 && 0.0 <= a.policy.toleranceRatio
    ensures a.Impact().Some?
    ensures var change, m := ScoredChange(a), a.current.deltaMedian.value;
            if -a.policy.noiseFloor <= m <= a.policy.noiseFloor || a.EvidenceUpper() < 0.0 < m then change == 0.0
            else NearestToZero(change, a.EvidenceLower(), a.EvidenceUpper())
  {
    PairedEvidence(a);
    PairedScore(a);
    hide Comparison.EvidenceLower, Comparison.EvidenceUpper, Comparison.WarnBudget, Comparison.Impact, ScoredChange;
    var lower, upper, m := a.EvidenceLower(), a.EvidenceUpper(), a.current.deltaMedian.value;
    if lower <= 0.0 <= upper || Abs(m) <= a.policy.noiseFloor {
      NoScore(a);
    } else if m > 0.0 {
      ScoreOf(a, Max(0.0, lower));
    } else {
      ScoreOf(a, -Max(0.0, -upper));
    }
  }

  lemma {:induction false} PairedScore(a: Comparison)
    requires a.policy.mode == Paired && a.policy.enabled && a.baseline.value > 0.0 && a.current.deltaMedian.Some?
    ensures var lower, upper, m := a.EvidenceLower(), a.EvidenceUpper(), a.current.deltaMedian.value;
            a.Impact() == Some(
              if lower <= 0.0 <= upper || Abs(m) <= a.policy.noiseFloor then 0.0
              else if m > 0.0 then Max(0.0, lower) / a.WarnBudget()
              else -(Max(0.0, -upper) / a.WarnBudget()))
  {
    hide Comparison.EvidenceLower, Comparison.EvidenceUpper, Comparison.WarnBudget, Band;
  }

  lemma WarnBudgetIsPositive(a: Comparison)
    ensures a.WarnBudget() > 0.0 && a.FailBudget() > 0.0
  {
  }

  /** A score in the unit of the measurement. */
  function ScoredChange(a: Comparison): real
    requires a.Impact().Some?
  {
    a.Impact().value * a.WarnBudget()
  }

  lemma ScoreOf(a: Comparison, change: real)
    requires a.Impact() == Some(change / a.WarnBudget()) || a.Impact() == Some(-(-change / a.WarnBudget()))
    ensures ScoredChange(a) == change
  {
    WarnBudgetIsPositive(a);
    hide Comparison.WarnBudget, Comparison.Impact;
    Back(change, a.WarnBudget());
    Back(-change, a.WarnBudget());
    Negated(-change / a.WarnBudget(), a.WarnBudget());
  }

  lemma Back(x: real, w: real)
    requires w > 0.0
    ensures (x / w) * w == x
  {
  }

  lemma Negated(x: real, w: real)
    ensures (-x) * w == -(x * w)
  {
  }

  lemma NoScore(a: Comparison)
    requires a.Impact() == Some(0.0)
    ensures ScoredChange(a) == 0.0
  {
  }

  // ---------------------------------------------------------------- unpaired rows

  /** The current value is more than `abs` above the baseline and more than `ratio` times the baseline. */
  predicate Over(current: real, baseline: real, abs: real, ratio: real) {
    current - baseline > abs && current > ratio * baseline
  }

  predicate EnoughDocuments(p: Policy, current: Stats, baseline: Stats) {
    p.enabled && baseline.value > 0.0 && baseline.sources >= p.minBaselineSources && current.samples >= p.minCurrentSamples
  }

  function BaselineTolerances(p: Policy, s: Stats): seq<real> {
    Tolerances(p, s.value, s.mad, s.p75 - s.p25)
  }

  /** The change is within some tolerance of the baseline, or of both sides together if the current side has several samples. */
  ghost predicate Scatter(p: Policy, current: Stats, baseline: Stats) {
    var change := Abs(current.value - baseline.value);
    || (exists t :: t in BaselineTolerances(p, baseline) && change <= t)
    || (current.samples > 1 && exists t, u :: t in BaselineTolerances(p, baseline) && u in BaselineTolerances(p, current) && u > 0.0 && change <= t + u)
  }

  /** Only the historical mode excuses scatter, and not of deterministic measurements. */
  ghost predicate Excused(a: Comparison) {
    a.policy.mode == Historical && a.kind != Deterministic && Scatter(a.policy, a.current, a.baseline)
  }

  lemma {:induction false} BandIsScatter(a: Comparison)
    ensures a.WithinBand() <==> Scatter(a.policy, a.current, a.baseline)
  {
    hide Band, Tolerances;
    var p, cur, base := a.policy, a.current, a.baseline;
    BandIsLargest(p, base.value, base.mad, base.p75 - base.p25);
    BandIsLargest(p, cur.value, cur.mad, cur.p75 - cur.p25);
    var r, u := a.RobustTolerance(), Band(p, cur.value, cur.mad, cur.p75 - cur.p25);
    assert Largest(r, BaselineTolerances(p, base)) && Largest(u, BaselineTolerances(p, cur));
    SumOfLargest(Abs(cur.value - base.value), r, BaselineTolerances(p, base), u, BaselineTolerances(p, cur));
  }

  lemma {:induction false} SumOfLargest(x: real, r: real, s: seq<real>, u: real, t: seq<real>)
    requires Largest(r, s) && Largest(u, t)
    ensures x <= r <==> exists y :: y in s && x <= y
    ensures u > 0.0 && x <= r + u <==> exists y, z :: y in s && z in t && z > 0.0 && x <= y + z
  {
    if u > 0.0 && x <= r + u {
      assert r in s && u in t;
    }
  }

  /** When an unpaired row fails, warns, and is unknown; in every other case it passes. */
  lemma {:induction false} UnpairedVerdict(a: Comparison)
    requires a.policy.mode != Paired
    ensures var p, cur, base := a.policy, a.current, a.baseline;
            var counts := EnoughDocuments(p, cur, base) && Abs(cur.value - base.value) > p.noiseFloor && !Excused(a);
            var fails := counts && Over(cur.value, base.value, p.failAbs, p.failRatio);
            var warns := counts && Over(cur.value, base.value, p.warnAbs, p.warnRatio);
            && (a.StatusOf() == Fail <==> fails)
            && (a.StatusOf() == Warn <==> warns && !fails)
            && (a.StatusOf() == Unknown <==> base.value <= 0.0)
  {
    FlaggedStatus(a);
    BandIsScatter(a);
    OverIsExceeds(a, a.policy.failAbs, a.policy.failRatio);
    OverIsExceeds(a, a.policy.warnAbs, a.policy.warnRatio);
    hide Scatter, Over, Comparison.WithinBand, Comparison.Exceeds, Comparison.StatusOf;
  }

  lemma OverIsExceeds(a: Comparison, abs: real, ratio: real)
    ensures Over(a.current.value, a.baseline.value, abs, ratio) <==> a.Exceeds(abs, ratio)
  {
    assert ratio * a.baseline.value == a.baseline.value * ratio;
  }

  /**
   * The score of an unpaired row, in warn budgets: a warning or failing row scores its whole change; every other row
   * the part of it that lies beyond both tolerance bands, with its sign, and nothing within the noise floor or when excused.
   */
  lemma {:induction false} UnpairedImpact(a: Comparison)
    requires a.policy.mode != Paired && a.policy.enabled && a.baseline.value > 0.0 && 0.0 <= a.policy.toleranceRatio && 0.0 <= a.policy.noiseFloor
    ensures a.Impact().Some?
    ensures var change, delta := ScoredChange(a), a.current.value - a.baseline.value;
            var beyond := Abs(delta) - a.RobustTolerance() - a.CurrentTolerance();
            if a.StatusOf() == Fail || a.StatusOf() == Warn then change == delta
            else if Abs(delta) <= a.policy.noiseFloor || Excused(a) || beyond <= 0.0 then change == 0.0
            else change == if delta > 0.0 then beyond else -beyond
  {
    NonNegativeTolerances(a);
    BandIsScatter(a);
    FlaggedStatus(a);
    FlaggedIsExceeded(a);
    UnpairedScore(a);
    hide Comparison.WarnBudget, Comparison.RobustTolerance, Comparison.CurrentTolerance, Comparison.Impact;
    hide Scatter, Comparison.WithinBand, Comparison.StatusOf, Comparison.ConfidenceOf, ScoredChange;
    var delta := a.current.value - a.baseline.value;
    var beyond := Abs(delta) - a.RobustTolerance() - a.CurrentTolerance();
    var size := if a.ConfidenceOf() == ThresholdExceeded then Abs(delta) else Max(0.0, beyond);
    if (a.policy.mode == Historical && a.kind != Deterministic && a.WithinBand()) || Abs(delta) <= a.policy.noiseFloor {
      NoScore(a);
    } else {
      ScoreOf(a, if delta > 0.0 then size else -size);
    }
  }

  lemma {:induction false} UnpairedScore(a: Comparison)
    requires a.policy.mode != Paired && a.policy.enabled && a.baseline.value > 0.0 && 0.0 <= a.policy.noiseFloor
    requires 0.0 <= a.RobustTolerance() && 0.0 <= a.CurrentTolerance()
    ensures var delta := a.current.value - a.baseline.value;
            var beyond := Abs(delta) - a.RobustTolerance() - a.CurrentTolerance();
            var excused := a.policy.mode == Historical && a.kind != Deterministic && a.WithinBand();
            a.Impact() == Some(
              if excused || Abs(delta) <= a.policy.noiseFloor then 0.0
              else
                var score := (if a.ConfidenceOf() == ThresholdExceeded then Abs(delta) else Max(0.0, beyond)) / a.WarnBudget();
                if delta > 0.0 then score else -score)
  {
    hide Comparison.WarnBudget, Comparison.RobustTolerance, Comparison.CurrentTolerance, Comparison.WithinBand, Comparison.ConfidenceOf;
  }

  lemma {:induction false} FlaggedIsExceeded(a: Comparison)
    ensures a.ConfidenceOf() == ThresholdExceeded <==> a.StatusOf() == Fail || a.StatusOf() == Warn
  {
  }

  // ---------------------------------------------------------------- labels

  /** The direction of an unpaired row: by the sign of its change, unless that is within the noise floor or excused. */
  lemma {:induction false} UnpairedDirection(a: Comparison)
    requires a.policy.mode != Paired
    ensures var delta := a.current.value - a.baseline.value;
            var still := Abs(delta) <= a.policy.noiseFloor || Excused(a);
            && (a.DirectionOf() == UnknownDirection <==> a.baseline.value <= 0.0)
            && (a.DirectionOf() == Unchanged <==> a.baseline.value > 0.0 && still)
            && (a.DirectionOf() == Improved <==> a.baseline.value > 0.0 && !still && delta < 0.0)
  {
    BandIsScatter(a);
    hide Scatter, Comparison.WithinBand;
  }

  /** The direction of a paired row: by the sign of its median delta, unless that is within the noise floor or its evidence interval holds zero. */
  lemma {:induction false} PairedDirection(a: Comparison)
    requires a.policy.mode == Paired && a.current.deltaMedian.Some?
    ensures var m := a.current.deltaMedian.value;
            var still := Abs(m) <= a.policy.noiseFloor || a.EvidenceLower() <= 0.0 <= a.EvidenceUpper();
            && (a.DirectionOf() == UnknownDirection <==> a.baseline.value <= 0.0)
            && (a.DirectionOf() == Unchanged <==> a.baseline.value > 0.0 && still)
            && (a.DirectionOf() == Improved <==> a.baseline.value > 0.0 && !still && m < 0.0)
  {
  }

  /** The kind of the score, told by the scored change and the two budgets. */
  lemma {:induction false} KindOfChange(a: Comparison)
    requires a.policy.enabled && a.Impact().Some?
    ensures var change := ScoredChange(a);
            && (a.KindOfImpact() == Neutral <==> change == 0.0)
            && (a.KindOfImpact() == FailBoundary <==> change >= a.FailBudget())
            && (a.KindOfImpact() == WarnBoundary <==> a.WarnBudget() <= change < a.FailBudget())
            && (a.KindOfImpact() == Improvement <==> change < 0.0)
  {
    WarnBudgetIsPositive(a);
    hide Comparison.Impact, Comparison.WarnBudget, Comparison.FailBudget;
    InBudgets(a.Impact().value, a.FailBudget(), a.WarnBudget());
    InBudgets(a.Impact().value, a.WarnBudget(), a.WarnBudget());
    InBudgets(a.Impact().value, 0.0, a.WarnBudget());
  }

  /** Rows without a score: a disabled one is diagnostic, one without a baseline unknown. */
  lemma {:induction false} KindWithoutScore(a: Comparison)
    ensures a.KindOfImpact() == DiagnosticImpact <==> !a.policy.enabled
    ensures a.KindOfImpact() == UnknownImpact <==> a.policy.enabled && a.baseline.value <= 0.0
    ensures a.Impact().None? <==> !a.policy.enabled || a.baseline.value <= 0.0
  {
  }

  lemma {:induction false} InBudgets(x: real, y: real, w: real)
    requires w > 0.0
    ensures x >= y / w <==> x * w >= y
    ensures x == y / w <==> x * w == y
    ensures w / w == 1.0 && 0.0 / w == 0.0
  {
    assert (y / w) * w == y;
    assert (x - y / w) * w == x * w - y;
  }

  /** What stands between a row and its gate. */
  predicate Obstacle(r: GateReason, a: Comparison) {
    match r
    case Disabled => !a.policy.enabled
    case MissingBaseline => a.baseline.value <= 0.0
    case LowBaselineCount => a.policy.mode != Paired && a.baseline.sources < a.policy.minBaselineSources
    case LowCurrentSampleCount => a.current.samples < a.policy.minCurrentSamples
    case LowPairedSampleCount => a.policy.mode == Paired && a.current.pairedSamples < a.policy.minPairedSamples
    case MissingPairedDelta => a.policy.mode == Paired && a.current.deltaMedian.None?
    case Eligible => false
  }

  /** The reported reason is an obstacle, `eligible` means that there is none, and a row is gateable if and only if it is eligible. */
  lemma {:induction false} ReasonIsTrue(a: Comparison)
    ensures a.Reason() != Eligible ==> Obstacle(a.Reason(), a)
    ensures a.Reason() == Eligible <==> forall r: GateReason :: !Obstacle(r, a)
    ensures a.Gateable() <==> a.Reason() == Eligible
  {
    if a.Reason() == Eligible {
      forall r: GateReason ensures !Obstacle(r, a) {
      }
    } else {
      assert Obstacle(a.Reason(), a);
    }
  }

  /** What a confidence label says about its row. */
  predicate Says(word: Confidence, a: Comparison) {
    var delta := a.current.value - a.baseline.value;
    match word
    case UnknownConfidence => a.baseline.value <= 0.0
    case DiagnosticOnly => Obstacle(Disabled, a)
    case NoiseFloor => Abs(delta) <= a.policy.noiseFloor
    case FewBaselines => Obstacle(LowBaselineCount, a)
    case FewCurrentSamples => Obstacle(LowCurrentSampleCount, a)
    case FewPairedSamples => Obstacle(LowPairedSampleCount, a)
    case NoPairedDelta => Obstacle(MissingPairedDelta, a)
    case PairedUncertain => a.policy.mode == Paired && a.StatusOf() == Pass && a.EvidenceDelta() > a.WarnBudget() >= a.EvidenceLower()
    case WithinRobustBand => a.StatusOf() == Pass && a.policy.mode == Historical && a.kind != Deterministic && a.WithinBand()
    case WithinBudget => a.StatusOf() == Pass && a.Gateable()
    case ThresholdExceeded => a.StatusOf() == Fail || a.StatusOf() == Warn
    case NoBaseline => false
  }

  /** The confidence label is true of its row, and `threshold_exceeded` stands exactly on the failing and warning ones. */
  lemma {:induction false} ConfidenceIsTrue(a: Comparison)
    requires a.policy.warnAbs <= a.policy.failAbs && a.policy.warnRatio <= a.policy.failRatio
    ensures Says(a.ConfidenceOf(), a)
    ensures a.ConfidenceOf() == ThresholdExceeded <==> a.StatusOf() == Fail || a.StatusOf() == Warn
  {
    BudgetsOrdered(a);
    FlaggedIsExceeded(a);
  }

  /** Which label a gateable row beyond the noise floor gets. */
  lemma {:induction false} ConfidenceOfGateable(a: Comparison)
    requires a.Gateable() && Abs(a.current.value - a.baseline.value) > a.policy.noiseFloor
    requires a.policy.warnAbs <= a.policy.failAbs && a.policy.warnRatio <= a.policy.failRatio
    ensures a.ConfidenceOf() in {PairedUncertain, WithinRobustBand, WithinBudget, ThresholdExceeded}
    ensures a.ConfidenceOf() == PairedUncertain <==>
              a.policy.mode == Paired && a.EvidenceDelta() > a.WarnBudget() >= a.EvidenceLower()
    ensures var p, cur, base := a.policy, a.current.value, a.baseline.value;
            a.ConfidenceOf() == WithinRobustBand <==>
              a.policy.mode != Paired && Excused(a) && (Over(cur, base, p.warnAbs, p.warnRatio) || Over(cur, base, p.failAbs, p.failRatio))
  {
    BudgetsOrdered(a);
    BandIsScatter(a);
    OverIsExceeds(a, a.policy.failAbs, a.policy.failRatio);
    OverIsExceeds(a, a.policy.warnAbs, a.policy.warnRatio);
    hide Scatter, Over, Comparison.WithinBand, Comparison.Exceeds, Comparison.WarnBudget, Comparison.FailBudget, Comparison.EvidenceLower;
  }

  // ---------------------------------------------------------------- observation_stats

  /** `x` is the sample of rank `k`: it is one of the samples, at most `k` are below it, and more than `k` are not above it. */
  ghost predicate RankedAt(x: real, s: seq<real>, k: int) {
    x in s && CountIf(s, (y: real) => y < x) <= k < CountIf(s, (y: real) => y <= x)
  }

  lemma {:induction false} SortedRank(s: seq<real>, k: nat)
    requires k < |s|
    ensures |Sort(s)| == |s| && RankedAt(Sort(s)[k], s, k)
  {
    SortSorts(s);
    hide Sort, CountIf;
    var t := Sort(s);
    var x := t[k];
    CountOfPermutation(s, t, (y: real) => y < x);
    CountOfPermutation(s, t, (y: real) => y <= x);
    InSorted(t, k, (y: real) => y < x, (y: real) => y <= x);
    assert x in multiset(t);
  }

  lemma {:induction false} InSorted(t: seq<real>, k: nat, below: real -> bool, upto: real -> bool)
    requires Ascending(t) && k < |t| && forall y :: (below(y) <==> y < t[k]) && (upto(y) <==> y <= t[k])
    ensures CountIf(t, below) <= k < CountIf(t, upto)
  {
    hide CountIf;
    assert t == t[..k] + t[k..] && t == t[..k + 1] + t[k + 1..];
    CountConcat(t[..k], t[k..], below);
    CountConcat(t[..k + 1], t[k + 1..], upto);
    AtMostAll(t[..k], below);
    NoneOf(t[k..], below);
    AllOf(t[..k + 1], upto);
  }

  /** A percentile is the sample whose rank is the parameter's share of the last index, rounded down. */
  lemma {:induction false} PercentileIsRanked(s: seq<real>, p: real, k: nat)
    requires 0.0 <= p <= 1.0 && k < |s| && k as real <= p * (|s| - 1) as real < k as real + 1.0
    ensures Percentile(s, p).Some? && RankedAt(Percentile(s, p).value, s, k)
  {
    SortedRank(s, k);
    assert Rank(p, |s|) == k;
  }

  /** The median is the sample in the middle, or halfway between the two in the middle. */
  lemma {:induction false} MedianIsMiddle(s: seq<real>) returns (lower: real, upper: real)
    requires s != []
    ensures RankedAt(lower, s, (|s| - 1) / 2) && RankedAt(upper, s, |s| / 2) && Median(s) == Some((lower + upper) / 2.0)
  {
    hide Sort, RankedAt;
    SortedRank(s, (|s| - 1) / 2);
    SortedRank(s, |s| / 2);
    lower, upper := Sort(s)[(|s| - 1) / 2], Sort(s)[|s| / 2];
  }

  /** The statistics of several observations, by rank: the middle value, the quartiles on either side of it, and the middle distance from it. */
  lemma {:induction false} StatsAreRanked(items: seq<Item>, k: nat, l: nat)
    requires items != [] && k == (|items| - 1) / 4 && l == 3 * (|items| - 1) / 4
    ensures var s, values := ObservationStats(items), Values(items);
            && Median(values) == Some(s.value) && RankedAt(s.p25, values, k) && RankedAt(s.p75, values, l)
            && s.p25 <= s.value && s.p25 <= s.p75
            && Median(Deviations(values, s.value)) == Some(s.mad)
            && s.sources == |items|
  {
    hide Median, Percentile, Deviations;
    var values := Values(items);
    MadIsSome(values);
    PercentileIsRanked(values, 0.25, k);
    PercentileIsRanked(values, 0.75, l);
    LowPercentileBelowMedian(values, 0.25);
    PercentilesAscend(values, 0.25, 0.75);
  }
}
