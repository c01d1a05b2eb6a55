/**
 * Laws of one row of the gate: a slower candidate never gets a better verdict, and the status,
 * the impact score and the direction tell the same story.
 */
module GateLaws {
  import opened Basics
  import opened Statistics
  import opened Gate

  function Rank3(s: Status): nat {
    match s case Unknown => 0 case Pass => 1 case Warn => 2 case Fail => 3
  }

  /** Budgets and tolerance that make sense: not negative, and at most as wide as the value itself. */
  predicate Sound(p: Policy) {
    0.0 <= p.warnAbs && 0.0 <= p.failAbs && 0.0 <= p.toleranceRatio <= 1.0
  }

  predicate Ordered(p: Policy) {
    p.warnAbs <= p.failAbs && p.warnRatio <= p.failRatio
  }

  function Slower(items: seq<Item>, c: real): seq<Item> {
    Map((it: Item) => it.(value := it.value + c), items)
  }

  lemma {:induction false} StatsOfSlower(items: seq<Item>, c: real)
    requires items != []
    ensures var s := ObservationStats(items);
            ObservationStats(Slower(items, c)) == s.(value := s.value + c, p25 := s.p25 + c, p75 := s.p75 + c)
  {
    var slower := Slower(items, c);
    assert Values(slower) == Shift(Values(items), c);
    ShiftLaws(Values(items), c);
    assert Map((it: Item) => if it.samples.Some? then it.samples.value else 1, slower) == Map((it: Item) => if it.samples.Some? then it.samples.value else 1, items);
    assert Map((it: Item) => if it.pairedSamples.Some? then it.pairedSamples.value else 0, slower) == Map((it: Item) => if it.pairedSamples.Some? then it.pairedSamples.value else 0, items);
    assert Map((it: Item) => it.pairedBaseline, slower) == Map((it: Item) => it.pairedBaseline, items);
    assert Map((it: Item) => it.deltaMedian, slower) == Map((it: Item) => it.deltaMedian, items);
    assert Map((it: Item) => it.deltaP25, slower) == Map((it: Item) => it.deltaP25, items);
    assert Map((it: Item) => it.deltaP75, slower) == Map((it: Item) => it.deltaP75, items);
    assert Map((it: Item) => it.deltaMad, slower) == Map((it: Item) => it.deltaMad, items);
    assert Map((it: Item) => it.deltaSamples, slower) == Map((it: Item) => it.deltaSamples, items);
  }

  // ---------------------------------------------------------------- monotone verdicts

  predicate ShiftedBy(a: Comparison, b: Comparison, c: real) {
    b == a.(current := a.current.(value := a.current.value + c, p25 := a.current.p25 + c, p75 := a.current.p75 + c))
  }

  lemma {:induction false} BandGrowsSlowly(p: Policy, v: real, c: real, mad: real, iqr: real)
    requires 0.0 <= c && 0.0 <= p.toleranceRatio <= 1.0 && 0.0 < v
    ensures Band(p, v, mad, iqr) <= Band(p, v + c, mad, iqr) <= Band(p, v, mad, iqr) + c
    ensures Band(p, v, mad, iqr) <= 0.0 ==> Band(p, v + c, mad, iqr) <= 0.0
    ensures 0.0 <= Band(p, v, mad, iqr)
  {
    var r := p.toleranceRatio;
    assert (v + c) * r == v * r + c * r;
    assert 0.0 <= c * r <= c * 1.0;
    assert 0.0 <= v * r;
    if v * r <= 0.0 {
      assert r == 0.0;
    }
  }

  lemma {:induction false} TolerancesGrowSlowly(a: Comparison, b: Comparison, c: real)
    requires ShiftedBy(a, b, c) && 0.0 <= c && 0.0 <= a.policy.toleranceRatio <= 1.0
    requires 0.0 < a.current.value
    ensures b.CurrentTolerance() <= a.CurrentTolerance() + c
    ensures b.CurrentTolerance() > 0.0 ==> a.CurrentTolerance() > 0.0
    ensures 0.0 <= a.CurrentTolerance() && 0.0 <= b.CurrentTolerance()
  {
    BandGrowsSlowly(a.policy, a.current.value, c, a.current.mad, a.current.p75 - a.current.p25);
  }

  /** A suppression that did not apply to a slow candidate does not apply to a slower one. */
  lemma {:induction false} LeavingTheBand(a: Comparison, b: Comparison, c: real)
    requires ShiftedBy(a, b, c) && 0.0 <= c && Sound(a.policy)
    requires a.HasBaseline() && 0.0 < a.Delta() && !a.WithinBand()
    ensures !b.WithinBand()
  {
    hide Band;
    TolerancesGrowSlowly(a, b, c);
    BandGrowsSlowly(a.policy, a.baseline.value, 0.0, a.baseline.mad, a.baseline.p75 - a.baseline.p25);
    BandTells(a);
    BandTells(b);
  }

  /** For a candidate above its baseline, being in the band is about upper limits only. */
  lemma {:induction false} BandTells(a: Comparison)
    requires 0.0 <= a.Delta() && 0.0 <= a.RobustTolerance() && 0.0 <= a.CurrentTolerance()
    ensures a.WithinBand() <==> a.current.value <= a.baseline.value + a.RobustTolerance()
                                || (a.CurrentTolerance() > 0.0 && a.current.value - a.CurrentTolerance() <= a.baseline.value + a.RobustTolerance())
  {
  }

  /** In the unpaired modes a row warns or fails exactly when it is gateable, exceeds a threshold and is not excused. */
  predicate Flagged(a: Comparison) {
    && a.Gateable()
    && Abs(a.Delta()) > a.policy.noiseFloor
    && (a.Exceeds(a.policy.failAbs, a.policy.failRatio) || a.Exceeds(a.policy.warnAbs, a.policy.warnRatio))
    && !(a.MaySuppress() && a.WithinBand())
  }

  lemma {:induction false} FlaggedStatus(a: Comparison)
    requires !a.PairedMode()
    ensures a.StatusOf() ==
            if Flagged(a) then (if a.Exceeds(a.policy.failAbs, a.policy.failRatio) then Fail else Warn)
            else if a.HasBaseline() then Pass else Unknown
  {
  }

  lemma {:induction false} SlowerStaysFlagged(a: Comparison, b: Comparison, c: real)
    requires ShiftedBy(a, b, c) && 0.0 <= c && Sound(a.policy) && !a.PairedMode() && Flagged(a)
    ensures Flagged(b)
    ensures a.Exceeds(a.policy.failAbs, a.policy.failRatio) ==> b.Exceeds(a.policy.failAbs, a.policy.failRatio)
  {
    if a.MaySuppress() {
      LeavingTheBand(a, b, c);
    }
  }

  /** Row by row: adding `c >= 0` to every current sample never improves the status in the unpaired modes. */
  lemma {:induction false} SlowerIsNoBetter(a: Comparison, b: Comparison, c: real)
    requires ShiftedBy(a, b, c) && 0.0 <= c && Sound(a.policy) && !a.PairedMode()
    ensures a.StatusOf() == Unknown <==> b.StatusOf() == Unknown
    ensures Rank3(a.StatusOf()) <= Rank3(b.StatusOf())
  {
    FlaggedStatus(a);
    FlaggedStatus(b);
    if Flagged(a) {
      SlowerStaysFlagged(a, b, c);
    }
  }

  function Row(kind: MeasurementKind, p: Policy, items: seq<Item>, baseline: Stats): Comparison
    requires items != []
  {
    Comparison(kind, p, ObservationStats(items), baseline)
  }

  /** The same on samples: the verdict on the documents whose values are all `c` larger. */
  lemma {:induction false} SlowerSamplesNoBetter(kind: MeasurementKind, p: Policy, items: seq<Item>, baseline: Stats, c: real)
    requires items != [] && 0.0 <= c && Sound(p) && p.mode != Paired
    ensures var a, b := Row(kind, p, items, baseline), Row(kind, p, Slower(items, c), baseline);
            Rank3(a.StatusOf()) <= Rank3(b.StatusOf()) && (a.StatusOf() == Unknown <==> b.StatusOf() == Unknown)
  {
    hide ObservationStats;
    StatsOfSlower(items, c);
    var a, b := Row(kind, p, items, baseline), Row(kind, p, Slower(items, c), baseline);
    assert ShiftedBy(a, b, c);
    SlowerIsNoBetter(a, b, c);
  }

  // ---------------------------------------------------------------- status, impact and direction

  lemma {:induction false} DivideBoth(x: real, y: real, w: real)
    requires w > 0.0
    ensures x < y ==> x / w < y / w
    ensures x <= y ==> x / w <= y / w
    ensures w / w == 1.0 && 0.0 / w == 0.0
  {
    assert (x / w) * w == x && (y / w) * w == y;
  }

  /** In the unpaired modes an exceeded threshold is exceeded by more than its budget, when that budget is not the guard. */
  lemma {:induction false} ExceedsBudget(a: Comparison, abs: real, ratio: real)
    requires a.HasBaseline() && a.Exceeds(abs, ratio) && a.Delta() > a.policy.noiseFloor
    requires a.BudgetOf(abs, ratio) > GUARD
    ensures a.Delta() > a.BudgetOf(abs, ratio)
  {
    assert a.baseline.value * (ratio - 1.0) == a.baseline.value * ratio - a.baseline.value;
  }

  lemma {:induction false} WithinBudgetBound(a: Comparison, abs: real, ratio: real)
    requires a.HasBaseline() && !a.Exceeds(abs, ratio)
    ensures a.Delta() <= a.BudgetOf(abs, ratio)
  {
    assert a.baseline.value * (ratio - 1.0) == a.baseline.value * ratio - a.baseline.value;
  }

  lemma {:induction false} BudgetsOrdered(a: Comparison)
    requires Ordered(a.policy)
    ensures GUARD <= a.WarnBudget() <= a.FailBudget()
  {
    if a.HasBaseline() {
      assert a.baseline.value * (a.policy.failRatio - a.policy.warnRatio) >= 0.0;
      assert a.baseline.value * (a.policy.warnRatio - 1.0) <= a.baseline.value * (a.policy.failRatio - 1.0);
    }
  }

  /** The paired summary of one document is that of its own samples. */
  predicate OwnSummary(s: Stats) {
    s.deltaSamples != [] ==> s.deltaMedian == Median(s.deltaSamples)
  }

  /** The paired summary that a measurement run writes for the deltas `ms`, in milliseconds. */
  predicate ProducedFrom(it: Item, ms: seq<real>) {
    && it.deltaSamples == Seconds(ms)
    && it.deltaMedian == (match Median(ms) case None => None case Some(m) => Some(m / 1000.0))
  }

  /** So with one current document, the paired median is the median of the paired samples. */
  lemma {:induction false} OneDocument(it: Item, ms: seq<real>)
    requires ProducedFrom(it, ms)
    ensures OwnSummary(ObservationStats([it]))
    ensures ObservationStats([it]).deltaMedian == Median(it.deltaSamples)
  {
    MedianOfSeconds(ms);
    var items := [it];
    var medians := Map((i: Item) => i.deltaMedian, items);
    assert medians == [it.deltaMedian] && medians[1..] == [];
    assert Present(medians) == if it.deltaMedian.Some? then [it.deltaMedian.value] else [];
    if it.deltaMedian.Some? {
      MedianOfOne(it.deltaMedian.value);
    }
    var samples := Map((i: Item) => i.deltaSamples, items);
    assert samples == [it.deltaSamples] && samples[1..] == [];
    assert Concat(samples) == it.deltaSamples;
  }

  lemma MedianOfOne(x: real)
    ensures Median([x]) == Some(x)
  {
    assert Sort([x]) == [x];
  }

  lemma {:induction false} PairedEvidence(a: Comparison)
    requires a.PairedMode() && a.current.deltaMedian.Some? && OwnSummary(a.current)
    requires a.policy.evidenceQuantile <= 0.5
    requires 0.0 <= a.policy.toleranceRatio
    ensures a.EvidenceLower() <= a.EvidenceDelta()
    ensures a.EvidenceLower() <= a.EvidenceUpper()
  {
    if a.current.deltaSamples != [] {
      LowPercentileBelowMedian(a.current.deltaSamples, a.policy.evidenceQuantile);
      PercentilesAscend(a.current.deltaSamples, a.policy.evidenceQuantile, 1.0 - a.policy.evidenceQuantile);
    } else {
      assert a.HasBaseline() ==> 0.0 <= a.baseline.value * a.policy.toleranceRatio;
    }
  }

  /** In every mode, a failing row scores above `failBudget / warnBudget` and is a fail boundary; a warning row scores above 1. */
  lemma {:induction false} StatusForcesImpact(a: Comparison)
    requires a.Gateable() && Ordered(a.policy) && 0.0 <= a.policy.toleranceRatio && 0.0 <= a.policy.warnAbs
    requires a.WarnBudget() > GUARD
    requires a.PairedMode() ==> OwnSummary(a.current) && a.policy.evidenceQuantile <= 0.5
    ensures a.Impact().Some?
    ensures a.StatusOf() == Fail ==> a.Impact().value > a.FailBudget() / a.WarnBudget() && a.KindOfImpact() == FailBoundary
    ensures a.StatusOf() == Warn ==> a.Impact().value > 1.0
  {
    BudgetsOrdered(a);
    var w := a.WarnBudget();
    if a.StatusOf() == Fail || a.StatusOf() == Warn {
      var budget := if a.StatusOf() == Fail then a.FailBudget() else w;
      if a.PairedMode() {
        PairedEvidence(a);
        DivideBoth(budget, a.EvidenceLower(), w);
      } else {
        if a.StatusOf() == Fail {
          ExceedsBudget(a, a.policy.failAbs, a.policy.failRatio);
        } else {
          ExceedsBudget(a, a.policy.warnAbs, a.policy.warnRatio);
        }
        var score := Max(Max(0.0, a.CurrentLower() - a.RobustUpper()), a.Delta());
        DivideBoth(budget, score, w);
        assert a.Impact() == Some(a.InWarnBudgets(score));
      }
      DivideBoth(0.0, budget, w);
    }
  }

  /**
   * A passing row scores at most 1, except in one case of the paired mode: the plain difference is within the noise
   * floor, which passes the row, while the paired evidence still exceeds the warn budget.
   */
  lemma {:induction false} PassBoundsImpact(a: Comparison)
    requires a.Gateable() && Ordered(a.policy) && 0.0 <= a.policy.toleranceRatio && 0.0 <= a.policy.noiseFloor
    requires a.PairedMode() ==> OwnSummary(a.current) && a.policy.evidenceQuantile <= 0.5
    requires a.StatusOf() == Pass
    ensures a.Impact().Some?
    ensures a.Impact().value <= 1.0 <==>
            !(a.PairedMode() && Abs(a.Delta()) <= a.policy.noiseFloor && a.EvidenceLower() > a.WarnBudget())
  {
    BudgetsOrdered(a);
    var w := a.WarnBudget();
    if a.PairedMode() {
      PairedEvidence(a);
      DivideBoth(Max(0.0, a.EvidenceLower()), w, w);
      DivideBoth(w, Max(0.0, a.EvidenceLower()), w);
      DivideBoth(0.0, Max(0.0, -a.EvidenceUpper()), w);
    } else {
      assert 0.0 <= a.baseline.value * a.policy.toleranceRatio;
      var above, below := Max(0.0, a.CurrentLower() - a.RobustUpper()), Max(0.0, a.RobustLower() - a.CurrentUpper());
      if a.ConfidenceOf() == WithinBudget {
        WithinBudgetBound(a, a.policy.warnAbs, a.policy.warnRatio);
        NonNegativeTolerances(a);
        DivideBoth(above, w, w);
      }
      DivideBoth(0.0, below, w);
    }
  }

  lemma {:induction false} NonNegativeTolerances(a: Comparison)
    requires 0.0 <= a.policy.toleranceRatio
    ensures 0.0 <= a.RobustTolerance() && 0.0 <= a.CurrentTolerance()
  {
    assert a.baseline.value > 0.0 ==> 0.0 <= a.baseline.value * a.policy.toleranceRatio;
    assert a.current.value > 0.0 ==> 0.0 <= a.current.value * a.policy.toleranceRatio;
  }

  /** The impact has the sign of the direction, in every mode. */
  lemma ImpactFollowsDirection(a: Comparison)
    requires a.policy.enabled && 0.0 <= a.policy.noiseFloor
    ensures a.Impact().None? <==> a.DirectionOf() == UnknownDirection
    ensures a.DirectionOf() == Unchanged ==> a.Impact() == Some(0.0)
    ensures a.DirectionOf() == Regressed ==> a.Impact().value >= 0.0
    ensures a.DirectionOf() == Improved ==> a.Impact().value <= 0.0
    ensures a.Impact().Some? && a.Impact().value > 0.0 ==> a.DirectionOf() == Regressed
    ensures a.Impact().Some? && a.Impact().value < 0.0 ==> a.DirectionOf() == Improved
  {
  }

  /** A row compared with its own statistics neither warns nor fails in the unpaired modes. */
  lemma {:induction false} SelfRowPasses(kind: MeasurementKind, p: Policy, s: Stats)
    requires Sound(p) && p.mode != Paired
    ensures Comparison(kind, p, s, s).StatusOf() == if s.value > 0.0 then Pass else Unknown
  {
    FlaggedStatus(Comparison(kind, p, s, s));
  }
}
