/** What the built-in policies mean: when a row under each of them warns or fails, in numbers. */
module PolicyVerdicts {
  import opened Basics
  import opened Statistics
  import opened Gate
  import opened GateLaws
  import opened Policies
  import opened Verdicts

  const MIB := 1048576.0

  /** The limits of a budget policy: how much more, in the unit and as a ratio, warns and fails. */
  datatype Limits = Limits(warnAbs: real, warnRatio: real, failAbs: real, failRatio: real)

  function BudgetLimits(metric: Metric): Limits {
    match metric
    case NarSize => Limits(50.0 * MIB, 1.05, 200.0 * MIB, 1.10)
    case BucketNarSize => Limits(50.0 * MIB, 1.10, 200.0 * MIB, 1.20)
    case PathCount => Limits(100.0, 1.05, 500.0, 1.10)
    case OtherMetric => Limits(1.0, 1.25, 3.0, 1.50)
  }

  /** Sizes, counts and other unitless numbers: one document is enough, nothing is excused, and both limits have to be exceeded. */
  lemma {:induction false} BudgetPolicies(metric: Metric, a: Comparison)
    requires a.policy == DefaultPolicy(metric, false)
    ensures var l, cur, base := BudgetLimits(metric), a.current.value, a.baseline.value;
            var counts := base > 0.0 && a.baseline.sources >= 1 && a.current.samples >= 1;
            && (a.StatusOf() == Fail <==> counts && Over(cur, base, l.failAbs, l.failRatio))
            && (a.StatusOf() == Warn <==> counts && Over(cur, base, l.warnAbs, l.warnRatio) && !Over(cur, base, l.failAbs, l.failRatio))
  {
    UnpairedVerdict(a);
    hide Comparison.StatusOf;
  }

  /** Durations without a probe preset: ten documents and three samples, and the scatter of past durations excuses a row. */
  lemma {:induction false} DurationPolicy(a: Comparison)
    requires a.policy == DefaultPolicy(OtherMetric, true)
    ensures var cur, base := a.current.value, a.baseline.value;
            var counts := base > 0.0 && a.baseline.sources >= 10 && a.current.samples >= 3 && (a.kind == Deterministic || !Scatter(a.policy, a.current, a.baseline));
            && (a.StatusOf() == Fail <==> counts && Over(cur, base, 1.0, 1.2))
            && (a.StatusOf() == Warn <==> counts && Over(cur, base, 0.25, 1.1) && !Over(cur, base, 1.0, 1.2))
  {
    UnpairedVerdict(a);
    hide Comparison.StatusOf, Scatter;
  }

  /** The limits of the paired probes, with the noise floor and the samples and pairs that they need. */
  datatype ProbeLimits = ProbeLimits(limits: Limits, noise: real, samples: int, pairs: int)

  function PairedLimits(probe: Preset): ProbeLimits
    requires probe != ShellEval
  {
    match probe
    case QuickCommand => ProbeLimits(Limits(0.05, 1.25, 0.15, 1.5), 0.03, 5, 7)
    case QuickCheck => ProbeLimits(Limits(1.5, 1.15, 4.0, 1.3), 0.75, 3, 3)
    case OtherProbe => ProbeLimits(Limits(0.25, 1.1, 1.0, 1.2), 0.1, 5, 5)
  }

  /** The lower quartile of the deltas is above a limit of so much more, and so many times the baseline. */
  ghost predicate PairsOver(a: Comparison, abs: real, ratio: real) {
    a.current.deltaMedian.Some? && PairsExceed(a.policy, a.current, a.baseline, Amounts(a.policy, a.baseline.value, abs, ratio))
  }

  lemma {:induction false} PairedWithin(a: Comparison, p: ProbeLimits)
    requires a.policy.enabled && a.policy.mode == Paired && a.policy.noiseFloor == p.noise
    requires a.policy.minCurrentSamples == p.samples && a.policy.minPairedSamples == p.pairs
    requires p.limits == Limits(a.policy.warnAbs, a.policy.warnRatio, a.policy.failAbs, a.policy.failRatio)
    ensures var l, delta := p.limits, a.current.value - a.baseline.value;
            var counts := a.baseline.value > 0.0 && a.current.samples >= p.samples && a.current.pairedSamples >= p.pairs && (delta > p.noise || -delta > p.noise);
            && (a.StatusOf() == Fail <==> counts && PairsOver(a, l.failAbs, l.failRatio))
            && (a.StatusOf() == Warn <==> counts && PairsOver(a, l.warnAbs, l.warnRatio) && !PairsOver(a, l.failAbs, l.failRatio))
  {
    hide Comparison.StatusOf, PairsExceed, Amounts;
    PairedStatus(a);
  }

  /** Probes with paired runs, in seconds. */
  lemma {:induction false} PairedProbes(probe: Preset, a: Comparison)
    requires probe != ShellEval && a.policy == ObservationPolicy(OtherMetric, true, DevenvPreset(probe))
    ensures a.policy.evidenceQuantile == 0.25 && a.policy.noiseFloor == PairedLimits(probe).noise
    ensures var p := PairedLimits(probe);
            var l, delta := p.limits, a.current.value - a.baseline.value;
            var counts := a.baseline.value > 0.0 && a.current.samples >= p.samples && a.current.pairedSamples >= p.pairs && (delta > p.noise || -delta > p.noise);
            && (a.StatusOf() == Fail <==> counts && PairsOver(a, l.failAbs, l.failRatio))
            && (a.StatusOf() == Warn <==> counts && PairsOver(a, l.warnAbs, l.warnRatio) && !PairsOver(a, l.failAbs, l.failRatio))
  {
    hide Comparison.StatusOf, PairsOver;
    PairedWithin(a, PairedLimits(probe));
  }

  /** What counts as noise, and how far a value may scatter by ratio and in its unit. */
  datatype Slack = Slack(noise: real, ratio: real, abs: real)

  function DefaultSlack(metric: Metric, seconds: bool): Slack {
    match metric
    case NarSize => Slack(10.0 * MIB, 0.02, 10.0 * MIB)
    case BucketNarSize => Slack(10.0 * MIB, 0.05, 10.0 * MIB)
    case PathCount => Slack(10.0, 0.02, 10.0)
    case OtherMetric => if seconds then Slack(0.1, 0.1, 0.25) else Slack(0.0, 0.1, 1.0)
  }

  function ProbeSlack(probe: Preset): Slack {
    match probe
    case ShellEval => Slack(0.5, 0.2, 1.0)
    case QuickCommand => Slack(0.03, 0.1, 0.03)
    case QuickCheck => Slack(0.75, 0.15, 1.0)
    case OtherProbe => Slack(0.1, 0.1, 0.25)
  }

  /** Under every built-in policy: changes within its noise are reported as none, and its tolerances are the scatter that is allowed. */
  lemma {:induction false} SlackOfPolicies(metric: Metric, seconds: bool, probe: Preset, a: Comparison)
    requires var default := a.policy == DefaultPolicy(metric, seconds); default || a.policy == ObservationPolicy(OtherMetric, true, DevenvPreset(probe))
    ensures var slack := if a.policy == DefaultPolicy(metric, seconds) then DefaultSlack(metric, seconds) else ProbeSlack(probe);
            && (a.policy.mode != Paired && a.baseline.value > 0.0 && Abs(a.current.value - a.baseline.value) <= slack.noise ==> a.DirectionOf() == Unchanged)
            && BaselineTolerances(a.policy, a.baseline) ==
               [slack.noise, slack.abs, if a.baseline.value > 0.0 then slack.ratio * a.baseline.value else 0.0, 3.0 * a.baseline.mad, 1.5 * (a.baseline.p75 - a.baseline.p25)]
  {
    UnpairedDirectionWithinNoise(a);
    hide Comparison.DirectionOf;
  }

  lemma UnpairedDirectionWithinNoise(a: Comparison)
    ensures a.policy.mode != Paired && a.baseline.value > 0.0 && Abs(a.current.value - a.baseline.value) <= a.policy.noiseFloor ==> a.DirectionOf() == Unchanged
  {
  }

  /** The traced shell probe is never gated. */
  lemma {:induction false} TracedProbe(a: Comparison)
    requires a.policy == ObservationPolicy(OtherMetric, true, DevenvPreset(ShellEval))
    ensures !a.Gateable() && a.Reason() == Disabled && a.StatusOf() in {Pass, Unknown} && a.Impact() == None
  {
  }
}
