/** The gate's built-in policies: the metric defaults, the devenv probe presets, and overriding. */
module Policies {
  import opened Basics
  import opened Gate
  import opened GateLaws

  datatype Metric = NarSize | BucketNarSize | PathCount | OtherMetric

  /** The optional fields an observation may override. */
  datatype Override = Override(
    enabled: Option<bool>,
    mode: Option<ComparisonMode>,
    minBaselineSources: Option<int>,
    minCurrentSamples: Option<int>,
    minPairedSamples: Option<int>,
    noiseFloor: Option<real>,
    warnRatio: Option<real>,
    failRatio: Option<real>,
    warnAbs: Option<real>,
    failAbs: Option<real>,
    toleranceRatio: Option<real>,
    toleranceAbs: Option<real>,
    evidenceQuantile: Option<Fraction>)

  datatype Preset = ShellEval | QuickCommand | QuickCheck | OtherProbe

  function DefaultPolicy(metric: Metric, seconds: bool): Policy {
    var closure := metric != OtherMetric;
    var mode := if closure || !seconds then Budget else Historical;
    var sources := if closure || !seconds then 1 else 10;
    var current, paired := if seconds then 3 else 1, if seconds then 5 else 0;
    match metric
    case NarSize =>
      Policy(true, mode, sources, current, paired, 10485760.0, 1.05, 1.10, 52428800.0, 209715200.0, 0.02, 10485760.0, 0.25)
    case BucketNarSize =>
      Policy(true, mode, sources, current, paired, 10485760.0, 1.10, 1.20, 52428800.0, 209715200.0, 0.05, 10485760.0, 0.25)
    case PathCount =>
      Policy(true, mode, sources, current, paired, 10.0, 1.05, 1.10, 100.0, 500.0, 0.02, 10.0, 0.25)
    case OtherMetric =>
      if seconds then Policy(true, mode, sources, current, paired, 0.1, 1.10, 1.20, 0.25, 1.0, 0.10, 0.25, 0.25)
      else Policy(true, mode, sources, current, paired, 0.0, 1.25, 1.50, 1.0, 3.0, 0.10, 1.0, 0.25)
  }

  /** `observation_policy`: the defaults, with the observation's own fields on top. */
  function ObservationPolicy(metric: Metric, seconds: bool, o: Override): Policy {
    var d := DefaultPolicy(metric, seconds);
    Policy(OrElse(o.enabled, d.enabled), OrElse(o.mode, d.mode), OrElse(o.minBaselineSources, d.minBaselineSources),
           OrElse(o.minCurrentSamples, d.minCurrentSamples), OrElse(o.minPairedSamples, d.minPairedSamples),
           OrElse(o.noiseFloor, d.noiseFloor), OrElse(o.warnRatio, d.warnRatio), OrElse(o.failRatio, d.failRatio),
           OrElse(o.warnAbs, d.warnAbs), OrElse(o.failAbs, d.failAbs), OrElse(o.toleranceRatio, d.toleranceRatio),
           OrElse(o.toleranceAbs, d.toleranceAbs), OrElse(o.evidenceQuantile, d.evidenceQuantile))
  }

  const NONE := Override(None, None, None, None, None, None, None, None, None, None, None, None, None)

  function DevenvPreset(p: Preset): Override {
    match p
    case ShellEval =>
      NONE.(enabled := Some(false), minBaselineSources := Some(10), minCurrentSamples := Some(3), warnRatio := Some(1.25),
            failRatio := Some(1.5), warnAbs := Some(1.5), failAbs := Some(3.0), noiseFloor := Some(0.5),
            toleranceRatio := Some(0.2), toleranceAbs := Some(1.0))
    case QuickCommand =>
      NONE.(enabled := Some(true), mode := Some(Paired), minPairedSamples := Some(7), minBaselineSources := Some(10),
            minCurrentSamples := Some(5), warnRatio := Some(1.25), failRatio := Some(1.5), warnAbs := Some(0.05),
            failAbs := Some(0.15), noiseFloor := Some(0.03), toleranceRatio := Some(0.1), toleranceAbs := Some(0.03))
    case QuickCheck =>
      NONE.(enabled := Some(true), mode := Some(Paired), minPairedSamples := Some(3), minBaselineSources := Some(10),
            minCurrentSamples := Some(3), warnRatio := Some(1.15), failRatio := Some(1.3), warnAbs := Some(1.5),
            failAbs := Some(4.0), noiseFloor := Some(0.75), toleranceRatio := Some(0.15), toleranceAbs := Some(1.0))
    case OtherProbe =>
      NONE.(enabled := Some(true), mode := Some(Paired), minPairedSamples := Some(5), minBaselineSources := Some(10),
            minCurrentSamples := Some(5), warnRatio := Some(1.1), failRatio := Some(1.2), warnAbs := Some(0.25),
            failAbs := Some(1.0), noiseFloor := Some(0.1), toleranceRatio := Some(0.1), toleranceAbs := Some(0.25))
  }

  /** What the laws of the gate ask of a policy. */
  predicate Fit(p: Policy) {
    Sound(p) && Ordered(p) && 0.0 <= p.noiseFloor && p.warnAbs > GUARD && p.evidenceQuantile <= 0.5
  }

  /** Every built-in policy satisfies the hypotheses of the laws, whatever row it is applied to. */
  lemma BuiltInPoliciesFit(metric: Metric, seconds: bool, preset: Preset, c: Comparison)
    ensures Fit(DefaultPolicy(metric, seconds))
    ensures Fit(ObservationPolicy(metric, seconds, DevenvPreset(preset)))
    ensures Fit(c.policy) ==> c.WarnBudget() > GUARD
  {
  }
}
