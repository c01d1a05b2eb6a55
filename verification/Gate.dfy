/**
 * The regression gate of one measured row: `observation_stats` and `classify`, over the reals.
 *
 * A `Comparison` holds the arguments of `classify`; each of its functions is one of the
 * bindings that `classify` computes.
 */
module Gate {
  import opened Basics
  import opened Statistics

  type Fraction = x: real | 0.0 <= x <= 1.0

  datatype ComparisonMode = Budget | Historical | Paired | Diagnostic

  datatype MeasurementKind = Deterministic | DiagnosticKind | WallClock

  /** A gate policy with every default filled in. */
  datatype Policy = Policy(
    enabled: bool,
    mode: ComparisonMode,
    minBaselineSources: int,
    minCurrentSamples: int,
    minPairedSamples: int,
    noiseFloor: real,
    warnRatio: real,
    failRatio: real,
    warnAbs: real,
    failAbs: real,
    toleranceRatio: real,
    toleranceAbs: real,
    evidenceQuantile: Fraction)

  /** The numbers of one observation in one document; absent fields are `None`. */
  datatype Item = Item(
    value: real,
    samples: Option<nat>,
    pairedSamples: Option<nat>,
    pairedBaseline: Option<real>,
    deltaMedian: Option<real>,
    deltaP25: Option<real>,
    deltaP75: Option<real>,
    deltaMad: Option<real>,
    deltaSamples: seq<real>,
    kind: MeasurementKind,
    policy: Policy)

  datatype Stats = Stats(
    value: real,
    p25: real,
    p75: real,
    mad: real,
    sources: nat,
    samples: nat,
    pairedSamples: nat,
    pairedBaseline: Option<real>,
    deltaMedian: Option<real>,
    deltaP25: Option<real>,
    deltaP75: Option<real>,
    deltaMad: Option<real>,
    deltaSamples: seq<real>)

  datatype Status = Pass | Warn | Fail | Unknown

  datatype GateReason =
    | Disabled | MissingBaseline | LowBaselineCount | LowCurrentSampleCount
    | LowPairedSampleCount | MissingPairedDelta | Eligible

  datatype Confidence =
    | UnknownConfidence | DiagnosticOnly | NoiseFloor | FewBaselines | FewCurrentSamples | FewPairedSamples
    | NoPairedDelta | PairedUncertain | WithinRobustBand | WithinBudget | ThresholdExceeded | NoBaseline

  datatype Direction = UnknownDirection | Unchanged | Improved | Regressed

  datatype ImpactKind =
    | DiagnosticImpact | UnknownImpact | Neutral | FailBoundary | WarnBoundary | BelowWarnBoundary | Improvement

  const GUARD := 0.000000001

  function Max(a: real, b: real): real {
    if a >= b then a else b
  }

  // ---------------------------------------------------------------- observation_stats

  function Map<A, B>(f: A -> B, s: seq<A>): seq<B> {
    seq(|s|, i requires 0 <= i < |s| => f(s[i]))
  }

  function Present(s: seq<Option<real>>): seq<real> {
    if s == [] then [] else (if s[0].Some? then [s[0].value] else []) + Present(s[1..])
  }

  function Sum(s: seq<nat>): nat {
    if s == [] then 0 else s[0] + Sum(s[1..])
  }

  function Concat(s: seq<seq<real>>): seq<real> {
    if s == [] then [] else s[0] + Concat(s[1..])
  }

  function Values(items: seq<Item>): seq<real> {
    Map((it: Item) => it.value, items)
  }

  function ObservationStats(items: seq<Item>): Stats
    requires items != []
  {
    var values := Values(items);
    ShiftLaws(values, 0.0);
    Stats(
      Median(values).value,
      Percentile(values, 0.25).value,
      Percentile(values, 0.75).value,
      MadIsSome(values); Mad(values).value,
      |items|,
      Sum(Map((it: Item) => if it.samples.Some? then it.samples.value else 1, items)),
      Sum(Map((it: Item) => if it.pairedSamples.Some? then it.pairedSamples.value else 0, items)),
      Median(Present(Map((it: Item) => it.pairedBaseline, items))),
      Median(Present(Map((it: Item) => it.deltaMedian, items))),
      Median(Present(Map((it: Item) => it.deltaP25, items))),
      Median(Present(Map((it: Item) => it.deltaP75, items))),
      Median(Present(Map((it: Item) => it.deltaMad, items))),
      Concat(Map((it: Item) => it.deltaSamples, items)))
  }

  lemma MadIsSome(s: seq<real>)
    requires s != []
    ensures Mad(s).Some?
  {
    MedianOfSome(s);
    MedianOfSome(Deviations(s, Median(s).value));
  }

  // ---------------------------------------------------------------- classify

  /** The largest of the noise floor, the absolute and relative tolerances, 3 MAD and 1.5 IQR around `centre`. */
  function Band(policy: Policy, centre: real, mad: real, iqr: real): real {
    Max(Max(Max(Max(policy.noiseFloor, policy.toleranceAbs),
                if centre > 0.0 then centre * policy.toleranceRatio else 0.0),
            mad * 3.0),
        iqr * 1.5)
  }

  datatype Comparison = Comparison(kind: MeasurementKind, policy: Policy, current: Stats, baseline: Stats) {
    function Delta(): real { current.value - baseline.value }

    predicate PairedMode() { policy.mode == Paired }

    predicate HasBaseline() { baseline.value > 0.0 }

    function EvidenceDelta(): real {
      if PairedMode() then OrElse(current.deltaMedian, Delta()) else Delta()
    }

    function RobustTolerance(): real { Band(policy, baseline.value, baseline.mad, baseline.p75 - baseline.p25) }

    function CurrentTolerance(): real {
      if current.samples > 1 then Band(policy, current.value, current.mad, current.p75 - current.p25) else 0.0
    }

    function PairedTolerance(): real {
      Band(policy, baseline.value, OrElse(current.deltaMad, 0.0),
           OrElse(current.deltaP75, EvidenceDelta()) - OrElse(current.deltaP25, EvidenceDelta()))
    }

    function RobustUpper(): real { baseline.value + RobustTolerance() }

    function RobustLower(): real { baseline.value - RobustTolerance() }

    function CurrentUpper(): real { current.value + CurrentTolerance() }

    function CurrentLower(): real { current.value - CurrentTolerance() }

    function EvidenceLower(): real {
      if PairedMode() && |current.deltaSamples| > 0 then
        ShiftLaws(current.deltaSamples, 0.0);
        Percentile(current.deltaSamples, policy.evidenceQuantile).value
      else EvidenceDelta() - PairedTolerance()
    }

    function EvidenceUpper(): real {
      if PairedMode() && |current.deltaSamples| > 0 then
        ShiftLaws(current.deltaSamples, 0.0);
        Percentile(current.deltaSamples, 1.0 - policy.evidenceQuantile).value
      else EvidenceDelta() + PairedTolerance()
    }

    function BudgetOf(abs: real, ratio: real): real {
      Max(Max(Max(abs, if HasBaseline() then baseline.value * (ratio - 1.0) else 0.0), policy.noiseFloor), GUARD)
    }

    function WarnBudget(): real { BudgetOf(policy.warnAbs, policy.warnRatio) }

    function FailBudget(): real { BudgetOf(policy.failAbs, policy.failRatio) }

    /** A change in warn budgets. */
    function InWarnBudgets(x: real): (r: real)
      ensures 0.0 <= x ==> 0.0 <= r
      ensures x == 0.0 ==> r == 0.0
    {
      assert WarnBudget() > 0.0 && (x / WarnBudget()) * WarnBudget() == x;
      x / WarnBudget()
    }

    predicate WithinBand() {
      || (RobustLower() <= current.value <= RobustUpper())
      || (CurrentTolerance() > 0.0 && CurrentLower() <= RobustUpper() && CurrentUpper() >= RobustLower())
    }

    predicate MaySuppress() { policy.mode == Historical && kind != Deterministic }

    predicate Exceeds(abs: real, ratio: real) {
      Delta() > abs && current.value > baseline.value * ratio
    }

    function ThresholdStatus(): Status {
      if !HasBaseline() then Unknown
      else if PairedMode() then
        if EvidenceLower() > FailBudget() then Fail
        else if EvidenceLower() > WarnBudget() then Warn
        else Pass
      else if Exceeds(policy.failAbs, policy.failRatio) then Fail
      else if Exceeds(policy.warnAbs, policy.warnRatio) then Warn
      else Pass
    }

    predicate Gateable() {
      && policy.enabled
      && HasBaseline()
      && (PairedMode() || baseline.sources >= policy.minBaselineSources)
      && current.samples >= policy.minCurrentSamples
      && (PairedMode() ==> current.pairedSamples >= policy.minPairedSamples)
      && (PairedMode() ==> current.deltaMedian.Some?)
    }

    function Reason(): GateReason {
      if !policy.enabled then Disabled
      else if !HasBaseline() then MissingBaseline
      else if !PairedMode() && baseline.sources < policy.minBaselineSources then LowBaselineCount
      else if current.samples < policy.minCurrentSamples then LowCurrentSampleCount
      else if PairedMode() && current.pairedSamples < policy.minPairedSamples then LowPairedSampleCount
      else if PairedMode() && current.deltaMedian.None? then MissingPairedDelta
      else Eligible
    }

    function ConfidenceOf(): Confidence {
      if !HasBaseline() then UnknownConfidence
      else if !policy.enabled then DiagnosticOnly
      else if Abs(Delta()) <= policy.noiseFloor then NoiseFloor
      else if !PairedMode() && baseline.sources < policy.minBaselineSources then FewBaselines
      else if current.samples < policy.minCurrentSamples then FewCurrentSamples
      else if PairedMode() && current.pairedSamples < policy.minPairedSamples then FewPairedSamples
      else if PairedMode() && current.deltaMedian.None? then NoPairedDelta
      else if PairedMode() && ThresholdStatus() == Pass && EvidenceDelta() > WarnBudget() then PairedUncertain
      else if MaySuppress() && ThresholdStatus() != Pass && WithinBand() then WithinRobustBand
      else if ThresholdStatus() == Pass then WithinBudget
      else ThresholdExceeded
    }

    function StatusOf(): Status {
      if Gateable() && ConfidenceOf() == ThresholdExceeded then ThresholdStatus()
      else if ThresholdStatus() == Unknown then Unknown
      else Pass
    }

    function DirectionOf(): Direction {
      if !HasBaseline() then UnknownDirection
      else if PairedMode() && Abs(EvidenceDelta()) <= policy.noiseFloor then Unchanged
      else if PairedMode() && EvidenceLower() <= 0.0 && EvidenceUpper() >= 0.0 then Unchanged
      else if PairedMode() && EvidenceDelta() < 0.0 then Improved
      else if PairedMode() then Regressed
      else if Abs(Delta()) <= policy.noiseFloor then Unchanged
      else if MaySuppress() && WithinBand() then Unchanged
      else if Delta() < 0.0 then Improved
      else Regressed
    }

    /** `semanticImpactScore`: the part of the change beyond doubt, in warn budgets. */
    function Impact(): Option<real> {
      if !HasBaseline() then None
      else if !policy.enabled then None
      else if PairedMode() && EvidenceLower() <= 0.0 && EvidenceUpper() >= 0.0 then Some(0.0)
      else if PairedMode() && Abs(EvidenceDelta()) <= policy.noiseFloor then Some(0.0)
      else if PairedMode() && EvidenceDelta() > 0.0 then Some(InWarnBudgets(Max(0.0, EvidenceLower())))
      else if PairedMode() then Some(-InWarnBudgets(Max(0.0, -EvidenceUpper())))
      else if MaySuppress() && WithinBand() then Some(0.0)
      else if Abs(Delta()) <= policy.noiseFloor then Some(0.0)
      else if ConfidenceOf() == ThresholdExceeded && Delta() > 0.0 then
        Some(InWarnBudgets(Max(Max(0.0, CurrentLower() - RobustUpper()), Delta())))
      else if ConfidenceOf() == ThresholdExceeded && Delta() < 0.0 then
        Some(-InWarnBudgets(Max(Max(0.0, RobustLower() - CurrentUpper()), -Delta())))
      else if Delta() > 0.0 then Some(InWarnBudgets(Max(0.0, CurrentLower() - RobustUpper())))
      else Some(-InWarnBudgets(Max(0.0, RobustLower() - CurrentUpper())))
    }

    function KindOfImpact(): ImpactKind {
      if !policy.enabled then DiagnosticImpact
      else match Impact()
        case None => UnknownImpact
        case Some(score) =>
          if score == 0.0 then Neutral
          else if score >= FailBudget() / WarnBudget() then FailBoundary
          else if score >= 1.0 then WarnBoundary
          else if score > 0.0 then BelowWarnBoundary
          else Improvement
    }
  }
}
