/**
 * From documents to one verdict: grouping observations by key, comparing every current key with
 * its baseline, and rolling the rows up to a status and a readiness summary.
 */
module Rollup {
  import opened Basics
  import opened Statistics
  import opened Gate
  import opened GateLaws

  /** One numeric observation of a document, under its `observation_key`. */
  datatype Observation = Observation(key: string, item: Item)

  /** A measurement document is its list of observations. */
  type Doc = seq<Observation>

  datatype Outcome = Outcome(
    status: Status,
    enabled: bool,
    gateable: bool,
    reason: GateReason,
    confidence: Confidence,
    direction: Direction,
    impact: Option<real>)

  datatype Overall = OverallPass | OverallPartial | OverallWarn | OverallFail

  datatype Readiness = Readiness(
    enabledCount: nat,
    gateableCount: nat,
    nonGateableCount: int,
    enforceable: bool)

  // ---------------------------------------------------------------- grouping

  function ItemsInDoc(doc: Doc, key: string): seq<Item> {
    if doc == [] then [] else (if doc[0].key == key then [doc[0].item] else []) + ItemsInDoc(doc[1..], key)
  }

  /** `observations_by_key`: the items of a key, in document order. */
  function ItemsOf(docs: seq<Doc>, key: string): seq<Item> {
    if docs == [] then [] else ItemsInDoc(docs[0], key) + ItemsOf(docs[1..], key)
  }

  function Keys(docs: seq<Doc>): set<string> {
    set i, j | 0 <= i < |docs| && 0 <= j < |docs[i]| :: docs[i][j].key
  }

  // ---------------------------------------------------------------- comparing

  /** In paired mode the baseline is the base side of the current documents' own pairs. */
  function EffectiveBaseline(policy: Policy, current: Stats, baseline: Option<Stats>): Option<Stats> {
    if policy.mode == Paired && current.pairedBaseline.Some? then
      var b := current.pairedBaseline.value;
      Some(Stats(b, b, b, 0.0, current.pairedSamples, 0, 0, None, None, None, None, None, []))
    else baseline
  }

  function CompareRow(policy: Policy, kind: MeasurementKind, current: Stats, baseline: Option<Stats>): Outcome {
    match EffectiveBaseline(policy, current, baseline)
    case None => Outcome(Unknown, policy.enabled, false, MissingBaseline, NoBaseline, UnknownDirection, None)
    case Some(b) =>
      var c := Comparison(kind, policy, current, b);
      Outcome(c.StatusOf(), policy.enabled, c.Gateable(), c.Reason(), c.ConfidenceOf(), c.DirectionOf(), c.Impact())
  }

  function CompareKey(current: seq<Item>, baseline: seq<Item>): Outcome
    requires current != []
  {
    var last := current[|current| - 1];
    CompareRow(last.policy, last.kind, ObservationStats(current),
               if baseline == [] then None else Some(ObservationStats(baseline)))
  }

  /** The status of an unpaired row is the status that `classify` gives against the documents' own baseline. */
  lemma {:induction false} UnpairedStatus(policy: Policy, kind: MeasurementKind, current: Stats, baseline: Option<Stats>)
    requires policy.mode != Paired
    ensures CompareRow(policy, kind, current, baseline).status ==
            if baseline.None? then Unknown else Comparison(kind, policy, current, baseline.value).StatusOf()
  {
  }

  lemma {:induction false} KeyHasItems(docs: seq<Doc>, key: string)
    requires key in Keys(docs)
    ensures ItemsOf(docs, key) != []
  {
    var i, j :| 0 <= i < |docs| && 0 <= j < |docs[i]| && docs[i][j].key == key;
    if i == 0 {
      DocHasItem(docs[0], key, j);
    } else {
      assert docs[1..][i - 1][j].key == key;
      KeyHasItems(docs[1..], key);
    }
  }

  lemma {:induction false} DocHasItem(doc: Doc, key: string, j: nat)
    requires j < |doc| && doc[j].key == key
    ensures ItemsInDoc(doc, key) != []
  {
    if j > 0 {
      DocHasItem(doc[1..], key, j - 1);
    }
  }

  function Compare(current: seq<Doc>, baseline: seq<Doc>): map<string, Outcome> {
    map key | key in Keys(current) :: KeyHasItems(current, key); CompareKey(ItemsOf(current, key), ItemsOf(baseline, key))
  }

  // ---------------------------------------------------------------- rolling up

  predicate NotReady(r: GateReason) {
    r != Disabled && r != Eligible
  }

  function OverallStatus(rows: map<string, Outcome>): Overall {
    if exists k :: k in rows && rows[k].status == Fail then OverallFail
    else if exists k :: k in rows && rows[k].status == Warn then OverallWarn
    else if exists k :: k in rows && rows[k].enabled && NotReady(rows[k].reason) then OverallPartial
    else OverallPass
  }

  function Enabled(rows: map<string, Outcome>): set<string> {
    set k | k in rows && rows[k].enabled
  }

  function GateableRows(rows: map<string, Outcome>): set<string> {
    set k | k in rows && rows[k].gateable
  }

  function ReadinessOf(rows: map<string, Outcome>): Readiness {
    var e, g := |Enabled(rows)|, |GateableRows(rows)|;
    Readiness(e, g, e - g, e == g)
  }

  /** What `classify` and the missing-baseline case guarantee of a row. */
  predicate WellFormed(o: Outcome) {
    && (o.gateable <==> o.reason == Eligible)
    && (o.reason == Disabled ==> !o.enabled)
    && (o.gateable ==> o.enabled)
    && (o.status == Fail || o.status == Warn ==> o.gateable)
  }

  lemma {:induction false} RowsAreWellFormed(policy: Policy, kind: MeasurementKind, current: Stats, baseline: Option<Stats>)
    ensures WellFormed(CompareRow(policy, kind, current, baseline))
  {
    match EffectiveBaseline(policy, current, baseline)
    case None =>
    case Some(b) =>
      var c := Comparison(kind, policy, current, b);
      assert c.Gateable() <==> c.Reason() == Eligible;
  }

  /** The roll-up law, for any set of rows that `classify` can produce. */
  lemma {:induction false} RollupLaw(rows: map<string, Outcome>)
    requires forall k :: k in rows ==> WellFormed(rows[k])
    ensures GateableRows(rows) <= Enabled(rows)
    ensures 0 <= ReadinessOf(rows).nonGateableCount
    ensures OverallStatus(rows) == OverallPass ==> ReadinessOf(rows).enforceable
    ensures OverallStatus(rows) == OverallPartial ==> !ReadinessOf(rows).enforceable
    ensures OverallStatus(rows) == OverallFail || OverallStatus(rows) == OverallWarn ==> GateableRows(rows) != {}
  {
    var e, g := Enabled(rows), GateableRows(rows);
    SubsetSizes(g, e);
    if OverallStatus(rows) == OverallPass {
      forall k | k in e ensures k in g {
        assert !NotReady(rows[k].reason);
      }
      assert e == g;
    } else if OverallStatus(rows) == OverallPartial {
      var k :| k in rows && rows[k].enabled && NotReady(rows[k].reason);
      assert k in e && k !in g;
    } else {
      var k :| k in rows && (rows[k].status == Fail || rows[k].status == Warn);
      assert k in g;
    }
  }

  /** The law holds of every comparison of documents. */
  lemma {:induction false} ComparisonsRollUp(current: seq<Doc>, baseline: seq<Doc>)
    ensures var rows := Compare(current, baseline);
            && (forall k :: k in rows ==> WellFormed(rows[k]))
            && (OverallStatus(rows) == OverallPass ==> ReadinessOf(rows).enforceable)
            && (OverallStatus(rows) == OverallPartial ==> !ReadinessOf(rows).enforceable)
            && (OverallStatus(rows) == OverallFail || OverallStatus(rows) == OverallWarn ==> GateableRows(rows) != {})
            && GateableRows(rows) <= Enabled(rows)
  {
    hide ObservationStats, ItemsOf, CompareRow, OverallStatus, ReadinessOf;
    var rows := Compare(current, baseline);
    forall k | k in rows ensures WellFormed(rows[k]) {
      KeyHasItems(current, k);
      var last := ItemsOf(current, k)[|ItemsOf(current, k)| - 1];
      RowsAreWellFormed(last.policy, last.kind, ObservationStats(ItemsOf(current, k)),
                        if ItemsOf(baseline, k) == [] then None else Some(ObservationStats(ItemsOf(baseline, k))));
    }
    RollupLaw(rows);
  }

  // ---------------------------------------------------------------- whole documents

  /** Every policy in the documents is unpaired and sound. */
  ghost predicate Unpaired(docs: seq<Doc>) {
    forall i, j :: 0 <= i < |docs| && 0 <= j < |docs[i]| ==> Sound(docs[i][j].item.policy) && docs[i][j].item.policy.mode != Paired
  }

  lemma {:induction false} ItemsUnpaired(docs: seq<Doc>, key: string)
    requires Unpaired(docs)
    ensures forall it :: it in ItemsOf(docs, key) ==> Sound(it.policy) && it.policy.mode != Paired
  {
    if docs != [] {
      DocUnpaired(docs[0], key);
      assert Unpaired(docs[1..]) by {
        forall i, j | 0 <= i < |docs[1..]| && 0 <= j < |docs[1..][i]|
          ensures Sound(docs[1..][i][j].item.policy) && docs[1..][i][j].item.policy.mode != Paired
        {
          assert docs[1..][i] == docs[i + 1];
        }
      }
      ItemsUnpaired(docs[1..], key);
    }
  }

  lemma {:induction false} DocUnpaired(doc: Doc, key: string)
    requires forall j :: 0 <= j < |doc| ==> Sound(doc[j].item.policy) && doc[j].item.policy.mode != Paired
    ensures forall it :: it in ItemsInDoc(doc, key) ==> Sound(it.policy) && it.policy.mode != Paired
  {
    if doc != [] {
      DocUnpaired(doc[1..], key);
    }
  }

  /** Comparing documents with themselves never warns or fails. */
  lemma {:induction false} SelfComparison(docs: seq<Doc>)
    requires Unpaired(docs)
    ensures OverallStatus(Compare(docs, docs)) in {OverallPass, OverallPartial}
  {
    hide ObservationStats, ItemsOf;
    var rows := Compare(docs, docs);
    forall k | k in rows ensures rows[k].status != Fail && rows[k].status != Warn {
      KeyHasItems(docs, k);
      ItemsUnpaired(docs, k);
      SelfKey(ItemsOf(docs, k));
    }
  }

  lemma {:induction false} SelfKey(items: seq<Item>)
    requires items != [] && forall it :: it in items ==> Sound(it.policy) && it.policy.mode != Paired
    ensures CompareKey(items, items).status != Fail && CompareKey(items, items).status != Warn
  {
    var last, stats := items[|items| - 1], ObservationStats(items);
    UnpairedStatus(last.policy, last.kind, stats, Some(stats));
    SelfRowPasses(last.kind, last.policy, stats);
  }

  /** Every sample of every document slower by `c`. */
  function SlowerDoc(doc: Doc, c: real): Doc {
    seq(|doc|, i requires 0 <= i < |doc| => Observation(doc[i].key, doc[i].item.(value := doc[i].item.value + c)))
  }

  function SlowerDocs(docs: seq<Doc>, c: real): seq<Doc> {
    seq(|docs|, i requires 0 <= i < |docs| => SlowerDoc(docs[i], c))
  }

  lemma {:induction false} SlowerItems(docs: seq<Doc>, key: string, c: real)
    ensures ItemsOf(SlowerDocs(docs, c), key) == Slower(ItemsOf(docs, key), c)
  {
    if docs != [] {
      SlowerItemsInDoc(docs[0], key, c);
      SlowerItems(docs[1..], key, c);
      assert SlowerDocs(docs, c)[1..] == SlowerDocs(docs[1..], c);
    }
  }

  lemma {:induction false} SlowerItemsInDoc(doc: Doc, key: string, c: real)
    ensures ItemsInDoc(SlowerDoc(doc, c), key) == Slower(ItemsInDoc(doc, key), c)
  {
    if doc != [] {
      SlowerItemsInDoc(doc[1..], key, c);
      assert SlowerDoc(doc, c)[1..] == SlowerDoc(doc[1..], c);
    }
  }

  lemma {:induction false} SlowerKeys(docs: seq<Doc>, c: real)
    ensures Keys(SlowerDocs(docs, c)) == Keys(docs)
  {
    var slower := SlowerDocs(docs, c);
    forall k | k in Keys(docs) ensures k in Keys(slower) {
      var i, j :| 0 <= i < |docs| && 0 <= j < |docs[i]| && docs[i][j].key == k;
      assert slower[i][j].key == k;
    }
    forall k | k in Keys(slower) ensures k in Keys(docs) {
      var i, j :| 0 <= i < |slower| && 0 <= j < |slower[i]| && slower[i][j].key == k;
      assert docs[i][j].key == k;
    }
  }

  /** Slowing every current sample down by the same amount never improves the overall verdict: a failure stays one, a warning stays or fails, and a partial result does not pass. */
  lemma {:induction false} SlowerDocumentsNoBetter(current: seq<Doc>, baseline: seq<Doc>, c: real)
    requires Unpaired(current) && 0.0 <= c
    ensures var before, after := OverallStatus(Compare(current, baseline)), OverallStatus(Compare(SlowerDocs(current, c), baseline));
            && (before == OverallFail ==> after == OverallFail)
            && (before == OverallWarn ==> after == OverallWarn || after == OverallFail)
            && (before == OverallPartial ==> after != OverallPass)
  {
    var rows, rows' := Compare(current, baseline), Compare(SlowerDocs(current, c), baseline);
    SlowerKeys(current, c);
    forall k | k in rows ensures k in rows' && Worse(rows[k], rows'[k]) {
      SlowerKey(current, baseline, c, k);
    }
    WorseRows(rows, rows');
  }

  /** No better a status, for the same reason to gate or not. */
  predicate Worse(o: Outcome, o': Outcome) {
    Rank3(o.status) <= Rank3(o'.status) && o'.enabled == o.enabled && o'.reason == o.reason
  }

  lemma {:induction false} WorseRows(rows: map<string, Outcome>, rows': map<string, Outcome>)
    requires forall k :: k in rows ==> k in rows' && Worse(rows[k], rows'[k])
    ensures OverallStatus(rows) == OverallFail ==> OverallStatus(rows') == OverallFail
    ensures OverallStatus(rows) == OverallWarn ==> OverallStatus(rows') == OverallWarn || OverallStatus(rows') == OverallFail
    ensures OverallStatus(rows) == OverallPartial ==> OverallStatus(rows') != OverallPass
  {
    if OverallStatus(rows) == OverallFail {
      var k :| k in rows && rows[k].status == Fail;
      assert rows'[k].status == Fail;
    } else if OverallStatus(rows) == OverallWarn {
      var k :| k in rows && rows[k].status == Warn;
      assert rows'[k].status == Fail || rows'[k].status == Warn;
    } else if OverallStatus(rows) == OverallPartial {
      var k :| k in rows && rows[k].enabled && NotReady(rows[k].reason);
      assert rows'[k].enabled && NotReady(rows'[k].reason);
    }
  }

  lemma {:induction false} SlowerKey(current: seq<Doc>, baseline: seq<Doc>, c: real, key: string)
    requires Unpaired(current) && 0.0 <= c && key in Keys(current)
    ensures ItemsOf(current, key) != [] && ItemsOf(SlowerDocs(current, c), key) != []
    ensures Worse(CompareKey(ItemsOf(current, key), ItemsOf(baseline, key)),
                  CompareKey(ItemsOf(SlowerDocs(current, c), key), ItemsOf(baseline, key)))
  {
    KeyHasItems(current, key);
    SlowerItems(current, key, c);
    ItemsUnpaired(current, key);
    SlowerItemsNoBetter(ItemsOf(current, key), ItemsOf(baseline, key), c);
  }

  /** Slower samples change nothing about whether a row is gateable. */
  lemma {:induction false} SameReason(policy: Policy, kind: MeasurementKind, items: seq<Item>, baseline: Stats, c: real)
    requires items != [] && policy.mode != Paired
    ensures var before, after := CompareRow(policy, kind, ObservationStats(items), Some(baseline)),
                                 CompareRow(policy, kind, ObservationStats(Slower(items, c)), Some(baseline));
            after.reason == before.reason && after.gateable == before.gateable
  {
    hide ObservationStats;
    StatsOfSlower(items, c);
  }

  lemma {:induction false} SlowerItemsNoBetter(items: seq<Item>, base: seq<Item>, c: real)
    requires items != [] && 0.0 <= c && forall it :: it in items ==> Sound(it.policy) && it.policy.mode != Paired
    ensures Worse(CompareKey(items, base), CompareKey(Slower(items, c), base))
  {
    var last, slower := items[|items| - 1], Slower(items, c);
    var baseline := if base == [] then None else Some(ObservationStats(base));
    assert slower[|slower| - 1].policy == last.policy && slower[|slower| - 1].kind == last.kind;
    UnpairedStatus(last.policy, last.kind, ObservationStats(items), baseline);
    UnpairedStatus(last.policy, last.kind, ObservationStats(slower), baseline);
    if baseline.Some? {
      SlowerSamplesNoBetter(last.kind, last.policy, items, baseline.value, c);
      SameReason(last.policy, last.kind, items, baseline.value, c);
    }
  }
}
