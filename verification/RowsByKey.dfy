/**
 * What a row of the comparison is about: the observations of its key, in document order, and
 * nothing else; and how the rows make up the overall verdict.
 */
module RowsByKey {
  import opened Basics
  import opened Statistics
  import opened Gate
  import opened GateLaws
  import opened Rollup

  // ---------------------------------------------------------------- grouping

  /** Observation `j` of document `i` has the key. */
  predicate HasKey(docs: seq<Doc>, key: string, i: nat, j: nat) {
    i < |docs| && j < |docs[i]| && docs[i][j].key == key
  }

  predicate Earlier(a: (nat, nat), b: (nat, nat)) {
    a.0 < b.0 || (a.0 == b.0 && a.1 < b.1)
  }

  /** The positions `at` are those of the key, all of them, in document order, and `items` stand there. */
  ghost predicate StandAt(docs: seq<Doc>, key: string, items: seq<Item>, at: seq<(nat, nat)>) {
    && |at| == |items|
    && (forall n :: 0 <= n < |at| ==> HasKey(docs, key, at[n].0, at[n].1) && docs[at[n].0][at[n].1].item == items[n])
    && (forall m, n :: 0 <= m < n < |at| ==> Earlier(at[m], at[n]))
    && (forall i: nat, j: nat :: HasKey(docs, key, i, j) ==> (i, j) in at)
  }

  /** The positions of the key in one document. */
  function Places(doc: Doc, key: string): seq<nat> {
    if doc == [] then [] else (if doc[0].key == key then [0] else []) + Later(Places(doc[1..], key))
  }

  function Later(places: seq<nat>): seq<nat> {
    seq(|places|, n requires 0 <= n < |places| => places[n] + 1)
  }

  ghost predicate Ascends(places: seq<nat>) {
    forall m, n :: 0 <= m < n < |places| ==> places[m] < places[n]
  }

  /** The items stand at the places. */
  ghost predicate PlacedIn(doc: Doc, key: string, items: seq<Item>, places: seq<nat>) {
    |places| == |items| && forall n :: 0 <= n < |places| ==> places[n] < |doc| && doc[places[n]] == Observation(key, items[n])
  }

  lemma {:induction false} PlacedLater(doc: Doc, key: string, items: seq<Item>, places: seq<nat>)
    requires doc != [] && PlacedIn(doc[1..], key, items, places)
    ensures PlacedIn(doc, key, items, Later(places))
  {
    forall n | 0 <= n < |places| ensures places[n] + 1 < |doc| && doc[places[n] + 1] == Observation(key, items[n]) {
      assert doc[1..][places[n]] == doc[places[n] + 1];
    }
  }

  lemma {:induction false} ItemsArePlaced(doc: Doc, key: string)
    ensures PlacedIn(doc, key, ItemsInDoc(doc, key), Places(doc, key))
  {
    if doc != [] {
      ItemsArePlaced(doc[1..], key);
      var items, places := ItemsInDoc(doc[1..], key), Later(Places(doc[1..], key));
      PlacedLater(doc, key, items, Places(doc[1..], key));
      hide Later;
      if doc[0].key == key {
        assert [0] + places == Places(doc, key) && [doc[0].item] + items == ItemsInDoc(doc, key);
      } else {
        assert [] + places == places && [] + items == items;
      }
    }
  }

  lemma {:induction false} PlacesAscend(doc: Doc, key: string)
    ensures Ascends(Places(doc, key))
  {
    if doc != [] {
      PlacesAscend(doc[1..], key);
    }
  }

  lemma {:induction false} PlacesAreAll(doc: Doc, key: string, j: nat)
    requires j < |doc| && doc[j].key == key
    ensures j in Places(doc, key)
  {
    if j == 0 {
      assert Places(doc, key)[0] == 0;
    } else {
      PlacesAreAll(doc[1..], key, j - 1);
      var places := Places(doc[1..], key);
      var n :| 0 <= n < |places| && places[n] == j - 1;
      assert Later(places)[n] == j;
    }
  }

  /** The positions of the key in all documents. */
  function Positions(docs: seq<Doc>, key: string): seq<(nat, nat)> {
    if docs == [] then [] else InFirst(Places(docs[0], key)) + NextDoc(Positions(docs[1..], key))
  }

  function InFirst(places: seq<nat>): seq<(nat, nat)> {
    seq(|places|, n requires 0 <= n < |places| => (0, places[n]))
  }

  function NextDoc(at: seq<(nat, nat)>): seq<(nat, nat)> {
    seq(|at|, n requires 0 <= n < |at| => (at[n].0 + 1, at[n].1))
  }

  /** The items of a key are, in order, exactly those of the observations that have the key. */
  lemma {:induction false} ItemsStandAt(docs: seq<Doc>, key: string)
    ensures StandAt(docs, key, ItemsOf(docs, key), Positions(docs, key))
  {
    ItemsStand(docs, key);
    PositionsAscend(docs, key);
    forall i: nat, j: nat | HasKey(docs, key, i, j) ensures (i, j) in Positions(docs, key) {
      PositionsAreAll(docs, key, i, j);
    }
  }

  ghost predicate Stand(docs: seq<Doc>, key: string, items: seq<Item>, at: seq<(nat, nat)>) {
    && |at| == |items|
    && forall n :: 0 <= n < |at| ==> HasKey(docs, key, at[n].0, at[n].1) && docs[at[n].0][at[n].1].item == items[n]
  }

  lemma {:induction false} ItemsStand(docs: seq<Doc>, key: string)
    ensures Stand(docs, key, ItemsOf(docs, key), Positions(docs, key))
  {
    if docs != [] {
      ItemsStand(docs[1..], key);
      ItemsArePlaced(docs[0], key);
      StandInFirst(docs, key, ItemsInDoc(docs[0], key), Places(docs[0], key));
      StandInNext(docs, key, ItemsOf(docs[1..], key), Positions(docs[1..], key));
      hide InFirst, NextDoc, ItemsInDoc, Places;
      StandTogether(docs, key, ItemsInDoc(docs[0], key), InFirst(Places(docs[0], key)), ItemsOf(docs[1..], key), NextDoc(Positions(docs[1..], key)));
    }
  }

  lemma StandInFirst(docs: seq<Doc>, key: string, items: seq<Item>, places: seq<nat>)
    requires docs != [] && PlacedIn(docs[0], key, items, places)
    ensures Stand(docs, key, items, InFirst(places))
  {
  }

  lemma {:induction false} StandInNext(docs: seq<Doc>, key: string, items: seq<Item>, at: seq<(nat, nat)>)
    requires docs != [] && Stand(docs[1..], key, items, at)
    ensures Stand(docs, key, items, NextDoc(at))
  {
    forall n | 0 <= n < |at| ensures HasKey(docs, key, at[n].0 + 1, at[n].1) && docs[at[n].0 + 1][at[n].1].item == items[n] {
      assert HasKey(docs[1..], key, at[n].0, at[n].1) && docs[1..][at[n].0] == docs[at[n].0 + 1];
    }
  }

  lemma StandTogether(docs: seq<Doc>, key: string, items: seq<Item>, at: seq<(nat, nat)>, items': seq<Item>, at': seq<(nat, nat)>)
    requires Stand(docs, key, items, at) && Stand(docs, key, items', at')
    ensures Stand(docs, key, items + items', at + at')
  {
  }

  lemma {:induction false} PositionsAscend(docs: seq<Doc>, key: string)
    ensures forall m, n :: 0 <= m < n < |Positions(docs, key)| ==> Earlier(Positions(docs, key)[m], Positions(docs, key)[n])
  {
    if docs != [] {
      PositionsAscend(docs[1..], key);
      PlacesAscend(docs[0], key);
      hide Places;
      var first, next := InFirst(Places(docs[0], key)), NextDoc(Positions(docs[1..], key));
      assert forall n :: 0 <= n < |first| ==> first[n].0 == 0;
      assert forall n :: 0 <= n < |next| ==> next[n].0 > 0;
      assert forall m, n :: 0 <= m < n < |next| ==> Earlier(next[m], next[n]);
    }
  }

  lemma {:induction false} PositionsAreAll(docs: seq<Doc>, key: string, i: nat, j: nat)
    requires HasKey(docs, key, i, j)
    ensures (i, j) in Positions(docs, key)
  {
    if i == 0 {
      PlacesAreAll(docs[0], key, j);
      var places := Places(docs[0], key);
      var n :| 0 <= n < |places| && places[n] == j;
      assert InFirst(places)[n] == (0, j);
    } else {
      assert docs[1..][i - 1] == docs[i];
      PositionsAreAll(docs[1..], key, i - 1, j);
      var at := Positions(docs[1..], key);
      var n :| 0 <= n < |at| && at[n] == (i - 1, j);
      assert NextDoc(at)[n] == (i, j);
    }
  }

  // ---------------------------------------------------------------- rows

  /** A document with the observations of one key only. */
  function Only(doc: Doc, key: string): Doc {
    if doc == [] then [] else (if doc[0].key == key then [doc[0]] else []) + Only(doc[1..], key)
  }

  function OnlyDocs(docs: seq<Doc>, key: string): seq<Doc> {
    seq(|docs|, i requires 0 <= i < |docs| => Only(docs[i], key))
  }

  lemma {:induction false} ItemsInOnly(doc: Doc, key: string)
    ensures ItemsInDoc(Only(doc, key), key) == ItemsInDoc(doc, key)
  {
    if doc != [] {
      ItemsInOnly(doc[1..], key);
      var rest := Only(doc[1..], key);
      assert doc[0].key == key ==> Only(doc, key)[1..] == rest;
      assert doc[0].key != key ==> Only(doc, key) == rest;
    }
  }

  lemma {:induction false} ItemsOfOnly(docs: seq<Doc>, key: string)
    ensures ItemsOf(OnlyDocs(docs, key), key) == ItemsOf(docs, key)
  {
    if docs != [] {
      ItemsInOnly(docs[0], key);
      ItemsOfOnly(docs[1..], key);
      assert OnlyDocs(docs, key)[1..] == OnlyDocs(docs[1..], key);
    }
  }

  lemma {:induction false} KeyIsThere(docs: seq<Doc>, key: string)
    ensures key in Keys(docs) <==> ItemsOf(docs, key) != []
  {
    if key in Keys(docs) {
      KeyHasItems(docs, key);
    }
    if ItemsOf(docs, key) != [] {
      ItemsStandAt(docs, key);
      var at := Positions(docs, key);
      assert HasKey(docs, key, at[0].0, at[0].1);
    }
  }

  /** A row does not change when observations of other keys are added or removed, on either side. */
  lemma {:induction false} RowIsLocal(current: seq<Doc>, current': seq<Doc>, baseline: seq<Doc>, baseline': seq<Doc>, key: string)
    requires OnlyDocs(current, key) == OnlyDocs(current', key) && OnlyDocs(baseline, key) == OnlyDocs(baseline', key)
    ensures key in Compare(current, baseline) <==> key in Compare(current', baseline')
    ensures key in Compare(current, baseline) ==> Compare(current, baseline)[key] == Compare(current', baseline')[key]
  {
    hide CompareKey;
    ItemsOfOnly(current, key);
    ItemsOfOnly(current', key);
    ItemsOfOnly(baseline, key);
    ItemsOfOnly(baseline', key);
    KeyIsThere(current, key);
    KeyIsThere(current', key);
  }

  /** There is a row for every key of the current documents, and for no other. */
  lemma {:induction false} RowsOfCurrentKeys(current: seq<Doc>, baseline: seq<Doc>, key: string)
    ensures key in Compare(current, baseline) <==> exists i: nat, j: nat :: HasKey(current, key, i, j)
  {
    hide CompareKey;
    if key in Keys(current) {
      var i, j :| 0 <= i < |current| && 0 <= j < |current[i]| && current[i][j].key == key;
      assert HasKey(current, key, i, j);
    }
  }

  /** The row of several items under the policy and kind of one of them. */
  function JudgedBy(item: Item, items: seq<Item>, base: seq<Item>): Outcome
    requires items != []
  {
    CompareRow(item.policy, item.kind, ObservationStats(items), if base == [] then None else Some(ObservationStats(base)))
  }

  ghost predicate IsLatest(docs: seq<Doc>, key: string, i: nat, j: nat) {
    HasKey(docs, key, i, j) && forall i': nat, j': nat :: HasKey(docs, key, i', j') ==> !Earlier((i, j), (i', j'))
  }

  /** A row is judged by the policy and kind of the latest current observation of its key. */
  lemma {:induction false} RowPolicyIsLatest(current: seq<Doc>, baseline: seq<Doc>, key: string, i: nat, j: nat)
    requires IsLatest(current, key, i, j)
    ensures key in Compare(current, baseline) && ItemsOf(current, key) != []
    ensures Compare(current, baseline)[key] == JudgedBy(current[i][j].item, ItemsOf(current, key), ItemsOf(baseline, key))
    ensures Compare(current, baseline)[key].enabled == current[i][j].item.policy.enabled
  {
    hide ObservationStats, CompareRow, Compare, ItemsOf;
    RowIsCompared(current, baseline, key, i, j);
    LatestStandsLast(current, key, i, j);
    JudgedEnabled(current[i][j].item, ItemsOf(current, key), ItemsOf(baseline, key));
  }

  lemma JudgedEnabled(item: Item, items: seq<Item>, base: seq<Item>)
    requires items != []
    ensures JudgedBy(item, items, base).enabled == item.policy.enabled
  {
    hide ObservationStats;
  }

  lemma RowIsCompared(current: seq<Doc>, baseline: seq<Doc>, key: string, i: nat, j: nat)
    requires HasKey(current, key, i, j)
    ensures key in Compare(current, baseline) && ItemsOf(current, key) != []
    ensures Compare(current, baseline)[key] == CompareKey(ItemsOf(current, key), ItemsOf(baseline, key))
  {
    hide CompareKey, ItemsOf;
    RowsOfCurrentKeys(current, baseline, key);
    KeyHasItems(current, key);
  }

  lemma EnabledIsThePolicys(policy: Policy, kind: MeasurementKind, current: Stats, baseline: Option<Stats>)
    ensures CompareRow(policy, kind, current, baseline).enabled == policy.enabled
  {
  }

  lemma {:induction false} LatestStandsLast(docs: seq<Doc>, key: string, i: nat, j: nat)
    requires IsLatest(docs, key, i, j)
    ensures var items := ItemsOf(docs, key); items != [] && items[|items| - 1] == docs[i][j].item
  {
    hide ItemsOf, Positions;
    ItemsStandAt(docs, key);
    var at := Positions(docs, key);
    var n :| 0 <= n < |at| && at[n] == (i, j);
    assert HasKey(docs, key, at[|at| - 1].0, at[|at| - 1].1);
  }

  /** A row without baseline documents is unknown, unless it is paired and carries its own baseline. */
  lemma {:induction false} MissingBaselineRow(policy: Policy, kind: MeasurementKind, current: Stats)
    requires policy.mode != Paired || current.pairedBaseline.None?
    ensures var row := CompareRow(policy, kind, current, None);
            row.status == Unknown && row.reason == MissingBaseline && !row.gateable && row.impact == None && row.direction == UnknownDirection
  {
  }

  /** A paired row that carries its own baseline is judged against the base side of its pairs, whatever the baseline documents are. */
  lemma {:induction false} PairedRowsCarryTheirBaseline(policy: Policy, kind: MeasurementKind, current: Stats, baseline: Option<Stats>, baseline': Option<Stats>)
    requires policy.mode == Paired && current.pairedBaseline.Some?
    ensures CompareRow(policy, kind, current, baseline) == CompareRow(policy, kind, current, baseline')
    ensures CompareRow(policy, kind, current, baseline).reason == MissingBaseline ==> current.pairedBaseline.value <= 0.0
  {
  }

  /** Every column of a compared row is that of `classify` for its baseline. */
  lemma {:induction false} RowColumns(policy: Policy, kind: MeasurementKind, current: Stats, baseline: Stats)
    requires policy.mode != Paired
    ensures var row, c := CompareRow(policy, kind, current, Some(baseline)), Comparison(kind, policy, current, baseline);
            && row.status == c.StatusOf() && row.gateable == c.Gateable() && row.reason == c.Reason()
            && row.confidence == c.ConfidenceOf() && row.direction == c.DirectionOf() && row.impact == c.Impact()
  {
  }

  // ---------------------------------------------------------------- the overall verdict

  /** How bad a row is: failing, warning, enabled but not ready, or none of these. */
  function Severity(o: Outcome): nat {
    if o.status == Fail then 3
    else if o.status == Warn then 2
    else if o.enabled && !o.gateable then 1
    else 0
  }

  function OverallSeverity(v: Overall): nat {
    match v case OverallPass => 0 case OverallPartial => 1 case OverallWarn => 2 case OverallFail => 3
  }

  /** The overall verdict is as bad as the worst row. */
  lemma {:induction false} OverallIsWorst(rows: map<string, Outcome>)
    requires forall k :: k in rows ==> WellFormed(rows[k])
    ensures var overall := OverallSeverity(OverallStatus(rows));
            && (forall k :: k in rows ==> Severity(rows[k]) <= overall)
            && (overall > 0 ==> exists k :: k in rows && Severity(rows[k]) == overall)
  {
    var overall := OverallSeverity(OverallStatus(rows));
    if overall == 3 {
      var k :| k in rows && rows[k].status == Fail;
      assert Severity(rows[k]) == 3;
    } else if overall == 2 {
      var k :| k in rows && rows[k].status == Warn;
      assert Severity(rows[k]) == 2;
    } else if overall == 1 {
      var k :| k in rows && rows[k].enabled && NotReady(rows[k].reason);
      assert Severity(rows[k]) == 1;
    }
  }

  /** The readiness counts: enabled rows are gateable or counted as not gateable, and enforceable means that none of the latter is left. */
  lemma {:induction false} ReadinessCounts(rows: map<string, Outcome>)
    requires forall k :: k in rows ==> WellFormed(rows[k])
    ensures var r, waiting := ReadinessOf(rows), set k | k in rows && rows[k].enabled && !rows[k].gateable;
            && r.nonGateableCount == |waiting|
            && r.enabledCount == |set k | k in rows && rows[k].enabled|
            && r.gateableCount + |waiting| == r.enabledCount
            && (r.enforceable <==> forall k :: k in rows && rows[k].enabled ==> rows[k].gateable)
  {
    var waiting := set k | k in rows && rows[k].enabled && !rows[k].gateable;
    assert Enabled(rows) == GateableRows(rows) + waiting;
    assert |Enabled(rows)| == |GateableRows(rows)| + |waiting|;
    if waiting == {} {
      forall k | k in rows && rows[k].enabled ensures rows[k].gateable {
        assert k !in waiting;
      }
    } else {
      var k :| k in waiting;
      assert |waiting| > 0;
    }
  }
}
