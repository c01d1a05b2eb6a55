/**
 * The publish job's two loops over its package list, against a registry that they change, and
 * what a crash followed by a rerun leaves behind.
 */
module SnapshotJob {
  import opened Basics
  import opened Snapshot

  class NpmRegistry {
    var published: map<(string, string), Content>
    var tags: map<(string, string), string>

    function State(): Registry
      reads this
    {
      Registry(published, tags)
    }

    constructor ()
      ensures State() == Registry(map[], map[])
    {
      published, tags := map[], map[];
    }

    /** `npm publish`: refuses a version that exists. */
    method Publish(name: string, version: string, tag: string, content: Content) returns (ok: bool)
      modifies this
      ensures ok <==> (name, version) !in old(published)
      ensures State() ==
              if ok then Registry(old(published)[(name, version) := content], old(tags)[(name, tag) := version]) else old(State())
    {
      ok := (name, version) !in published;
      if ok {
        published := published[(name, version) := content];
        tags := tags[(name, tag) := version];
      }
    }
  }

  /** The package list with the contents it names. */
  type Cohort = seq<(string, Content)>

  /** What the first `n` rounds of the publish loop make of a registry; `None` when a round fails. */
  function Rounds(h: Digests, r: Registry, c: Candidate, cohort: Cohort, sees: nat -> bool, tagSees: nat -> bool, n: nat): Option<Registry>
    requires n <= |cohort|
  {
    if n == 0 then Some(r)
    else
      var before := Rounds(h, r, c, cohort, sees, tagSees, n - 1);
      if before.None? then None
      else PublishOne(h, before.value, c, cohort[n - 1].0, cohort[n - 1].1, sees(n - 1), tagSees(n - 1))
  }

  /** The publish step, which dies before round `crashAt` if that round is reached. */
  method PublishCohort(h: Digests, registry: NpmRegistry, c: Candidate, cohort: Cohort, sees: nat -> bool, tagSees: nat -> bool, crashAt: nat)
    returns (ok: bool, done: nat)
    modifies registry
    ensures done <= |cohort| && Rounds(h, old(registry.State()), c, cohort, sees, tagSees, done) == Some(registry.State())
    ensures ok <==> crashAt >= |cohort| && Rounds(h, old(registry.State()), c, cohort, sees, tagSees, |cohort|).Some?
    ensures ok ==> done == |cohort|
    ensures DistinctNames(cohort) ==>
              && (ok <==> crashAt >= |cohort| && forall i :: 0 <= i < |cohort| ==> Passes(h, old(registry.State()), c, cohort[i], sees(i), tagSees(i)))
              && AbsentAdded(old(registry.State()), registry.State(), c, cohort, done)
  {
    if DistinctNames(cohort) {
      AllPrefixes(h, registry.State(), c, cohort, sees, tagSees);
    }
    hide AbsentAdded, Passes;
    done := 0;
    ghost var start := registry.State();
    while done < |cohort|
      invariant done <= |cohort| && done <= crashAt
      invariant Rounds(h, start, c, cohort, sees, tagSees, done) == Some(registry.State())
    {
      if done == crashAt { return false, done; }
      ghost var round := Rounds(h, start, c, cohort, sees, tagSees, done + 1);
      var (name, content) := cohort[done];
      var key := (name, c.version);
      if sees(done) && key in registry.published {
        if h.sha1(registry.published[key]) != h.sha1(content) {
          NoneStaysNone(h, start, c, cohort, sees, tagSees, done + 1, |cohort|);
          return false, done;
        }
        if tagSees(done) && TagConflict(registry.State(), name, c.tag, c.version) {
          NoneStaysNone(h, start, c, cohort, sees, tagSees, done + 1, |cohort|);
          return false, done;
        }
      } else {
        var published := registry.Publish(name, c.version, c.tag, content);
        if !published {
          NoneStaysNone(h, start, c, cohort, sees, tagSees, done + 1, |cohort|);
          return false, done;
        }
      }
      assert round == Some(registry.State());
      done := done + 1;
    }
    return true, done;
  }

  lemma {:induction false} AllPrefixes(h: Digests, r: Registry, c: Candidate, cohort: Cohort, sees: nat -> bool, tagSees: nat -> bool)
    requires DistinctNames(cohort)
    ensures Rounds(h, r, c, cohort, sees, tagSees, |cohort|).Some? <==> forall i :: 0 <= i < |cohort| ==> Passes(h, r, c, cohort[i], sees(i), tagSees(i))
    ensures forall n :: 0 <= n <= |cohort| && Rounds(h, r, c, cohort, sees, tagSees, n).Some? ==>
              AbsentAdded(r, Rounds(h, r, c, cohort, sees, tagSees, n).value, c, cohort, n)
  {
    hide AbsentAdded, Passes;
    LoopSucceeds(h, r, c, cohort, sees, tagSees, |cohort|);
    forall n | 0 <= n <= |cohort| && Rounds(h, r, c, cohort, sees, tagSees, n).Some?
      ensures AbsentAdded(r, Rounds(h, r, c, cohort, sees, tagSees, n).value, c, cohort, n)
    {
      LoopSucceeds(h, r, c, cohort, sees, tagSees, n);
    }
  }

  lemma {:induction false} NoneStaysNone(h: Digests, r: Registry, c: Candidate, cohort: Cohort, sees: nat -> bool, tagSees: nat -> bool, m: nat, n: nat)
    requires m <= n <= |cohort| && Rounds(h, r, c, cohort, sees, tagSees, m).None?
    ensures Rounds(h, r, c, cohort, sees, tagSees, n).None?
  {
    if m < n {
      NoneStaysNone(h, r, c, cohort, sees, tagSees, m, n - 1);
    }
  }

  /** The keys of the first `n` packages. */
  function CohortKeys(c: Candidate, cohort: Cohort, n: nat): set<(string, string)>
    requires n <= |cohort|
  {
    set i | 0 <= i < n :: (cohort[i].0, c.version)
  }

  /** `r'` is `r` with the missing ones of the first `n` packages added, with the candidate's contents; the others match by SHA-1. */
  ghost predicate OnlyMissingAdded(h: Digests, r: Registry, r': Registry, c: Candidate, cohort: Cohort, n: nat)
    requires n <= |cohort|
  {
    && Grows(r, r')
    && r'.published.Keys == r.published.Keys + CohortKeys(c, cohort, n)
    && (forall k :: k in r'.published && k !in r.published ==> IsContentOf(c, cohort, n, k, r'.published[k]))
    && (forall i :: 0 <= i < n ==> MatchesSha1(h, r', c, cohort[i]))
  }

  ghost predicate IsContentOf(c: Candidate, cohort: Cohort, n: nat, key: (string, string), content: Content)
    requires n <= |cohort|
  {
    exists i :: 0 <= i < n && key == (cohort[i].0, c.version) && content == cohort[i].1
  }

  predicate MatchesSha1(h: Digests, r: Registry, c: Candidate, item: (string, Content)) {
    (item.0, c.version) in r.published && h.sha1(r.published[(item.0, c.version)]) == h.sha1(item.1)
  }

  /** Whatever the registry answers, the loop changes nothing that exists and adds exactly the missing packages it got to. */
  lemma {:induction false} OnlyMissingArePublished(h: Digests, r: Registry, c: Candidate, cohort: Cohort, sees: nat -> bool, tagSees: nat -> bool, n: nat)
    requires n <= |cohort| && Rounds(h, r, c, cohort, sees, tagSees, n).Some?
    ensures OnlyMissingAdded(h, r, Rounds(h, r, c, cohort, sees, tagSees, n).value, c, cohort, n)
  {
    hide OnlyMissingAdded, PublishOne;
    if n == 0 {
      NothingAdded(h, r, c, cohort);
    } else {
      OnlyMissingArePublished(h, r, c, cohort, sees, tagSees, n - 1);
      OneMoreAdded(h, r, Rounds(h, r, c, cohort, sees, tagSees, n - 1).value, c, cohort, n, sees(n - 1), tagSees(n - 1));
    }
  }

  lemma NothingAdded(h: Digests, r: Registry, c: Candidate, cohort: Cohort)
    ensures OnlyMissingAdded(h, r, r, c, cohort, 0)
  {
  }

  lemma NextKey(c: Candidate, cohort: Cohort, n: nat)
    requires 0 < n <= |cohort|
    ensures CohortKeys(c, cohort, n) == CohortKeys(c, cohort, n - 1) + {(cohort[n - 1].0, c.version)}
  {
  }

  lemma {:induction false} OneMoreAdded(h: Digests, r: Registry, before: Registry, c: Candidate, cohort: Cohort, n: nat, seen: bool, tagSeen: bool)
    requires 0 < n <= |cohort| && OnlyMissingAdded(h, r, before, c, cohort, n - 1)
    requires PublishOne(h, before, c, cohort[n - 1].0, cohort[n - 1].1, seen, tagSeen).Some?
    ensures OnlyMissingAdded(h, r, PublishOne(h, before, c, cohort[n - 1].0, cohort[n - 1].1, seen, tagSeen).value, c, cohort, n)
  {
    hide PublishOne, CohortKeys;
    var after := PublishOne(h, before, c, cohort[n - 1].0, cohort[n - 1].1, seen, tagSeen).value;
    PublishOneAddsOnlyMissing(h, before, c, cohort[n - 1].0, cohort[n - 1].1, seen, tagSeen);
    NextKey(c, cohort, n);
    forall k | k in after.published && k !in r.published ensures IsContentOf(c, cohort, n, k, after.published[k]) {
      if k in before.published {
        assert IsContentOf(c, cohort, n - 1, k, before.published[k]);
      }
    }
    hide IsContentOf;
    forall i | 0 <= i < n ensures MatchesSha1(h, after, c, cohort[i]) {
      assert i < n - 1 ==> MatchesSha1(h, before, c, cohort[i]);
    }
  }

  // ---------------------------------------------------------------- when the loop succeeds

  predicate DistinctNames(cohort: Cohort) {
    forall i, j :: 0 <= i < j < |cohort| ==> cohort[i].0 != cohort[j].0
  }

  /**
   * A package stops no loop: its version is absent, or it is there, was seen, has the candidate's SHA-1, and the tag,
   * if it was read and is set, is on the candidate's version.
   */
  predicate Passes(h: Digests, r: Registry, c: Candidate, item: (string, Content), seen: bool, tagSeen: bool) {
    var key, tag := (item.0, c.version), (item.0, c.tag);
    || key !in r.published
    || (seen && h.sha1(r.published[key]) == h.sha1(item.1) && (tagSeen && tag in r.tags ==> r.tags[tag] in {"", c.version}))
  }

  /** `r'` is `r` with the absent ones of the first `n` packages added, with the candidate's contents and tags, and nothing else. */
  ghost predicate AbsentAdded(r: Registry, r': Registry, c: Candidate, cohort: Cohort, n: nat)
    requires n <= |cohort|
  {
    && (forall k :: k in r.published ==> k in r'.published && r'.published[k] == r.published[k])
    && (forall i :: 0 <= i < n && (cohort[i].0, c.version) !in r.published ==> Added(r', c, cohort[i]))
    && (forall name, version :: (name, version) in r'.published && (name, version) !in r.published ==> version == c.version && Names(cohort, n, name))
    && (forall name, tag :: tag != c.tag || !Names(cohort, n, name) || (name, c.version) in r.published ==>
          ((name, tag) in r'.tags <==> (name, tag) in r.tags) && ((name, tag) in r.tags ==> r'.tags[(name, tag)] == r.tags[(name, tag)]))
  }

  predicate Added(r': Registry, c: Candidate, item: (string, Content)) {
    && (item.0, c.version) in r'.published && r'.published[(item.0, c.version)] == item.1
    && (item.0, c.tag) in r'.tags && r'.tags[(item.0, c.tag)] == c.version
  }

  ghost predicate Names(cohort: Cohort, n: nat, name: string)
    requires n <= |cohort|
  {
    exists i :: 0 <= i < n && cohort[i].0 == name
  }

  /** A verification attempt succeeds if and only if the version is there with the integrity and the tag, if it was read, is not on another version. */
  lemma VerifiedTold(h: Digests, r: Registry, c: Candidate, item: (string, Content), tagSeen: bool)
    ensures Verified(h, r, c, item.0, item.1, tagSeen) <==> Matches(h, r, c, item) && !(tagSeen && TagElsewhere(r, c, item.0))
  {
  }

  /** What one round does, told by the registry. */
  lemma {:induction false} RoundTold(h: Digests, r: Registry, c: Candidate, item: (string, Content), seen: bool, tagSeen: bool)
    ensures var r', key := PublishOne(h, r, c, item.0, item.1, seen, tagSeen), (item.0, c.version);
            && (r'.Some? <==> Passes(h, r, c, item, seen, tagSeen))
            && (r'.Some? ==> r'.value == if key in r.published then r
                                         else Registry(r.published[key := item.1], r.tags[(item.0, c.tag) := c.version]))
  {
  }

  lemma {:induction false} NextAdded(r: Registry, before: Registry, after: Registry, c: Candidate, cohort: Cohort, n: nat)
    requires 0 < n <= |cohort| && DistinctNames(cohort) && AbsentAdded(r, before, c, cohort, n - 1)
    requires var item := cohort[n - 1];
             after == if (item.0, c.version) in before.published then before
                      else Registry(before.published[(item.0, c.version) := item.1], before.tags[(item.0, c.tag) := c.version])
    ensures AbsentAdded(r, after, c, cohort, n)
  {
    var item := cohort[n - 1];
    NewName(cohort, n);
    assert (item.0, c.version) in before.published <==> (item.0, c.version) in r.published;
    forall i | 0 <= i < n && (cohort[i].0, c.version) !in r.published ensures Added(after, c, cohort[i]) {
      assert i < n - 1 ==> Added(before, c, cohort[i]) && cohort[i].0 != item.0;
    }
  }

  lemma NewName(cohort: Cohort, n: nat)
    requires 0 < n <= |cohort| && DistinctNames(cohort)
    ensures !Names(cohort, n - 1, cohort[n - 1].0)
    ensures forall name :: Names(cohort, n, name) <==> Names(cohort, n - 1, name) || name == cohort[n - 1].0
  {
    assert Names(cohort, n, cohort[n - 1].0);
  }

  /** A package that the earlier rounds did not touch passes as it did at the start. */
  lemma {:induction false} PassesAsBefore(h: Digests, r: Registry, before: Registry, c: Candidate, cohort: Cohort, n: nat, seen: bool, tagSeen: bool)
    requires 0 < n <= |cohort| && DistinctNames(cohort) && AbsentAdded(r, before, c, cohort, n - 1)
    ensures Passes(h, before, c, cohort[n - 1], seen, tagSeen) <==> Passes(h, r, c, cohort[n - 1], seen, tagSeen)
  {
    NewName(cohort, n);
    var item := cohort[n - 1];
    assert (item.0, c.version) in before.published <==> (item.0, c.version) in r.published;
    assert (item.0, c.tag) in before.tags <==> (item.0, c.tag) in r.tags;
  }

  /** Without a crash the loop succeeds if and only if no package stops it, and then it has added exactly the absent ones. */
  lemma {:induction false} LoopSucceeds(h: Digests, r: Registry, c: Candidate, cohort: Cohort, sees: nat -> bool, tagSees: nat -> bool, n: nat)
    requires n <= |cohort| && DistinctNames(cohort)
    ensures Rounds(h, r, c, cohort, sees, tagSees, n).Some? <==> forall i :: 0 <= i < n ==> Passes(h, r, c, cohort[i], sees(i), tagSees(i))
    ensures Rounds(h, r, c, cohort, sees, tagSees, n).Some? ==> AbsentAdded(r, Rounds(h, r, c, cohort, sees, tagSees, n).value, c, cohort, n)
  {
    hide PublishOne, AbsentAdded, Passes;
    if n == 0 {
      NoneAdded(r, c, cohort);
    } else {
      LoopSucceeds(h, r, c, cohort, sees, tagSees, n - 1);
      var before := Rounds(h, r, c, cohort, sees, tagSees, n - 1);
      if before.Some? {
        PassesAsBefore(h, r, before.value, c, cohort, n, sees(n - 1), tagSees(n - 1));
        RoundTold(h, before.value, c, cohort[n - 1], sees(n - 1), tagSees(n - 1));
        var after := Rounds(h, r, c, cohort, sees, tagSees, n);
        if after.Some? {
          NextAdded(r, before.value, after.value, c, cohort, n);
        }
      }
    }
  }

  lemma NoneAdded(r: Registry, c: Candidate, cohort: Cohort)
    ensures AbsentAdded(r, r, c, cohort, 0)
  {
  }

  /** A cohort that is not there yet is published completely, whatever the queries answer. */
  lemma {:induction false} FreshCohortIsPublished(h: Digests, r: Registry, c: Candidate, cohort: Cohort, sees: nat -> bool, tagSees: nat -> bool)
    requires DistinctNames(cohort) && forall i :: 0 <= i < |cohort| ==> (cohort[i].0, c.version) !in r.published
    ensures var r' := Rounds(h, r, c, cohort, sees, tagSees, |cohort|);
            r'.Some? && forall i :: 0 <= i < |cohort| ==> Added(r'.value, c, cohort[i])
  {
    LoopSucceeds(h, r, c, cohort, sees, tagSees, |cohort|);
  }

  // ---------------------------------------------------------------- crash and rerun

  /** A package is settled: a round that sees it skips it. */
  predicate Settled(h: Digests, r: Registry, c: Candidate, item: (string, Content)) {
    PublishOne(h, r, c, item.0, item.1, true, true) == Some(r)
  }

  const ALWAYS: nat -> bool := n => true

  lemma {:induction false} RoundKeepsSettled(h: Digests, r: Registry, c: Candidate, item: (string, Content), other: (string, Content))
    requires Settled(h, r, c, item) && PublishOne(h, r, c, other.0, other.1, true, true).Some?
    ensures Settled(h, PublishOne(h, r, c, other.0, other.1, true, true).value, c, item)
  {
  }

  lemma {:induction false} RoundSettles(h: Digests, r: Registry, c: Candidate, item: (string, Content))
    requires PublishOne(h, r, c, item.0, item.1, true, true).Some?
    ensures Settled(h, PublishOne(h, r, c, item.0, item.1, true, true).value, c, item)
  {
  }

  lemma {:induction false} DonePackagesAreSettled(h: Digests, r: Registry, c: Candidate, cohort: Cohort, n: nat, i: nat)
    requires i < n <= |cohort| && Rounds(h, r, c, cohort, ALWAYS, ALWAYS, n).Some?
    ensures Settled(h, Rounds(h, r, c, cohort, ALWAYS, ALWAYS, n).value, c, cohort[i])
  {
    var before := Rounds(h, r, c, cohort, ALWAYS, ALWAYS, n - 1).value;
    if i == n - 1 {
      RoundSettles(h, before, c, cohort[i]);
    } else {
      DonePackagesAreSettled(h, r, c, cohort, n - 1, i);
      RoundKeepsSettled(h, before, c, cohort[i], cohort[n - 1]);
    }
  }

  /**
   * Crash and rerun: if the loop stops after `k` rounds and is started again from the beginning, the rerun gets
   * exactly as far, and leaves exactly the registry, as a loop that never stopped.
   */
  lemma {:induction false} RerunCompletes(h: Digests, r: Registry, c: Candidate, cohort: Cohort, k: nat, n: nat)
    requires k <= n <= |cohort| && Rounds(h, r, c, cohort, ALWAYS, ALWAYS, k).Some?
    ensures var crashed := Rounds(h, r, c, cohort, ALWAYS, ALWAYS, k).value;
            Rounds(h, crashed, c, cohort, ALWAYS, ALWAYS, n) == Rounds(h, r, c, cohort, ALWAYS, ALWAYS, n)
    decreases n
  {
    var crashed := Rounds(h, r, c, cohort, ALWAYS, ALWAYS, k).value;
    if n == k {
      RerunSkips(h, r, c, cohort, k, k);
    } else {
      RerunCompletes(h, r, c, cohort, k, n - 1);
    }
  }

  lemma {:induction false} RerunSkips(h: Digests, r: Registry, c: Candidate, cohort: Cohort, k: nat, m: nat)
    requires m <= k <= |cohort| && Rounds(h, r, c, cohort, ALWAYS, ALWAYS, k).Some?
    ensures var crashed := Rounds(h, r, c, cohort, ALWAYS, ALWAYS, k).value;
            Rounds(h, crashed, c, cohort, ALWAYS, ALWAYS, m) == Some(crashed)
  {
    if m > 0 {
      RerunSkips(h, r, c, cohort, k, m - 1);
      DonePackagesAreSettled(h, r, c, cohort, k, m - 1);
    }
  }

  // ---------------------------------------------------------------- verification

  /** What the registry queries of one attempt gave: whether version, integrity and tags were answered. */
  datatype Answer = Answer(version: bool, integrity: bool, tags: bool)

  const ATTEMPTS := 12

  predicate Matches(h: Digests, r: Registry, c: Candidate, item: (string, Content)) {
    (item.0, c.version) in r.published && h.sha512(r.published[(item.0, c.version)]) == h.sha512(item.1)
  }

  /** The tag is set to another version. */
  predicate TagElsewhere(r: Registry, c: Candidate, name: string) {
    (name, c.tag) in r.tags && r.tags[(name, c.tag)] !in {"", c.version}
  }

  /** At attempt `k` the package is found with the candidate's integrity, and no attempt up to it has read a tag that is elsewhere. */
  predicate FoundAt(h: Digests, r: Registry, c: Candidate, item: (string, Content), answers: (nat, nat) -> Answer, i: nat, k: nat) {
    && answers(i, k).version && answers(i, k).integrity && Matches(h, r, c, item)
    && (TagElsewhere(r, c, item.0) ==> forall j :: 0 <= j <= k ==> !answers(i, j).tags)
  }

  ghost predicate Found(h: Digests, r: Registry, c: Candidate, item: (string, Content), answers: (nat, nat) -> Answer, i: nat) {
    exists k: nat :: k < 12 && FoundAt(h, r, c, item, answers, i, k)
  }

  /**
   * The verification step: up to twelve attempts a package.  It succeeds if and only if every package is found, with
   * the candidate's integrity and before a tag is read that is elsewhere, and their number is the validated one.
   */
  method VerifyCohort(h: Digests, registry: NpmRegistry, c: Candidate, cohort: Cohort, answers: (nat, nat) -> Answer)
    returns (ok: bool, verified: nat)
    ensures ok <==> |cohort| == c.packageCount && forall i :: 0 <= i < |cohort| ==> Found(h, registry.State(), c, cohort[i], answers, i)
    ensures ok ==> verified == |cohort|
  {
    verified := 0;
    for i := 0 to |cohort|
      invariant verified == i
      invariant forall j :: 0 <= j < i ==> Found(h, registry.State(), c, cohort[j], answers, j)
    {
      var matched := VerifyPackage(h, registry, c, cohort[i], answers, i);
      if !matched { return false, verified; }
      verified := verified + 1;
    }
    ok := verified == c.packageCount;
  }

  /** The attempts for one package. */
  method VerifyPackage(h: Digests, registry: NpmRegistry, c: Candidate, item: (string, Content), answers: (nat, nat) -> Answer, i: nat)
    returns (matched: bool)
    ensures matched <==> Found(h, registry.State(), c, item, answers, i)
  {
    var (name, content) := item;
    var key := (name, c.version);
    ghost var elsewhere := TagElsewhere(registry.State(), c, name);
    var attempt := 0;
    while attempt < ATTEMPTS
      invariant attempt <= ATTEMPTS
      invariant forall j: nat :: j < attempt ==> !FoundAt(h, registry.State(), c, item, answers, i, j)
      invariant elsewhere ==> forall j :: 0 <= j < attempt ==> !answers(i, j).tags
    {
      var answer := answers(i, attempt);
      if answer.tags && TagConflict(registry.State(), name, c.tag, c.version) {
        return false;
      }
      if answer.version && answer.integrity && key in registry.published && h.sha512(registry.published[key]) == h.sha512(content) {
        assert FoundAt(h, registry.State(), c, item, answers, i, attempt);
        return true;
      }
      attempt := attempt + 1;
    }
    return false;
  }
}
