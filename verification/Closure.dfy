/**
 * The native binding closure audit over a lockfile, a support matrix and one prepared tree.
 */
module Closure {
  import opened Basics
  import opened PackageNames

  datatype Triple = Triple(os: seq<string>, cpu: seq<string>, libc: seq<string>)

  datatype Support = Support(os: seq<string>, cpu: seq<string>, libc: seq<string>)

  /** A build platform; a component that is not set constrains nothing. */
  datatype Build = Build(os: Option<string>, cpu: Option<string>, libc: Option<string>)

  datatype Waiver = Waiver(family: string, triple: Option<string>)

  datatype Problem = Problem(family: string, consumer: string, binding: string, triple: string)

  datatype Mode = AllDeclaredTriples | BuildPlatform(build: Option<Build>)

  /** A consumer's optional dependencies: names and versions. */
  type Deps = seq<(string, string)>

  /** What the audit reads: policy keys in order, the pure families, and the parsed files. */
  datatype Inputs = Inputs(
    policyKeys: seq<string>,
    pureFamilies: set<string>,
    triples: map<string, Triple>,
    snapshots: seq<(string, Deps)>,
    support: Support,
    entries: set<string>)

  predicate Subset(values: seq<string>, supported: seq<string>) {
    forall v :: v in values ==> v in supported
  }

  predicate IsWithinSupport(t: Triple, s: Support) {
    && !(t.os == [] && t.cpu == [])
    && Subset(t.os, s.os) && Subset(t.cpu, s.cpu) && Subset(t.libc, s.libc)
  }

  predicate ComponentMatches(values: seq<string>, component: Option<string>) {
    component.None? || values == [] || component.value in values
  }

  predicate TripleMatches(t: Triple, b: Build) {
    ComponentMatches(t.os, b.os) && ComponentMatches(t.cpu, b.cpu) && ComponentMatches(t.libc, b.libc)
  }

  function TripleString(t: Triple): string {
    Join(t.os + t.cpu + t.libc, "-")
  }

  predicate WaiverMatches(w: Waiver, family: string, triple: string) {
    w.family == family && (w.triple.None? || w.triple.value == triple)
  }

  predicate IsWaived(waivers: seq<Waiver>, family: string, triple: string) {
    exists w :: w in waivers && WaiverMatches(w, family, triple)
  }

  predicate Required(mode: Mode, t: Triple) {
    mode.AllDeclaredTriples? || mode.build.None? || TripleMatches(t, mode.build.value)
  }

  predicate ConsumerPresent(inp: Inputs, consumer: string) {
    PresentInTree(inp.entries, ConsumerNameVersion(consumer).0, ConsumerNameVersion(consumer).1)
  }

  predicate PureFamily(inp: Inputs, dep: string) {
    FamilyFor(dep, inp.policyKeys).Some? && FamilyFor(dep, inp.policyKeys).value in inp.pureFamilies
  }

  /** The problem that a missing binding of this consumer is reported as. */
  function Report(inp: Inputs, consumer: string, dep: string, version: string): Problem
    requires PureFamily(inp, dep) && dep + "@" + version in inp.triples
  {
    Problem(FamilyFor(dep, inp.policyKeys).value, consumer, dep + "@" + version, TripleString(inp.triples[dep + "@" + version]))
  }

  /** Binding `dep@version` is known, supported and required, and not waived. */
  predicate Wanted(inp: Inputs, mode: Mode, waivers: seq<Waiver>, dep: string, version: string) {
    && PureFamily(inp, dep)
    && dep + "@" + version in inp.triples
    && var t := inp.triples[dep + "@" + version];
    && IsWithinSupport(t, inp.support)
    && Required(mode, t)
    && !IsWaived(waivers, FamilyFor(dep, inp.policyKeys).value, TripleString(t))
  }

  /** It is wanted, and not in the tree. */
  predicate Missing(inp: Inputs, mode: Mode, waivers: seq<Waiver>, dep: string, version: string) {
    Wanted(inp, mode, waivers, dep, version) && !PresentInTree(inp.entries, dep, version)
  }

  function DepProblems(inp: Inputs, mode: Mode, waivers: seq<Waiver>, consumer: string, deps: Deps): seq<Problem> {
    if deps == [] then []
    else
      var (dep, version) := deps[|deps| - 1];
      DepProblems(inp, mode, waivers, consumer, deps[..|deps| - 1])
      + (if Missing(inp, mode, waivers, dep, version) then [Report(inp, consumer, dep, version)] else [])
  }

  function Problems(inp: Inputs, mode: Mode, waivers: seq<Waiver>, snapshots: seq<(string, Deps)>): seq<Problem> {
    if snapshots == [] then []
    else
      var (consumer, deps) := snapshots[|snapshots| - 1];
      Problems(inp, mode, waivers, snapshots[..|snapshots| - 1])
      + (if ConsumerPresent(inp, consumer) then DepProblems(inp, mode, waivers, consumer, deps) else [])
  }

  /** The source of one problem: a consumer and one of its dependencies. */
  predicate Explains(inp: Inputs, mode: Mode, waivers: seq<Waiver>, snapshot: (string, Deps), dep: (string, string), p: Problem) {
    && ConsumerPresent(inp, snapshot.0)
    && Missing(inp, mode, waivers, dep.0, dep.1)
    && p == Report(inp, snapshot.0, dep.0, dep.1)
  }

  /** Some consumer and dependency among the snapshots account for the problem. */
  predicate Explained(inp: Inputs, mode: Mode, waivers: seq<Waiver>, snapshots: seq<(string, Deps)>, p: Problem) {
    exists snapshot, dep :: snapshot in snapshots && dep in snapshot.1 && Explains(inp, mode, waivers, snapshot, dep, p)
  }

  /** The audit reports exactly the missing bindings, in lockfile order. */
  method AuditNativeBindingClosure(inp: Inputs, mode: Mode, waivers: seq<Waiver>) returns (problems: seq<Problem>)
    ensures problems == Problems(inp, mode, waivers, inp.snapshots)
    ensures forall p :: p in problems <==> Explained(inp, mode, waivers, inp.snapshots, p)
  {
    problems := [];
    for i := 0 to |inp.snapshots|
      invariant problems == Problems(inp, mode, waivers, inp.snapshots[..i])
    {
      ProblemsStep(inp, mode, waivers, i);
      var (consumerKey, optionalDeps) := inp.snapshots[i];
      var (consumerName, consumerVersion) := ConsumerNameVersion(consumerKey);
      if !PresentInTree(inp.entries, consumerName, consumerVersion) { continue; }
      var found := AuditConsumer(inp, mode, waivers, consumerKey, optionalDeps);
      problems := problems + found;
    }
    assert inp.snapshots[..|inp.snapshots|] == inp.snapshots;
    AllExplained(inp, mode, waivers);
  }

  lemma {:induction false} ProblemsStep(inp: Inputs, mode: Mode, waivers: seq<Waiver>, i: nat)
    requires i < |inp.snapshots|
    ensures var (consumer, deps) := inp.snapshots[i];
            Problems(inp, mode, waivers, inp.snapshots[..i + 1]) ==
            Problems(inp, mode, waivers, inp.snapshots[..i])
            + (if ConsumerPresent(inp, consumer) then DepProblems(inp, mode, waivers, consumer, deps) else [])
  {
    assert inp.snapshots[..i + 1][..i] == inp.snapshots[..i];
  }

  lemma {:induction false} AllExplained(inp: Inputs, mode: Mode, waivers: seq<Waiver>)
    ensures forall p :: p in Problems(inp, mode, waivers, inp.snapshots) <==> Explained(inp, mode, waivers, inp.snapshots, p)
  {
    forall p ensures p in Problems(inp, mode, waivers, inp.snapshots) <==> Explained(inp, mode, waivers, inp.snapshots, p) {
      ProblemsExplained(inp, mode, waivers, inp.snapshots, p);
    }
  }

  /** The inner loop: the dependencies of one present consumer. */
  method AuditConsumer(inp: Inputs, mode: Mode, waivers: seq<Waiver>, consumerKey: string, optionalDeps: Deps) returns (problems: seq<Problem>)
    ensures problems == DepProblems(inp, mode, waivers, consumerKey, optionalDeps)
  {
    problems := [];
    for j := 0 to |optionalDeps|
      invariant problems == DepProblems(inp, mode, waivers, consumerKey, optionalDeps[..j])
    {
      assert optionalDeps[..j + 1][..j] == optionalDeps[..j];
      var (depName, depVersion) := optionalDeps[j];
      var family := FamilyFor(depName, inp.policyKeys);
      if family.None? || family.value !in inp.pureFamilies { continue; }
      if depName + "@" + depVersion !in inp.triples { continue; }
      var triple := inp.triples[depName + "@" + depVersion];
      if !IsWithinSupport(triple, inp.support) { continue; }
      if mode.BuildPlatform? && mode.build.Some? && !TripleMatches(triple, mode.build.value) { continue; }
      var tripleStr := TripleString(triple);
      if IsWaived(waivers, family.value, tripleStr) { continue; }
      if !PresentInTree(inp.entries, depName, depVersion) {
        problems := problems + [Problem(family.value, consumerKey, depName + "@" + depVersion, tripleStr)];
      }
    }
    assert optionalDeps[..|optionalDeps|] == optionalDeps;
  }

  lemma {:induction false} DepProblemsExplained(inp: Inputs, mode: Mode, waivers: seq<Waiver>, consumer: string, deps: Deps, p: Problem)
    ensures p in DepProblems(inp, mode, waivers, consumer, deps) <==>
            exists dep :: dep in deps && Missing(inp, mode, waivers, dep.0, dep.1) && p == Report(inp, consumer, dep.0, dep.1)
  {
    if deps != [] {
      DepProblemsExplained(inp, mode, waivers, consumer, deps[..|deps| - 1], p);
      assert forall dep :: dep in deps <==> dep in deps[..|deps| - 1] || dep == deps[|deps| - 1];
    }
  }

  lemma {:induction false} ProblemsExplained(inp: Inputs, mode: Mode, waivers: seq<Waiver>, snapshots: seq<(string, Deps)>, p: Problem)
    ensures p in Problems(inp, mode, waivers, snapshots) <==> Explained(inp, mode, waivers, snapshots, p)
  {
    hide DepProblems, Missing, ConsumerNameVersion, PresentInTree;
    if snapshots != [] {
      var front, last := snapshots[..|snapshots| - 1], snapshots[|snapshots| - 1];
      ProblemsExplained(inp, mode, waivers, front, p);
      DepProblemsExplained(inp, mode, waivers, last.0, last.1, p);
      ExplainedSnoc(inp, mode, waivers, front, last, p);
      assert snapshots == front + [last];
    }
  }

  lemma {:induction false} ExplainedSnoc(inp: Inputs, mode: Mode, waivers: seq<Waiver>, front: seq<(string, Deps)>, last: (string, Deps), p: Problem)
    ensures Explained(inp, mode, waivers, front + [last], p) <==>
            Explained(inp, mode, waivers, front, p) || exists dep :: dep in last.1 && Explains(inp, mode, waivers, last, dep, p)
  {
    assert forall s :: s in front + [last] <==> s in front || s == last;
  }

  // ---------------------------------------------------------------- the two completeness modes

  /** The values a build platform component ranges over: the supported ones, or "not set" when there are none. */
  function Choices(supported: seq<string>): set<Option<string>> {
    if supported == [] then {None} else set v | v in supported :: Some(v)
  }

  predicate SupportedBuild(s: Support, b: Build) {
    b.os in Choices(s.os) && b.cpu in Choices(s.cpu) && b.libc in Choices(s.libc)
  }

  /** A supported list of values is matched by some supported choice. */
  lemma {:induction false} SomeChoiceMatches(values: seq<string>, supported: seq<string>) returns (choice: Option<string>)
    requires Subset(values, supported)
    ensures choice in Choices(supported) && ComponentMatches(values, choice)
  {
    if supported == [] {
      choice := None;
    } else if values == [] {
      choice := Some(supported[0]);
      assert supported[0] in supported;
    } else {
      choice := Some(values[0]);
      assert values[0] in values;
    }
  }

  /** What the shared-hash mode reports is the union of what the per-system mode reports over all supported build platforms. */
  lemma {:induction false} UnionOfBuildPlatforms(inp: Inputs, waivers: seq<Waiver>, p: Problem)
    ensures p in Problems(inp, AllDeclaredTriples, waivers, inp.snapshots) <==>
            exists b :: SupportedBuild(inp.support, b) && p in Problems(inp, BuildPlatform(Some(b)), waivers, inp.snapshots)
  {
    ProblemsExplained(inp, AllDeclaredTriples, waivers, inp.snapshots, p);
    if snapshot, dep :| snapshot in inp.snapshots && dep in snapshot.1 && Explains(inp, AllDeclaredTriples, waivers, snapshot, dep, p) {
      var t := inp.triples[dep.0 + "@" + dep.1];
      var os := SomeChoiceMatches(t.os, inp.support.os);
      var cpu := SomeChoiceMatches(t.cpu, inp.support.cpu);
      var libc := SomeChoiceMatches(t.libc, inp.support.libc);
      var b := Build(os, cpu, libc);
      assert Explains(inp, BuildPlatform(Some(b)), waivers, snapshot, dep, p);
      ProblemsExplained(inp, BuildPlatform(Some(b)), waivers, inp.snapshots, p);
      assert SupportedBuild(inp.support, b);
    }
    if b :| SupportedBuild(inp.support, b) && p in Problems(inp, BuildPlatform(Some(b)), waivers, inp.snapshots) {
      ProblemsExplained(inp, BuildPlatform(Some(b)), waivers, inp.snapshots, p);
      var snapshot, dep :| snapshot in inp.snapshots && dep in snapshot.1 && Explains(inp, BuildPlatform(Some(b)), waivers, snapshot, dep, p);
      assert Explains(inp, AllDeclaredTriples, waivers, snapshot, dep, p);
    }
  }

  /** So a tree is complete for every triple exactly when it is complete for every supported build platform. */
  lemma {:induction false} CompleteForAll(inp: Inputs, waivers: seq<Waiver>)
    ensures Problems(inp, AllDeclaredTriples, waivers, inp.snapshots) == [] <==>
            forall b :: SupportedBuild(inp.support, b) ==> Problems(inp, BuildPlatform(Some(b)), waivers, inp.snapshots) == []
  {
    var all := Problems(inp, AllDeclaredTriples, waivers, inp.snapshots);
    if all == [] {
      forall b | SupportedBuild(inp.support, b) ensures Problems(inp, BuildPlatform(Some(b)), waivers, inp.snapshots) == [] {
        var ps := Problems(inp, BuildPlatform(Some(b)), waivers, inp.snapshots);
        if ps != [] {
          assert ps[0] in ps;
          UnionOfBuildPlatforms(inp, waivers, ps[0]);
        }
      }
    } else {
      assert all[0] in all;
      UnionOfBuildPlatforms(inp, waivers, all[0]);
    }
  }

  // ---------------------------------------------------------------- waivers

  /** The problems that none of the waivers matches. */
  function Unwaived(problems: seq<Problem>, waivers: seq<Waiver>): seq<Problem> {
    if problems == [] then []
    else
      var p := problems[|problems| - 1];
      Unwaived(problems[..|problems| - 1], waivers) + (if IsWaived(waivers, p.family, p.triple) then [] else [p])
  }

  lemma {:induction false} UnwaivedConcat(a: seq<Problem>, b: seq<Problem>, waivers: seq<Waiver>)
    ensures Unwaived(a + b, waivers) == Unwaived(a, waivers) + Unwaived(b, waivers)
  {
    if b == [] {
      assert a + b == a;
    } else {
      assert (a + b)[..|a + b| - 1] == a + b[..|b| - 1];
      UnwaivedConcat(a, b[..|b| - 1], waivers);
    }
  }

  lemma {:induction false} WaivedTwice(w: seq<Waiver>, more: seq<Waiver>, family: string, triple: string)
    ensures IsWaived(w + more, family, triple) <==> IsWaived(w, family, triple) || IsWaived(more, family, triple)
  {
    assert forall x :: x in w + more <==> x in w || x in more;
  }

  lemma {:induction false} DepWaivers(inp: Inputs, mode: Mode, w: seq<Waiver>, more: seq<Waiver>, consumer: string, deps: Deps)
    ensures DepProblems(inp, mode, w + more, consumer, deps) == Unwaived(DepProblems(inp, mode, w, consumer, deps), more)
  {
    if deps != [] {
      var (dep, version) := deps[|deps| - 1];
      DepWaivers(inp, mode, w, more, consumer, deps[..|deps| - 1]);
      var found := if Missing(inp, mode, w, dep, version) then [Report(inp, consumer, dep, version)] else [];
      UnwaivedConcat(DepProblems(inp, mode, w, consumer, deps[..|deps| - 1]), found, more);
      if found != [] {
        assert found[..0] == [];
        WaivedTwice(w, more, found[0].family, found[0].triple);
      } else if PureFamily(inp, dep) && dep + "@" + version in inp.triples {
        WaivedTwice(w, more, FamilyFor(dep, inp.policyKeys).value, TripleString(inp.triples[dep + "@" + version]));
      }
    }
  }

  /** Adding waivers removes exactly the problems they match, and leaves the others in their order. */
  lemma {:induction false} WaiversRemoveExactly(inp: Inputs, mode: Mode, w: seq<Waiver>, more: seq<Waiver>, snapshots: seq<(string, Deps)>)
    ensures Problems(inp, mode, w + more, snapshots) == Unwaived(Problems(inp, mode, w, snapshots), more)
  {
    if snapshots != [] {
      var (consumer, deps) := snapshots[|snapshots| - 1];
      WaiversRemoveExactly(inp, mode, w, more, snapshots[..|snapshots| - 1]);
      DepWaivers(inp, mode, w, more, consumer, deps);
      UnwaivedConcat(Problems(inp, mode, w, snapshots[..|snapshots| - 1]),
                     if ConsumerPresent(inp, consumer) then DepProblems(inp, mode, w, consumer, deps) else [], more);
    }
  }

  // ---------------------------------------------------------------- active families

  /** A family is active: a present consumer pulls in one of its packages. */
  predicate Active(inp: Inputs, family: string) {
    exists snapshot, dep :: snapshot in inp.snapshots && ConsumerPresent(inp, snapshot.0) && dep in snapshot.1
                            && PureFamily(inp, dep.0) && FamilyFor(dep.0, inp.policyKeys) == Some(family)
  }

  /** The families that the policy has to keep watching. */
  method DetectActiveFamilies(inp: Inputs) returns (active: set<string>)
    ensures forall family :: family in active <==> Active(inp, family)
  {
    active := {};
    for i := 0 to |inp.snapshots|
      invariant forall family :: family in active <==> Active(inp.(snapshots := inp.snapshots[..i]), family)
    {
      var (consumerKey, optionalDeps) := inp.snapshots[i];
      var (consumerName, consumerVersion) := ConsumerNameVersion(consumerKey);
      ghost var before := active;
      assert forall s :: s in inp.snapshots[..i + 1] <==> s in inp.snapshots[..i] || s == inp.snapshots[i];
      if !PresentInTree(inp.entries, consumerName, consumerVersion) { continue; }
      for j := 0 to |optionalDeps|
        invariant forall family :: family in active <==>
                    family in before || exists dep :: dep in optionalDeps[..j] && PureFamily(inp, dep.0) && FamilyFor(dep.0, inp.policyKeys) == Some(family)
      {
        assert forall dep :: dep in optionalDeps[..j + 1] <==> dep in optionalDeps[..j] || dep == optionalDeps[j];
        var family := FamilyFor(optionalDeps[j].0, inp.policyKeys);
        if family.Some? && family.value in inp.pureFamilies {
          active := active + {family.value};
        }
      }
      assert optionalDeps[..|optionalDeps|] == optionalDeps;
    }
    assert inp.snapshots[..|inp.snapshots|] == inp.snapshots;
  }

  /** Every problem is about an active family. */
  lemma {:induction false} ProblemFamiliesAreActive(inp: Inputs, mode: Mode, waivers: seq<Waiver>, p: Problem)
    requires p in Problems(inp, mode, waivers, inp.snapshots)
    ensures Active(inp, p.family)
  {
    ProblemsExplained(inp, mode, waivers, inp.snapshots, p);
    var snapshot, dep :| snapshot in inp.snapshots && dep in snapshot.1 && Explains(inp, mode, waivers, snapshot, dep, p);
    assert snapshot in inp.snapshots && ConsumerPresent(inp, snapshot.0) && dep in snapshot.1;
  }
}
