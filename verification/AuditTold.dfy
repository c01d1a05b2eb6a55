/**
 * The audit's answer told on the lists of the lockfile and of the support matrix, and what the
 * build-platform mode leaves out.
 */
module AuditTold {
  import opened Basics
  import opened PackageNames
  import opened Closure

  /** The lockfile lists every value of the triple among the supported ones, and the triple names an os or a cpu. */
  predicate Supported(t: Triple, s: Support) {
    && (t.os != [] || t.cpu != [])
    && (forall i :: 0 <= i < |t.os| ==> t.os[i] in s.os)
    && (forall i :: 0 <= i < |t.cpu| ==> t.cpu[i] in s.cpu)
    && (forall i :: 0 <= i < |t.libc| ==> t.libc[i] in s.libc)
  }

  /** A waiver of the family for this triple or for all. */
  predicate WaivedBy(waivers: seq<Waiver>, family: string, triple: string) {
    exists i :: 0 <= i < |waivers| && waivers[i].family == family && waivers[i].triple in {None, Some(triple)}
  }

  /** One optional dependency of one present consumer whose binding is supported, known, of a pure family, not waived, and absent. */
  ghost predicate Lacking(inp: Inputs, waivers: seq<Waiver>, consumer: string, dep: (string, string), p: Problem) {
    && PresentInTree(inp.entries, ConsumerNameVersion(consumer).0, ConsumerNameVersion(consumer).1)
    && FamilyFor(dep.0, inp.policyKeys) == Some(p.family) && p.family in inp.pureFamilies
    && p.consumer == consumer && p.binding == dep.0 + "@" + dep.1 && p.binding in inp.triples
    && p.triple == TripleString(inp.triples[p.binding])
    && Supported(inp.triples[p.binding], inp.support)
    && !WaivedBy(waivers, p.family, p.triple)
    && !PresentInTree(inp.entries, dep.0, dep.1)
  }

  lemma {:induction false} SupportTold(t: Triple, s: Support)
    ensures IsWithinSupport(t, s) <==> Supported(t, s)
  {
    SubsetTold(t.os, s.os);
    SubsetTold(t.cpu, s.cpu);
    SubsetTold(t.libc, s.libc);
  }

  lemma SubsetTold(values: seq<string>, supported: seq<string>)
    ensures Subset(values, supported) <==> forall i :: 0 <= i < |values| ==> values[i] in supported
  {
    assert forall i :: 0 <= i < |values| ==> values[i] in values;
  }

  lemma {:induction false} WaiversTold(waivers: seq<Waiver>, family: string, triple: string)
    ensures IsWaived(waivers, family, triple) <==> WaivedBy(waivers, family, triple)
  {
    if i :| 0 <= i < |waivers| && waivers[i].family == family && waivers[i].triple in {None, Some(triple)} {
      assert waivers[i] in waivers;
    }
  }

  lemma {:induction false} ExplainsIsLacking(inp: Inputs, waivers: seq<Waiver>, snapshot: (string, Deps), dep: (string, string), p: Problem)
    ensures Explains(inp, AllDeclaredTriples, waivers, snapshot, dep, p) <==> Lacking(inp, waivers, snapshot.0, dep, p)
  {
    hide PresentInTree, ConsumerNameVersion, TripleString, FamilyFor, IsWithinSupport, Supported, IsWaived, WaivedBy;
    var binding := dep.0 + "@" + dep.1;
    if binding in inp.triples && FamilyFor(dep.0, inp.policyKeys).Some? {
      SupportTold(inp.triples[binding], inp.support);
      WaiversTold(waivers, FamilyFor(dep.0, inp.policyKeys).value, TripleString(inp.triples[binding]));
    }
  }

  /** For all declared triples, the problems are exactly the lacking bindings. */
  lemma {:induction false} ProblemsAreLacking(inp: Inputs, waivers: seq<Waiver>, p: Problem)
    ensures p in Problems(inp, AllDeclaredTriples, waivers, inp.snapshots) <==>
            exists snapshot, dep :: snapshot in inp.snapshots && dep in snapshot.1 && Lacking(inp, waivers, snapshot.0, dep, p)
  {
    hide Explains, Lacking, Problems;
    ProblemsExplained(inp, AllDeclaredTriples, waivers, inp.snapshots, p);
    forall snapshot, dep | snapshot in inp.snapshots && dep in snapshot.1
      ensures Explains(inp, AllDeclaredTriples, waivers, snapshot, dep, p) <==> Lacking(inp, waivers, snapshot.0, dep, p)
    {
      ExplainsIsLacking(inp, waivers, snapshot, dep, p);
    }
  }

  // ---------------------------------------------------------------- the build platform

  /** A list that is not empty holds the value, when that is set. */
  predicate ListHolds(values: seq<string>, component: Option<string>) {
    component.None? || values == [] || exists i :: 0 <= i < |values| && values[i] == component.value
  }

  predicate ForBuild(t: Triple, b: Build) {
    ListHolds(t.os, b.os) && ListHolds(t.cpu, b.cpu) && ListHolds(t.libc, b.libc)
  }

  /** A build platform reports exactly the problems about triples that hold its set values in each of their lists. */
  lemma {:induction false} BuildProblems(inp: Inputs, b: Build, waivers: seq<Waiver>, p: Problem)
    ensures p in Problems(inp, BuildPlatform(Some(b)), waivers, inp.snapshots) <==>
            p in Problems(inp, AllDeclaredTriples, waivers, inp.snapshots) && p.binding in inp.triples && ForBuild(inp.triples[p.binding], b)
  {
    hide Problems, Explains, ForBuild;
    ProblemsExplained(inp, AllDeclaredTriples, waivers, inp.snapshots, p);
    ProblemsExplained(inp, BuildPlatform(Some(b)), waivers, inp.snapshots, p);
    forall snapshot, dep | snapshot in inp.snapshots && dep in snapshot.1
      ensures Explains(inp, BuildPlatform(Some(b)), waivers, snapshot, dep, p) <==>
              Explains(inp, AllDeclaredTriples, waivers, snapshot, dep, p) && p.binding in inp.triples && ForBuild(inp.triples[p.binding], b)
    {
      ExplainsForBuild(inp, b, waivers, snapshot, dep, p);
    }
  }

  lemma {:induction false} ExplainsForBuild(inp: Inputs, b: Build, waivers: seq<Waiver>, snapshot: (string, Deps), dep: (string, string), p: Problem)
    ensures Explains(inp, BuildPlatform(Some(b)), waivers, snapshot, dep, p) <==>
            Explains(inp, AllDeclaredTriples, waivers, snapshot, dep, p) && p.binding in inp.triples && ForBuild(inp.triples[p.binding], b)
  {
    hide PresentInTree, ConsumerNameVersion, TripleString, FamilyFor, IsWithinSupport, IsWaived, TripleMatches, ForBuild;
    var binding := dep.0 + "@" + dep.1;
    if binding in inp.triples {
      MatchTold(inp.triples[binding], b);
    }
  }

  lemma {:induction false} MatchTold(t: Triple, b: Build)
    ensures TripleMatches(t, b) <==> ForBuild(t, b)
  {
  }

  /** Without a build platform that mode filters nothing. */
  lemma {:induction false} NoBuildFiltersNothing(inp: Inputs, waivers: seq<Waiver>, p: Problem)
    ensures p in Problems(inp, BuildPlatform(None), waivers, inp.snapshots) <==> p in Problems(inp, AllDeclaredTriples, waivers, inp.snapshots)
  {
    hide Problems;
    ProblemsExplained(inp, AllDeclaredTriples, waivers, inp.snapshots, p);
    ProblemsExplained(inp, BuildPlatform(None), waivers, inp.snapshots, p);
    assert forall snapshot, dep :: Explains(inp, BuildPlatform(None), waivers, snapshot, dep, p) <==> Explains(inp, AllDeclaredTriples, waivers, snapshot, dep, p);
  }

  /** Two build platforms with different operating systems share a problem only if its triple lists both of them or none. */
  lemma {:induction false} SharedProblems(inp: Inputs, b: Build, b': Build, waivers: seq<Waiver>, p: Problem)
    requires b.os.Some? && b'.os.Some?
    ensures p in Problems(inp, BuildPlatform(Some(b)), waivers, inp.snapshots) && p in Problems(inp, BuildPlatform(Some(b')), waivers, inp.snapshots) ==>
              p.binding in inp.triples && var os := inp.triples[p.binding].os; os == [] || (b.os.value in os && b'.os.value in os)
  {
    hide Problems;
    BuildProblems(inp, b, waivers, p);
    BuildProblems(inp, b', waivers, p);
  }

  // ---------------------------------------------------------------- names

  /** The key is the name, or the name goes on from it with `-` or `/`. */
  predicate Covers(key: string, name: string) {
    key <= name && (|key| == |name| || name[|key|] == '-' || name[|key|] == '/')
  }

  /** A package belongs to the first policy key that covers it. */
  lemma {:induction false} FamilyIsFirst(name: string, keys: seq<string>)
    ensures FamilyFor(name, keys).None? <==> forall i :: 0 <= i < |keys| ==> !Covers(keys[i], name)
    ensures forall i :: 0 <= i < |keys| && Covers(keys[i], name) && (forall j :: 0 <= j < i ==> !Covers(keys[j], name)) ==> FamilyFor(name, keys) == Some(keys[i])
  {
    if keys != [] {
      CoversTold(keys[0], name);
      FamilyIsFirst(name, keys[1..]);
      assert forall i :: 0 < i < |keys| ==> keys[i] == keys[1..][i - 1];
      forall i | 0 < i < |keys| && Covers(keys[i], name) && (forall j :: 0 <= j < i ==> !Covers(keys[j], name))
        ensures FamilyFor(name, keys) == Some(keys[i])
      {
        assert !Covers(keys[0], name);
        assert forall j :: 0 <= j < i - 1 ==> keys[1..][j] == keys[j + 1];
      }
    }
  }

  lemma CoversTold(key: string, name: string)
    ensures Covers(key, name) <==> name == key || key + "-" <= name || key + "/" <= name
  {
    if Covers(key, name) && |key| < |name| {
      assert name[..|key|] == key;
    }
  }

  /** A triple is written os first, then cpu, then libc, with dashes. */
  lemma {:induction false} TripleText(os: string, cpu: string, libc: string)
    ensures TripleString(Triple([os], [cpu], [libc])) == os + "-" + (cpu + "-" + libc)
    ensures TripleString(Triple([os], [cpu], [])) == os + "-" + cpu
    ensures TripleString(Triple([os], [], [])) == os
  {
    assert [os, cpu, libc][1..] == [cpu, libc] && [cpu, libc][1..] == [libc] && [os, cpu][1..] == [cpu];
    assert Join([cpu, libc], "-") == cpu + "-" + libc && Join([os, cpu], "-") == os + "-" + cpu;
    assert Join([os, cpu, libc], "-") == os + "-" + (cpu + "-" + libc);
    assert [os] + [cpu] + [libc] == [os, cpu, libc] && [os] + [cpu] + [] == [os, cpu] && [os] + [] + [] == [os];
  }
}
