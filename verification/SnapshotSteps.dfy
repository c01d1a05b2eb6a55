/** The order of a promotion job's steps, and what has happened before each of them. */
module SnapshotSteps {
  import opened Basics
  import opened Snapshot
  import opened SnapshotRuns

  function StageOrder(stage: Stage): nat {
    match stage case Waiting => 0 case Rechecked => 1 case Publishing(_, _) => 2 case Verifying(_, _, _) => 3
  }

  /** Where a job is in its package list. */
  function Progress(stage: Stage): nat {
    match stage case Publishing(_, k) => k case Verifying(_, k, _) => k case _ => 0
  }

  /** No step but a crash or the receipt takes a job back. */
  lemma {:induction false} StepsGoForward(h: Digests, s: System, action: Action, s': System, id: nat)
    requires Next(h, s, action, s') && id in s.jobs && action != Crash(id) && action != Finish(id)
    ensures id in s'.jobs
    ensures var before, after := s.jobs[id].stage, s'.jobs[id].stage;
            StageOrder(before) < StageOrder(after) || (StageOrder(before) == StageOrder(after) && Progress(before) <= Progress(after))
  {
  }

  /** Who is attested showed the validated manifest. */
  lemma {:induction false} AttestedManifest(h: Digests, run: seq<System>, actions: seq<Action>, i: nat)
    requires Injective(h.sha256) && Injective(h.sha512)
    requires IsRun(h, run, actions) && i < |actions| && actions[i].Attest?
    ensures var id := actions[i].id; id in run[i].jobs && id in run[i].validated && actions[i].artifact.manifest == run[i].validated[id].manifest
  {
    RunKeepsInv(h, run, actions, i);
    assert Next(h, run[i], actions[i], run[i + 1]);
    var id := actions[i].id;
    var names, topology :| Validates(h, run[i].jobs[id].candidate, names, topology, run[i].validated[id]);
    assert h.sha256(Json(actions[i].artifact.manifest.value)) == h.sha256(Json(run[i].validated[id].manifest.value));
  }

  ghost predicate AuthorizedAt(run: seq<System>, actions: seq<Action>, i: nat, id: nat, k: nat) {
    k < i < |run| && i <= |actions| && actions[k] == Authorize(id) && id in run[i].jobs && run[i].jobs[id].candidate.headSha in run[k].approved
  }

  /** Who is authorized had an approved head when that was decided. */
  lemma {:induction false} AuthorizedHead(h: Digests, run: seq<System>, actions: seq<Action>, i: nat, id: nat)
    requires IsRun(h, run, actions) && i < |run| && id in run[i].jobs && run[i].jobs[id].authorized
    ensures exists k :: AuthorizedAt(run, actions, i, id, k)
  {
    assert i > 0;
    var s, action := run[i - 1], actions[i - 1];
    assert Next(h, s, action, run[i]);
    if action == Authorize(id) {
      assert AuthorizedAt(run, actions, i, id, i - 1);
    } else {
      assert id in s.jobs && s.jobs[id].authorized && s.jobs[id].candidate == run[i].jobs[id].candidate;
      AuthorizedHead(h, run, actions, i - 1, id);
      var k :| AuthorizedAt(run, actions, i - 1, id, k);
      assert AuthorizedAt(run, actions, i, id, k);
    }
  }

  /** The versions of the first `k` packages of the list are in the registry. */
  ghost predicate ListedPresent(r: Registry, c: Candidate, a: Artifact, k: nat) {
    a.publishList.Some? && k <= |a.publishList.value| && forall i :: 0 <= i < k ==> (a.publishList.value[i].0, c.version) in r.published
  }

  ghost predicate PresentSoFar(r: Registry, job: Job) {
    match job.stage
    case Publishing(a, k) => ListedPresent(r, job.candidate, a, k)
    case Verifying(a, k, n) => a.publishList.Some? && ListedPresent(r, job.candidate, a, |a.publishList.value|)
    case _ => true
  }

  lemma {:induction false} PresentStep(h: Digests, s: System, action: Action, s': System, id: nat)
    requires Next(h, s, action, s') && id in s.jobs && PresentSoFar(s.registry, s.jobs[id])
    ensures id in s'.jobs && PresentSoFar(s'.registry, s'.jobs[id])
  {
    NothingIsRetracted(h, s, action, s');
    if s'.jobs[id].stage == s.jobs[id].stage {
      hide Next;
    } else if action.Publish? {
      PublishedOne(h, s, action, s');
    }
  }

  lemma {:induction false} PublishedOne(h: Digests, s: System, action: Action, s': System)
    requires Next(h, s, action, s') && action.Publish? && PresentSoFar(s.registry, s.jobs[action.id])
    ensures PresentSoFar(s'.registry, s'.jobs[action.id])
  {
    var a, k := s.jobs[action.id].stage.artifact, s.jobs[action.id].stage.next;
    var (name, file) := a.publishList.value[k];
    PublishOneAddsOnlyMissing(h, s.registry, s.jobs[action.id].candidate, name, a.files[file], action.seen, action.tagSeen);
  }

  /** A job verifies only what is all there: every listed version is in the registry when verification starts, and from then on. */
  lemma {:induction false} VerifiesAfterPublishing(h: Digests, run: seq<System>, actions: seq<Action>, i: nat, id: nat)
    requires IsRun(h, run, actions) && i < |run| && id in run[i].jobs
    ensures PresentSoFar(run[i].registry, run[i].jobs[id])
  {
    if i > 0 {
      var s, action := run[i - 1], actions[i - 1];
      assert Next(h, s, action, run[i]);
      if id in s.jobs {
        VerifiesAfterPublishing(h, run, actions, i - 1, id);
        PresentStep(h, s, action, run[i], id);
      }
    }
  }
}
