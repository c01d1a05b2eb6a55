/**
 * The promotion protocol as a transition system: any number of promotion jobs, crashing and
 * rerunning at any point, over one registry that others may also publish to.
 */
module SnapshotRuns {
  import opened Basics
  import opened Snapshot

  /** Where a promotion job stands. A crashed or failed publish job is back at `Waiting`, from where it can be rerun. */
  datatype Stage =
    | Waiting
    | Rechecked
    | Publishing(artifact: Artifact, next: nat)
    | Verifying(artifact: Artifact, next: nat, verified: nat)

  datatype Job = Job(candidate: Candidate, attested: bool, authorized: bool, stage: Stage)

  datatype Receipt = Receipt(
    repository: string, prNumber: nat, headSha: string, runId: nat, runAttempt: nat, version: string, manifestDigest: string)

  datatype Attestation = Attestation(
    repository: string, prNumber: nat, headSha: string, runId: nat, runAttempt: nat, manifestDigest: string)

  datatype System = System(
    registry: Registry,
    approved: set<string>,
    jobs: map<nat, Job>,
    validated: map<nat, Artifact>,
    attestations: set<Attestation>,
    receipts: set<Receipt>)

  datatype Action =
    | Admit(id: nat, candidate: Candidate, names: set<string>, topology: string, artifact: Artifact)
    | Attest(id: nat, artifact: Artifact)
    | Authorize(id: nat)
    | Recheck(id: nat)
    | Handoff(id: nat, artifact: Artifact)
    | Publish(id: nat, seen: bool, tagSeen: bool)
    | StartVerify(id: nat)
    | Verify(id: nat, tagSeen: bool)
    | Finish(id: nat)
    | Crash(id: nat)
    | Others(registry: Registry)
    | Review(approved: set<string>)

  function ReceiptOf(c: Candidate): Receipt {
    Receipt(c.repository, c.prNumber, c.headSha, c.runId, c.runAttempt, c.version, c.manifestDigest)
  }

  function AttestationOf(c: Candidate): Attestation {
    Attestation(c.repository, c.prNumber, c.headSha, c.runId, c.runAttempt, c.manifestDigest)
  }

  function WithStage(s: System, id: nat, stage: Stage): System
    requires id in s.jobs
  {
    s.(jobs := s.jobs[id := s.jobs[id].(stage := stage)])
  }

  ghost predicate Next(h: Digests, s: System, action: Action, s': System) {
    match action
    case Admit(id, c, names, topology, a) =>
      && id !in s.jobs && Validates(h, c, names, topology, a)
      && s' == s.(jobs := s.jobs[id := Job(c, false, false, Waiting)], validated := s.validated[id := a])
    case Attest(id, a) =>
      && id in s.jobs && a.manifest.Some? && h.sha256(Json(a.manifest.value)) == s.jobs[id].candidate.manifestDigest
      && s' == s.(jobs := s.jobs[id := s.jobs[id].(attested := true)],
                  attestations := s.attestations + {AttestationOf(s.jobs[id].candidate)})
    case Authorize(id) =>
      && id in s.jobs && s.jobs[id].candidate.headSha in s.approved
      && s' == s.(jobs := s.jobs[id := s.jobs[id].(authorized := true)])
    case Recheck(id) =>
      && id in s.jobs && s.jobs[id].stage == Waiting && s.jobs[id].attested && s.jobs[id].authorized
      && s.jobs[id].candidate.headSha in s.approved
      && s' == WithStage(s, id, Rechecked)
    case Handoff(id, a) =>
      && id in s.jobs && s.jobs[id].stage == Rechecked && HandoffOk(h, s.jobs[id].candidate, a)
      && s' == WithStage(s, id, Publishing(a, 0))
    case Publish(id, seen, tagSeen) =>
      && id in s.jobs && s.jobs[id].stage.Publishing?
      && var Publishing(a, k) := s.jobs[id].stage;
      && a.publishList.Some? && k < |a.publishList.value|
      && var (name, file) := a.publishList.value[k];
      && file in a.files
      && var r := PublishOne(h, s.registry, s.jobs[id].candidate, name, a.files[file], seen, tagSeen);
      && r.Some?
      && s' == WithStage(s, id, Publishing(a, k + 1)).(registry := r.value)
    case StartVerify(id) =>
      && id in s.jobs && s.jobs[id].stage.Publishing?
      && var Publishing(a, k) := s.jobs[id].stage;
      && a.publishList.Some? && k == |a.publishList.value|
      && s' == WithStage(s, id, Verifying(a, 0, 0))
    case Verify(id, tagSeen) =>
      && id in s.jobs && s.jobs[id].stage.Verifying?
      && var Verifying(a, k, n) := s.jobs[id].stage;
      && a.publishList.Some? && k < |a.publishList.value|
      && var (name, file) := a.publishList.value[k];
      && file in a.files
      && Verified(h, s.registry, s.jobs[id].candidate, name, a.files[file], tagSeen)
      && s' == WithStage(s, id, Verifying(a, k + 1, n + 1))
    case Finish(id) =>
      && id in s.jobs && s.jobs[id].stage.Verifying?
      && var Verifying(a, k, n) := s.jobs[id].stage;
      && a.publishList.Some? && k == |a.publishList.value| && n == s.jobs[id].candidate.packageCount
      && s' == WithStage(s, id, Waiting).(receipts := s.receipts + {ReceiptOf(s.jobs[id].candidate)})
    case Crash(id) =>
      id in s.jobs && s' == WithStage(s, id, Waiting)
    case Others(r) =>
      Grows(s.registry, r) && s' == s.(registry := r)
    case Review(approved) =>
      s' == s.(approved := approved)
  }

  predicate Initial(s: System) {
    s.jobs == map[] && s.validated == map[] && s.attestations == {} && s.receipts == {}
  }

  /** A finite run: the states, and the action between each two. */
  ghost predicate IsRun(h: Digests, run: seq<System>, actions: seq<Action>) {
    && |run| == |actions| + 1
    && Initial(run[0])
    && forall i :: 0 <= i < |actions| ==> Next(h, run[i], actions[i], run[i + 1])
  }

  // ---------------------------------------------------------------- the invariant

  /** The registry holds every package of a validated artifact's manifest, under `version`, with the validated content. */
  ghost predicate Complete(r: Registry, version: string, validated: Artifact) {
    && validated.manifest.Some?
    && forall e :: e in validated.manifest.value.packages ==>
         (e.name, version) in r.published && e.file in validated.files && r.published[(e.name, version)] == validated.files[e.file]
  }

  ghost predicate JobOk(h: Digests, r: Registry, attestations: set<Attestation>, job: Job, validated: Artifact) {
    && (exists names, topology :: Validates(h, job.candidate, names, topology, validated))
    && (job.attested ==> AttestationOf(job.candidate) in attestations)
    && (job.stage != Waiting ==> job.attested && job.authorized)
    && match job.stage
       case Waiting => true
       case Rechecked => true
       case Publishing(a, k) => HandoffOk(h, job.candidate, a) && k <= |a.publishList.value|
       case Verifying(a, k, n) => HandoffOk(h, job.candidate, a) && n == k && Holds(r, job.candidate, a, k)
  }

  /** A receipt comes from a validated and attested artifact that is complete in the registry. */
  ghost predicate ReceiptOk(s: System, receipt: Receipt) {
    exists id :: id in s.jobs && id in s.validated && ReceiptOf(s.jobs[id].candidate) == receipt
                 && AttestationOf(s.jobs[id].candidate) in s.attestations
                 && Complete(s.registry, receipt.version, s.validated[id])
  }

  ghost predicate Inv(h: Digests, s: System) {
    && s.jobs.Keys == s.validated.Keys
    && (forall id :: id in s.jobs ==> JobOk(h, s.registry, s.attestations, s.jobs[id], s.validated[id]))
    && (forall receipt :: receipt in s.receipts ==> ReceiptOk(s, receipt))
  }

  lemma {:induction false} HoldsGrows(r: Registry, r': Registry, c: Candidate, a: Artifact, n: nat)
    requires Grows(r, r') && Holds(r, c, a, n)
    ensures Holds(r', c, a, n)
  {
    forall i | 0 <= i < n
      ensures var (name, file) := a.publishList.value[i];
              (name, c.version) in r'.published && file in a.files && r'.published[(name, c.version)] == a.files[file]
    {
      var (name, file) := a.publishList.value[i];
      assert (name, c.version) in r.published;
    }
  }

  lemma {:induction false} JobGrows(h: Digests, r: Registry, r': Registry, at: set<Attestation>, at': set<Attestation>, job: Job, validated: Artifact)
    requires Grows(r, r') && at <= at' && JobOk(h, r, at, job, validated)
    ensures JobOk(h, r', at', job, validated)
  {
    if job.stage.Verifying? {
      HoldsGrows(r, r', job.candidate, job.stage.artifact, job.stage.next);
    }
  }

  lemma {:induction false} ReceiptGrows(s: System, s': System, receipt: Receipt)
    requires ReceiptOk(s, receipt) && Grows(s.registry, s'.registry) && s.attestations <= s'.attestations
    requires forall id :: id in s.jobs ==> id in s'.jobs && s'.jobs[id].candidate == s.jobs[id].candidate
    requires forall id :: id in s.validated ==> id in s'.validated && s'.validated[id] == s.validated[id]
    ensures ReceiptOk(s', receipt)
  {
    var id :| id in s.jobs && id in s.validated && ReceiptOf(s.jobs[id].candidate) == receipt
              && AttestationOf(s.jobs[id].candidate) in s.attestations
              && Complete(s.registry, receipt.version, s.validated[id]);
    assert Complete(s'.registry, receipt.version, s'.validated[id]);
  }

  /** No step takes anything away: not a version, not an attestation, not a receipt, not a candidate. */
  lemma {:induction false} NothingIsRetracted(h: Digests, s: System, action: Action, s': System)
    requires Next(h, s, action, s')
    ensures Grows(s.registry, s'.registry) && s.attestations <= s'.attestations && s.receipts <= s'.receipts
    ensures forall id :: id in s.jobs ==> id in s'.jobs && s'.jobs[id].candidate == s.jobs[id].candidate
  {
    if action.Publish? {
      var a, k := s.jobs[action.id].stage.artifact, s.jobs[action.id].stage.next;
      var (name, file) := a.publishList.value[k];
      PublishOneAddsOnlyMissing(h, s.registry, s.jobs[action.id].candidate, name, a.files[file], action.seen, action.tagSeen);
    }
  }

  /** Every step preserves the invariant. */
  lemma {:induction false} StepKeepsInv(h: Digests, s: System, action: Action, s': System)
    requires Injective(h.sha256) && Injective(h.sha512)
    requires Inv(h, s) && Next(h, s, action, s')
    ensures Inv(h, s')
  {
    NothingIsRetracted(h, s, action, s');
    Admissions(h, s, action, s');
    forall id | id in s'.jobs
      ensures JobOk(h, s'.registry, s'.attestations, s'.jobs[id], s'.validated[id])
    {
      if id in s.jobs {
        JobGrows(h, s.registry, s'.registry, s.attestations, s'.attestations, s.jobs[id], s.validated[id]);
        JobStep(h, s, action, s', id);
      }
    }
    forall receipt | receipt in s'.receipts
      ensures ReceiptOk(s', receipt)
    {
      NewReceipt(h, s, action, s', receipt);
      ReceiptGrows(s, s', receipt);
    }
  }

  /** Jobs only appear by admission, with the artifact that was validated. */
  lemma {:induction false} Admissions(h: Digests, s: System, action: Action, s': System)
    requires Next(h, s, action, s') && s.jobs.Keys == s.validated.Keys
    ensures s'.jobs.Keys == s'.validated.Keys
    ensures forall id :: id in s.validated ==> s'.validated[id] == s.validated[id]
    ensures forall id :: id in s'.jobs && id !in s.jobs ==> JobOk(h, s'.registry, s'.attestations, s'.jobs[id], s'.validated[id])
  {
    if action.Admit? {
      assert Validates(h, action.candidate, action.names, action.topology, action.artifact);
    }
  }

  lemma {:induction false} NewReceipt(h: Digests, s: System, action: Action, s': System, receipt: Receipt)
    requires Injective(h.sha256) && Injective(h.sha512)
    requires Inv(h, s) && Next(h, s, action, s') && receipt in s'.receipts
    ensures ReceiptOk(s, receipt)
  {
    if receipt !in s.receipts {
      WrittenByFinish(h, s, action, s', receipt);
      hide Next;
      FinishedIsComplete(h, s, action.id);
    }
  }

  /** Only a job that has verified its whole list writes a receipt, and it writes its own. */
  lemma {:induction false} WrittenByFinish(h: Digests, s: System, action: Action, s': System, receipt: Receipt)
    requires Next(h, s, action, s') && receipt in s'.receipts && receipt !in s.receipts
    ensures action.Finish? && action.id in s.jobs && receipt == ReceiptOf(s.jobs[action.id].candidate)
    ensures s.jobs[action.id].stage.Verifying? && s.jobs[action.id].stage.artifact.publishList.Some?
    ensures s.jobs[action.id].stage.next == |s.jobs[action.id].stage.artifact.publishList.value|
  {
    hide Validates, HandoffOk, PublishOne, Verified;
  }

  /** One job after a step, its facts about the old state being carried over. */
  lemma {:induction false} JobStep(h: Digests, s: System, action: Action, s': System, id: nat)
    requires Injective(h.sha512)
    requires Next(h, s, action, s') && id in s.jobs && id in s.validated
    requires JobOk(h, s'.registry, s'.attestations, s.jobs[id], s.validated[id])
    ensures id in s'.jobs && id in s'.validated && JobOk(h, s'.registry, s'.attestations, s'.jobs[id], s'.validated[id])
  {
    if action.Verify? && action.id == id {
      VerifyHolds(h, s, action.id, action.tagSeen);
    }
  }

  /** A verified package is there with the artifact's bytes, because the integrities agree. */
  lemma {:induction false} VerifyHolds(h: Digests, s: System, id: nat, tagSeen: bool)
    requires Injective(h.sha512)
    requires id in s.jobs && s.jobs[id].stage.Verifying?
    requires var Verifying(a, k, n) := s.jobs[id].stage;
             && Holds(s.registry, s.jobs[id].candidate, a, k) && k < |a.publishList.value|
             && var (name, file) := a.publishList.value[k];
             file in a.files && Verified(h, s.registry, s.jobs[id].candidate, name, a.files[file], tagSeen)
    ensures Holds(s.registry, s.jobs[id].candidate, s.jobs[id].stage.artifact, s.jobs[id].stage.next + 1)
  {
    var Verifying(a, k, n) := s.jobs[id].stage;
    var (name, file) := a.publishList.value[k];
    assert s.registry.published[(name, s.jobs[id].candidate.version)] == a.files[file];
  }

  /** A job that has verified its whole list has its validated artifact complete in the registry. */
  lemma {:induction false} FinishedIsComplete(h: Digests, s: System, id: nat)
    requires Injective(h.sha256)
    requires id in s.jobs && id in s.validated && s.jobs[id].stage.Verifying?
    requires JobOk(h, s.registry, s.attestations, s.jobs[id], s.validated[id])
    requires s.jobs[id].stage.next == |s.jobs[id].stage.artifact.publishList.value|
    ensures Complete(s.registry, s.jobs[id].candidate.version, s.validated[id])
    ensures ReceiptOk(s, ReceiptOf(s.jobs[id].candidate))
  {
    var a, c, v := s.jobs[id].stage.artifact, s.jobs[id].candidate, s.validated[id];
    var names, topology :| Validates(h, c, names, topology, v);
    HandoffIsValidated(h, c, names, topology, v, a);
    forall e | e in v.manifest.value.packages
      ensures (e.name, c.version) in s.registry.published && e.file in v.files && s.registry.published[(e.name, c.version)] == v.files[e.file]
    {
      var i :| 0 <= i < |a.manifest.value.packages| && a.manifest.value.packages[i] == e;
      assert a.publishList.value[i] == (e.name, e.file);
    }
  }

  // ---------------------------------------------------------------- whole runs

  /** So the invariant holds in every state of every run. */
  lemma {:induction false} RunKeepsInv(h: Digests, run: seq<System>, actions: seq<Action>, i: nat)
    requires Injective(h.sha256) && Injective(h.sha512)
    requires IsRun(h, run, actions) && i < |run|
    ensures Inv(h, run[i])
  {
    if i > 0 {
      RunKeepsInv(h, run, actions, i - 1);
      StepKeepsInv(h, run[i - 1], actions[i - 1], run[i]);
    }
  }

  /** In every run, a published version never changes and nothing that was recorded disappears. */
  lemma {:induction false} PublishedIsImmutable(h: Digests, run: seq<System>, actions: seq<Action>, i: nat, j: nat)
    requires IsRun(h, run, actions) && i <= j < |run|
    ensures Grows(run[i].registry, run[j].registry) && run[i].receipts <= run[j].receipts
  {
    hide Next;
    if i < j {
      PublishedIsImmutable(h, run, actions, i, j - 1);
      NothingIsRetracted(h, run[j - 1], actions[j - 1], run[j]);
    }
  }

  /**
   * In every run, a receipt stands for one admitted candidate: it was validated and attested, and from then on every
   * package of its manifest is in the registry with the validated bytes.  Any artifact with the receipt's manifest
   * digest that passes validation is that artifact.
   */
  lemma {:induction false} ReceiptMeansComplete(h: Digests, run: seq<System>, actions: seq<Action>, i: nat, receipt: Receipt, c: Candidate, names: set<string>, topology: string, a: Artifact)
    requires Injective(h.sha256) && Injective(h.sha512)
    requires IsRun(h, run, actions) && i < |run| && receipt in run[i].receipts
    requires ReceiptOf(c) == receipt && Validates(h, c, names, topology, a)
    ensures Complete(run[i].registry, receipt.version, a)
    ensures AttestationOf(c) in run[i].attestations
  {
    hide Inv, Validates, Complete;
    RunKeepsInv(h, run, actions, i);
    ReceiptInState(h, run[i], receipt, c, names, topology, a);
  }

  lemma {:induction false} ReceiptInState(h: Digests, s: System, receipt: Receipt, c: Candidate, names: set<string>, topology: string, a: Artifact)
    requires Injective(h.sha256) && Inv(h, s) && receipt in s.receipts
    requires ReceiptOf(c) == receipt && Validates(h, c, names, topology, a)
    ensures Complete(s.registry, receipt.version, a)
    ensures AttestationOf(c) in s.attestations
  {
    hide Inv, Validates;
    var id, names', topology' := ReceiptJob(h, s, receipt);
    SameDigestSameFiles(h, s.jobs[id].candidate, names', topology', s.validated[id], c, names, topology, a);
  }

  /** The admitted job behind a receipt. */
  lemma {:induction false} ReceiptJob(h: Digests, s: System, receipt: Receipt) returns (id: nat, names: set<string>, topology: string)
    requires Inv(h, s) && receipt in s.receipts
    ensures id in s.jobs && id in s.validated && ReceiptOf(s.jobs[id].candidate) == receipt
    ensures AttestationOf(s.jobs[id].candidate) in s.attestations && Complete(s.registry, receipt.version, s.validated[id])
    ensures Validates(h, s.jobs[id].candidate, names, topology, s.validated[id])
  {
    hide Validates, Complete, HandoffOk, Holds;
    assert ReceiptOk(s, receipt);
    id :| id in s.jobs && id in s.validated && ReceiptOf(s.jobs[id].candidate) == receipt
          && AttestationOf(s.jobs[id].candidate) in s.attestations
          && Complete(s.registry, receipt.version, s.validated[id]);
    names, topology :| Validates(h, s.jobs[id].candidate, names, topology, s.validated[id]);
  }

  /** Two artifacts that validate under one manifest digest have one manifest and the same tarballs. */
  lemma {:induction false} SameDigestSameFiles(h: Digests, c: Candidate, names: set<string>, topology: string, a: Artifact,
                                               c': Candidate, names': set<string>, topology': string, a': Artifact)
    requires Injective(h.sha256) && c.manifestDigest == c'.manifestDigest
    requires Validates(h, c, names, topology, a) && Validates(h, c', names', topology', a')
    ensures a.manifest == a'.manifest
    ensures forall e :: e in a.manifest.value.packages ==> e.file in a.files && e.file in a'.files && a.files[e.file] == a'.files[e.file]
  {
    assert h.sha256(Json(a.manifest.value)) == h.sha256(Json(a'.manifest.value));
    forall e | e in a.manifest.value.packages
      ensures e.file in a.files && e.file in a'.files && a.files[e.file] == a'.files[e.file]
    {
      assert FileMatches(h, a, e) && FileMatches(h, a', e);
    }
  }

  /**
   * Two receipts for one version, even in different states of the run, are about one pull request and head, and agree
   * on every package that both manifests name; under one trusted topology they name the same packages.
   */
  lemma {:induction false} ReceiptsAgree(h: Digests, run: seq<System>, actions: seq<Action>, i: nat, j: nat,
                                         c: Candidate, names: set<string>, topology: string, a: Artifact,
                                         c': Candidate, names': set<string>, topology': string, a': Artifact)
    requires Injective(h.sha256) && Injective(h.sha512)
    requires IsRun(h, run, actions) && i <= j < |run|
    requires ReceiptOf(c) in run[i].receipts && ReceiptOf(c') in run[j].receipts && c.version == c'.version
    requires Validates(h, c, names, topology, a) && Validates(h, c', names', topology', a')
    ensures c.prNumber == c'.prNumber && c.headSha == c'.headSha
    ensures forall e, e' :: e in a.manifest.value.packages && e' in a'.manifest.value.packages && e.name == e'.name ==>
              e.file in a.files && e'.file in a'.files && a.files[e.file] == a'.files[e'.file]
    ensures names == names' ==> NamesOf(a.manifest.value.packages) == NamesOf(a'.manifest.value.packages)
  {
    PublishedIsImmutable(h, run, actions, i, j);
    ReceiptMeansComplete(h, run, actions, j, ReceiptOf(c), c, names, topology, a);
    ReceiptMeansComplete(h, run, actions, j, ReceiptOf(c'), c', names', topology', a');
    hide IsRun, SnapshotVersion, SnapshotTag, ShaOk;
    VersionIdentifiesHead(c.prNumber, c.headSha, c'.prNumber, c'.headSha);
    ManifestNamesAreTrusted(h, c, names, topology, a);
    ManifestNamesAreTrusted(h, c', names', topology', a');
  }

  /**
   * A promotion job that publishes was attested and authorized, and rechecked the approval while it was live, in the
   * very attempt that is running: it has not crashed since.
   */
  lemma {:induction false} PublishedByAuthorizedJobs(h: Digests, run: seq<System>, actions: seq<Action>, i: nat)
    requires Injective(h.sha256) && Injective(h.sha512)
    requires IsRun(h, run, actions) && i < |actions| && actions[i].Publish?
    ensures actions[i].id in run[i].jobs
    ensures var job := run[i].jobs[actions[i].id]; job.attested && job.authorized && AttestationOf(job.candidate) in run[i].attestations
    ensures exists k :: RecheckedAt(run, actions, i, actions[i].id, k)
  {
    assert Next(h, run[i], actions[i], run[i + 1]);
    RunKeepsInv(h, run, actions, i);
    RecheckBefore(h, run, actions, i, actions[i].id);
  }

  ghost predicate RecheckedAt(run: seq<System>, actions: seq<Action>, i: nat, id: nat, k: nat) {
    && k < i < |run| && i <= |actions|
    && actions[k] == Recheck(id)
    && id in run[i].jobs && run[i].jobs[id].candidate.headSha in run[k].approved
    && forall m :: k < m < i ==> actions[m] != Crash(id)
  }

  /** A job in any later stage has rechecked since its last crash. */
  lemma {:induction false} RecheckBefore(h: Digests, run: seq<System>, actions: seq<Action>, i: nat, id: nat)
    requires IsRun(h, run, actions) && i < |run| && id in run[i].jobs && run[i].jobs[id].stage != Waiting
    ensures exists k :: RecheckedAt(run, actions, i, id, k)
  {
    assert i > 0;
    var s, action := run[i - 1], actions[i - 1];
    assert Next(h, s, action, run[i]);
    if action == Recheck(id) {
      assert RecheckedAt(run, actions, i, id, i - 1);
    } else {
      assert id in s.jobs && s.jobs[id].stage != Waiting && s.jobs[id].candidate == run[i].jobs[id].candidate;
      RecheckBefore(h, run, actions, i - 1, id);
      var k :| RecheckedAt(run, actions, i - 1, id, k);
      assert RecheckedAt(run, actions, i, id, k);
    }
  }
}
