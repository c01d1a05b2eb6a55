/**
 * The promotion from the other side: what the producer packs is accepted by every check on the
 * way, and an approved candidate can be promoted to a receipt.
 */
module Promotion {
  import opened Basics
  import opened Snapshot
  import opened SnapshotRuns

  predicate FileWord(c: char) {
    'a' <= c <= 'z' || 'A' <= c <= 'Z' || '0' <= c <= '9' || c == '.' || c == '_' || c == '-'
  }

  /** Tarball names are words of letters, digits, dots, underscores and dashes, with the extension; so none leads out of its directory. */
  lemma {:induction false} TarballNames(stem: string, other: string)
    ensures FileNameOk(stem + ".tgz") <==> stem != "" && forall i :: 0 <= i < |stem| ==> FileWord(stem[i])
    ensures FileNameOk(other) ==> |other| > 4 && other == other[..|other| - 4] + ".tgz" && '/' !in other
  {
    var file := stem + ".tgz";
    assert file[|file| - 4..] == ".tgz";
    assert forall i :: 0 <= i < |stem| ==> file[i] == stem[i];
    assert FileWord('.') && FileWord('t') && FileWord('g') && FileWord('z');
    WordChars(file);
    WordChars(other);
    assert |other| >= 4 ==> other == other[..|other| - 4] + other[|other| - 4..];
  }

  lemma WordChars(file: string)
    ensures (forall i :: 0 <= i < |file| ==> 'a' <= file[i] <= 'z' || 'A' <= file[i] <= 'Z' || '0' <= file[i] <= '9' || file[i] in "._-") <==>
            forall i :: 0 <= i < |file| ==> FileWord(file[i])
  {
  }

  predicate HexDigit(c: char) {
    c in {'0', '1', '2', '3', '4', '5', '6', '7', '8', '9', 'a', 'b', 'c', 'd', 'e', 'f'}
  }

  /** Which identities the checks accept: forty hexadecimal digits in lower case, and positive numbers that JavaScript holds exactly. */
  lemma {:induction false} IdentityFormats(sha: string, n: nat)
    ensures ShaOk(sha) <==> |sha| == 40 && forall i :: 0 <= i < |sha| ==> HexDigit(sha[i])
    ensures PositiveInteger(n) <==> 0 < n < 9007199254740992
  {
    forall i | 0 <= i < |sha| ensures HexDigit(sha[i]) <==> '0' <= sha[i] <= '9' || 'a' <= sha[i] <= 'f' {
      HexRange(sha[i]);
    }
  }

  lemma HexRange(c: char)
    ensures HexDigit(c) <==> '0' <= c <= '9' || 'a' <= c <= 'f'
  {
    var n := c as int;
    if 48 <= n <= 57 || 97 <= n <= 102 {
      assert c == n as char;
    }
  }

  /** A packed tarball: its package, its file name and its content. */
  datatype Packed = Packed(name: string, file: string, content: Content)

  predicate PackedOk(packed: seq<Packed>, names: set<string>) {
    && |packed| == |names|
    && (forall i, j :: 0 <= i < j < |packed| ==> packed[i].name != packed[j].name && packed[i].file != packed[j].file)
    && (forall i :: 0 <= i < |packed| ==> packed[i].name in names && FileNameOk(packed[i].file))
  }

  /** The trusted identity of a producer run. */
  datatype Identity = Identity(repository: string, prNumber: nat, headSha: string, runId: nat, runAttempt: nat)

  predicate ProducerOk(id: Identity) {
    ShaOk(id.headSha) && PositiveInteger(id.prNumber) && PositiveInteger(id.runId) && PositiveInteger(id.runAttempt)
  }

  function Entries(h: Digests, packed: seq<Packed>): seq<Entry> {
    seq(|packed|, i requires 0 <= i < |packed| => Entry(packed[i].name, packed[i].file, h.sha256(packed[i].content)))
  }

  /** `createManifest`, for packages in the order of their names. */
  function Create(h: Digests, id: Identity, topologyDigest: string, packed: seq<Packed>): Manifest {
    Manifest(id.repository, id.prNumber, id.headSha, id.runId, id.runAttempt, SnapshotVersion(id.prNumber, id.headSha), topologyDigest,
             Entries(h, packed))
  }

  /** The artifact directory with the publish list that validation adds. */
  function Produced(h: Digests, id: Identity, topologyDigest: string, packed: seq<Packed>): Artifact
    requires forall i, j :: 0 <= i < j < |packed| ==> packed[i].file != packed[j].file
  {
    Artifact(Some(Create(h, id, topologyDigest, packed)), Some(PublishList(Entries(h, packed))),
             map i | 0 <= i < |packed| :: packed[i].file := packed[i].content)
  }

  /** What validation resolves for a produced artifact. */
  function Resolved(h: Digests, id: Identity, topologyDigest: string, packed: seq<Packed>): Candidate {
    Candidate(id.repository, id.prNumber, id.headSha, id.runId, id.runAttempt,
              SnapshotVersion(id.prNumber, id.headSha), SnapshotTag(id.prNumber, id.headSha),
              h.sha256(Json(Create(h, id, topologyDigest, packed))), |packed|)
  }

  /** What the producer packs passes validation and the handoff. */
  lemma {:induction false} ProducedIsAccepted(h: Digests, id: Identity, names: set<string>, topologyDigest: string, packed: seq<Packed>)
    requires ProducerOk(id) && PackedOk(packed, names)
    ensures var c, a := Resolved(h, id, topologyDigest, packed), Produced(h, id, topologyDigest, packed);
            Validates(h, c, names, topologyDigest, a) && HandoffOk(h, c, a)
  {
    hide SnapshotVersion, SnapshotTag, ShaOk, FileNameOk;
    var a, entries := Produced(h, id, topologyDigest, packed), Entries(h, packed);
    forall e | e in entries ensures e.name in names && FileMatches(h, a, e) {
      var i :| 0 <= i < |packed| && entries[i] == e;
      assert packed[i].file in a.files && a.files[packed[i].file] == packed[i].content;
    }
  }

  /** Validation accepts an artifact for no other identity: what it accepts carries the trusted repository, numbers, head and version. */
  lemma {:induction false} ValidatedIdentity(h: Digests, c: Candidate, names: set<string>, topologyDigest: string, a: Artifact)
    requires Validates(h, c, names, topologyDigest, a)
    ensures a.manifest.Some?
    ensures var m := a.manifest.value;
            && m.repository == c.repository && m.prNumber == c.prNumber && m.headSha == c.headSha
            && m.runId == c.runId && m.runAttempt == c.runAttempt
            && m.version == SnapshotVersion(m.prNumber, m.headSha) && m.topologySha256 == topologyDigest
            && c.packageCount == |m.packages|
            && |m.headSha| == 40 && (forall i :: 0 <= i < 40 ==> HexDigit(m.headSha[i]))
            && 0 < m.prNumber < 9007199254740992 && 0 < m.runId < 9007199254740992 && 0 < m.runAttempt < 9007199254740992
            && c.version == "0.0.0-snapshot-pr." + Decimal(c.prNumber) + "." + c.headSha
            && c.tag == "pr-" + Decimal(c.prNumber) + "-" + c.headSha
            && (forall e :: e in m.packages ==> FileNameOk(e.file) && e.file in a.files && h.sha256(a.files[e.file]) == e.sha256)
            && (forall i, j :: 0 <= i < j < |m.packages| ==> m.packages[i].name != m.packages[j].name && m.packages[i].file != m.packages[j].file)
  {
    IdentityFormats(c.headSha, c.prNumber);
    hide Decimal;
    forall e | e in a.manifest.value.packages ensures FileNameOk(e.file) && e.file in a.files && h.sha256(a.files[e.file]) == e.sha256 {
      assert FileMatches(h, a, e);
    }
  }

  // ---------------------------------------------------------------- a run to the receipt

  /** Some run of actions leads from one state to the other. */
  ghost predicate Path(h: Digests, run: seq<System>, actions: seq<Action>) {
    && |run| == |actions| + 1
    && forall i :: 0 <= i < |actions| ==> Next(h, run[i], actions[i], run[i + 1])
  }

  ghost predicate Leads(h: Digests, s: System, s': System) {
    exists run, actions :: Path(h, run, actions) && run[0] == s && run[|actions|] == s'
  }

  lemma StaysPut(h: Digests, s: System)
    ensures Leads(h, s, s)
  {
    assert Path(h, [s], []) && [s][0] == s;
  }

  lemma {:induction false} OneMore(h: Digests, s: System, mid: System, action: Action, s': System)
    requires Leads(h, s, mid) && Next(h, mid, action, s')
    ensures Leads(h, s, s')
  {
    hide Next;
    var run, actions :| Path(h, run, actions) && run[0] == s && run[|actions|] == mid;
    var run', actions' := run + [s'], actions + [action];
    forall i | 0 <= i < |actions'| ensures Next(h, run'[i], actions'[i], run'[i + 1]) {
    }
    assert Path(h, run', actions') && run'[0] == s && run'[|actions'|] == s';
  }

  /** The registry holds the first `n` packages and none of the others. */
  ghost predicate Halfway(r: Registry, c: Candidate, a: Artifact, n: nat) {
    && Holds(r, c, a, n)
    && forall i :: n <= i < |a.publishList.value| ==> (a.publishList.value[i].0, c.version) !in r.published
  }

  ghost predicate ListOk(a: Artifact) {
    && a.publishList.Some?
    && (forall i, j :: 0 <= i < j < |a.publishList.value| ==> a.publishList.value[i].0 != a.publishList.value[j].0)
    && (forall i :: 0 <= i < |a.publishList.value| ==> a.publishList.value[i].1 in a.files)
  }

  /** Round by round a fresh cohort is published. */
  lemma {:induction false} PublishesAll(h: Digests, s: System, id: nat, a: Artifact, k: nat) returns (s': System)
    requires ListOk(a) && id in s.jobs && k <= |a.publishList.value| && s.jobs[id].stage == Publishing(a, k)
    requires Halfway(s.registry, s.jobs[id].candidate, a, k)
    ensures Leads(h, s, s') && id in s'.jobs && s'.jobs[id] == s.jobs[id].(stage := Publishing(a, |a.publishList.value|))
    ensures Holds(s'.registry, s.jobs[id].candidate, a, |a.publishList.value|) && s'.approved == s.approved
    decreases |a.publishList.value| - k
  {
    if k == |a.publishList.value| {
      s' := s;
      StaysPut(h, s);
    } else {
      var next := PublishesOne(h, s, id, a, k);
      s' := PublishesAll(h, next, id, a, k + 1);
      Joined(h, s, next, Publish(id, true, true), s');
    }
  }

  lemma {:induction false} Joined(h: Digests, s: System, next: System, action: Action, s': System)
    requires Next(h, s, action, next) && Leads(h, next, s')
    ensures Leads(h, s, s')
  {
    hide Next;
    var run, actions :| Path(h, run, actions) && run[0] == next && run[|actions|] == s';
    var run', actions' := [s] + run, [action] + actions;
    forall i | 0 <= i < |actions'| ensures Next(h, run'[i], actions'[i], run'[i + 1]) {
    }
    assert Path(h, run', actions') && run'[0] == s && run'[|actions'|] == s';
  }

  lemma {:induction false} PublishesOne(h: Digests, s: System, id: nat, a: Artifact, k: nat) returns (next: System)
    requires ListOk(a) && id in s.jobs && k < |a.publishList.value| && s.jobs[id].stage == Publishing(a, k)
    requires Halfway(s.registry, s.jobs[id].candidate, a, k)
    ensures Next(h, s, Publish(id, true, true), next) && id in next.jobs && next.jobs[id] == s.jobs[id].(stage := Publishing(a, k + 1))
    ensures Halfway(next.registry, s.jobs[id].candidate, a, k + 1) && next.approved == s.approved
  {
    var c := s.jobs[id].candidate;
    var (name, file) := a.publishList.value[k];
    var r := PublishOne(h, s.registry, c, name, a.files[file], true, true).value;
    next := WithStage(s, id, Publishing(a, k + 1)).(registry := r);
    assert r.published == s.registry.published[(name, c.version) := a.files[file]];
    forall i | 0 <= i < k + 1
      ensures var (name, file) := a.publishList.value[i];
              (name, c.version) in r.published && file in a.files && r.published[(name, c.version)] == a.files[file]
    {
      if i < k {
        assert (a.publishList.value[i].0, c.version) in s.registry.published;
      }
    }
  }

  /** Then every package verifies, and the receipt is written. */
  lemma {:induction false} VerifiesAll(h: Digests, s: System, id: nat, a: Artifact, k: nat) returns (s': System)
    requires ListOk(a) && id in s.jobs && k <= |a.publishList.value| && s.jobs[id].stage == Verifying(a, k, k)
    requires Holds(s.registry, s.jobs[id].candidate, a, |a.publishList.value|)
    requires s.jobs[id].candidate.packageCount == |a.publishList.value|
    ensures Leads(h, s, s') && ReceiptOf(s.jobs[id].candidate) in s'.receipts
    decreases |a.publishList.value| - k
  {
    var c := s.jobs[id].candidate;
    if k == |a.publishList.value| {
      s' := WithStage(s, id, Waiting).(receipts := s.receipts + {ReceiptOf(c)});
      assert Next(h, s, Finish(id), s');
      StaysPut(h, s);
      OneMore(h, s, s, Finish(id), s');
    } else {
      var next := WithStage(s, id, Verifying(a, k + 1, k + 1));
      VerifiesOne(h, s, id, a, k, next);
      s' := VerifiesAll(h, next, id, a, k + 1);
      Joined(h, s, next, Verify(id, false), s');
    }
  }

  lemma {:induction false} VerifiesOne(h: Digests, s: System, id: nat, a: Artifact, k: nat, next: System)
    requires ListOk(a) && id in s.jobs && k < |a.publishList.value| && s.jobs[id].stage == Verifying(a, k, k)
    requires Holds(s.registry, s.jobs[id].candidate, a, |a.publishList.value|)
    requires next == WithStage(s, id, Verifying(a, k + 1, k + 1))
    ensures Next(h, s, Verify(id, false), next)
  {
    var (name, file) := a.publishList.value[k];
    assert (name, s.jobs[id].candidate.version) in s.registry.published;
  }

  lemma {:induction false} HandoffList(h: Digests, c: Candidate, names: set<string>, topology: string, a: Artifact)
    requires Validates(h, c, names, topology, a) && HandoffOk(h, c, a)
    ensures ListOk(a) && |a.publishList.value| == c.packageCount
  {
    forall i | 0 <= i < |a.publishList.value| ensures a.publishList.value[i].1 in a.files {
      assert FileMatches(h, a, a.manifest.value.packages[i]);
    }
  }

  /** From any state without the job, an approved head and a registry without the cohort, a validated candidate can be promoted to its receipt. */
  lemma {:induction false} PromotionCompletes(h: Digests, s: System, id: nat, c: Candidate, names: set<string>, topology: string, a: Artifact)
    returns (s': System)
    requires Validates(h, c, names, topology, a) && HandoffOk(h, c, a)
    requires id !in s.jobs && c.headSha in s.approved
    requires forall e :: e in a.manifest.value.packages ==> (e.name, c.version) !in s.registry.published
    ensures Leads(h, s, s') && ReceiptOf(c) in s'.receipts
  {
    HandoffList(h, c, names, topology, a);
    var ready := ReadyToPublish(h, s, id, c, names, topology, a);
    assert Halfway(ready.registry, c, a, 0) by {
      forall i | 0 <= i < |a.publishList.value| ensures (a.publishList.value[i].0, c.version) !in s.registry.published {
        assert a.manifest.value.packages[i] in a.manifest.value.packages;
      }
    }
    hide Next, Validates, HandoffOk;
    var published := PublishesAll(h, ready, id, a, 0);
    var verifying := WithStage(published, id, Verifying(a, 0, 0));
    StartsVerifying(h, published, id, a, verifying);
    s' := VerifiesAll(h, verifying, id, a, 0);
    Joined(h, published, verifying, StartVerify(id), s');
    Composed(h, ready, published, s');
    Composed(h, s, ready, s');
  }

  lemma StartsVerifying(h: Digests, s: System, id: nat, a: Artifact, next: System)
    requires a.publishList.Some? && id in s.jobs && s.jobs[id].stage == Publishing(a, |a.publishList.value|)
    requires next == WithStage(s, id, Verifying(a, 0, 0))
    ensures Next(h, s, StartVerify(id), next)
  {
  }

  lemma {:induction false} Composed(h: Digests, s: System, mid: System, s': System)
    requires Leads(h, s, mid) && Leads(h, mid, s')
    ensures Leads(h, s, s')
  {
    hide Next;
    var run, actions :| Path(h, run, actions) && run[0] == s && run[|actions|] == mid;
    var run', actions' :| Path(h, run', actions') && run'[0] == mid && run'[|actions'|] == s';
    var all, both := run[..|actions|] + run', actions + actions';
    forall i | 0 <= i < |both| ensures Next(h, all[i], both[i], all[i + 1]) {
      if i >= |actions| {
        assert all[i] == run'[i - |actions|] && all[i + 1] == run'[i + 1 - |actions|] && both[i] == actions'[i - |actions|];
      } else {
        assert all[i] == run[i] && all[i + 1] == run[i + 1];
      }
    }
    assert all[0] == s && all[|both|] == s';
    assert Path(h, all, both);
  }

  /** The five steps before the first package. */
  lemma {:induction false} ReadyToPublish(h: Digests, s: System, id: nat, c: Candidate, names: set<string>, topology: string, a: Artifact)
    returns (ready: System)
    requires Validates(h, c, names, topology, a) && HandoffOk(h, c, a)
    requires id !in s.jobs && c.headSha in s.approved
    ensures Leads(h, s, ready) && ready.registry == s.registry
    ensures id in ready.jobs && ready.jobs[id].candidate == c && ready.jobs[id].stage == Publishing(a, 0)
  {
    hide Validates, HandoffOk;
    var s1 := s.(jobs := s.jobs[id := Job(c, false, false, Waiting)], validated := s.validated[id := a]);
    var s2 := s1.(jobs := s1.jobs[id := Job(c, true, false, Waiting)], attestations := s.attestations + {AttestationOf(c)});
    var s3 := s2.(jobs := s2.jobs[id := Job(c, true, true, Waiting)]);
    var s4 := s3.(jobs := s3.jobs[id := Job(c, true, true, Rechecked)]);
    ready := s4.(jobs := s4.jobs[id := Job(c, true, true, Publishing(a, 0))]);
    ManifestMatches(h, c, names, topology, a);
    assert Next(h, s, Admit(id, c, names, topology, a), s1);
    assert Next(h, s1, Attest(id, a), s2);
    assert Next(h, s2, Authorize(id), s3);
    assert Next(h, s3, Recheck(id), s4);
    assert Next(h, s4, Handoff(id, a), ready);
    hide Next;
    StaysPut(h, s);
    OneMore(h, s, s, Admit(id, c, names, topology, a), s1);
    OneMore(h, s, s1, Attest(id, a), s2);
    OneMore(h, s, s2, Authorize(id), s3);
    OneMore(h, s, s3, Recheck(id), s4);
    OneMore(h, s, s4, Handoff(id, a), ready);
  }

  lemma ManifestMatches(h: Digests, c: Candidate, names: set<string>, topology: string, a: Artifact)
    requires Validates(h, c, names, topology, a)
    ensures a.manifest.Some? && h.sha256(Json(a.manifest.value)) == c.manifestDigest
  {
  }
}
