/**
 * The PR snapshot promotion: what is validated, handed over, published and verified.
 *
 * The three digests are functions from file contents to strings; what they protect is stated
 * under the hypothesis that they are injective.
 */
module Snapshot {
  import opened Basics

  datatype Entry = Entry(name: string, file: string, sha256: string)

  datatype Manifest = Manifest(
    repository: string, prNumber: nat, headSha: string, runId: nat, runAttempt: nat,
    version: string, topologySha256: string, packages: seq<Entry>)

  /** What a digest is taken of: the manifest file or a tarball. */
  datatype Content = Json(manifest: Manifest) | Tarball(bytes: seq<bv8>)

  datatype Digests = Digests(sha1: Content -> string, sha256: Content -> string, sha512: Content -> string)

  ghost predicate Injective(digest: Content -> string) {
    forall a, b :: digest(a) == digest(b) ==> a == b
  }

  /** An artifact directory: the manifest, the publish list and the tarballs, as far as they are there. */
  datatype Artifact = Artifact(manifest: Option<Manifest>, publishList: Option<seq<(string, string)>>, files: map<string, Content>)

  /** What the validation job resolves about a pull request, and what it hands to the later jobs. */
  datatype Candidate = Candidate(
    repository: string, prNumber: nat, headSha: string, runId: nat, runAttempt: nat,
    version: string, tag: string, manifestDigest: string, packageCount: nat)

  // ---------------------------------------------------------------- validation and handoff

  predicate FileNameOk(file: string) {
    && |file| > 4
    && file[|file| - 4..] == ".tgz"
    && forall i :: 0 <= i < |file| ==> 'a' <= file[i] <= 'z' || 'A' <= file[i] <= 'Z' || '0' <= file[i] <= '9' || file[i] in "._-"
  }

  predicate FileMatches(h: Digests, a: Artifact, e: Entry) {
    FileNameOk(e.file) && e.file in a.files && h.sha256(a.files[e.file]) == e.sha256
  }

  predicate Distinct(entries: seq<Entry>) {
    forall i, j :: 0 <= i < j < |entries| ==> entries[i].name != entries[j].name && entries[i].file != entries[j].file
  }

  // ---------------------------------------------------------------- versions

  /** A number in decimal digits. */
  function Decimal(n: nat): string {
    (if n < 10 then "" else Decimal(n / 10)) + [('0' as int + n % 10) as char]
  }

  function ValueOf(s: string): int {
    if s == "" then 0 else ValueOf(s[..|s| - 1]) * 10 + (s[|s| - 1] as int - '0' as int)
  }

  lemma {:induction false} DecimalReadsBack(n: nat)
    ensures ValueOf(Decimal(n)) == n
  {
    var front := if n < 10 then "" else Decimal(n / 10);
    assert Decimal(n)[..|Decimal(n)| - 1] == front;
    if n >= 10 {
      DecimalReadsBack(n / 10);
    }
  }

  /** `snapshotVersion`. */
  function SnapshotVersion(prNumber: nat, headSha: string): string {
    "0.0.0-snapshot-pr." + Decimal(prNumber) + "." + headSha
  }

  /** `snapshotTag`. */
  function SnapshotTag(prNumber: nat, headSha: string): string {
    "pr-" + Decimal(prNumber) + "-" + headSha
  }

  predicate ShaOk(sha: string) {
    |sha| == 40 && forall i :: 0 <= i < |sha| ==> '0' <= sha[i] <= '9' || 'a' <= sha[i] <= 'f'
  }

  const MAX_SAFE_INTEGER := 9007199254740991

  predicate PositiveInteger(n: nat) { 1 <= n <= MAX_SAFE_INTEGER }

  /** What the validator derives from the trusted identity of the run. */
  predicate IdentityOk(c: Candidate) {
    && ShaOk(c.headSha) && PositiveInteger(c.prNumber) && PositiveInteger(c.runId) && PositiveInteger(c.runAttempt)
    && c.version == SnapshotVersion(c.prNumber, c.headSha)
    && c.tag == SnapshotTag(c.prNumber, c.headSha)
  }

  /** A snapshot version names one pull request and one head, because head SHAs have a fixed length. */
  lemma {:induction false} VersionIdentifiesHead(p: nat, s: string, p': nat, s': string)
    requires ShaOk(s) && ShaOk(s')
    ensures SnapshotVersion(p, s) == SnapshotVersion(p', s') <==> p == p' && s == s'
  {
    hide Decimal, ShaOk;
    var d, d' := Decimal(p), Decimal(p');
    var v, v' := SnapshotVersion(p, s), SnapshotVersion(p', s');
    assert |s| == |s'| by { ShaLength(s); ShaLength(s'); }
    if v == v' {
      SamePieces("0.0.0-snapshot-pr.", d, s, d', s');
      DecimalReadsBack(p);
      DecimalReadsBack(p');
    }
  }

  lemma {:induction false} SamePieces(front: string, d: string, s: string, d': string, s': string)
    requires |s| == |s'| && front + d + "." + s == front + d' + "." + s'
    ensures d == d' && s == s'
  {
    var v, v', n := front + d + "." + s, front + d' + "." + s', |front|;
    assert |d| == |d'|;
    assert v[n..n + |d|] == d && v'[n..n + |d|] == d';
    assert v[n + |d| + 1..] == s && v'[n + |d| + 1..] == s';
  }

  lemma ShaLength(sha: string)
    requires ShaOk(sha)
    ensures |sha| == 40
  {
  }

  // ---------------------------------------------------------------- the checks

  /** `validateManifest`, for the trusted package names of the release topology. */
  predicate Validates(h: Digests, c: Candidate, names: set<string>, topologyDigest: string, a: Artifact) {
    && IdentityOk(c)
    && a.manifest.Some?
    && var m := a.manifest.value;
    && m.repository == c.repository && m.prNumber == c.prNumber && m.headSha == c.headSha
    && m.runId == c.runId && m.runAttempt == c.runAttempt && m.version == c.version
    && m.topologySha256 == topologyDigest
    && |m.packages| == |names|
    && Distinct(m.packages)
    && (forall e :: e in m.packages ==> e.name in names && FileMatches(h, a, e))
    && c.manifestDigest == h.sha256(Json(m))
    && c.packageCount == |names|
  }

  function NamesOf(packages: seq<Entry>): set<string> {
    set e | e in packages :: e.name
  }

  /** The packages of a validated manifest are exactly the trusted ones. */
  lemma {:induction false} ManifestNamesAreTrusted(h: Digests, c: Candidate, names: set<string>, topologyDigest: string, a: Artifact)
    requires Validates(h, c, names, topologyDigest, a)
    ensures NamesOf(a.manifest.value.packages) == names
  {
    var packages := a.manifest.value.packages;
    DistinctCount(packages);
    SubsetSizes(NamesOf(packages), names);
  }

  lemma {:induction false} DistinctCount(entries: seq<Entry>)
    requires Distinct(entries)
    ensures |NamesOf(entries)| == |entries|
  {
    if entries != [] {
      var n := |entries| - 1;
      DistinctCount(entries[..n]);
      assert forall e :: e in entries <==> e in entries[..n] || e == entries[n];
      assert NamesOf(entries) == NamesOf(entries[..n]) + {entries[n].name};
    }
  }

  function PublishList(packages: seq<Entry>): seq<(string, string)> {
    seq(|packages|, i requires 0 <= i < |packages| => (packages[i].name, packages[i].file))
  }

  /** The checks of the publish job on the artifact it downloaded. */
  predicate HandoffOk(h: Digests, c: Candidate, a: Artifact) {
    && a.manifest.Some?
    && a.publishList.Some?
    && h.sha256(Json(a.manifest.value)) == c.manifestDigest
    && a.publishList.value == PublishList(a.manifest.value.packages)
    && forall e :: e in a.manifest.value.packages ==> FileMatches(h, a, e)
  }

  /** What passes the handoff is what was validated, file by file. */
  lemma {:induction false} HandoffIsValidated(h: Digests, c: Candidate, names: set<string>, topology: string, validated: Artifact, a: Artifact)
    requires Injective(h.sha256)
    requires Validates(h, c, names, topology, validated) && HandoffOk(h, c, a)
    ensures a.manifest == validated.manifest
    ensures |a.publishList.value| == c.packageCount
    ensures forall e :: e in a.manifest.value.packages ==>
              e.file in a.files && e.file in validated.files && a.files[e.file] == validated.files[e.file]
  {
    assert h.sha256(Json(a.manifest.value)) == h.sha256(Json(validated.manifest.value));
    forall e | e in a.manifest.value.packages
      ensures e.file in a.files && e.file in validated.files && a.files[e.file] == validated.files[e.file]
    {
      assert FileMatches(h, a, e) && FileMatches(h, validated, e);
    }
  }

  // ---------------------------------------------------------------- the registry

  /** Published contents by name and version, and dist-tags by name and tag. */
  datatype Registry = Registry(published: map<(string, string), Content>, tags: map<(string, string), string>)

  /** The registry only grows: a published version keeps its content. */
  ghost predicate Grows(r: Registry, r': Registry) {
    forall k :: k in r.published ==> k in r'.published && r'.published[k] == r.published[k]
  }

  predicate TagConflict(r: Registry, name: string, tag: string, version: string) {
    (name, tag) in r.tags && r.tags[(name, tag)] != "" && r.tags[(name, tag)] != version
  }

  /**
   * One round of the publish loop.  `seen` and `tagSeen` say whether the two registry queries
   * answered; a query that fails reads as "absent".  `None` is a failing step.
   */
  function PublishOne(h: Digests, r: Registry, c: Candidate, name: string, content: Content, seen: bool, tagSeen: bool): Option<Registry> {
    var key := (name, c.version);
    if seen && key in r.published then
      if h.sha1(r.published[key]) != h.sha1(content) then None
      else if tagSeen && TagConflict(r, name, c.tag, c.version) then None
      else Some(r)
    else if key in r.published then None
    else Some(Registry(r.published[key := content], r.tags[(name, c.tag) := c.version]))
  }

  /** A verification attempt that succeeds: the version is there with the candidate's integrity, and no tag that was read conflicts. */
  predicate Verified(h: Digests, r: Registry, c: Candidate, name: string, content: Content, tagSeen: bool) {
    && (name, c.version) in r.published
    && h.sha512(r.published[(name, c.version)]) == h.sha512(content)
    && !(tagSeen && TagConflict(r, name, c.tag, c.version))
  }

  /** The registry holds the first `n` packages of the list with the artifact's contents. */
  predicate Holds(r: Registry, c: Candidate, a: Artifact, n: nat) {
    && a.publishList.Some? && n <= |a.publishList.value|
    && forall i :: 0 <= i < n ==>
         var (name, file) := a.publishList.value[i];
         (name, c.version) in r.published && file in a.files && r.published[(name, c.version)] == a.files[file]
  }

  /** A round changes the registry only by adding the one missing package. */
  lemma {:induction false} PublishOneAddsOnlyMissing(h: Digests, r: Registry, c: Candidate, name: string, content: Content, seen: bool, tagSeen: bool)
    ensures var r' := PublishOne(h, r, c, name, content, seen, tagSeen);
            var key := (name, c.version);
            r'.Some? ==>
              && Grows(r, r'.value)
              && key in r'.value.published
              && r'.value.published.Keys == r.published.Keys + {key}
              && (key in r.published ==> r'.value == r && h.sha1(r.published[key]) == h.sha1(content))
              && (key !in r.published ==> r'.value.published[key] == content)
  {
  }
}
