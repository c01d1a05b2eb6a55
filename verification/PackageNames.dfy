/**
 * Package names in pnpm lockfile keys and virtual-store directory names.
 */
module PackageNames {
  import opened Basics

  // ---------------------------------------------------------------- lockfile keys

  /** The first `(` from which the text runs to its final `)` on one line, or the length. */
  function PeerStart(key: string, from: nat): (k: nat)
    requires from <= |key|
    ensures from <= k <= |key|
    decreases |key| - from
  {
    if from == |key| then from
    else if key[from] == '(' && from + 1 < |key| && forall i :: from < i < |key| - 1 ==> !LineTerminator(key[i]) then from
    else PeerStart(key, from + 1)
  }

  /** `stripPeerSuffix`: the pattern `\(.*\)$`. */
  function StripPeerSuffix(key: string): string {
    if key != "" && key[|key| - 1] == ')' then key[..PeerStart(key, 0)] else key
  }

  /** The last index of `c` below `below`, if any. */
  function LastIndex(s: string, c: char, below: nat): (r: Option<nat>)
    requires below <= |s|
    ensures r.Some? ==> r.value < below && s[r.value] == c
    ensures forall i :: (if r.Some? then r.value + 1 else 0) <= i < below ==> s[i] != c
  {
    if below == 0 then None else if s[below - 1] == c then Some(below - 1) else LastIndex(s, c, below - 1)
  }

  /** `stripVersion`: the pattern `@[^@]+$` after the peer suffix. */
  function StripVersion(key: string): string {
    var k := StripPeerSuffix(key);
    var at := LastIndex(k, '@', |k|);
    if at.None? || at.value == |k| - 1 then k else k[..at.value]
  }

  /** JavaScript's `slice` from a start offset. */
  function Slice(s: string, start: nat): string {
    if start <= |s| then s[start..] else ""
  }

  function ConsumerNameVersion(key: string): (string, string) {
    var bare := StripPeerSuffix(key);
    var name := StripVersion(bare);
    (name, Slice(bare, |name| + 1))
  }

  /** `familyFor`: the first policy key that is the name, or a prefix of it at a `-` or `/`. */
  function FamilyFor(name: string, keys: seq<string>): Option<string> {
    if keys == [] then None
    else if name == keys[0] || keys[0] + "-" <= name || keys[0] + "/" <= name then Some(keys[0])
    else FamilyFor(name, keys[1..])
  }

  // ---------------------------------------------------------------- store directories

  function FlatName(name: string): (flat: string)
    ensures |flat| == |name|
    ensures forall i :: 0 <= i < |name| ==> flat[i] == if name[i] == '/' then '+' else name[i]
  {
    if name == "" then "" else [if name[0] == '/' then '+' else name[0]] + FlatName(name[1..])
  }

  predicate PresentInTree(entries: set<string>, name: string, version: string) {
    var prefix := FlatName(name) + "@" + version;
    || prefix in entries
    || exists entry :: entry in entries && (prefix + "_" <= entry || prefix + "(" <= entry)
  }

  /** A package instance of the store; `suffix` is the peer part of its directory name, with its separator. */
  datatype Installed = Installed(name: string, version: string, suffix: string)

  predicate NameOk(name: string) {
    name != "" && '+' !in name && '(' !in name && forall i :: 0 < i < |name| ==> name[i] != '@'
  }

  predicate VersionOk(version: string) {
    version != "" && '@' !in version && '_' !in version && '(' !in version && ')' !in version
  }

  predicate InstalledOk(p: Installed) {
    NameOk(p.name) && VersionOk(p.version) && (p.suffix == "" || p.suffix[0] == '_' || p.suffix[0] == '(')
  }

  function StoreDir(p: Installed): string {
    FlatName(p.name) + "@" + p.version + p.suffix
  }

  lemma {:induction false} FlatNameInjective(a: string, b: string)
    requires '+' !in a && '+' !in b && FlatName(a) == FlatName(b)
    ensures a == b
  {
    forall i | 0 <= i < |a| ensures a[i] == b[i] {
      assert FlatName(a)[i] == FlatName(b)[i];
      assert a[i] in a && b[i] in b;
    }
  }

  /** The separator is the first `@` past the scope marker, so it determines the name. */
  lemma {:induction false} SameName(p: Installed, name: string, rest: string)
    requires InstalledOk(p) && NameOk(name)
    requires FlatName(name) + "@" + rest == StoreDir(p)
    ensures p.name == name && rest == p.version + p.suffix
  {
    hide FlatName;
    assert StoreDir(p) == FlatName(p.name) + "@" + (p.version + p.suffix);
    FlatNamePlain(p.name);
    FlatNamePlain(name);
    FirstSeparator(FlatName(p.name), p.version + p.suffix, FlatName(name), rest);
    FlatNameInjective(p.name, name);
  }

  lemma FlatNamePlain(name: string)
    requires NameOk(name)
    ensures |FlatName(name)| > 0 && forall i :: 0 < i < |FlatName(name)| ==> FlatName(name)[i] != '@'
  {
  }

  lemma {:induction false} FirstSeparator(a: string, b: string, a': string, b': string)
    requires |a| > 0 && forall i :: 0 < i < |a| ==> a[i] != '@'
    requires |a'| > 0 && forall i :: 0 < i < |a'| ==> a'[i] != '@'
    requires a + "@" + b == a' + "@" + b'
    ensures a == a' && b == b'
  {
    var dir := a + "@" + b;
    assert forall i :: 0 < i < |a| ==> dir[i] == a[i];
    assert forall i :: 0 < i < |a'| ==> dir[i] == a'[i];
    assert dir[|a|] == '@' && dir[|a'|] == '@';
    assert a == dir[..|a|] && a' == dir[..|a'|] && b == dir[|a| + 1..] && b' == dir[|a'| + 1..];
  }

  /** A version is cut off by the end or by a peer separator, so it is determined too. */
  lemma {:induction false} SameVersion(p: Installed, version: string, tail: string)
    requires InstalledOk(p) && VersionOk(version)
    requires tail == "" || tail[0] == '_' || tail[0] == '('
    requires version + tail == p.version + p.suffix
    ensures version == p.version
  {
    var text := version + tail;
    var n, m := |p.version|, |version|;
    assert forall i :: 0 <= i < m ==> text[i] == version[i] && version[i] in version;
    assert forall i :: 0 <= i < n ==> text[i] == p.version[i] && p.version[i] in p.version;
    assert n < |text| ==> text[n] == p.suffix[0];
    assert m < |text| ==> text[m] == tail[0];
    assert version == text[..m] && p.version == text[..n];
  }

  function StoreDirs(installed: set<Installed>): set<string> {
    set p | p in installed :: StoreDir(p)
  }

  /** The tree query answers exactly for the installed name and version pairs, whatever their peers. */
  lemma {:induction false} PresentIsInstalled(installed: set<Installed>, name: string, version: string)
    requires forall p :: p in installed ==> InstalledOk(p)
    requires NameOk(name) && VersionOk(version)
    ensures PresentInTree(StoreDirs(installed), name, version)
       <==> exists p :: p in installed && p.name == name && p.version == version
  {
    hide FlatName, InstalledOk, NameOk, VersionOk, StoreDir;
    var prefix := FlatName(name) + "@" + version;
    if PresentInTree(StoreDirs(installed), name, version) {
      var entry :| entry in StoreDirs(installed) && (entry == prefix || prefix + "_" <= entry || prefix + "(" <= entry);
      var p :| p in installed && StoreDir(p) == entry;
      Recognised(p, name, version, entry[|prefix|..]);
    }
    if p :| p in installed && p.name == name && p.version == version {
      DirIsPresent(StoreDirs(installed), p);
    }
  }

  lemma {:induction false} DirIsPresent(entries: set<string>, p: Installed)
    requires InstalledOk(p) && StoreDir(p) in entries
    ensures PresentInTree(entries, p.name, p.version)
  {
    hide FlatName;
    var prefix := FlatName(p.name) + "@" + p.version;
    if p.suffix == "" {
      assert StoreDir(p) == prefix;
    } else {
      assert prefix + [p.suffix[0]] <= StoreDir(p);
    }
  }

  lemma {:induction false} Recognised(p: Installed, name: string, version: string, tail: string)
    requires InstalledOk(p) && NameOk(name) && VersionOk(version)
    requires tail == "" || tail[0] == '_' || tail[0] == '('
    requires StoreDir(p) == FlatName(name) + "@" + version + tail
    ensures p.name == name && p.version == version
  {
    hide FlatName;
    assert StoreDir(p) == FlatName(name) + "@" + (version + tail);
    SameName(p, name, version + tail);
    SameVersion(p, version, tail);
  }

  // ---------------------------------------------------------------- recovering names from keys

  /** A snapshot key: name, version and parenthesised peers. */
  function SnapshotKey(name: string, version: string, peers: string): string {
    name + "@" + version + peers
  }

  predicate PeersOk(peers: string) {
    peers == "" || (|peers| >= 2 && peers[0] == '(' && peers[|peers| - 1] == ')' && forall i :: 0 <= i < |peers| ==> !LineTerminator(peers[i]))
  }

  lemma {:induction false} PeersStripped(bare: string, peers: string, from: nat)
    requires '(' !in bare && PeersOk(peers) && from <= |bare|
    ensures PeerStart(bare + peers, from) == |bare|
    decreases |bare| - from
  {
    var key := bare + peers;
    if from < |bare| {
      assert key[from] == bare[from] && bare[from] in bare;
      PeersStripped(bare, peers, from + 1);
    } else if peers != "" {
      assert key[from] == peers[0] == '(';
      forall i | from < i < |key| - 1 ensures !LineTerminator(key[i]) {
        assert key[i] == peers[i - |bare|];
      }
    }
  }

  /** Name and version come back from any well-formed key, with or without peers. */
  lemma {:induction false} KeyRoundTrip(name: string, version: string, peers: string)
    requires NameOk(name) && VersionOk(version) && PeersOk(peers)
    ensures ConsumerNameVersion(SnapshotKey(name, version, peers)) == (name, version)
  {
    var bare := name + "@" + version;
    BareKey(name, version);
    var key := bare + peers;
    PeersStripped(bare, peers, 0);
    assert key[..|bare|] == bare;
    if peers == "" {
      assert key == bare;
    } else {
      assert key[|key| - 1] == ')';
    }
    assert StripPeerSuffix(key) == bare;
    assert bare[|name| + 1..] == version;
  }

  lemma {:induction false} BareKey(name: string, version: string)
    requires NameOk(name) && VersionOk(version)
    ensures var bare := name + "@" + version;
            '(' !in bare && StripPeerSuffix(bare) == bare && StripVersion(bare) == name
  {
    var bare := name + "@" + version;
    assert bare[|bare| - 1] == version[|version| - 1] && version[|version| - 1] in version;
    var at := LastIndex(bare, '@', |bare|);
    assert bare[|name|] == '@';
    assert forall i :: |name| < i < |bare| ==> bare[i] == version[i - |name| - 1] && version[i - |name| - 1] in version;
    assert bare[..|name|] == name;
  }

  // ---------------------------------------------------------------- keys that are not well-formed

  /** A peer suffix may start at `k`: a parenthesis from which one line runs to the final closing parenthesis. */
  ghost predicate PeersFrom(key: string, k: nat) {
    && k + 1 < |key| && key[k] == '(' && key[|key| - 1] == ')'
    && forall i :: k < i < |key| - 1 ==> !LineTerminator(key[i])
  }

  lemma {:induction false} PeerStartTold(key: string, from: nat)
    requires from <= |key| && key != "" && key[|key| - 1] == ')'
    ensures var k := PeerStart(key, from); (k < |key| ==> PeersFrom(key, k)) && forall j :: from <= j < k ==> !PeersFrom(key, j)
    decreases |key| - from
  {
    if from < |key| && !PeersFrom(key, from) {
      PeerStartTold(key, from + 1);
    }
  }

  /** Exactly the longest peer suffix is cut off; a key without one is left alone. */
  lemma {:induction false} LongestPeersStripped(key: string, k: nat)
    ensures PeersFrom(key, k) && (forall j :: 0 <= j < k ==> !PeersFrom(key, j)) ==> StripPeerSuffix(key) == key[..k]
    ensures (forall j :: 0 <= j < |key| ==> !PeersFrom(key, j)) ==> StripPeerSuffix(key) == key
  {
    if key != "" && key[|key| - 1] == ')' {
      PeerStartTold(key, 0);
      var n := PeerStart(key, 0);
      assert key[..|key|] == key;
      assert n < |key| ==> PeersFrom(key, n);
    }
  }

  /** Without peers the name ends at the last `@` that has something behind it; a key without one is a name without a version. */
  lemma {:induction false} LastAtSeparates(name: string, version: string)
    requires version != "" && '@' !in version && StripPeerSuffix(name + "@" + version) == name + "@" + version
    ensures StripVersion(name + "@" + version) == name && ConsumerNameVersion(name + "@" + version) == (name, version)
  {
    var key := name + "@" + version;
    var at := LastIndex(key, '@', |key|);
    assert key[|name|] == '@';
    assert forall i :: |name| < i < |key| ==> key[i] == version[i - |name| - 1] && version[i - |name| - 1] in version;
    assert key[..|name|] == name && key[|name| + 1..] == version;
  }

  lemma {:induction false} NoVersion(name: string)
    requires '(' !in name && ('@' !in name || name[|name| - 1] == '@')
    ensures ConsumerNameVersion(name) == (name, "")
  {
    forall j | 0 <= j < |name| ensures !PeersFrom(name, j) {
      assert name[j] in name;
    }
    LongestPeersStripped(name, 0);
    assert forall i :: 0 <= i < |name| ==> name[i] in name;
    var at := LastIndex(name, '@', |name|);
  }
}
