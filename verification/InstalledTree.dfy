/**
 * The audit on a real tree: store directories and lockfile keys are written for packages, and
 * the audit's answer is about those packages.
 */
module InstalledTree {
  import opened Basics
  import opened PackageNames
  import opened Closure

  /** A lockfile entry: a package instance with its peers, and its optional dependencies. */
  datatype Consumer = Consumer(name: string, version: string, peers: string, deps: Deps)

  predicate ConsumerOk(c: Consumer) {
    && NameOk(c.name) && VersionOk(c.version) && PeersOk(c.peers)
    && forall dep :: dep in c.deps ==> NameOk(dep.0) && VersionOk(dep.1)
  }

  function KeyOf(c: Consumer): string {
    SnapshotKey(c.name, c.version, c.peers)
  }

  function Snapshots(consumers: seq<Consumer>): seq<(string, Deps)> {
    seq(|consumers|, i requires 0 <= i < |consumers| => (KeyOf(consumers[i]), consumers[i].deps))
  }

  predicate IsInstalled(installed: set<Installed>, name: string, version: string) {
    exists p :: p in installed && p.name == name && p.version == version
  }

  /** A wanted binding of an installed consumer is not installed. */
  ghost predicate Lacks(inp: Inputs, mode: Mode, waivers: seq<Waiver>, installed: set<Installed>, c: Consumer, dep: (string, string), p: Problem) {
    && IsInstalled(installed, c.name, c.version)
    && Wanted(inp, mode, waivers, dep.0, dep.1)
    && !IsInstalled(installed, dep.0, dep.1)
    && p == Report(inp, KeyOf(c), dep.0, dep.1)
  }

  /** On the store directories of a set of installed packages, the audit reports exactly the wanted bindings of installed consumers that are not installed. */
  lemma {:induction false} AuditOfInstalled(inp: Inputs, mode: Mode, waivers: seq<Waiver>, consumers: seq<Consumer>, installed: set<Installed>, p: Problem)
    requires inp.entries == StoreDirs(installed) && inp.snapshots == Snapshots(consumers)
    requires forall i :: i in installed ==> InstalledOk(i)
    requires forall c :: c in consumers ==> ConsumerOk(c)
    ensures p in Problems(inp, mode, waivers, inp.snapshots) <==>
            exists c, dep :: c in consumers && dep in c.deps && Lacks(inp, mode, waivers, installed, c, dep, p)
  {
    hide Problems, Explains, Lacks, StoreDirs, KeyOf;
    ProblemsExplained(inp, mode, waivers, inp.snapshots, p);
    if snapshot, dep :| snapshot in inp.snapshots && dep in snapshot.1 && Explains(inp, mode, waivers, snapshot, dep, p) {
      var i :| 0 <= i < |consumers| && inp.snapshots[i] == snapshot;
      ExplainsInstalled(inp, mode, waivers, consumers[i], dep, installed, p);
      assert consumers[i] in consumers && dep in consumers[i].deps;
    }
    if c, dep :| c in consumers && dep in c.deps && Lacks(inp, mode, waivers, installed, c, dep, p) {
      var i :| 0 <= i < |consumers| && consumers[i] == c;
      ExplainsInstalled(inp, mode, waivers, c, dep, installed, p);
      assert inp.snapshots[i] == (KeyOf(c), c.deps);
    }
  }

  lemma {:induction false} ExplainsInstalled(inp: Inputs, mode: Mode, waivers: seq<Waiver>, c: Consumer, dep: (string, string), installed: set<Installed>, p: Problem)
    requires inp.entries == StoreDirs(installed) && ConsumerOk(c) && dep in c.deps
    requires forall i :: i in installed ==> InstalledOk(i)
    ensures Explains(inp, mode, waivers, (KeyOf(c), c.deps), dep, p) <==> Lacks(inp, mode, waivers, installed, c, dep, p)
  {
    hide PresentInTree, StoreDirs, Wanted, NameOk, VersionOk, PeersOk, InstalledOk, ConsumerNameVersion;
    KeyRoundTrip(c.name, c.version, c.peers);
    PresentIsInstalled(installed, c.name, c.version);
    PresentIsInstalled(installed, dep.0, dep.1);
  }
}
