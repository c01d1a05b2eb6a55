/**
 * `relativeRepoPath`: the relative path from one repository directory to another.
 */
module RelativePath {
  import opened Basics

  type Path = seq<string>

  /** JavaScript's `split('/').filter(Boolean)`. */
  function Segments(s: string): Path
    decreases |s|
  {
    var k := IndexOrEnd(s, '/', 0);
    (if k == 0 then [] else [s[..k]]) + (if k < |s| then Segments(s[k + 1..]) else [])
  }

  function Ups(n: nat): string {
    if n == 0 then "" else "../" + Ups(n - 1)
  }

  /** The directory meant by `from`, where a bare `.` is the repository root. */
  function FromParts(from: string): Path {
    Segments(if from == "." then "" else from)
  }

  function Common(a: Path, b: Path): (n: nat)
    ensures n <= |a| && n <= |b| && a[..n] == b[..n]
    ensures n < |a| && n < |b| ==> a[n] != b[n]
  {
    if a != [] && b != [] && a[0] == b[0] then Common(a[1..], b[1..]) + 1 else 0
  }

  /** The result resolves to `to`, in as few steps as the distance between the two directories. */
  method RelativeRepoPath(from: string, to: string) returns (r: string)
    ensures Plain(FromParts(from)) && Plain(Segments(to)) ==>
              && Resolve(FromParts(from), Segments(r)) == Segments(to)
              && Steps(Segments(r)) == Distance(FromParts(from), Segments(to))
    ensures from == "." && Plain(Segments(to)) ==> Resolve([], Segments(r)) == Segments(to) && Steps(Segments(r)) == |Segments(to)|
  {
    hide Segments, Join, Ups, Resolve, Steps, Common;
    var normalizedFrom := if from == "." then "" else from;
    var fromParts := Segments(normalizedFrom);
    var toParts := Segments(to);
    var common := 0;
    while common < |fromParts| && common < |toParts| && fromParts[common] == toParts[common]
      invariant common <= |fromParts| && common <= |toParts|
      invariant fromParts[..common] == toParts[..common]
    {
      common := common + 1;
    }
    var upCount := |fromParts| - common;
    var downPath := Join(toParts[common..], "/");
    var relativePath := Ups(upCount) + downPath;
    r := if relativePath == "" then "." else relativePath;

    RootHasNoParts(Segments(to));
    SegmentsAreNames(normalizedFrom);
    SegmentsAreNames(to);
    if Plain(fromParts) && Plain(toParts) {
      CommonIsLongest(fromParts, toParts, common);
      RelativePathWorks(fromParts, toParts, common);
    }
  }

  // ---------------------------------------------------------------- resolving

  /** Following a relative path segment by segment; `..` at the root stays there. */
  function Resolve(base: Path, path: Path): Path
    decreases path
  {
    if path == [] then base
    else Resolve(Move(base, path[0]), path[1..])
  }

  function Move(base: Path, segment: string): Path {
    if segment == "." then base
    else if segment == ".." then if base == [] then base else base[..|base| - 1]
    else base + [segment]
  }

  /** No `.` and no `..` among the segments. */
  predicate Plain(p: Path) {
    forall s :: s in p ==> s != "." && s != ".."
  }

  /** Segments that go somewhere. */
  function Steps(path: Path): nat {
    if path == [] then 0 else (if path[0] == "." then 0 else 1) + Steps(path[1..])
  }

  function Distance(a: Path, b: Path): nat {
    |a| + |b| - 2 * Common(a, b)
  }

  function Dots(n: nat): Path {
    if n == 0 then [] else [".."] + Dots(n - 1)
  }

  predicate Name(s: string) { s != "" && '/' !in s }

  lemma {:induction false} SegmentsAreNames(s: string)
    ensures forall x :: x in Segments(s) ==> Name(x)
    decreases |s|
  {
    var k := IndexOrEnd(s, '/', 0);
    if k < |s| {
      SegmentsAreNames(s[k + 1..]);
    }
  }

  /** The repository root has no segments, and every path is its own distance away from it. */
  lemma RootHasNoParts(to: Path)
    ensures FromParts(".") == [] && Plain([]) && Distance([], to) == |to|
  {
  }

  /** A slash at the start of a path, or after another one, adds no segment. */
  lemma {:induction false} SlashAddsNothing(s: string)
    ensures Segments("/" + s) == Segments(s)
  {
    assert ("/" + s)[1..] == s;
  }

  lemma {:induction false} HeadSegment(head: string, rest: string)
    requires Name(head)
    ensures Segments(head) == [head]
    ensures Segments(head + "/" + rest) == [head] + Segments(rest)
  {
    assert forall i :: 0 <= i < |head| ==> head[i] != '/';
    assert IndexOrEnd(head, '/', 0) == |head|;
    assert head[..|head|] == head;
    var s := head + "/" + rest;
    assert s[|head|] == '/';
    assert forall i :: 0 <= i < |head| ==> s[i] == head[i];
    assert IndexOrEnd(s, '/', 0) == |head|;
    assert s[..|head|] == head && s[|head| + 1..] == rest;
  }

  lemma {:induction false} JoinSegments(parts: Path)
    requires forall x :: x in parts ==> Name(x)
    ensures Segments(Join(parts, "/")) == parts
  {
    if |parts| == 1 {
      HeadSegment(parts[0], "");
    } else if |parts| > 1 {
      JoinSegments(parts[1..]);
      HeadSegment(parts[0], Join(parts[1..], "/"));
    }
  }

  lemma {:induction false} UpsSegments(n: nat, rest: string)
    ensures Segments(Ups(n) + rest) == Dots(n) + Segments(rest)
  {
    hide Segments;
    if n == 0 {
      assert Ups(0) + rest == rest;
    } else {
      UpsSegments(n - 1, rest);
      UpsStep(n, rest);
      assert Dots(n) + Segments(rest) == [".."] + (Dots(n - 1) + Segments(rest));
    }
  }

  lemma {:induction false} UpsStep(n: nat, rest: string)
    requires 0 < n
    ensures Segments(Ups(n) + rest) == [".."] + Segments(Ups(n - 1) + rest)
  {
    hide Segments;
    var tail := Ups(n - 1) + rest;
    HeadSegment("..", tail);
    assert Ups(n) + rest == ".." + "/" + tail;
  }

  lemma {:induction false} ResolveDots(base: Path, n: nat, rest: Path)
    requires n <= |base|
    ensures Resolve(base, Dots(n) + rest) == Resolve(base[..|base| - n], rest)
    ensures Steps(Dots(n) + rest) == n + Steps(rest)
  {
    if n == 0 {
      assert Dots(0) + rest == rest && base[..|base|] == base;
    } else {
      assert (Dots(n) + rest)[1..] == Dots(n - 1) + rest;
      ResolveDots(base[..|base| - 1], n - 1, rest);
      assert base[..|base| - 1][..|base| - n] == base[..|base| - n];
    }
  }

  lemma {:induction false} ResolvePlain(base: Path, rest: Path)
    requires Plain(rest)
    ensures Resolve(base, rest) == base + rest && Steps(rest) == |rest|
    decreases rest
  {
    if rest != [] {
      assert rest[0] in rest && forall x :: x in rest[1..] ==> x in rest;
      ResolvePlain(base + [rest[0]], rest[1..]);
    }
  }

  lemma {:induction false} CommonIsLongest(a: Path, b: Path, n: nat)
    requires n <= |a| && n <= |b| && a[..n] == b[..n]
    requires n < |a| && n < |b| ==> a[n] != b[n]
    ensures n == Common(a, b)
  {
    var m := Common(a, b);
    assert forall i :: 0 <= i < m ==> a[i] == a[..m][i] == b[..m][i] == b[i];
    assert forall i :: 0 <= i < n ==> a[i] == a[..n][i] == b[..n][i] == b[i];
  }

  lemma {:induction false} RelativePathWorks(a: Path, b: Path, common: nat)
    requires common == Common(a, b) && Plain(a) && Plain(b)
    requires forall x :: x in b ==> Name(x)
    ensures var path := Ups(|a| - common) + Join(b[common..], "/");
            var r := Segments(if path == "" then "." else path);
            Resolve(a, r) == b && Steps(r) == Distance(a, b)
  {
    hide Segments, Ups, Join, Common;
    var down := b[common..];
    RenderedSegments(|a| - common, down);
    ResolveDots(a, |a| - common, down);
    assert forall x :: x in down ==> x in b;
    ResolvePlain(a[..common], down);
    assert b[..common] + down == b;
  }

  /** The segments of a rendered relative path; the empty path is rendered as a dot, which goes nowhere. */
  lemma {:induction false} RenderedSegments(ups: nat, down: Path)
    requires forall x :: x in down ==> Name(x)
    ensures var path := Ups(ups) + Join(down, "/");
            && (path != "" ==> Segments(path) == Dots(ups) + down)
            && (path == "" ==> ups == 0 && down == [] && Segments(".") == ["."])
  {
    JoinSegments(down);
    UpsSegments(ups, Join(down, "/"));
    HeadSegment(".", "");
    assert Ups(ups) + Join(down, "/") == "" ==> Join(down, "/") == "";
    assert Join(down, "/") == "" ==> Segments("") == down;
    assert Segments("") == [];
  }

  // ---------------------------------------------------------------- no shorter path

  /** One segment brings the base at most one closer. */
  lemma {:induction false} MoveIsOneStep(base: Path, target: Path, segment: string)
    ensures Distance(base, target) <= Distance(Move(base, segment), target) + (if segment == "." then 0 else 1)
  {
    var next := Move(base, segment);
    var m, n := Common(base, target), Common(next, target);
    if segment == ".." && base != [] {
      if m <= |next| {
        assert next[..m] == base[..m] == target[..m];
        CommonAtLeast(next, target, m);
      } else {
        assert next[..|next|] == base[..|next|] == target[..m][..|next|];
        CommonAtLeast(next, target, |next|);
      }
    } else if segment != "." && segment != ".." {
      assert next[..m] == base[..m];
      CommonAtLeast(next, target, m);
      if n > |base| {
        assert base == next[..n][..|base|] == target[..n][..|base|] == target[..|base|];
        CommonAtLeast(base, target, |base|);
      } else {
        assert base[..n] == next[..n] == target[..n];
        CommonAtLeast(base, target, n);
      }
    }
  }

  lemma {:induction false} CommonAtLeast(a: Path, b: Path, n: nat)
    requires n <= |a| && n <= |b| && a[..n] == b[..n]
    ensures n <= Common(a, b)
  {
    assert forall i :: 0 <= i < n ==> a[i] == a[..n][i] == b[..n][i] == b[i];
  }

  /** No path gets from `base` to `target` in fewer steps than their distance. */
  lemma {:induction false} NoShorterPath(base: Path, target: Path, path: Path)
    requires Resolve(base, path) == target
    ensures Distance(base, target) <= Steps(path)
    decreases path
  {
    if path == [] {
      CommonAtLeast(base, target, |base|);
    } else {
      NoShorterPath(Move(base, path[0]), target, path[1..]);
      MoveIsOneStep(base, target, path[0]);
    }
  }
}
