/**
 * The patterns of the reference reader, told by positions: which texts name a repository, which
 * host counts, and which query parameter.
 */
module GithubPatterns {
  import opened Basics
  import opened GithubRefs

  /** The part of a URL behind the host: an owner up to the first slash, a repository up to `e`, and a query or fragment on one line, if any. */
  ghost predicate NamesRepo(s: string, k: nat, e: nat) {
    && 0 < k && k + 1 < e <= |s|
    && s[k] == '/' && (forall i :: 0 <= i < k ==> s[i] != '/')
    && (forall i :: k < i < e ==> s[i] != '/' && s[i] != '#' && s[i] != '?')
    && (e < |s| ==> (s[e] == '#' || s[e] == '?') && forall i :: e < i < |s| ==> !LineTerminator(s[i]))
  }

  /** A repository name loses one `.git`, unless it consists of it. */
  function Stripped(name: string): string {
    if |name| > 4 && name[|name| - 4..] == ".git" then name[..|name| - 4] else name
  }

  lemma {:induction false} RepoIsNamed(s: string, k: nat, e: nat)
    requires NamesRepo(s, k, e)
    ensures RepoAfterHost(s) == Some(Repo(s[..k], Stripped(s[k + 1..e])))
  {
    IndexIs(s, '/', k);
    var rest := s[k + 1..];
    assert forall i :: 0 <= i < |rest| ==> rest[i] == s[i + k + 1];
    CutIs(rest, e - k - 1);
    hide UrlCut, IndexOrEnd;
    assert rest[..e - k - 1] == s[k + 1..e];
    assert '/' !in rest[..e - k - 1];
    assert forall i :: e - k - 1 <= i < |rest| ==> !LineTerminator(rest[i]);
  }

  lemma {:induction false} NamedOtherwiseNot(s: string) returns (k: nat, e: nat)
    requires RepoAfterHost(s).Some?
    ensures NamesRepo(s, k, e)
  {
    k := IndexOrEnd(s, '/', 0);
    var rest := s[k + 1..];
    var cut := UrlCut(rest);
    e := k + 1 + cut;
    CutStops(rest);
    assert forall i :: 0 <= i < |rest| ==> rest[i] == s[i + k + 1];
    assert forall i :: 0 <= i < cut ==> rest[..cut][i] == rest[i];
    forall i | e < i < |s| ensures !LineTerminator(s[i]) {
      assert s[i] == rest[i - k - 1];
    }
  }

  lemma {:induction false} CutStops(s: string)
    ensures UrlCut(s) < |s| ==> s[UrlCut(s)] == '#' || s[UrlCut(s)] == '?'
  {
    if s != "" && s[0] != '#' && s[0] != '?' {
      CutStops(s[1..]);
    }
  }

  /** A text behind a host names a repository if and only if it splits so. */
  lemma {:induction false} RepoAfterHostExactly(s: string)
    ensures RepoAfterHost(s).Some? <==> exists k: nat, e: nat :: NamesRepo(s, k, e)
  {
    if RepoAfterHost(s).Some? {
      var k, e := NamedOtherwiseNot(s);
    }
    if k: nat, e: nat :| NamesRepo(s, k, e) {
      RepoIsNamed(s, k, e);
    }
  }

  /** A host at `i` with a repository behind it. */
  ghost predicate HostMatch(url: string, i: nat) {
    && i + 11 <= |url| && url[i..i + 10] == "github.com" && (url[i + 10] == '/' || url[i + 10] == ':')
    && RepoAfterHost(url[i + 11..]).Some?
  }

  lemma {:induction false} SearchFrom(url: string, i: nat, j: nat)
    requires i <= j < |url| && HostMatch(url, j) && forall m :: i <= m < j ==> !HostMatch(url, m)
    ensures FindRepo(url, i) == RepoAfterHost(url[j + 11..])
    decreases |url| - i
  {
    hide RepoAfterHost;
    if i < j {
      assert !HostMatch(url, i);
      SearchFrom(url, i + 1, j);
    }
  }

  lemma {:induction false} SearchFails(url: string, i: nat)
    requires i <= |url| && forall m :: i <= m < |url| ==> !HostMatch(url, m)
    ensures FindRepo(url, i) == None
    decreases |url| - i
  {
    hide RepoAfterHost;
    if i < |url| {
      assert !HostMatch(url, i);
      SearchFails(url, i + 1);
    }
  }

  /** The leftmost host that has a repository behind it counts; without one there is no repository. */
  lemma {:induction false} LeftmostHost(url: string)
    ensures forall j :: 0 <= j < |url| && HostMatch(url, j) && (forall m :: 0 <= m < j ==> !HostMatch(url, m)) ==>
              GithubRepoFromUrl(url) == RepoAfterHost(url[j + 11..])
    ensures (forall m :: 0 <= m < |url| ==> !HostMatch(url, m)) ==> GithubRepoFromUrl(url) == None
  {
    hide RepoAfterHost, FindRepo;
    forall j | 0 <= j < |url| && HostMatch(url, j) && (forall m :: 0 <= m < j ==> !HostMatch(url, m))
      ensures GithubRepoFromUrl(url) == RepoAfterHost(url[j + 11..])
    {
      SearchFrom(url, 0, j);
    }
    if forall m :: 0 <= m < |url| ==> !HostMatch(url, m) {
      SearchFails(url, 0);
    }
  }

  // ---------------------------------------------------------------- query parameters

  predicate NoAmp(s: string) {
    forall i :: 0 <= i < |s| ==> s[i] != '&'
  }

  /** The text of a query from one parameter on. */
  function Following(piece: string, rest: Option<string>): string {
    if rest.Some? then piece + "&" + rest.value else piece
  }

  lemma {:induction false} PieceCut(piece: string, rest: Option<string>)
    requires NoAmp(piece)
    ensures var q := Following(piece, rest);
            && IndexOrEnd(q, '&', 0) == |piece| && q[..|piece|] == piece
            && (if rest.Some? then |piece| < |q| && q[|piece| + 1..] == rest.value else |piece| == |q|)
  {
    var q := Following(piece, rest);
    if rest.Some? {
      assert q == piece + ("&" + rest.value);
    }
    IndexIs(q, '&', |piece|);
  }

  function QueryRest(rest: Option<string>, decode: string -> string): Option<string> {
    if rest.Some? then QueryRef(rest.value, decode) else None
  }

  /** A parameter with a value: the first one whose decoded name is `ref` gives its decoded value. */
  lemma {:induction false} ParameterRead(name: string, value: string, rest: Option<string>, decode: string -> string)
    requires NoAmp(name) && NoAmp(value) && forall i :: 0 <= i < |name| ==> name[i] != '='
    ensures QueryRef(Following(name + "=" + value, rest), decode) == if decode(name) == "ref" then Some(decode(value)) else QueryRest(rest, decode)
  {
    var piece := name + "=" + value;
    PieceCut(piece, rest);
    IndexIs(piece, '=', |name|);
    hide IndexOrEnd;
    assert piece[..|name|] == name && piece[|name| + 1..] == value;
  }

  /** A parameter without `=` has the empty value. */
  lemma {:induction false} NameRead(name: string, rest: Option<string>, decode: string -> string)
    requires name != "" && NoAmp(name) && forall i :: 0 <= i < |name| ==> name[i] != '='
    ensures QueryRef(Following(name, rest), decode) == if decode(name) == "ref" then Some("") else QueryRest(rest, decode)
  {
    PieceCut(name, rest);
    IndexIs(name, '=', |name|);
    hide IndexOrEnd;
    assert name[..|name|] == name;
  }

  /** Empty parameters are skipped, and so is a question mark in front of the query. */
  lemma {:induction false} EmptyParameter(rest: Option<string>, decode: string -> string)
    ensures QueryRef(Following("", rest), decode) == QueryRest(rest, decode)
  {
    PieceCut("", rest);
    hide IndexOrEnd;
  }

  lemma LeadingMark(s: string)
    ensures QueryText("?" + s) == s
    ensures s != "" && s[0] != '?' ==> QueryText(s) == s
  {
  }

  /** Behind the first question mark the query begins, without a second one. */
  lemma {:induction false} QueryOfValue(a: string, text: string, decode: string -> string)
    requires Clean(a) && forall i :: 0 <= i < |text| ==> text[i] != '#'
    ensures ParseGithubLikeRef(a + "?" + text, decode) == ParseBase(a + "?" + text, a, None, Either(QueryRef(QueryText(text), decode), None))
    ensures ParseGithubLikeRef(a + "??" + text, decode) == ParseBase(a + "??" + text, a, None, Either(QueryRef(text, decode), None))
  {
    hide ParseBase, QueryRef;
    QueryIsCut(a, text);
    QueryIsCut(a, "?" + text);
    assert a + "?" + ("?" + text) == a + "??" + text;
    LeadingMark(text);
  }

  lemma {:induction false} QueryIsCut(a: string, text: string)
    requires Clean(a) && forall i :: 0 <= i < |text| ==> text[i] != '#'
    ensures var value := a + "?" + text;
            && IndexOrEnd(value, '#', 0) == |value| && value[..|value|] == value
            && IndexOrEnd(value, '?', 0) == |a| && value[..|a|] == a && value[|a| + 1..] == text
  {
    var value := a + "?" + text;
    IndexIs(value, '#', |value|);
    IndexIs(value, '?', |a|);
  }

  // ---------------------------------------------------------------- schemes in a ref

  /** A scheme anywhere in the value, so also behind `#`, is not a short form. */
  lemma {:induction false} SchemeIsNoShortForm(n: Repo, ref: string, i: nat, decode: string -> string)
    requires PlainRepo(n) && i + 3 <= |ref| && ref[i..i + 3] == "://"
    ensures ParseGithubLikeRef(n.owner + "/" + n.repo + "#" + ref, decode) == None
  {
    hide ParseBase, HasScheme;
    var base := n.owner + "/" + n.repo;
    var value := base + "#" + ref;
    ShorthandAddress(n, false);
    AddressIsClean(Shorthand, n, false);
    Cuts(base, None, Some(ref), decode);
    assert base + QueryPart(None) + HashPart(Some(ref)) == value;
    SchemeFound(base, ref, i);
    NoColon(n, base, "");
    assert base + "" == base;
    NoHostInPath(n, 0);
    NotShort(value, base, ref);
  }

  lemma {:induction false} SchemeFound(base: string, ref: string, i: nat)
    requires i + 3 <= |ref| && ref[i..i + 3] == "://"
    ensures HasScheme(base + "#" + ref)
  {
    var value, j := base + "#" + ref, |base| + 1 + i;
    assert value[j..j + 3] == ref[i..i + 3];
    assert SchemeAt(value, j);
  }

  lemma NotShort(value: string, base: string, ref: string)
    requires HasScheme(value) && FindRepo(base, 0) == None
    requires !("github:" <= base) && !("git+https://github.com/" <= base) && !("git+ssh://git@github.com/" <= base)
    ensures ParseBase(value, base, Some(ref), None) == None
  {
    hide FindRepo, OwnerRepo, HasScheme;
  }
}
