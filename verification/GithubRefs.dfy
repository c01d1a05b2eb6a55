/**
 * Reading a repository and a ref from the spellings that lock files and inputs use.
 *
 * URL decoding of query parameters is a function `decode` that the caller supplies.
 */
module GithubRefs {
  import opened Basics

  datatype Repo = Repo(owner: string, repo: string)

  datatype GithubRef = GithubRef(repo: Repo, ref: Option<string>)

  const HOST := "github.com"
  const GIT := ".git"

  predicate EndsWith(s: string, end: string) {
    |end| <= |s| && s[|s| - |end|..] == end
  }

  /** The pattern `\.git$` removed. */
  function StripGit(s: string): string {
    if EndsWith(s, GIT) then s[..|s| - 4] else s
  }

  /** The first index of `#` or `?`, or the length. */
  function UrlCut(s: string): (k: nat)
    ensures k <= |s|
    ensures forall i :: 0 <= i < k ==> s[i] != '#' && s[i] != '?'
  {
    if s == "" || s[0] == '#' || s[0] == '?' then 0 else UrlCut(s[1..]) + 1
  }

  /** What follows `github.com/` or `github.com:` in the pattern: owner, slash, repository, optional `.git` and the rest of a URL. */
  function RepoAfterHost(s: string): Option<Repo> {
    var k := IndexOrEnd(s, '/', 0);
    if k == 0 || k == |s| then None
    else
      var rest := s[k + 1..];
      var cut := UrlCut(rest);
      var body := rest[..cut];
      if body == "" || '/' in body || exists i :: cut <= i < |rest| && LineTerminator(rest[i]) then None
      else Some(Repo(s[..k], if |body| > 4 then StripGit(body) else body))
  }

  predicate HostAt(url: string, i: nat) {
    i + 10 < |url| && url[i..i + 10] == HOST && (url[i + 10] == '/' || url[i + 10] == ':')
  }

  /** The leftmost match of the pattern at or after `i`. */
  function FindRepo(url: string, i: nat): Option<Repo>
    requires i <= |url|
    decreases |url| - i
  {
    if i == |url| then None
    else if HostAt(url, i) && RepoAfterHost(url[i + 11..]).Some? then RepoAfterHost(url[i + 11..])
    else FindRepo(url, i + 1)
  }

  function GithubRepoFromUrl(url: string): Option<Repo> {
    FindRepo(url, 0)
  }

  /** `new URLSearchParams` drops one leading `?`. */
  function QueryText(s: string): string {
    if "?" <= s then s[1..] else s
  }

  /** `URLSearchParams.get('ref')`. */
  function QueryRef(query: string, decode: string -> string): Option<string>
    decreases |query|
  {
    if query == "" then None
    else
      var k := IndexOrEnd(query, '&', 0);
      var piece := query[..k];
      var eq := IndexOrEnd(piece, '=', 0);
      if piece != "" && decode(piece[..eq]) == "ref" then Some(if eq < |piece| then decode(piece[eq + 1..]) else "")
      else if k < |query| then QueryRef(query[k + 1..], decode)
      else None
  }

  /** JavaScript's `a || b` on optional strings. */
  function Either(a: Option<string>, b: Option<string>): Option<string> {
    if a.Some? && a.value != "" then a else b
  }

  /** `split('/')` with at least two parts: the first, the second, and the others rejoined. */
  function OwnerRepo(path: string): Option<(string, string, Option<string>)> {
    var k := IndexOrEnd(path, '/', 0);
    if k == |path| then None
    else
      var rest := path[k + 1..];
      var n := IndexOrEnd(rest, '/', 0);
      Some((path[..k], rest[..n], if n < |rest| then Some(rest[n + 1..]) else None))
  }

  predicate SchemeAt(s: string, i: nat) {
    i + 2 < |s| && s[i..i + 3] == "://"
  }

  /** The value holds `://`. */
  predicate HasScheme(s: string) {
    exists i :: 0 <= i < |s| && SchemeAt(s, i)
  }

  function ParseGithubLikeRef(value: string, decode: string -> string): Option<GithubRef> {
    var hash := IndexOrEnd(value, '#', 0);
    var baseWithQuery := value[..hash];
    var hashRef := if hash < |value| then Some(value[hash + 1..]) else None;
    var q := IndexOrEnd(baseWithQuery, '?', 0);
    var base := baseWithQuery[..q];
    var queryRef := if q < |baseWithQuery| then Either(QueryRef(QueryText(baseWithQuery[q + 1..]), decode), None) else None;
    ParseBase(value, base, hashRef, queryRef)
  }

  function ParseBase(value: string, base: string, hashRef: Option<string>, queryRef: Option<string>): Option<GithubRef> {
    if "github:" <= base then
      var parts := OwnerRepo(base[7..]);
      if parts.None? then None
      else Some(GithubRef(Repo(parts.value.0, parts.value.1), Either(hashRef, Either(queryRef, parts.value.2))))
    else if "git+https://github.com/" <= base then
      var repo := GithubRepoFromUrl(base[4..]);
      if repo.None? then None else Some(GithubRef(repo.value, Either(hashRef, queryRef)))
    else if "git+ssh://git@github.com/" <= base then
      var parts := OwnerRepo(StripGit(base[25..]));
      if parts.None? then None else Some(GithubRef(Repo(parts.value.0, parts.value.1), Either(hashRef, queryRef)))
    else
      var repo := GithubRepoFromUrl(base);
      if repo.Some? then Some(GithubRef(repo.value, Either(hashRef, queryRef)))
      else if !HasScheme(value) && !("./" <= value) && !("../" <= value) && !("/" <= value) then
        var parts := OwnerRepo(base);
        if parts.Some? && parts.value.2.None? && parts.value.0 != "" && parts.value.1 != "" then
          Some(GithubRef(Repo(parts.value.0, parts.value.1), hashRef))
        else None
      else None
  }

  // ---------------------------------------------------------------- spellings

  datatype Scheme = Github | GitHttps | GitSsh | Https | Scp | Shorthand

  datatype RefForm = Hash | Query | Path

  function Address(scheme: Scheme, name: Repo, dotGit: bool): string {
    var path := name.owner + "/" + name.repo;
    var full := path + (if dotGit then GIT else "");
    match scheme
    case Github => "github:" + path
    case GitHttps => "git+https://github.com/" + full
    case GitSsh => "git+ssh://git@github.com/" + full
    case Https => "https://github.com/" + full
    case Scp => "git@github.com:" + full
    case Shorthand => path
  }

  function Suffix(form: RefForm, ref: string): string {
    match form
    case Hash => "#" + ref
    case Query => "?ref=" + ref
    case Path => "/" + ref
  }

  /** A spelling of a repository at a ref. */
  function Spelled(scheme: Scheme, form: RefForm, dotGit: bool, name: Repo, ref: string): string {
    Address(scheme, name, dotGit) + Suffix(form, ref)
  }

  /** Refs go after `/` only in the `github:` scheme, and only after `#` in the short form. */
  predicate Spelling(scheme: Scheme, form: RefForm) {
    (form == Path ==> scheme == Github) && (scheme == Shorthand ==> form == Hash)
  }

  predicate PlainChar(c: char) {
    'a' <= c <= 'z' || 'A' <= c <= 'Z' || '0' <= c <= '9' || c == '-' || c == '_' || c == '.'
  }

  predicate Plain(s: string) {
    s != "" && forall i :: 0 <= i < |s| ==> PlainChar(s[i])
  }

  predicate PlainRef(s: string) {
    s != "" && forall i :: 0 <= i < |s| ==> PlainChar(s[i]) || s[i] == '/'
  }

  /** Names that mean a repository in every spelling. */
  predicate PlainRepo(n: Repo) {
    Plain(n.owner) && Plain(n.repo) && !EndsWith(n.repo, GIT) && n.owner != "." && n.owner != ".."
  }

  // ---------------------------------------------------------------- reading spellings

  lemma IndexIs(s: string, c: char, k: nat)
    requires k <= |s| && (forall i :: 0 <= i < k ==> s[i] != c) && (k < |s| ==> s[k] == c)
    ensures IndexOrEnd(s, c, 0) == k
  {
    var n := IndexOrEnd(s, c, 0);
  }

  lemma {:induction false} CutIs(s: string, k: nat)
    requires k <= |s| && (forall i :: 0 <= i < k ==> s[i] != '#' && s[i] != '?') && (k < |s| ==> s[k] == '#' || s[k] == '?')
    ensures UrlCut(s) == k
  {
    if k > 0 {
      CutIs(s[1..], k - 1);
    }
  }

  lemma {:induction false} GitStripped(n: Repo, dotGit: bool)
    requires PlainRepo(n)
    ensures var body := n.repo + (if dotGit then GIT else "");
            StripGit(body) == n.repo && (|body| > 4 || body == n.repo)
  {
    assert (n.repo + GIT)[|n.repo + GIT| - 4..] == GIT && (n.repo + GIT)[..|n.repo|] == n.repo;
    assert n.repo + "" == n.repo;
  }

  lemma SplitAtSlash(owner: string, body: string)
    requires Plain(owner)
    ensures IndexOrEnd(owner + "/" + body, '/', 0) == |owner|
  {
    IndexIs(owner + "/" + body, '/', |owner|);
  }

  lemma {:induction false} PlainPath(owner: string, body: string)
    requires Plain(owner) && Plain(body)
    ensures RepoAfterHost(owner + "/" + body) == Some(Repo(owner, if |body| > 4 then StripGit(body) else body))
  {
    hide EndsWith, StripGit, IndexOrEnd, UrlCut;
    var s := owner + "/" + body;
    assert s[|owner| + 1..] == body && s[..|owner|] == owner && body[..|body|] == body;
    SplitAtSlash(owner, body);
    CutIs(body, |body|);
  }

  /** Owner and repository come back from the path of a URL. */
  lemma {:induction false} PathReadsBack(n: Repo, dotGit: bool)
    requires PlainRepo(n)
    ensures RepoAfterHost(n.owner + "/" + n.repo + (if dotGit then GIT else "")) == Some(n)
  {
    hide EndsWith, StripGit, RepoAfterHost;
    var body := n.repo + (if dotGit then GIT else "");
    assert n.owner + "/" + n.repo + (if dotGit then GIT else "") == n.owner + "/" + body;
    PlainPath(n.owner, body);
    GitStripped(n, dotGit);
  }

  lemma {:induction false} PartsReadBack(n: Repo, rest: Option<string>)
    requires Plain(n.owner) && Plain(n.repo)
    ensures OwnerRepo(n.owner + "/" + n.repo + (if rest.Some? then "/" + rest.value else "")) == Some((n.owner, n.repo, rest))
  {
    hide IndexOrEnd;
    var tail := n.repo + (if rest.Some? then "/" + rest.value else "");
    var s := n.owner + "/" + n.repo + (if rest.Some? then "/" + rest.value else "");
    assert s == n.owner + "/" + tail;
    SplitAtSlash(n.owner, tail);
    assert s[|n.owner| + 1..] == tail && s[..|n.owner|] == n.owner;
    IndexIs(tail, '/', |n.repo|);
    assert tail[..|n.repo|] == n.repo;
    assert rest.Some? ==> tail[|n.repo| + 1..] == rest.value;
  }

  /** A search that starts in a prefix without a host of its own finds the host after it. */
  lemma {:induction false} HostFound(prefix: string, sep: char, path: string, i: nat)
    requires i <= |prefix| && RepoAfterHost(path).Some? && (sep == '/' || sep == ':')
    requires forall j :: 0 <= j < |prefix| ==> !HostAt(prefix + HOST + [sep] + path, j)
    ensures FindRepo(prefix + HOST + [sep] + path, i) == RepoAfterHost(path)
    decreases |prefix| - i
  {
    hide RepoAfterHost;
    var url := prefix + HOST + [sep] + path;
    if i == |prefix| {
      hide HostAt, FindRepo;
      HostHere(prefix, sep, path);
    } else {
      HostFound(prefix, sep, path, i + 1);
    }
  }

  lemma {:induction false} HostHere(prefix: string, sep: char, path: string)
    requires RepoAfterHost(path).Some? && (sep == '/' || sep == ':')
    ensures FindRepo(prefix + HOST + [sep] + path, |prefix|) == RepoAfterHost(path)
  {
    hide RepoAfterHost;
    var url := prefix + HOST + [sep] + path;
    assert url[|prefix|..|prefix| + 10] == HOST && url[|prefix| + 11..] == path && url[|prefix| + 10] == sep;
  }

  lemma NoHostHere(url: string, j: nat)
    requires j < |url| && (url[j] != 'g' || (j + 3 < |url| && url[j + 3] != 'h'))
    ensures !HostAt(url, j)
  {
  }

  lemma {:induction false} NoHostInPrefix(prefix: string, rest: string)
    requires prefix == "https://" || prefix == "git@"
    ensures forall j :: 0 <= j < |prefix| ==> !HostAt(prefix + rest, j)
  {
    var url := prefix + rest;
    forall j | 0 <= j < |prefix| ensures !HostAt(url, j) {
      assert url[j] == prefix[j];
      assert url[3] == prefix[3];
      NoHostHere(url, j);
    }
  }

  /** A bare owner/repository path is not a URL: after a host name it has no second slash. */
  lemma {:induction false} NoHostInPath(n: Repo, i: nat)
    requires PlainRepo(n) && i <= |n.owner + "/" + n.repo|
    ensures FindRepo(n.owner + "/" + n.repo, i) == None
    decreases |n.owner + "/" + n.repo| - i
  {
    var url := n.owner + "/" + n.repo;
    if i < |url| {
      assert forall j :: 0 <= j < |url| && j != |n.owner| ==> PlainChar(url[j]);
      if HostAt(url, i) {
        assert i + 10 == |n.owner|;
        var rest := url[i + 11..];
        assert rest == n.repo;
        IndexIs(rest, '/', |rest|);
      }
      NoHostInPath(n, i + 1);
    }
  }

  predicate Clean(s: string) {
    forall i :: 0 <= i < |s| ==> s[i] != '#' && s[i] != '?'
  }

  // ---------------------------------------------------------------- refs

  function QueryPart(query: Option<string>): string {
    if query.Some? then "?ref=" + query.value else ""
  }

  function HashPart(hash: Option<string>): string {
    if hash.Some? then "#" + hash.value else ""
  }

  predicate PlainOption(ref: Option<string>) {
    ref.Some? ==> PlainRef(ref.value)
  }

  predicate Decodes(decode: string -> string, ref: Option<string>) {
    ref.Some? ==> decode("ref") == "ref" && decode(ref.value) == ref.value
  }

  /** What the spelling is cut into, before the scheme is looked at. */
  lemma {:induction false} Cuts(a: string, query: Option<string>, hash: Option<string>, decode: string -> string)
    requires Clean(a) && PlainOption(query) && Decodes(decode, query)
    ensures var value := a + QueryPart(query) + HashPart(hash);
            ParseGithubLikeRef(value, decode) == ParseBase(value, a, hash, query)
  {
    hide ParseBase, QueryRef, QueryPart, HashPart, IndexOrEnd, Clean;
    var b := a + QueryPart(query);
    var value := b + HashPart(hash);
    QueryCut(a, query);
    HashCut(b, hash);
    if query.Some? {
      QueryReadsBack(query.value, decode);
      assert ("ref=" + query.value)[0] == 'r';
      assert QueryText(b[|a| + 1..]) == "ref=" + query.value;
    }
  }

  lemma {:induction false} HashCut(b: string, hash: Option<string>)
    requires forall i :: 0 <= i < |b| ==> b[i] != '#'
    ensures var value := b + HashPart(hash);
            && IndexOrEnd(value, '#', 0) == |b| && value[..|b|] == b
            && (if |b| < |value| then hash == Some(value[|b| + 1..]) else hash == None)
  {
    var value := b + HashPart(hash);
    IndexIs(value, '#', |b|);
    assert hash.Some? ==> value == b + "#" + hash.value && value[|b| + 1..] == hash.value;
  }

  lemma {:induction false} QueryCut(a: string, query: Option<string>)
    requires Clean(a) && PlainOption(query)
    ensures var b := a + QueryPart(query);
            && (forall i :: 0 <= i < |b| ==> b[i] != '#')
            && IndexOrEnd(b, '?', 0) == |a| && b[..|a|] == a
            && (if |a| < |b| then query.Some? && b[|a| + 1..] == "ref=" + query.value else query == None)
  {
    var b := a + QueryPart(query);
    if query.Some? {
      QueryShape(a, query.value);
    } else {
      assert b == a;
    }
    hide PlainOption, QueryPart;
    IndexIs(b, '?', |a|);
  }

  lemma QueryShape(a: string, query: string)
    requires Clean(a) && PlainRef(query)
    ensures var b := a + "?ref=" + query;
            && |a| < |b| && b[..|a|] == a && b[|a|] == '?' && b[|a| + 1..] == "ref=" + query
            && (forall i :: 0 <= i < |b| ==> b[i] != '#') && b == a + ("?ref=" + query)
  {
    assert a + "?ref=" + query == a + ['?'] + ("ref=" + query);
  }

  lemma {:induction false} QueryReadsBack(ref: string, decode: string -> string)
    requires PlainRef(ref) && decode("ref") == "ref" && decode(ref) == ref
    ensures QueryRef("ref=" + ref, decode) == Some(ref)
  {
    var q := "ref=" + ref;
    IndexIs(q, '&', |q|);
    assert q[..|q|] == q;
    IndexIs(q, '=', 3);
    assert q[..3] == "ref" && q[4..] == ref;
  }

  /** The ref that counts: the one behind `#`, else the query's, else the path's; the short form knows only the first. */
  function Chosen(scheme: Scheme, path: Option<string>, query: Option<string>, hash: Option<string>): Option<string> {
    if hash.Some? then hash else if scheme == Shorthand then None else if query.Some? then query else path
  }

  function PathPart(path: Option<string>): string {
    if path.Some? then "/" + path.value else ""
  }

  /** Every spelling of a plain repository, with any of the three kinds of refs or none, is read as the repository and the ref that counts. */
  lemma {:induction false} AllSpellings(scheme: Scheme, dotGit: bool, n: Repo, path: Option<string>, query: Option<string>, hash: Option<string>,
                                        decode: string -> string)
    requires PlainRepo(n) && PlainOption(path) && PlainOption(query) && PlainOption(hash) && Decodes(decode, query)
    requires path.Some? ==> scheme == Github
    ensures ParseGithubLikeRef(Address(scheme, n, dotGit) + PathPart(path) + QueryPart(query) + HashPart(hash), decode) ==
            Some(GithubRef(n, Chosen(scheme, path, query, hash)))
  {
    hide ParseGithubLikeRef, ParseBase, Address, PlainRepo, QueryPart, HashPart;
    var a := Address(scheme, n, dotGit);
    var base := a + PathPart(path);
    AddressIsClean(scheme, n, dotGit);
    CleanConcat(a, PathPart(path));
    Cuts(base, query, hash, decode);
    var value := base + QueryPart(query) + HashPart(hash);
    EitherIsChosen(path, query, hash);
    match scheme
    case Github => GithubReadsBack(n, dotGit, path, value, hash, query);
    case Shorthand =>
      ShorthandAddress(n, dotGit);
      assert base == a;
      ShorthandReadsBack(n, value, hash, query);
    case GitSsh =>
      assert base == a;
      SshReadsBack(n, dotGit, value, hash, query);
    case Https =>
      assert base == a;
      HttpsReadsBack(n, dotGit, value, hash, query);
    case GitHttps =>
      assert base == a;
      GitHttpsReadsBack(n, dotGit, value, hash, query);
    case Scp =>
      assert base == a;
      ScpReadsBack(n, dotGit, value, hash, query);
  }

  lemma EitherIsChosen(path: Option<string>, query: Option<string>, hash: Option<string>)
    requires PlainOption(path) && PlainOption(query) && PlainOption(hash)
    ensures Either(hash, Either(query, path)) == Chosen(Github, path, query, hash)
    ensures Either(hash, query) == Chosen(Https, None, query, hash)
  {
  }

  /** Every spelling of a plain repository and ref is read as that repository and ref. */
  lemma {:induction false} SpellingsAgree(scheme: Scheme, form: RefForm, dotGit: bool, n: Repo, ref: string, decode: string -> string)
    requires Spelling(scheme, form) && PlainRepo(n) && PlainRef(ref)
    requires decode("ref") == "ref" && decode(ref) == ref
    ensures ParseGithubLikeRef(Spelled(scheme, form, dotGit, n, ref), decode) == Some(GithubRef(n, Some(ref)))
  {
    hide ParseGithubLikeRef, Address, PlainRepo;
    var path, query, hash :=
      if form == Path then Some(ref) else None, if form == Query then Some(ref) else None, if form == Hash then Some(ref) else None;
    AllSpellings(scheme, dotGit, n, path, query, hash, decode);
    var a := Address(scheme, n, dotGit);
    assert Spelled(scheme, form, dotGit, n, ref) == a + PathPart(path) + QueryPart(query) + HashPart(hash);
  }

  lemma ShorthandAddress(n: Repo, dotGit: bool)
    ensures Address(Shorthand, n, dotGit) == n.owner + "/" + n.repo
  {
  }

  lemma CleanConcat(a: string, b: string)
    requires Clean(a) && Clean(b)
    ensures Clean(a + b)
  {
  }

  lemma {:induction false} AddressIsClean(scheme: Scheme, n: Repo, dotGit: bool)
    requires PlainRepo(n)
    ensures Clean(Address(scheme, n, dotGit))
  {
    var path := n.owner + "/" + n.repo;
    var full := path + (if dotGit then GIT else "");
    CleanConcat(path, if dotGit then GIT else "");
    match scheme
    case Github => CleanConcat("github:", path);
    case GitHttps => CleanConcat("git+https://github.com/", full);
    case GitSsh => CleanConcat("git+ssh://git@github.com/", full);
    case Https => CleanConcat("https://github.com/", full);
    case Scp => CleanConcat("git@github.com:", full);
    case Shorthand =>
  }

  lemma {:induction false} GithubReadsBack(n: Repo, dotGit: bool, path: Option<string>, value: string, hashRef: Option<string>, queryRef: Option<string>)
    requires PlainRepo(n)
    ensures ParseBase(value, Address(Github, n, dotGit) + (if path.Some? then "/" + path.value else ""), hashRef, queryRef) ==
            Some(GithubRef(n, Either(hashRef, Either(queryRef, path))))
  {
    hide FindRepo, OwnerRepo;
    var tail := if path.Some? then "/" + path.value else "";
    var rest := n.owner + "/" + n.repo + tail;
    assert Address(Github, n, dotGit) + tail == "github:" + rest;
    assert ("github:" + rest)[7..] == rest;
    PartsReadBack(n, path);
  }

  function Full(n: Repo, dotGit: bool): string {
    n.owner + "/" + n.repo + (if dotGit then GIT else "")
  }

  lemma {:induction false} UrlFound(n: Repo, dotGit: bool)
    requires PlainRepo(n)
    ensures GithubRepoFromUrl("https://github.com/" + Full(n, dotGit)) == Some(n)
  {
    hide FindRepo, RepoAfterHost, HostAt;
    var path := Full(n, dotGit);
    PathReadsBack(n, dotGit);
    NoHostInPrefix("https://", HOST + ['/'] + path);
    assert "https://" + (HOST + ['/'] + path) == "https://" + HOST + ['/'] + path;
    HostFound("https://", '/', path, 0);
    assert "https://github.com/" + path == "https://" + HOST + ['/'] + path;
  }

  lemma {:induction false} ScpFound(n: Repo, dotGit: bool)
    requires PlainRepo(n)
    ensures GithubRepoFromUrl("git@github.com:" + Full(n, dotGit)) == Some(n)
  {
    hide FindRepo, RepoAfterHost, HostAt;
    var path := Full(n, dotGit);
    PathReadsBack(n, dotGit);
    NoHostInPrefix("git@", HOST + [':'] + path);
    assert "git@" + (HOST + [':'] + path) == "git@" + HOST + [':'] + path;
    HostFound("git@", ':', path, 0);
    assert "git@github.com:" + path == "git@" + HOST + [':'] + path;
  }

  lemma {:induction false} HttpsReadsBack(n: Repo, dotGit: bool, value: string, hashRef: Option<string>, queryRef: Option<string>)
    requires PlainRepo(n)
    ensures ParseBase(value, Address(Https, n, dotGit), hashRef, queryRef) == Some(GithubRef(n, Either(hashRef, queryRef)))
  {
    hide FindRepo, OwnerRepo, GithubRepoFromUrl, HasScheme;
    UrlFound(n, dotGit);
    var base := "https://github.com/" + Full(n, dotGit);
    assert base[0] == 'h';
    assert Address(Https, n, dotGit) == base;
  }

  lemma {:induction false} GitHttpsReadsBack(n: Repo, dotGit: bool, value: string, hashRef: Option<string>, queryRef: Option<string>)
    requires PlainRepo(n)
    ensures ParseBase(value, Address(GitHttps, n, dotGit), hashRef, queryRef) == Some(GithubRef(n, Either(hashRef, queryRef)))
  {
    hide FindRepo, OwnerRepo, GithubRepoFromUrl, HasScheme;
    UrlFound(n, dotGit);
    var base := "git+https://github.com/" + Full(n, dotGit);
    assert base[3] == '+' && base[4..] == "https://github.com/" + Full(n, dotGit);
    assert Address(GitHttps, n, dotGit) == base;
  }

  lemma {:induction false} ScpReadsBack(n: Repo, dotGit: bool, value: string, hashRef: Option<string>, queryRef: Option<string>)
    requires PlainRepo(n)
    ensures ParseBase(value, Address(Scp, n, dotGit), hashRef, queryRef) == Some(GithubRef(n, Either(hashRef, queryRef)))
  {
    hide FindRepo, OwnerRepo, HasScheme, GithubRepoFromUrl;
    ScpFound(n, dotGit);
    var base := "git@github.com:" + Full(n, dotGit);
    assert base[3] == '@';
    assert Address(Scp, n, dotGit) == base;
    NotPrefix("github:", base, 3);
    NotPrefix("git+https://github.com/", base, 3);
    NotPrefix("git+ssh://git@github.com/", base, 3);
  }

  lemma {:induction false} SshReadsBack(n: Repo, dotGit: bool, value: string, hashRef: Option<string>, queryRef: Option<string>)
    requires PlainRepo(n)
    ensures ParseBase(value, Address(GitSsh, n, dotGit), hashRef, queryRef) == Some(GithubRef(n, Either(hashRef, queryRef)))
  {
    hide FindRepo, OwnerRepo, GithubRepoFromUrl, HasScheme, StripGit;
    var base := "git+ssh://git@github.com/" + Full(n, dotGit);
    assert base[3] == '+' && base[4] == 's' && base[25..] == Full(n, dotGit);
    assert Address(GitSsh, n, dotGit) == base;
    PathStripped(n, dotGit);
    PartsReadBack(n, None);
    assert n.owner + "/" + n.repo + "" == n.owner + "/" + n.repo;
  }

  lemma {:induction false} PathStripped(n: Repo, dotGit: bool)
    requires PlainRepo(n)
    ensures StripGit(Full(n, dotGit)) == n.owner + "/" + n.repo
  {
    var path := n.owner + "/" + n.repo;
    if dotGit {
      assert (path + GIT)[|path|..] == GIT && (path + GIT)[..|path|] == path;
    } else {
      assert path + "" == path;
      assert EndsWith(path, GIT) ==> |n.repo| >= 4 by {
        assert path[|n.owner|] == '/';
        assert EndsWith(path, GIT) ==> forall i :: 0 <= i < 4 ==> path[|path| - 4..][i] == GIT[i];
        assert forall i :: 0 <= i < 4 ==> GIT[i] != '/';
      }
      assert |n.repo| >= 4 ==> n.repo[|n.repo| - 4..] == path[|path| - 4..];
    }
  }

  lemma {:induction false} ShorthandReadsBack(n: Repo, value: string, hash: Option<string>, query: Option<string>)
    requires PlainRepo(n) && PlainOption(hash) && PlainOption(query) && value == n.owner + "/" + n.repo + QueryPart(query) + HashPart(hash)
    ensures ParseBase(value, n.owner + "/" + n.repo, hash, query) == Some(GithubRef(n, hash))
  {
    hide GithubRepoFromUrl, OwnerRepo, HasScheme;
    var base := n.owner + "/" + n.repo;
    NoHostInPath(n, 0);
    assert GithubRepoFromUrl(base) == None by { WholeSearch(base); }
    PartsReadBack(n, None);
    assert base + "" == base;
    ShortValue(n, value, hash, query);
    hide PlainRepo, PlainOption, QueryPart, HashPart;
  }

  lemma WholeSearch(url: string)
    ensures GithubRepoFromUrl(url) == FindRepo(url, 0)
  {
  }

  /** The short form has no scheme and is not a relative path. */
  lemma {:induction false} ShortValue(n: Repo, value: string, hash: Option<string>, query: Option<string>)
    requires PlainRepo(n) && PlainOption(hash) && PlainOption(query) && value == n.owner + "/" + n.repo + QueryPart(query) + HashPart(hash)
    ensures !HasScheme(value) && !("./" <= value) && !("../" <= value) && !("/" <= value)
    ensures var base := n.owner + "/" + n.repo; !("github:" <= base) && !("git+https://github.com/" <= base) && !("git+ssh://git@github.com/" <= base)
  {
    hide HasScheme, QueryPart, HashPart, PlainRepo, PlainOption;
    var tail := QueryPart(query) + HashPart(hash);
    NoColonsIn(hash, query);
    AppendAssoc(n.owner + "/" + n.repo, QueryPart(query), HashPart(hash));
    NoColon(n, value, tail);
    OwnerFirst(n.owner, n.repo, tail);
    NotRelative(n, value);
  }

  lemma OwnerFirst(owner: string, repo: string, tail: string)
    ensures var value := owner + "/" + repo + tail; |owner| < |value| && value[..|owner|] == owner && value[|owner|] == '/'
  {
    assert owner + "/" + repo + tail == owner + ("/" + repo + tail);
  }

  lemma NoColonsIn(hash: Option<string>, query: Option<string>)
    requires PlainOption(hash) && PlainOption(query)
    ensures forall i :: 0 <= i < |QueryPart(query) + HashPart(hash)| ==> (QueryPart(query) + HashPart(hash))[i] != ':'
  {
  }

  lemma {:induction false} NoColon(n: Repo, value: string, tail: string)
    requires PlainRepo(n) && value == n.owner + "/" + n.repo + tail && forall i :: 0 <= i < |tail| ==> tail[i] != ':'
    ensures !HasScheme(value)
    ensures var base := n.owner + "/" + n.repo; !("github:" <= base) && !("git+https://github.com/" <= base) && !("git+ssh://git@github.com/" <= base)
  {
    assert forall i :: 0 <= i < |value| ==> value[i] != ':';
    forall i | 0 <= i < |value| ensures !SchemeAt(value, i) {
      NoSchemeHere(value, i);
    }
    var base := n.owner + "/" + n.repo;
    assert forall i :: 0 <= i < |base| ==> base[i] != '+' && base[i] != ':';
    NotPrefix("github:", base, 6);
    NotPrefix("git+https://github.com/", base, 3);
    NotPrefix("git+ssh://git@github.com/", base, 3);
  }

  lemma NoSchemeHere(s: string, i: nat)
    requires i < |s| && s[i] != ':'
    ensures !SchemeAt(s, i)
  {
    if i + 3 <= |s| {
      assert s[i..i + 3][0] == s[i];
    }
  }

  lemma NotPrefix(p: string, s: string, i: nat)
    requires i < |p| && (i < |s| ==> s[i] != p[i])
    ensures !(p <= s)
  {
  }

  lemma {:induction false} NotRelative(n: Repo, value: string)
    requires PlainRepo(n) && |n.owner| < |value| && value[..|n.owner|] == n.owner && value[|n.owner|] == '/'
    ensures !("./" <= value) && !("../" <= value) && !("/" <= value)
  {
    assert forall i :: 0 <= i < |n.owner| ==> value[i] == n.owner[i] && value[i] != '/';
    NotDots(n.owner);
    NotPrefix("/", value, 0);
    NotPrefix("./", value, if |n.owner| == 1 then 0 else 1);
    if |n.owner| != 2 {
      NotPrefix("../", value, if |n.owner| == 1 then 1 else 2);
    } else {
      NotPrefix("../", value, if n.owner[0] != '.' then 0 else 1);
    }
  }

  lemma NotDots(s: string)
    requires s != "." && s != ".."
    ensures |s| == 1 ==> s[0] != '.'
    ensures |s| == 2 ==> s[0] != '.' || s[1] != '.'
  {
  }

  // ---------------------------------------------------------------- what is not a reference

  /** No scheme, no host and no ref: only the short form can be meant. */
  ghost predicate Bare(value: string) {
    && Clean(value)
    && !("github:" <= value) && !("git+https://github.com/" <= value) && !("git+ssh://git@github.com/" <= value)
    && forall i :: 0 <= i < |value| ==> !HostAt(value, i)
  }

  /** Two non-empty names with one slash between them, the first not `.` or `..`. */
  ghost predicate ShortForm(value: string) {
    exists k :: 0 < k < |value| - 1 && value[k] == '/' && '/' !in value[..k] && '/' !in value[k + 1..] && value[..k] != "." && value[..k] != ".."
  }

  lemma {:induction false} NoHostNoRepo(url: string, i: nat)
    requires i <= |url| && forall j :: 0 <= j < |url| ==> !HostAt(url, j)
    ensures FindRepo(url, i) == None
    decreases |url| - i
  {
    if i < |url| {
      NoHostNoRepo(url, i + 1);
    }
  }

  /** A bare value is a reference if and only if it is in the short form. */
  lemma {:induction false} BareIsShort(value: string, decode: string -> string)
    requires Bare(value)
    ensures ParseGithubLikeRef(value, decode).Some? <==> ShortForm(value)
  {
    hide ParseBase;
    UncutValue(value, decode);
    NoHostNoRepo(value, 0);
    BareParsed(value);
    var k := IndexOrEnd(value, '/', 0);
    ShortSplit(value, k);
  }

  lemma {:induction false} UncutValue(value: string, decode: string -> string)
    requires Clean(value)
    ensures ParseGithubLikeRef(value, decode) == ParseBase(value, value, None, None)
  {
    hide ParseBase, QueryRef;
    HashCut(value, None);
    QueryCut(value, None);
    assert value + "" == value && value[..|value|] == value;
  }

  lemma {:induction false} BareParsed(value: string)
    requires Bare(value) && FindRepo(value, 0) == None
    ensures ParseBase(value, value, None, None).Some? <==>
            !HasScheme(value) && !("./" <= value) && !("../" <= value) && !("/" <= value)
            && OwnerRepo(value).Some? && OwnerRepo(value).value.2.None? && OwnerRepo(value).value.0 != "" && OwnerRepo(value).value.1 != ""
  {
    hide FindRepo, OwnerRepo, HasScheme;
  }

  lemma {:induction false} ShortSplit(value: string, k: nat)
    requires k == IndexOrEnd(value, '/', 0)
    ensures ShortForm(value) <==>
            !HasScheme(value) && !("./" <= value) && !("../" <= value) && !("/" <= value)
            && OwnerRepo(value).Some? && OwnerRepo(value).value.2.None? && OwnerRepo(value).value.0 != "" && OwnerRepo(value).value.1 != ""
  {
    if k < |value| {
      var front, rest := value[..k], value[k + 1..];
      var n := IndexOrEnd(rest, '/', 0);
      SlashIsFirst(value, k);
      RelativeFront(value, k);
      assert n == |rest| <==> '/' !in rest;
      assert rest[..|rest|] == rest;
      if n == |rest| {
        OneSlashNoScheme(value, k);
      }
    } else {
      assert '/' !in value;
    }
  }

  lemma SlashIsFirst(value: string, k: nat)
    requires k < |value| && k == IndexOrEnd(value, '/', 0)
    ensures forall j :: 0 <= j < |value| && value[j] == '/' && '/' !in value[..j] ==> j == k
    ensures '/' !in value[..k]
  {
    assert forall j :: k < j < |value| ==> value[..j][k] == '/';
  }

  lemma RelativeFront(value: string, k: nat)
    requires k < |value| && value[k] == '/' && '/' !in value[..k]
    ensures "./" <= value <==> value[..k] == "."
    ensures "../" <= value <==> value[..k] == ".."
    ensures "/" <= value <==> k == 0
  {
    assert forall i :: 0 <= i < k ==> value[..k][i] == value[i];
    if "./" <= value { assert value[1] == '/' && value[0] == '.'; }
    if "../" <= value { assert value[2] == '/' && value[1] == '.' && value[0] == '.'; }
  }

  lemma OneSlashNoScheme(value: string, k: nat)
    requires k < |value| && '/' !in value[..k] && '/' !in value[k + 1..]
    ensures !HasScheme(value)
  {
    forall i | 0 <= i < |value| ensures !SchemeAt(value, i) {
      if i + 2 < |value| {
        assert value[i..i + 3][1] == value[i + 1] && value[i..i + 3][2] == value[i + 2];
        assert i + 1 < k ==> value[..k][i + 1] == value[i + 1];
        assert i + 1 >= k ==> value[k + 1..][i + 2 - (k + 1)] == value[i + 2];
      }
    }
  }
}
