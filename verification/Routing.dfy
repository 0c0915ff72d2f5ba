/** `RequestDispatcher`: cutting a request target down to a base path, and the loop that strips path
    levels until a registered path is found, proved to be longest-prefix matching. */
module Routing {

  // --- base paths ---------------------------------------------------------------------------

  /** `s.find(c)`, with the length of `s` standing for "not found". */
  function Find(s: string, c: char): (n: nat)
    ensures n <= |s| && c !in s[..n] && (n < |s| ==> s[n] == c)
  {
    if s == "" || s[0] == c then 0
    else
      var n := 1 + Find(s[1..], c);
      assert s[..n] == [s[0]] + s[1..][..n - 1];
      n
  }

  /** `s.rfind(c)`, with -1 standing for "not found". */
  function RFind(s: string, c: char): (n: int)
    ensures -1 <= n < |s| && (n >= 0 ==> s[n] == c) && (n == -1 <==> c !in s)
    ensures forall i :: n < i < |s| ==> s[i] != c
  {
    if s == "" then -1
    else
      var n := |s| - 1;
      assert s == s[..n] + [s[n]];
      if s[n] == c then n else RFind(s[..n], c)
  }

  /** The path of a target, before any query. */
  function PathPart(uri: string): (p: string)
    ensures p <= uri && '?' !in p && (p == uri || uri[|p|] == '?')
  {
    uri[..Find(uri, '?')]
  }

  predicate EndsInSlash(s: string) { s != "" && s[|s| - 1] == '/' }

  predicate AllSlashes(s: string) { forall i :: 0 <= i < |s| ==> s[i] == '/' }

  /** The base path: the path without its trailing slashes, or "/" if nothing else is in it. */
  predicate IsBasePath(uri: string, base: string) {
    var p := PathPart(uri);
    if AllSlashes(p) then base == "/"
    else base != "" && base <= p && !EndsInSlash(base) && AllSlashes(p[|base|..])
  }

  lemma BasePathUnique(uri: string, a: string, b: string)
    requires IsBasePath(uri, a) && IsBasePath(uri, b)
    ensures a == b
  {
    var p := PathPart(uri);
    if !AllSlashes(p) {
      if |a| < |b| {
        LongerEndsInSlash(p, a, b);
      } else if |b| < |a| {
        LongerEndsInSlash(p, b, a);
      }
    }
  }

  lemma LongerEndsInSlash(p: string, a: string, b: string)
    requires b <= p && |a| < |b| && AllSlashes(p[|a|..])
    ensures b[|b| - 1] == '/'
  {
    assert p[|a|..][|b| - 1 - |a|] == p[|b| - 1] == b[|b| - 1];
  }

  lemma OneMoreSlash(p: string, n: nat)
    requires 0 < n <= |p| && p[n - 1] == '/' && AllSlashes(p[n..])
    ensures AllSlashes(p[n - 1..])
  {
    var longer, tail := p[n - 1..], p[n..];
    forall i | 0 <= i < |longer|
      ensures longer[i] == '/'
    {
      assert i > 0 ==> longer[i] == tail[i - 1];
    }
  }

  method ExtractUriBasePath(uri: string) returns (strippedUri: string)
    ensures IsBasePath(uri, strippedUri)
  {
    strippedUri := uri;
    var queryPos := Find(strippedUri, '?');
    if queryPos < |strippedUri| {
      strippedUri := strippedUri[..queryPos];
    }
    ghost var p := strippedUri;
    assert p == PathPart(uri);
    while strippedUri != "" && strippedUri[|strippedUri| - 1] == '/'
      invariant strippedUri <= p && AllSlashes(p[|strippedUri|..])
      decreases |strippedUri|
    {
      OneMoreSlash(p, |strippedUri|);
      strippedUri := strippedUri[..|strippedUri| - 1];
    }
    if strippedUri == "" {
      assert p[0..] == p;
      strippedUri := "/";
    }
  }

  // --- matching -----------------------------------------------------------------------------

  /** A registered path serves a base path: it is the base path, or a whole number of its leading
      levels, and then it must have at least one slash itself. */
  predicate Serves(key: string, base: string) {
    key == base || ('/' in key && key + "/" <= base)
  }

  datatype Verb = Get | Put | Post | Delete | OtherVerb

  /** `Handled(key, path)`: the factory at `key` makes a handler for `path`. */
  datatype Route = BadRequest | Handled(key: string, path: string)

  /** The reference: the longest registered path that serves the base path, or 400. */
  predicate IsRoute<F>(table: map<string, F>, verb: Verb, version: int, base: string, r: Route) {
    if verb == OtherVerb || version != 11 then r == BadRequest
    else
      match r
      case BadRequest => forall k :: k in table ==> !Serves(k, base)
      case Handled(key, path) =>
        && key in table && Serves(key, base)
        && (forall k :: k in table && Serves(k, base) ==> |k| <= |key|)
        && (if key == base then path == base else key + "/" + path == base && path != "")
  }

  lemma ServingKeysOfOneLength(a: string, b: string, base: string)
    requires Serves(a, base) && Serves(b, base) && |a| == |b|
    ensures a == b
  {
    assert a == base[..|a|] && b == base[..|b|];
  }

  /** There is exactly one answer to a request. */
  lemma RouteUnique<F>(table: map<string, F>, verb: Verb, version: int, base: string, r: Route, r': Route)
    requires IsRoute(table, verb, version, base, r) && IsRoute(table, verb, version, base, r')
    ensures r == r'
  {
    if r.Handled? && r'.Handled? {
      ServingKeysOfOneLength(r.key, r'.key, base);
      if r.key != base {
        assert r.path == (r.key + "/" + r.path)[|r.key| + 1..];
        assert r'.path == (r'.key + "/" + r'.path)[|r.key| + 1..];
      }
    }
  }

  lemma OwnKeyRoute<F>(table: map<string, F>, verb: Verb, base: string, key: string)
    requires key in table && |base| <= |key| && verb != OtherVerb
    ensures (exists path :: IsRoute(table, verb, 11, base, Handled(key, path))) <==> key == base
  {
    if key == base {
      assert forall k :: Serves(k, base) ==> |k| <= |base|;
      assert IsRoute(table, verb, 11, base, Handled(key, key));
    } else {
      assert forall path :: |key + "/" + path| > |base|;
    }
  }

  /** Stripping the last level of `cur` passes over no serving key. */
  lemma NoKeySkipped(key: string, cur: string, base: string)
    requires cur <= base && Serves(key, base) && key != base && |key| <= |cur| && key != cur
    ensures |key| <= RFind(cur, '/')
  {
    assert (key + "/")[|key|] == base[|key|] == '/';
    assert key == base[..|key|] && cur == base[..|cur|];
    assert |key| < |cur| && cur[|key|] == '/';
  }

  lemma KeysUpToLastSlash<F>(table: map<string, F>, cur: string, base: string)
    requires cur <= base && cur !in table && base !in table
    requires forall k :: k in table && Serves(k, base) ==> |k| <= |cur|
    ensures forall k :: k in table && Serves(k, base) ==> |k| <= RFind(cur, '/')
  {
    forall k | k in table && Serves(k, base)
      ensures |k| <= RFind(cur, '/')
    {
      NoKeySkipped(k, cur, base);
    }
  }

  lemma KeyBringsSlash(key: string, cur: string, base: string)
    requires cur <= base && Serves(key, base) && key != base && |key| <= |cur|
    ensures '/' in cur
  {
    var i :| 0 <= i < |key| && key[i] == '/';
    assert key == base[..|key|] && cur == base[..|cur|];
    assert cur[i] == '/';
  }

  lemma SplitAt(cur: string, base: string)
    requires cur <= base && |cur| < |base| && base[|cur|] == '/'
    ensures cur + "/" <= base && cur + "/" + base[|cur| + 1..] == base
  {
    assert base == base[..|cur|] + [base[|cur|]] + base[|cur| + 1..];
  }

  /** The matching part of `RouteRequest`. */
  method RouteRequest<F>(table: map<string, F>, verb: Verb, version: int, target: string, ghost base: string)
    returns (r: Route)
    requires IsBasePath(target, base)
    ensures IsRoute(table, verb, version, base, r)
  {
    if verb == OtherVerb { return BadRequest; }
    if version != 11 { return BadRequest; }
    var uriBasePath := ExtractUriBasePath(target);
    BasePathUnique(target, base, uriBasePath);
    if uriBasePath in table {
      return Handled(uriBasePath, uriBasePath);
    }
    KeysUpToLastSlash(table, base, base);
    var slash := RFind(uriBasePath, '/');
    var curPath := if slash == -1 then uriBasePath else uriBasePath[..slash];
    while RFind(curPath, '/') != -1
      invariant curPath <= base && (curPath == base ==> '/' !in base)
      invariant curPath != base ==> base[|curPath|] == '/'
      invariant forall k :: k in table && Serves(k, base) ==> |k| <= |curPath|
      decreases |curPath|
    {
      if curPath in table {
        var filePath := uriBasePath[|curPath| + 1..];
        SplitAt(curPath, base);
        return Handled(curPath, filePath);
      }
      slash := RFind(curPath, '/');
      KeysUpToLastSlash(table, curPath, base);
      curPath := curPath[..slash];
    }
    forall k | k in table && Serves(k, base)
      ensures false
    {
      KeyBringsSlash(k, curPath, base);
    }
    r := BadRequest;
  }

  // --- consequences -------------------------------------------------------------------------

  /** Other verbs and other versions get 400, whatever is registered; the four verbs are routed alike. */
  lemma OnlyFourVerbs<F>(table: map<string, F>, verb: Verb, version: int, base: string, r: Route)
    ensures verb == OtherVerb || version != 11 ==> (IsRoute(table, verb, version, base, r) <==> r == BadRequest)
    ensures verb == Get || verb == Put || verb == Post || verb == Delete ==>
              (IsRoute(table, verb, version, base, r) <==> IsRoute(table, Get, version, base, r))
    ensures version == 11 && base in table ==> IsRoute(table, Get, version, base, Handled(base, base))
  {
    if version == 11 && base in table {
      OwnKeyRoute(table, Get, base, base);
      assert forall k :: Serves(k, base) ==> |k| <= |base|;
    }
  }

  /** A base path other than "/" never ends in a slash, so a path registered with a trailing slash is
      never matched as it stands: it serves only targets in which that slash is doubled. */
  lemma TrailingSlashNeverExact(uri: string, base: string, key: string)
    requires IsBasePath(uri, base) && |key| > 1 && EndsInSlash(key)
    ensures Serves(key, base) <==> key + "/" <= base
  {
    assert key[|key| - 1] in key;
  }

  /** The path "/" serves the empty path and targets that begin with a doubled slash, nothing else. */
  lemma RootServes(base: string)
    ensures Serves("/", base) <==> base == "/" || "//" <= base
  {
    assert "/" + "/" == "//";
    assert '/' in "/";
  }
}
