/** `ServingConfig::SetPaths` and `ValidatePaths`: the routing table built from a parsed config, and who
    owns which path of it. */
module ServingConfig {
  import opened Grammar
  import Printer
  import Routing

  const MULTIPLE_USES := 1
  const INVALID_URI := 2

  datatype Factory =
    | StaticFactory(block: seq<Statement>) | EchoFactory | CrudFactory(block: seq<Statement>)
    | HealthFactory | SleepFactory | WebsocketInfoFactory | NotFoundFactory

  // --- the locations of a config ------------------------------------------------------------

  /** A `location` statement of a `server` block; `Bare` is one without a block of its own. */
  datatype Location =
    | Bare(path: string, handler: string)
    | Located(path: string, handler: string, block: seq<Statement>)

  predicate IsServer(s: Statement) { s.tokens != [] && s.tokens[0] == "server" && s.Block? }

  predicate IsLocation(s: Statement) { |s.tokens| >= 3 && s.tokens[0] == "location" }

  function LocationOf(s: Statement): Location
    requires IsLocation(s)
  {
    if s.Block? then Located(s.tokens[1], s.tokens[2], s.body) else Bare(s.tokens[1], s.tokens[2])
  }

  /** The locations of one block, in order. */
  function BlockLocations(body: seq<Statement>): (ls: seq<Location>) {
    if body == [] then []
    else (if IsLocation(body[0]) then [LocationOf(body[0])] else []) + BlockLocations(body[1..])
  }

  /** The locations of all servers, in order. */
  function Locations(config: seq<Statement>): (ls: seq<Location>) {
    if config == [] then []
    else (if IsServer(config[0]) then BlockLocations(config[0].body) else []) + Locations(config[1..])
  }

  // --- registering --------------------------------------------------------------------------

  predicate KnownHandler(name: string) {
    || name == "StaticHandler" || name == "EchoHandler" || name == "CrudHandler" || name == "HealthHandler"
    || name == "TestHandler" || name == "WebsocketInfoHandler"
  }

  predicate Registers(l: Location) { l.Located? && KnownHandler(l.handler) }

  /** The path a location registers; `TestHandler` registers a path below its own. */
  function KeyOf(l: Location): (k: string) { if l.handler == "TestHandler" then l.path + "/sleep" else l.path }

  function FactoryOf(l: Location): (f: Factory)
    requires Registers(l)
  {
    if l.handler == "StaticHandler" then StaticFactory(l.block)
    else if l.handler == "EchoHandler" then EchoFactory
    else if l.handler == "CrudHandler" then CrudFactory(l.block)
    else if l.handler == "HealthHandler" then HealthFactory
    else if l.handler == "TestHandler" then SleepFactory
    else WebsocketInfoFactory
  }

  type Factories = map<string, Factory>

  /** The table after some locations; `clash` if one of them used a path already in the table. */
  datatype Table = Table(factories: Factories, names: map<string, string>, clash: bool)

  function Add(t: Table, l: Location): Table {
    if l.Bare? then t
    else
      Table(if Registers(l) then t.factories[KeyOf(l) := FactoryOf(l)] else t.factories,
            t.names[l.path := l.handler], t.clash)
  }

  function Register(t: Table, ls: seq<Location>): (r: Table)
    decreases |ls|
  {
    if ls == [] || t.clash then t
    else if ls[0].path in t.factories then t.(clash := true)
    else Register(Add(t, ls[0]), ls[1..])
  }

  lemma {:induction false} RegisterAppend(t: Table, a: seq<Location>, b: seq<Location>)
    ensures Register(t, a + b) == Register(Register(t, a), b)
    decreases |a|
  {
    if a == [] {
      assert a + b == b;
    } else if !t.clash && a[0].path !in t.factories {
      assert (a + b)[1..] == a[1..] + b;
      RegisterAppend(Add(t, a[0]), a[1..], b);
    }
  }

  // --- validation ---------------------------------------------------------------------------

  predicate IsUriChar(c: char) {
    'a' <= c <= 'z' || 'A' <= c <= 'Z' || '0' <= c <= '9' || c == '/' || c == '.' || c == '_' || c == '-'
  }

  /** A slash and at least one more character, all of them letters, digits or one of "/._-". */
  predicate IsValidURI(uri: string) {
    |uri| >= 2 && uri[0] == '/' && forall i :: 0 <= i < |uri| ==> IsUriChar(uri[i])
  }

  predicate AllValid(factories: Factories) { forall k :: k in factories ==> IsValidURI(k) }

  /** What `SetPaths` returns, and what it leaves in the two maps. */
  function StatusOf(t: Table): (status: int) {
    if t.clash then MULTIPLE_USES else if AllValid(t.factories) then 0 else INVALID_URI
  }

  function WithRoot(t: Table): Table {
    if t.clash then t else Table(t.factories["/" := NotFoundFactory], t.names["/" := "NotFoundHandler"], false)
  }

  class ServingConfig {
    var handlerFactories: Factories
    var pathToHandlerName: map<string, string>

    ghost function Contents(clash: bool): Table
      reads this
    {
      Table(handlerFactories, pathToHandlerName, clash)
    }

    constructor ()
      ensures Contents(false) == Table(map[], map[], false)
    {
      handlerFactories, pathToHandlerName := map[], map[];
    }

    method SetPaths(config: seq<Statement>) returns (status: int)
      modifies this
      ensures var t := Register(old(Contents(false)), Locations(config));
              status == StatusOf(t) && Contents(t.clash) == WithRoot(t)
    {
      ghost var t := Register(Contents(false), Locations(config));
      for i := 0 to |config|
        invariant Register(Contents(false), Locations(config[i..])) == t
      {
        assert config[i..][1..] == config[i + 1..];
        if IsServer(config[i]) {
          RegisterAppend(Contents(false), BlockLocations(config[i].body), Locations(config[i + 1..]));
          var clash := SetBlockPaths(config[i].body);
          if clash {
            return MULTIPLE_USES;
          }
        } else {
          assert [] + Locations(config[i + 1..]) == Locations(config[i + 1..]);
        }
      }
      status := ValidatePaths();
      pathToHandlerName := pathToHandlerName["/" := "NotFoundHandler"];
      handlerFactories := handlerFactories["/" := NotFoundFactory];
    }

    /** The loop over the statements of one server block. */
    method SetBlockPaths(body: seq<Statement>) returns (clash: bool)
      modifies this
      ensures Contents(clash) == Register(old(Contents(false)), BlockLocations(body))
    {
      ghost var t := Register(Contents(false), BlockLocations(body));
      for j := 0 to |body|
        invariant Register(Contents(false), BlockLocations(body[j..])) == t
      {
        assert body[j..][1..] == body[j + 1..];
        ghost var rest := BlockLocations(body[j + 1..]);
        if IsLocation(body[j]) {
          assert ([LocationOf(body[j])] + rest)[1..] == rest;
          if body[j].tokens[1] in handlerFactories {
            return true;
          }
          SetPath(LocationOf(body[j]));
        } else {
          assert [] + rest == rest;
        }
      }
      clash := false;
    }

    /** One location whose path is free. */
    method SetPath(l: Location)
      modifies this
      ensures Contents(false) == Add(old(Contents(false)), l)
    {
      if l.Located? {
        pathToHandlerName := pathToHandlerName[l.path := l.handler];
        if l.handler == "StaticHandler" {
          handlerFactories := handlerFactories[l.path := StaticFactory(l.block)];
        } else if l.handler == "EchoHandler" {
          handlerFactories := handlerFactories[l.path := EchoFactory];
        } else if l.handler == "CrudHandler" {
          handlerFactories := handlerFactories[l.path := CrudFactory(l.block)];
        } else if l.handler == "HealthHandler" {
          handlerFactories := handlerFactories[l.path := HealthFactory];
        } else if l.handler == "TestHandler" {
          handlerFactories := handlerFactories[l.path + "/sleep" := SleepFactory];
        } else if l.handler == "WebsocketInfoHandler" {
          handlerFactories := handlerFactories[l.path := WebsocketInfoFactory];
        }
      }
    }

    method ValidatePaths() returns (status: int)
      ensures status == if AllValid(handlerFactories) then 0 else INVALID_URI
    {
      var left := handlerFactories.Keys;
      while left != {}
        invariant left <= handlerFactories.Keys
        invariant forall k :: k in handlerFactories && k !in left ==> IsValidURI(k)
        decreases left
      {
        var k :| k in left;
        if !IsValidURI(k) {
          return INVALID_URI;
        }
        left := left - {k};
      }
      return 0;
    }
  }

  // --- what the table means -----------------------------------------------------------------

  function Fresh(): Table { Table(map[], map[], false) }

  /** No location uses a path that an earlier one has registered. */
  predicate NoClash(ls: seq<Location>) {
    forall i, j :: 0 <= i < j < |ls| && Registers(ls[i]) ==> KeyOf(ls[i]) != ls[j].path
  }

  /** Location `i` registers `k` and no later one does. */
  predicate Owns(ls: seq<Location>, i: int, k: string) {
    && 0 <= i < |ls| && Registers(ls[i]) && KeyOf(ls[i]) == k
    && forall j :: i < j < |ls| && Registers(ls[j]) ==> KeyOf(ls[j]) != k
  }

  /** A path is in the table exactly if some location owns it, and its owner serves it. */
  ghost predicate TableOf(ls: seq<Location>, f: Factories) {
    && (forall k :: k in f ==> exists i :: Owns(ls, i, k))
    && (forall i, k :: Owns(ls, i, k) ==> k in f && f[k] == FactoryOf(ls[i]))
  }

  lemma RegisterLast(t: Table, ls: seq<Location>)
    requires ls != []
    ensures var n := |ls| - 1;
            var r := Register(t, ls[..n]);
            Register(t, ls) ==
              if r.clash then r else if ls[n].path in r.factories then r.(clash := true) else Add(r, ls[n])
  {
    var n := |ls| - 1;
    RegisterAppend(t, ls[..n], [ls[n]]);
    assert ls == ls[..n] + [ls[n]];
    assert [ls[n]][1..] == [];
  }

  /** Registering on an empty table succeeds exactly without a clash, and then every path in the table
      is served by the last location that registered it. */
  lemma {:induction false} RegisterMeans(t: Table, ls: seq<Location>)
    requires t == Fresh()
    ensures !Register(t, ls).clash <==> NoClash(ls)
    ensures NoClash(ls) ==> TableOf(ls, Register(t, ls).factories)
    decreases |ls|
  {
    if ls != [] {
      var n := |ls| - 1;
      var front, l := ls[..n], ls[n];
      RegisterMeans(t, front);
      RegisterLast(t, ls);
      assert forall i :: 0 <= i < n ==> front[i] == ls[i];
      if NoClash(front) {
        LastIsFree(ls, Register(t, front).factories);
        LastOwns(ls, Register(t, front).factories);
      } else {
        var i, j :| 0 <= i < j < n && Registers(front[i]) && KeyOf(front[i]) == front[j].path;
        assert Registers(ls[i]) && KeyOf(ls[i]) == ls[j].path;
      }
    }
  }

  lemma {:induction false} SomeoneOwns(ls: seq<Location>, i: nat, k: string)
    requires i < |ls| && Registers(ls[i]) && KeyOf(ls[i]) == k
    ensures exists j :: Owns(ls, j, k)
    decreases |ls| - i
  {
    if !Owns(ls, i, k) {
      var j :| i < j < |ls| && Registers(ls[j]) && KeyOf(ls[j]) == k;
      SomeoneOwns(ls, j, k);
    }
  }

  lemma LastIsFree(ls: seq<Location>, f: Factories)
    requires ls != [] && NoClash(ls[..|ls| - 1]) && TableOf(ls[..|ls| - 1], f)
    ensures NoClash(ls) <==> ls[|ls| - 1].path !in f
  {
    var n := |ls| - 1;
    var front, l := ls[..n], ls[n];
    if l.path in f {
      var i :| Owns(front, i, l.path);
      assert Registers(ls[i]) && KeyOf(ls[i]) == ls[n].path;
    } else {
      forall i, j | 0 <= i < j < |ls| && Registers(ls[i])
        ensures KeyOf(ls[i]) != ls[j].path
      {
        if j == n && KeyOf(front[i]) == l.path {
          SomeoneOwns(front, i, l.path);
        } else if j < n {
          assert KeyOf(front[i]) != front[j].path;
        }
      }
    }
  }

  lemma LastOwns(ls: seq<Location>, f: Factories)
    requires ls != [] && TableOf(ls[..|ls| - 1], f)
    ensures var l := ls[|ls| - 1];
            TableOf(ls, if Registers(l) then f[KeyOf(l) := FactoryOf(l)] else f)
  {
    var n := |ls| - 1;
    var front, l := ls[..n], ls[n];
    var f' := if Registers(l) then f[KeyOf(l) := FactoryOf(l)] else f;
    assert forall i :: 0 <= i < n ==> front[i] == ls[i];
    forall k | k in f'
      ensures exists i :: Owns(ls, i, k)
    {
      if Registers(l) && KeyOf(l) == k {
        SomeoneOwns(ls, n, k);
      } else {
        var i :| Owns(front, i, k);
        SomeoneOwns(ls, i, k);
      }
    }
    forall i, k | Owns(ls, i, k)
      ensures k in f' && f'[k] == FactoryOf(ls[i])
    {
      if i < n {
        assert Owns(front, i, k);
      }
    }
  }

  // --- the theorems -------------------------------------------------------------------------

  /** What `SetPaths` leaves behind on a fresh object. */
  function Served(config: seq<Statement>): (t: Table) {
    Register(Fresh(), Locations(config))
  }

  /** `SetPaths` on a fresh object returns 0 exactly if no location uses a path registered before it and
      every path that is registered is a valid URI. */
  lemma StatusIff(config: seq<Statement>)
    ensures var ls := Locations(config);
            StatusOf(Served(config)) == 0 <==>
              NoClash(ls) && forall i :: 0 <= i < |ls| && Registers(ls[i]) ==> IsValidURI(KeyOf(ls[i]))
  {
    var ls, t := Locations(config), Served(config);
    RegisterMeans(Fresh(), ls);
    if !t.clash {
      if AllValid(t.factories) {
        forall i | 0 <= i < |ls| && Registers(ls[i])
          ensures IsValidURI(KeyOf(ls[i]))
        {
          SomeoneOwns(ls, i, KeyOf(ls[i]));
        }
      } else {
        var k :| k in t.factories && !IsValidURI(k);
        var i :| Owns(ls, i, k);
        assert Registers(ls[i]) && KeyOf(ls[i]) == k;
      }
    }
  }

  /** With status 0, a location that registers a path keeps it exactly if no later `TestHandler` puts its
      own path there; nothing else can take it away. The root is bound to NotFound, whatever the file. */
  lemma WhoOwnsAPath(config: seq<Statement>, i: nat)
    requires StatusOf(Served(config)) == 0 && i < |Locations(config)| && Registers(Locations(config)[i])
    ensures var ls, f := Locations(config), WithRoot(Served(config)).factories;
            var k := KeyOf(ls[i]);
            && (Owns(ls, i, k) <==>
                  !exists j :: i < j < |ls| && Registers(ls[j]) && ls[j].handler == "TestHandler" && KeyOf(ls[j]) == k)
            && (Owns(ls, i, k) ==> k in f && f[k] == FactoryOf(ls[i]))
            && k != "/" && "/" in f && f["/"] == NotFoundFactory
  {
    var ls := Locations(config);
    StatusIff(config);
    RegisterMeans(Fresh(), ls);
    assert IsValidURI(KeyOf(ls[i]));
    if !Owns(ls, i, KeyOf(ls[i])) {
      var j :| i < j < |ls| && Registers(ls[j]) && KeyOf(ls[j]) == KeyOf(ls[i]);
      assert KeyOf(ls[i]) != ls[j].path;
    }
  }

  /** Without `TestHandler`s every location that registers a path has it to itself. */
  lemma SoleOwner(config: seq<Statement>, i: nat, j: nat)
    requires StatusOf(Served(config)) == 0
    requires forall l :: l in Locations(config) ==> l.handler != "TestHandler"
    requires var ls := Locations(config); i < |ls| && j < |ls| && Registers(ls[i]) && Registers(ls[j])
    ensures var ls := Locations(config); Owns(ls, i, ls[i].path) && (ls[i].path == ls[j].path ==> i == j)
  {
    var ls := Locations(config);
    WhoOwnsAPath(config, i);
    WhoOwnsAPath(config, j);
    assert ls[i] in ls && ls[j] in ls;
  }

  /** A `TestHandler` silently takes over a path: both statements are accepted with status 0, and the
      first one's handler is gone. */
  lemma TestHandlerOverwrites(p: string, config: seq<Statement>)
    requires IsValidURI(p)
    requires config == [Block(["server"], [Block(["location", p + "/sleep", "EchoHandler"], []),
                                           Block(["location", p, "TestHandler"], [])])]
    ensures StatusOf(Served(config)) == 0
    ensures Served(config).factories == map[p + "/sleep" := SleepFactory]
  {
    var body := config[0].body;
    var a, b := LocationOf(body[0]), LocationOf(body[1]);
    assert body[1..] == [body[1]] && body[1..][1..] == [] && config[1..] == [];
    assert BlockLocations(body[1..]) == [b] + BlockLocations(body[1..][1..]) == [b];
    assert BlockLocations(body) == [a] + [b];
    assert Locations(config) == [a, b] + Locations(config[1..]) == [a, b];
    assert [a, b][1..] == [b] && [b][1..] == [];
    var t1 := Add(Fresh(), a);
    assert |p + "/sleep"| != |p|;
    assert Register(Fresh(), [a, b]) == Register(t1, [b]) == Register(Add(t1, b), []);
  }

  lemma {:induction false} FindQuery(k: string, query: string)
    requires '?' !in k && (query == "" || query[0] == '?')
    ensures Routing.Find(k + query, '?') == |k|
  {
    if k == "" {
      assert k + query == query;
    } else {
      assert (k + query)[1..] == k[1..] + query;
      FindQuery(k[1..], query);
    }
  }

  /** The base path of a target that is a valid URI followed by nothing or by a query. */
  lemma BaseOfOwnPath(k: string, query: string, base: string)
    requires IsValidURI(k) && (query == "" || query[0] == '?')
    requires Routing.IsBasePath(k + query, base)
    ensures base == k <==> !Routing.EndsInSlash(k)
    ensures |base| <= |k|
  {
    assert forall i :: 0 <= i < |k| ==> k[i] != '?';
    FindQuery(k, query);
    assert Routing.PathPart(k + query) == k;
    if k[|k| - 1] != '/' {
      assert k[|k|..] == "";
      Routing.BasePathUnique(k + query, k, base);
    }
  }

  /** A request for exactly the path of a location, with any query, reaches that location if and only if
      the path was not configured with a trailing slash. */
  lemma OwnPathReachesIff(config: seq<Statement>, i: nat, k: string, query: string, verb: Routing.Verb, base: string)
    requires StatusOf(Served(config)) == 0 && Owns(Locations(config), i, k)
    requires verb != Routing.OtherVerb && (query == "" || query[0] == '?')
    requires Routing.IsBasePath(k + query, base)
    ensures (exists path ::
               Routing.IsRoute(WithRoot(Served(config)).factories, verb, 11, base, Routing.Handled(k, path)))
            <==> !Routing.EndsInSlash(k)
  {
    StatusIff(config);
    WhoOwnsAPath(config, i);
    BaseOfOwnPath(k, query, base);
    Routing.OwnKeyRoute(WithRoot(Served(config)).factories, verb, base, k);
  }

  lemma SlashedTable(config: seq<Statement>)
    requires config == [Block(["server"], [Block(["location", "/a/", "EchoHandler"], [])])]
    ensures StatusOf(Served(config)) == 0
    ensures WithRoot(Served(config)).factories == map["/a/" := EchoFactory, "/" := NotFoundFactory]
  {
    var body := config[0].body;
    var l := LocationOf(body[0]);
    assert body[1..] == [] && config[1..] == [];
    assert BlockLocations(body) == [l] + BlockLocations(body[1..]) == [l];
    assert Locations(config) == [l] + Locations(config[1..]) == [l];
    assert Register(Fresh(), [l]) == Register(Add(Fresh(), l), [l][1..]);
  }

  /** For example: with the single location "/a/" the status is 0, and a request for "/a" or for "/a/"
      gets 400. */
  lemma SlashedPathUnreachable(config: seq<Statement>, target: string, verb: Routing.Verb, base: string,
                               r: Routing.Route)
    requires config == [Block(["server"], [Block(["location", "/a/", "EchoHandler"], [])])]
    requires (target == "/a" || target == "/a/") && Routing.IsBasePath(target, base)
    ensures StatusOf(Served(config)) == 0
    ensures Routing.IsRoute(WithRoot(Served(config)).factories, verb, 11, base, r) <==> r == Routing.BadRequest
  {
    SlashedTable(config);
    BaseOfSlashA(target, base);
    assert !("/a/" + "/" <= "/a") && !("/" + "/" <= "/a");
  }

  lemma BaseOfSlashA(target: string, base: string)
    requires (target == "/a" || target == "/a/") && Routing.IsBasePath(target, base)
    ensures base == "/a"
  {
    FindQuery(target, "");
    assert target + "" == target;
    var p := Routing.PathPart(target);
    assert p == target && p[1] == 'a';
    assert "/a" <= p && Routing.AllSlashes(p[2..]);
    Routing.BasePathUnique(target, "/a", base);
  }

  /** Printing a printable config and reading it back changes no route. */
  lemma PrintingKeepsRoutes(config: seq<Statement>, depth: int, config': seq<Statement>,
                            verb: Routing.Verb, version: int, base: string, r: Routing.Route)
    requires Printer.Printable(config) && ParseInto([], Printer.Print(config, depth)) == Accepted(config')
    ensures Routing.IsRoute(WithRoot(Served(config)).factories, verb, version, base, r)
       <==> Routing.IsRoute(WithRoot(Served(config')).factories, verb, version, base, r)
  {
    Printer.RoundTripIff(config, depth);
  }
}
