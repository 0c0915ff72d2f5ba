/** The routing table, told from the statements of the config file: which statement serves a path, with which
    handler and block, and under which name it is logged. */
module ServingTable {
  import opened Grammar
  import opened ServingConfig

  // --- the statements of a config -------------------------------------------------------------

  /** Statement `b` of block `a` is a location of a server. */
  predicate IsLocationAt(config: seq<Statement>, a: int, b: int) {
    && 0 <= a < |config| && config[a].Block? && config[a].tokens != [] && config[a].tokens[0] == "server"
    && 0 <= b < |config[a].body| && |config[a].body[b].tokens| >= 3 && config[a].body[b].tokens[0] == "location"
  }

  /** It has a block, and names a handler that there is. */
  predicate Serving(s: Statement) {
    && s.Block? && |s.tokens| >= 3
    && s.tokens[2] in ["StaticHandler", "EchoHandler", "CrudHandler", "HealthHandler", "TestHandler",
                       "WebsocketInfoHandler"]
  }

  function PathServed(s: Statement): string
    requires |s.tokens| >= 3
  {
    if s.tokens[2] == "TestHandler" then s.tokens[1] + "/sleep" else s.tokens[1]
  }

  /** The factory is that of handler `name` for a location with this block. */
  predicate IsFor(f: Factory, name: string, block: seq<Statement>) {
    match f
    case StaticFactory(b) => name == "StaticHandler" && b == block
    case EchoFactory => name == "EchoHandler"
    case CrudFactory(b) => name == "CrudHandler" && b == block
    case HealthFactory => name == "HealthHandler"
    case SleepFactory => name == "TestHandler"
    case WebsocketInfoFactory => name == "WebsocketInfoHandler"
    case NotFoundFactory => name == "NotFoundHandler"
  }

  predicate Before(a: int, b: int, a': int, b': int) { a < a' || (a == a' && b < b') }

  // --- their places in the list of locations --------------------------------------------------

  lemma {:induction false} BlockLocationsAppend(x: seq<Statement>, y: seq<Statement>)
    ensures BlockLocations(x + y) == BlockLocations(x) + BlockLocations(y)
    decreases |x|
  {
    if x == [] {
      assert x + y == y;
    } else {
      var first, more := (if IsLocation(x[0]) then [LocationOf(x[0])] else []), BlockLocations(x[1..]);
      assert (x + y)[1..] == x[1..] + y;
      BlockLocationsAppend(x[1..], y);
      Regroup(first, more, BlockLocations(y));
    }
  }

  lemma Regroup(a: seq<Location>, b: seq<Location>, c: seq<Location>)
    ensures a + (b + c) == (a + b) + c
  {
  }

  lemma {:induction false} LocationsAppend(x: seq<Statement>, y: seq<Statement>)
    ensures Locations(x + y) == Locations(x) + Locations(y)
    decreases |x|
  {
    if x == [] {
      assert x + y == y;
    } else {
      var first, more := (if IsServer(x[0]) then BlockLocations(x[0].body) else []), Locations(x[1..]);
      assert (x + y)[1..] == x[1..] + y;
      LocationsAppend(x[1..], y);
      Regroup(first, more, Locations(y));
    }
  }

  lemma LocationsOne(s: Statement)
    ensures Locations([s]) == if IsServer(s) then BlockLocations(s.body) else []
    ensures BlockLocations([s]) == if IsLocation(s) then [LocationOf(s)] else []
  {
    assert [s][1..] == [];
  }

  /** How many locations there are before statement `b` of block `a`. */
  function Place(config: seq<Statement>, a: nat, b: nat): (i: nat)
    requires a < |config| && config[a].Block? && b <= |config[a].body|
  {
    |Locations(config[..a])| + |BlockLocations(config[a].body[..b])|
  }

  lemma BlockPlace(body: seq<Statement>, b: nat)
    requires b < |body|
    ensures BlockLocations(body[..b + 1]) ==
            BlockLocations(body[..b]) + (if IsLocation(body[b]) then [LocationOf(body[b])] else [])
    ensures BlockLocations(body[..b + 1]) <= BlockLocations(body)
  {
    Slices(body, b);
    BlockSnoc(body[..b], body[b]);
    BlockPrefix(body[..b + 1], body[b + 1..]);
  }

  lemma Slices(body: seq<Statement>, b: nat)
    requires b < |body|
    ensures body[..b + 1] == body[..b] + [body[b]] && body == body[..b + 1] + body[b + 1..]
  {
  }

  lemma BlockSnoc(front: seq<Statement>, s: Statement)
    ensures BlockLocations(front + [s]) == BlockLocations(front) + (if IsLocation(s) then [LocationOf(s)] else [])
  {
    BlockLocationsAppend(front, [s]);
    LocationsOne(s);
  }

  lemma BlockPrefix(front: seq<Statement>, rest: seq<Statement>)
    ensures BlockLocations(front) <= BlockLocations(front + rest)
  {
    BlockLocationsAppend(front, rest);
  }

  lemma ServerPlace(config: seq<Statement>, a: nat)
    requires a < |config| && IsServer(config[a])
    ensures Locations(config[..a + 1]) == Locations(config[..a]) + BlockLocations(config[a].body)
    ensures Locations(config[..a + 1]) <= Locations(config)
  {
    Slices(config, a);
    LocationsAppend(config[..a], [config[a]]);
    LocationsOne(config[a]);
    LocationsAppend(config[..a + 1], config[a + 1..]);
  }

  /** Each location statement is in the list, at its place. */
  lemma AtItsPlace(config: seq<Statement>, a: nat, b: nat)
    requires IsLocationAt(config, a, b)
    ensures var i := Place(config, a, b);
            i < |Locations(config)| && Locations(config)[i] == LocationOf(config[a].body[b])
            && i < |Locations(config[..a + 1])|
  {
    var body := config[a].body;
    ServerPlace(config, a);
    BlockPlace(body, b);
    var i := Place(config, a, b);
    assert BlockLocations(body)[|BlockLocations(body[..b])|] == LocationOf(body[b]);
    assert Locations(config[..a + 1])[i] == LocationOf(body[b]);
  }

  lemma {:induction false} BlocksGrow(config: seq<Statement>, a: nat, a': nat)
    requires a <= a' <= |config|
    ensures |Locations(config[..a])| <= |Locations(config[..a'])|
  {
    assert config[..a'] == config[..a] + config[a..a'];
    LocationsAppend(config[..a], config[a..a']);
  }

  /** The list is in the order of the file. */
  lemma PlacesInOrder(config: seq<Statement>, a: nat, b: nat, a': nat, b': nat)
    requires IsLocationAt(config, a, b) && IsLocationAt(config, a', b') && Before(a, b, a', b')
    ensures Place(config, a, b) < Place(config, a', b')
  {
    if a < a' {
      AtItsPlace(config, a, b);
      BlocksGrow(config, a + 1, a');
    } else {
      var body := config[a].body;
      BlockPlace(body, b);
      assert body[..b'] == body[..b + 1] + body[b + 1..b'];
      BlockLocationsAppend(body[..b + 1], body[b + 1..b']);
    }
  }

  lemma {:induction false} BlockStatementAt(body: seq<Statement>, i: nat) returns (b: nat)
    requires i < |BlockLocations(body)|
    ensures b < |body| && IsLocation(body[b]) && |BlockLocations(body[..b])| == i
    decreases |body|
  {
    var n := |body| - 1;
    BlockPlace(body, n);
    assert body[..n + 1] == body;
    if i < |BlockLocations(body[..n])| {
      b := BlockStatementAt(body[..n], i);
      assert body[..n][..b] == body[..b];
    } else {
      b := n;
    }
  }

  /** Each entry of the list comes from a statement. */
  lemma {:induction false} StatementAt(config: seq<Statement>, i: nat) returns (a: nat, b: nat)
    requires i < |Locations(config)|
    ensures IsLocationAt(config, a, b) && Place(config, a, b) == i
    decreases |config|
  {
    var n := |config| - 1;
    var front := config[..n];
    assert config == front + [config[n]];
    LocationsAppend(front, [config[n]]);
    LocationsOne(config[n]);
    if i < |Locations(front)| {
      a, b := StatementAt(front, i);
      assert front[..a] == config[..a];
    } else {
      a := n;
      b := BlockStatementAt(config[n].body, i - |Locations(front)|);
    }
  }

  lemma ServingRegisters(s: Statement)
    requires IsLocation(s)
    ensures Serving(s) <==> Registers(LocationOf(s))
    ensures Serving(s) ==> KeyOf(LocationOf(s)) == PathServed(s) && IsFor(FactoryOf(LocationOf(s)), s.tokens[2], s.body)
  {
  }

  // --- the table ------------------------------------------------------------------------------

  /** Statement `b` of block `a` serves `k`, and no later one does. */
  ghost predicate LastToServe(config: seq<Statement>, a: int, b: int, k: string) {
    && IsLocationAt(config, a, b) && Serving(config[a].body[b]) && PathServed(config[a].body[b]) == k
    && forall a', b' :: IsLocationAt(config, a', b') && Before(a, b, a', b') && Serving(config[a'].body[b']) ==>
         PathServed(config[a'].body[b']) != k
  }

  /** With status 0, the factory of every path but "/" is the one for the handler and the block of the last
      location statement that serves the path. */
  lemma PathHasStatement(config: seq<Statement>, k: string) returns (a: nat, b: nat)
    requires StatusOf(Served(config)) == 0
    requires k in WithRoot(Served(config)).factories && k != "/"
    ensures LastToServe(config, a, b, k)
    ensures IsFor(WithRoot(Served(config)).factories[k], config[a].body[b].tokens[2], config[a].body[b].body)
  {
    var ls := Locations(config);
    StatusIff(config);
    RegisterMeans(Fresh(), ls);
    var i :| Owns(ls, i, k);
    a, b := StatementAt(config, i);
    AtItsPlace(config, a, b);
    ServingRegisters(config[a].body[b]);
    forall a', b' | IsLocationAt(config, a', b') && Before(a, b, a', b') && Serving(config[a'].body[b'])
      ensures PathServed(config[a'].body[b']) != k
    {
      AtItsPlace(config, a', b');
      PlacesInOrder(config, a, b, a', b');
      ServingRegisters(config[a'].body[b']);
      assert Registers(ls[Place(config, a', b')]);
    }
  }

  /** With status 0, every location statement with a block and a handler that there is has its path in the
      table, and "/" is bound to NotFound. */
  lemma StatementHasPath(config: seq<Statement>, a: nat, b: nat)
    requires StatusOf(Served(config)) == 0 && IsLocationAt(config, a, b) && Serving(config[a].body[b])
    ensures PathServed(config[a].body[b]) in WithRoot(Served(config)).factories
    ensures PathServed(config[a].body[b]) != "/" && "/" in WithRoot(Served(config)).factories
    ensures IsFor(WithRoot(Served(config)).factories["/"], "NotFoundHandler", [])
  {
    AtItsPlace(config, a, b);
    ServingRegisters(config[a].body[b]);
    WhoOwnsAPath(config, Place(config, a, b));
    RegisterMeans(Fresh(), Locations(config));
    SomeoneOwns(Locations(config), Place(config, a, b), PathServed(config[a].body[b]));
    var i :| Owns(Locations(config), i, PathServed(config[a].body[b]));
  }

  // --- the names ------------------------------------------------------------------------------

  /** Location `i` has a block and path `p`, and no later one does. */
  predicate Names(ls: seq<Location>, i: int, p: string) {
    && 0 <= i < |ls| && ls[i].Located? && ls[i].path == p
    && forall j :: i < j < |ls| && ls[j].Located? ==> ls[j].path != p
  }

  ghost predicate NamesOfTable(ls: seq<Location>, names: map<string, string>) {
    && (forall p :: p in names ==> exists i :: Names(ls, i, p))
    && (forall i, p :: Names(ls, i, p) ==> p in names && names[p] == ls[i].handler)
  }

  lemma {:induction false} SomeoneNames(ls: seq<Location>, i: nat, p: string)
    requires i < |ls| && ls[i].Located? && ls[i].path == p
    ensures exists j :: Names(ls, j, p)
    decreases |ls| - i
  {
    if !Names(ls, i, p) {
      var j :| i < j < |ls| && ls[j].Located? && ls[j].path == p;
      SomeoneNames(ls, j, p);
    }
  }

  lemma LastNames(ls: seq<Location>, names: map<string, string>)
    requires ls != [] && NamesOfTable(ls[..|ls| - 1], names)
    ensures var l := ls[|ls| - 1]; NamesOfTable(ls, if l.Located? then names[l.path := l.handler] else names)
  {
    var n := |ls| - 1;
    var front, l := ls[..n], ls[n];
    var names' := if l.Located? then names[l.path := l.handler] else names;
    assert forall i :: 0 <= i < n ==> front[i] == ls[i];
    forall p | p in names'
      ensures exists i :: Names(ls, i, p)
    {
      if l.Located? && l.path == p {
        SomeoneNames(ls, n, p);
      } else {
        var i :| Names(front, i, p);
        SomeoneNames(ls, i, p);
      }
    }
    forall i, p | Names(ls, i, p)
      ensures p in names' && names'[p] == ls[i].handler
    {
      if i < n {
        assert Names(front, i, p);
      }
    }
  }

  lemma {:induction false} RegisterNames(t: Table, ls: seq<Location>)
    requires t == Fresh() && !Register(t, ls).clash
    ensures NamesOfTable(ls, Register(t, ls).names)
    decreases |ls|
  {
    if ls != [] {
      RegisterLast(t, ls);
      RegisterNames(t, ls[..|ls| - 1]);
      LastNames(ls, Register(t, ls[..|ls| - 1]).names);
    }
  }

  /** With status 0, a path but "/" has a name if and only if a location statement with a block has that path,
      whatever its handler, and the name is the handler of the last of these. */
  lemma NameHasStatement(config: seq<Statement>, p: string) returns (a: nat, b: nat)
    requires StatusOf(Served(config)) == 0 && p in WithRoot(Served(config)).names && p != "/"
    ensures IsLocationAt(config, a, b) && config[a].body[b].Block? && config[a].body[b].tokens[1] == p
    ensures WithRoot(Served(config)).names[p] == config[a].body[b].tokens[2]
    ensures forall a', b' :: IsLocationAt(config, a', b') && Before(a, b, a', b') && config[a'].body[b'].Block? ==>
              config[a'].body[b'].tokens[1] != p
  {
    var ls := Locations(config);
    StatusIff(config);
    RegisterMeans(Fresh(), ls);
    RegisterNames(Fresh(), ls);
    var i :| Names(ls, i, p);
    a, b := StatementAt(config, i);
    AtItsPlace(config, a, b);
    forall a', b' | IsLocationAt(config, a', b') && Before(a, b, a', b') && config[a'].body[b'].Block?
      ensures config[a'].body[b'].tokens[1] != p
    {
      AtItsPlace(config, a', b');
      PlacesInOrder(config, a, b, a', b');
      assert ls[Place(config, a', b')].Located?;
    }
  }

  lemma StatementHasName(config: seq<Statement>, a: nat, b: nat)
    requires StatusOf(Served(config)) == 0 && IsLocationAt(config, a, b) && config[a].body[b].Block?
    ensures config[a].body[b].tokens[1] in WithRoot(Served(config)).names
    ensures "/" in WithRoot(Served(config)).names && WithRoot(Served(config)).names["/"] == "NotFoundHandler"
  {
    var ls := Locations(config);
    StatusIff(config);
    RegisterMeans(Fresh(), ls);
    RegisterNames(Fresh(), ls);
    AtItsPlace(config, a, b);
    SomeoneNames(ls, Place(config, a, b), config[a].body[b].tokens[1]);
    var i :| Names(ls, i, config[a].body[b].tokens[1]);
  }

  /** With status 0, the name of a path that is served, but for the one of a `TestHandler`, is that of the handler
      that its factory makes. */
  lemma NameMatchesFactory(config: seq<Statement>, k: string) returns (block: seq<Statement>)
    requires StatusOf(Served(config)) == 0 && k in WithRoot(Served(config)).factories && k != "/"
    requires !WithRoot(Served(config)).factories[k].SleepFactory?
    ensures k in WithRoot(Served(config)).names
    ensures IsFor(WithRoot(Served(config)).factories[k], WithRoot(Served(config)).names[k], block)
  {
    var a, b := PathHasStatement(config, k);
    StatementHasName(config, a, b);
    var a', b' := NameHasStatement(config, k);
    block := config[a].body[b].body;
    if Before(a, b, a', b') {
      StatusIff(config);
      NoStatementClashes(config, a, b, a', b');
    }
  }

  // --- the status -----------------------------------------------------------------------------

  /** The path of a location statement is served by an earlier one. */
  predicate ClashesAt(config: seq<Statement>, a: int, b: int, a': int, b': int) {
    && IsLocationAt(config, a, b) && Serving(config[a].body[b])
    && IsLocationAt(config, a', b') && Before(a, b, a', b')
    && config[a'].body[b'].tokens[1] == PathServed(config[a].body[b])
  }

  lemma NoStatementClashes(config: seq<Statement>, a: nat, b: nat, a': nat, b': nat)
    requires NoClash(Locations(config))
    ensures !ClashesAt(config, a, b, a', b')
  {
    if ClashesAt(config, a, b, a', b') {
      AtItsPlace(config, a, b);
      AtItsPlace(config, a', b');
      PlacesInOrder(config, a, b, a', b');
      ServingRegisters(config[a].body[b]);
    }
  }

  lemma ClashHasStatements(config: seq<Statement>) returns (a: nat, b: nat, a': nat, b': nat)
    requires !NoClash(Locations(config))
    ensures ClashesAt(config, a, b, a', b')
  {
    var ls := Locations(config);
    var i, j :| 0 <= i < j < |ls| && Registers(ls[i]) && KeyOf(ls[i]) == ls[j].path;
    a, b := StatementAt(config, i);
    a', b' := StatementAt(config, j);
    AtItsPlace(config, a, b);
    AtItsPlace(config, a', b');
    ServingRegisters(config[a].body[b]);
    if Before(a', b', a, b) {
      PlacesInOrder(config, a', b', a, b);
    }
  }

  predicate InUriChars(c: char) {
    || c in "abcdefghijklmnopqrstuvwxyz" || c in "ABCDEFGHIJKLMNOPQRSTUVWXYZ" || c in "0123456789" || c in "/._-"
  }

  predicate WellSpelt(uri: string) { |uri| >= 2 && uri[0] == '/' && forall c :: c in uri ==> InUriChars(c) }

  /** `s` holds all characters from `first` on, in order. */
  predicate Alphabet(s: string, first: char) {
    first as int + |s| <= 128 && forall i :: 0 <= i < |s| ==> s[i] as int == first as int + i
  }

  lemma InAlphabet(s: string, first: char, c: char)
    requires Alphabet(s, first)
    ensures c in s <==> first as int <= c as int < first as int + |s|
  {
    if first as int <= c as int < first as int + |s| {
      assert s[c as int - first as int] == c;
    }
  }

  lemma UriCharIff(c: char)
    ensures IsUriChar(c) <==> InUriChars(c)
  {
    InAlphabet("abcdefghijklmnopqrstuvwxyz", 'a', c);
    InAlphabet("ABCDEFGHIJKLMNOPQRSTUVWXYZ", 'A', c);
    InAlphabet("0123456789", '0', c);
  }

  lemma WellSpeltIff(uri: string)
    ensures IsValidURI(uri) <==> WellSpelt(uri)
  {
    forall i | 0 <= i < |uri|
      ensures IsUriChar(uri[i]) <==> InUriChars(uri[i])
    {
      UriCharIff(uri[i]);
    }
    assert forall i :: 0 <= i < |uri| ==> uri[i] in uri;
  }

  lemma PathsAreValidIff(config: seq<Statement>)
    ensures (forall i :: 0 <= i < |Locations(config)| && Registers(Locations(config)[i]) ==>
               IsValidURI(KeyOf(Locations(config)[i])))
       <==> forall a, b :: IsLocationAt(config, a, b) && Serving(config[a].body[b]) ==>
              WellSpelt(PathServed(config[a].body[b]))
  {
    var ls := Locations(config);
    if forall i :: 0 <= i < |ls| && Registers(ls[i]) ==> IsValidURI(KeyOf(ls[i])) {
      forall a, b | IsLocationAt(config, a, b) && Serving(config[a].body[b])
        ensures WellSpelt(PathServed(config[a].body[b]))
      {
        AtItsPlace(config, a, b);
        ServingRegisters(config[a].body[b]);
        WellSpeltIff(PathServed(config[a].body[b]));
        assert Registers(ls[Place(config, a, b)]);
      }
    } else {
      var i :| 0 <= i < |ls| && Registers(ls[i]) && !IsValidURI(KeyOf(ls[i]));
      var a, b := StatementAt(config, i);
      AtItsPlace(config, a, b);
      ServingRegisters(config[a].body[b]);
      WellSpeltIff(KeyOf(ls[i]));
    }
  }

  /** The status is 1 exactly if the path of some location statement is served by an earlier one; it is 2 exactly
      if there is no such clash and some path that is served is not well spelt; else it is 0. */
  lemma StatusCodes(config: seq<Statement>)
    ensures var status := StatusOf(Served(config));
            && (status == 1 <==> exists a, b, a', b' :: ClashesAt(config, a, b, a', b'))
            && (status == 0 || status == 1 || status == 2)
            && (status == 0 ==> forall a, b :: IsLocationAt(config, a, b) && Serving(config[a].body[b]) ==>
                                  WellSpelt(PathServed(config[a].body[b])))
            && (status == 2 ==> exists a, b :: IsLocationAt(config, a, b) && Serving(config[a].body[b])
                                               && !WellSpelt(PathServed(config[a].body[b])))
  {
    var ls := Locations(config);
    RegisterMeans(Fresh(), ls);
    StatusIff(config);
    PathsAreValidIff(config);
    if NoClash(ls) {
      forall a, b, a', b'
        ensures !ClashesAt(config, a, b, a', b')
      {
        if 0 <= a && 0 <= b && 0 <= a' && 0 <= b' {
          NoStatementClashes(config, a, b, a', b');
        }
      }
    } else {
      var a, b, a', b' := ClashHasStatements(config);
    }
  }
}
