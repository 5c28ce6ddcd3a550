/**
  Listener names: the check of `HttpConfig::parse` in `src/config.rs`, and
  `unknown_route_listeners` of `src/runtime.rs`.
 */
module Listeners {
  import opened Octets
  import opened Routing

  datatype Server = Server(listen: string, name: Option<string>)

  /** The `name`, or else the `listen` value. */
  function ListenerName(server: Server): string {
    match server.name case Some(name) => name case None => server.listen
  }

  /** A named entry is known by its name, an unnamed one by its address. */
  predicate KnownAs(server: Server, name: string) {
    server.name == Some(name) || (server.name == None && server.listen == name)
  }

  lemma KnownByListenerName(server: Server)
    ensures forall name :: KnownAs(server, name) <==> name == ListenerName(server)
  {
  }

  datatype Checked = Loads | BadListen(index: nat) | NameTaken(index: nat, name: string)

  /** Whether an earlier listener clashes; two unnamed entries of one address are left to fail at bind. */
  predicate Taken(servers: seq<Server>, index: nat)
    requires index < |servers|
  {
    exists j :: 0 <= j < index
      && (servers[index].name.Some? || servers[j].name.Some?)
      && ListenerName(servers[j]) == ListenerName(servers[index])
  }

  /** The loop of `HttpConfig::parse`, from entry `index` on; `parses` says whether an address parses. */
  function CheckFrom(servers: seq<Server>, index: nat, parses: string -> bool): Checked
    decreases |servers| - index
  {
    if index >= |servers| then Loads
    else if !parses(servers[index].listen) then BadListen(index)
    else if Taken(servers, index) then NameTaken(index, ListenerName(servers[index]))
    else CheckFrom(servers, index + 1, parses)
  }

  function Check(servers: seq<Server>, parses: string -> bool): Checked {
    CheckFrom(servers, 0, parses)
  }

  /** The loop over the entries. */
  method Parse(servers: seq<Server>, parses: string -> bool) returns (r: Checked)
    ensures r == Check(servers, parses)
  {
    for index := 0 to |servers|
      invariant CheckFrom(servers, index, parses) == Check(servers, parses)
    {
      if !parses(servers[index].listen) { return BadListen(index); }
      var name := ListenerName(servers[index]);
      if Taken(servers, index) { return NameTaken(index, name); }
    }
    return Loads;
  }

  /** Both entries are known by one name, and one of them was given it. */
  ghost predicate Clash(one: Server, other: Server) {
    && (one.name.Some? || other.name.Some?)
    && exists name :: KnownAs(one, name) && KnownAs(other, name)
  }

  /** Two entries share a name only if both are unnamed. */
  ghost predicate NamesAreUnique(servers: seq<Server>) {
    forall i, j :: 0 <= j < i < |servers| ==> !Clash(servers[i], servers[j])
  }

  lemma TakenIsClash(servers: seq<Server>, i: nat)
    requires i < |servers|
    ensures Taken(servers, i) <==> exists j :: 0 <= j < i && Clash(servers[i], servers[j])
  {
    forall j | 0 <= j < i
      ensures Clash(servers[i], servers[j]) <==>
              && (servers[i].name.Some? || servers[j].name.Some?)
              && ListenerName(servers[j]) == ListenerName(servers[i])
    {
      KnownByListenerName(servers[i]);
      KnownByListenerName(servers[j]);
      assert KnownAs(servers[i], ListenerName(servers[i])) && KnownAs(servers[j], ListenerName(servers[j]));
    }
  }

  /** Entry `i` parses and clashes with none before it. */
  ghost predicate Fine(servers: seq<Server>, i: nat, parses: string -> bool)
    requires i < |servers|
  {
    parses(servers[i].listen) && forall j :: 0 <= j < i ==> !Clash(servers[i], servers[j])
  }

  lemma {:induction false} CheckFromMeans(servers: seq<Server>, index: nat, parses: string -> bool)
    requires index <= |servers|
    ensures CheckFrom(servers, index, parses) == Loads
       <==> forall i :: index <= i < |servers| ==> Fine(servers, i, parses)
    ensures match CheckFrom(servers, index, parses)
            case Loads => true
            case BadListen(i) =>
              && index <= i < |servers| && !parses(servers[i].listen)
              && forall k :: index <= k < i ==> Fine(servers, k, parses)
            case NameTaken(i, name) =>
              && index <= i < |servers| && parses(servers[i].listen) && KnownAs(servers[i], name)
              && (exists j :: 0 <= j < i && Clash(servers[i], servers[j]))
              && forall k :: index <= k < i ==> Fine(servers, k, parses)
    decreases |servers| - index
  {
    if index < |servers| {
      TakenIsClash(servers, index);
      KnownByListenerName(servers[index]);
      CheckFromMeans(servers, index + 1, parses);
      var here := Fine(servers, index, parses);
      assert (forall i :: index <= i < |servers| ==> Fine(servers, i, parses)) <==>
             here && forall i :: index + 1 <= i < |servers| ==> Fine(servers, i, parses);
    }
  }

  /** A configuration loads exactly when every address parses and names are unique. */
  lemma LoadsMeans(servers: seq<Server>, parses: string -> bool)
    ensures Check(servers, parses) == Loads
       <==> (forall i :: 0 <= i < |servers| ==> parses(servers[i].listen)) && NamesAreUnique(servers)
  {
    CheckFromMeans(servers, 0, parses);
    if (forall i :: 0 <= i < |servers| ==> parses(servers[i].listen)) && NamesAreUnique(servers) {
      assert forall i :: 0 <= i < |servers| ==> Fine(servers, i, parses);
    }
    if Check(servers, parses) == Loads {
      forall i, j | 0 <= j < i < |servers| ensures parses(servers[i].listen) && !Clash(servers[i], servers[j]) {
        assert Fine(servers, i, parses);
      }
      assert servers != [] ==> Fine(servers, 0, parses);
    }
  }

  /** A refusal names the first entry that does not parse, or that shares a name an entry was given. */
  lemma RefusalNamesTheFirst(servers: seq<Server>, parses: string -> bool)
    ensures match Check(servers, parses)
            case Loads => true
            case BadListen(i) =>
              && i < |servers| && !parses(servers[i].listen)
              && forall k :: 0 <= k < i ==> Fine(servers, k, parses)
            case NameTaken(i, name) =>
              && i < |servers| && parses(servers[i].listen) && KnownAs(servers[i], name)
              && (exists j :: 0 <= j < i && Clash(servers[i], servers[j]))
              && forall k :: 0 <= k < i ==> Fine(servers, k, parses)
  {
    CheckFromMeans(servers, 0, parses);
  }

  /** A `name` that was given selects exactly one listener. */
  lemma GivenNameSelectsOne(servers: seq<Server>, parses: string -> bool, i: nat, j: nat, name: string)
    requires Check(servers, parses) == Loads
    requires i < |servers| && j < |servers| && servers[i].name == Some(name)
    requires KnownAs(servers[j], name)
    ensures i == j
  {
    LoadsMeans(servers, parses);
    assert KnownAs(servers[i], name) && Clash(servers[i], servers[j]);
    ClashBothWays(servers[i], servers[j]);
  }

  lemma ClashBothWays(one: Server, other: Server)
    ensures Clash(one, other) <==> Clash(other, one)
  {
  }

  /** Entries that share a name are unnamed and share their address. */
  lemma SharedNameMeansSameAddress(servers: seq<Server>, parses: string -> bool, i: nat, j: nat, name: string)
    requires Check(servers, parses) == Loads
    requires i < |servers| && j < |servers| && i != j
    requires KnownAs(servers[i], name) && KnownAs(servers[j], name)
    ensures servers[i].name == servers[j].name == None && servers[i].listen == servers[j].listen == name
  {
    LoadsMeans(servers, parses);
    ClashBothWays(servers[i], servers[j]);
    assert !Clash(servers[i], servers[j]);
  }

  // ── Names routes ask for ───────────────────────────────────────────────

  predicate Known(servers: seq<Server>, name: string) {
    exists k :: 0 <= k < |servers| && ListenerName(servers[k]) == name
  }

  /** Some listener goes by this name. */
  predicate Exists(servers: seq<Server>, name: string) {
    exists k :: 0 <= k < |servers| && KnownAs(servers[k], name)
  }

  lemma KnownExists(servers: seq<Server>, name: string)
    ensures Known(servers, name) <==> Exists(servers, name)
  {
    forall k | 0 <= k < |servers| ensures KnownAs(servers[k], name) <==> ListenerName(servers[k]) == name {
      KnownByListenerName(servers[k]);
    }
  }

  /** The names of one restriction that no listener has. */
  function UnknownNames(path: string, names: seq<string>, servers: seq<Server>): seq<(string, string)> {
    if names == [] then []
    else
      var n := |names| - 1;
      UnknownNames(path, names[..n], servers) + (if Known(servers, names[n]) then [] else [(path, names[n])])
  }

  function Restriction(scope: Scope): seq<string> {
    match scope.listeners case Some(names) => names case None => []
  }

  function Unknown(routes: seq<(string, Scope)>, servers: seq<Server>): seq<(string, string)> {
    if routes == [] then []
    else
      var n := |routes| - 1;
      Unknown(routes[..n], servers) + UnknownNames(routes[n].0, Restriction(routes[n].1), servers)
  }

  method UnknownRouteListeners(routes: seq<(string, Scope)>, servers: seq<Server>)
    returns (unknown: seq<(string, string)>)
    ensures unknown == Unknown(routes, servers)
  {
    unknown := [];
    for i := 0 to |routes|
      invariant unknown == Unknown(routes[..i], servers)
    {
      var (path, scope) := routes[i];
      var names := Restriction(scope);
      ghost var before := unknown;
      for k := 0 to |names|
        invariant unknown == before + UnknownNames(path, names[..k], servers)
      {
        assert names[..k + 1][..k] == names[..k];
        if !Known(servers, names[k]) {
          unknown := unknown + [(path, names[k])];
        }
      }
      assert names[..|names|] == names;
      assert routes[..i + 1][..i] == routes[..i];
    }
    assert routes[..|routes|] == routes;
  }

  lemma {:induction false} UnknownNamesMeans(path: string, names: seq<string>, servers: seq<Server>)
    ensures forall p: string, name: string :: (p, name) in UnknownNames(path, names, servers)
              <==> p == path && name in names && !Exists(servers, name)
  {
    if names != [] {
      var n := |names| - 1;
      UnknownNamesMeans(path, names[..n], servers);
      KnownExists(servers, names[n]);
      assert names == names[..n] + [names[n]];
    }
  }

  predicate AskedFor(routes: seq<(string, Scope)>, path: string, name: string) {
    exists i :: 0 <= i < |routes| && routes[i].0 == path && Restricts(routes[i].1, name)
  }

  /** The route is restricted, to this listener among others. */
  predicate Restricts(scope: Scope, name: string) {
    scope.listeners.Some? && name in scope.listeners.value
  }

  lemma RestrictionHolds(scope: Scope)
    ensures forall name :: name in Restriction(scope) <==> Restricts(scope, name)
  {
  }

  lemma AskedForLast(routes: seq<(string, Scope)>, path: string, name: string)
    requires routes != []
    ensures var n := |routes| - 1;
      AskedFor(routes, path, name) ==
        (AskedFor(routes[..n], path, name) || (routes[n].0 == path && Restricts(routes[n].1, name)))
  {
    var n := |routes| - 1;
    if AskedFor(routes, path, name) {
      var i :| 0 <= i < |routes| && routes[i].0 == path && Restricts(routes[i].1, name);
      if i < n {
        assert routes[..n][i] == routes[i];
      }
    }
    if AskedFor(routes[..n], path, name) {
      var i :| 0 <= i < n && routes[..n][i].0 == path && Restricts(routes[..n][i].1, name);
      assert routes[i] == routes[..n][i];
    }
  }

  /** The pairs found are exactly those of a route and a name in its restriction no listener has. */
  lemma {:induction false} UnknownMeans(routes: seq<(string, Scope)>, servers: seq<Server>, path: string, name: string)
    ensures (path, name) in Unknown(routes, servers) <==> !Exists(servers, name) && AskedFor(routes, path, name)
  {
    if routes != [] {
      var n := |routes| - 1;
      UnknownMeans(routes[..n], servers, path, name);
      UnknownNamesMeans(routes[n].0, Restriction(routes[n].1), servers);
      RestrictionHolds(routes[n].1);
      AskedForLast(routes, path, name);
    }
  }

  /**
    When nothing is unknown, a route is served on exactly the listeners its restriction names, and
    every name in it is that of a configured listener; an unrestricted route is served on all.
   */
  lemma RestrictedRouteIsServed(routes: seq<(string, Scope)>, servers: seq<Server>, i: nat)
    requires Unknown(routes, servers) == [] && i < |routes|
    ensures forall k, name :: 0 <= k < |servers| && KnownAs(servers[k], name) ==>
              (ServesListener(routes[i].1, Some(name)) <==>
                 routes[i].1.listeners == None || name in routes[i].1.listeners.value)
    ensures forall name :: Restricts(routes[i].1, name) ==>
              Exists(servers, name) && ServesListener(routes[i].1, Some(name))
  {
    var scope := routes[i].1;
    forall name ensures ServesListener(scope, Some(name)) <==> ExistsOn(scope, Some(name)) {
      ServesWhereItExists(scope, Some(name));
    }
    forall name | Restricts(scope, name) ensures Exists(servers, name) {
      UnknownMeans(routes, servers, routes[i].0, name);
      assert AskedFor(routes, routes[i].0, name) && (routes[i].0, name) !in Unknown(routes, servers);
    }
  }

  /** So it is served somewhere exactly unless its restriction is empty, or no listener is configured. */
  lemma ServedSomewhere(routes: seq<(string, Scope)>, servers: seq<Server>, i: nat)
    requires Unknown(routes, servers) == [] && i < |routes|
    ensures (exists k, name ::
               0 <= k < |servers| && KnownAs(servers[k], name) && ServesListener(routes[i].1, Some(name)))
       <==> match routes[i].1.listeners case None => servers != [] case Some(names) => names != []
  {
    RestrictedRouteIsServed(routes, servers, i);
    match routes[i].1.listeners
    case None =>
      if servers != [] {
        ServedAt(routes[i].1, servers, ListenerName(servers[0]), 0);
      }
    case Some(names) =>
      if names != [] {
        assert Restricts(routes[i].1, names[0]) && Exists(servers, names[0]);
        var k: nat :| k < |servers| && KnownAs(servers[k], names[0]);
        ServedAt(routes[i].1, servers, names[0], k);
      }
  }

  lemma ServedAt(scope: Scope, servers: seq<Server>, name: string, k: nat)
    requires k < |servers| && name == ListenerName(servers[k])
    requires scope.listeners == None || name in scope.listeners.value
    ensures KnownAs(servers[k], name) && ServesListener(scope, Some(name))
  {
    KnownByListenerName(servers[k]);
    ServesWhereItExists(scope, Some(name));
  }
}
