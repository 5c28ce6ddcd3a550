/**
  Routing in `src/runtime.rs`: handlers are grouped by path, and a request's method and listener
  pick one of the handlers of the path it matched.
 */
module Routing {
  import opened Octets

  /** `listeners` is `None` for a route served on every listener. */
  datatype Scope = Scope(methods: seq<string>, listeners: Option<seq<string>>)

  /** Whether the route exists on the listener a request arrived on, if that is known. */
  predicate ServesListener(scope: Scope, listener: Option<string>) {
    match (scope.listeners, listener)
    case (None, _) => true
    case (Some(allowed), Some(name)) => name in allowed
    case (Some(_), None) => false
  }

  predicate Admits(scope: Scope, verb: string, listener: Option<string>) {
    ServesListener(scope, listener) && verb in scope.methods
  }

  /** No restriction, or a known listener that the restriction names. */
  predicate ExistsOn(scope: Scope, listener: Option<string>) {
    scope.listeners == None || (listener.Some? && listener.value in scope.listeners.value)
  }

  lemma ServesWhereItExists(scope: Scope, listener: Option<string>)
    ensures ServesListener(scope, listener) <==> ExistsOn(scope, listener)
  {
  }

  datatype RouteMatch = Handler(index: nat) | MethodNotAllowed | NotOnThisListener

  /** `match_route`: the first scope that admits, else 405 if any is served here, else 404. */
  method MatchRoute(scopes: seq<Scope>, verb: string, listener: Option<string>) returns (r: RouteMatch)
    ensures r.Handler? ==>
      && r.index < |scopes| && ExistsOn(scopes[r.index], listener) && verb in scopes[r.index].methods
      && forall j :: 0 <= j < r.index ==> !(ExistsOn(scopes[j], listener) && verb in scopes[j].methods)
    ensures !r.Handler? ==>
      forall j :: 0 <= j < |scopes| ==> !(ExistsOn(scopes[j], listener) && verb in scopes[j].methods)
    ensures !r.Handler? ==>
      (r == MethodNotAllowed <==> exists j :: 0 <= j < |scopes| && ExistsOn(scopes[j], listener))
  {
    var onThisListener := false;
    for index := 0 to |scopes|
      invariant forall j :: 0 <= j < index ==> !(ExistsOn(scopes[j], listener) && verb in scopes[j].methods)
      invariant onThisListener <==> exists j :: 0 <= j < index && ExistsOn(scopes[j], listener)
    {
      ServesWhereItExists(scopes[index], listener);
      if !ServesListener(scopes[index], listener) { continue; }
      if verb in scopes[index].methods { return Handler(index); }
      onThisListener := true;
    }
    return if onThisListener then MethodNotAllowed else NotOnThisListener;
  }

  // ── The router ─────────────────────────────────────────────────────────

  /** What `@http.route` registered, in the order of the script. */
  datatype Registration<H> = Registration(path: string, scope: Scope, handler: H)

  datatype Entry<H> = Entry(scope: Scope, handler: H)

  type Router<H> = map<string, seq<Entry<H>>>

  /** The entries of one path, in registration order. */
  function EntriesFor<H>(routes: seq<Registration<H>>, path: string): seq<Entry<H>> {
    if routes == [] then []
    else
      var n := |routes| - 1;
      var before := EntriesFor(routes[..n], path);
      if routes[n].path == path then before + [Entry(routes[n].scope, routes[n].handler)] else before
  }

  /** A router holds exactly the non-empty paths that have entries, each with its entries. */
  ghost predicate Routes<H>(router: Router<H>, routes: seq<Registration<H>>) {
    forall path: string ::
      && (path in router <==> path != "" && EntriesFor(routes, path) != [])
      && (path in router ==> router[path] == EntriesFor(routes, path))
  }

  /** `build_router`: a route with an empty path is skipped. */
  method BuildRouter<H>(routes: seq<Registration<H>>) returns (byPath: Router<H>)
    ensures Routes(byPath, routes)
  {
    byPath := map[];
    for i := 0 to |routes|
      invariant Routes(byPath, routes[..i])
    {
      var route := routes[i];
      assert routes[..i + 1][..i] == routes[..i];
      if route.path == "" { continue; }
      var entries := if route.path in byPath then byPath[route.path] else [];
      byPath := byPath[route.path := entries + [Entry(route.scope, route.handler)]];
    }
    assert routes[..|routes|] == routes;
  }

  /** The answer to a request: a handler, 405, or the 404 of a path that does not exist. */
  datatype RouteAnswer<H> = Serve(handler: H) | Refuse405 | Refuse404

  /** `dispatch`: the chosen index always has a route, so its 500 is never the answer. */
  method Dispatch<H>(entries: seq<Entry<H>>, verb: string, listener: Option<string>) returns (r: RouteAnswer<H>)
    ensures r == AnswerOf(entries, verb, listener)
  {
    var scopes := seq(|entries|, k requires 0 <= k < |entries| => entries[k].scope);
    var handlers := seq(|entries|, k requires 0 <= k < |entries| => entries[k].handler);
    var gate := MatchRoute(scopes, verb, listener);
    forall k | 0 <= k < |entries|
      ensures entries[k].scope == scopes[k]
      ensures ServesListener(entries[k].scope, listener) <==> ExistsOn(scopes[k], listener)
    {
      ServesWhereItExists(scopes[k], listener);
    }
    match gate
    case Handler(index) =>
      FirstAnswers(entries, verb, listener, index);
      return Serve(handlers[index]);
    case MethodNotAllowed =>
      NoneAnswers(entries, verb, listener);
      return Refuse405;
    case NotOnThisListener =>
      NoneAnswers(entries, verb, listener);
      return Refuse404;
  }

  /** A request for a path the router, built from `routes`, may or may not have. */
  method Route<H>(router: Router<H>, ghost routes: seq<Registration<H>>, path: string, verb: string,
                  listener: Option<string>)
    returns (r: RouteAnswer<H>)
    requires Routes(router, routes)
    ensures r == RoutedAnswer(routes, path, verb, listener)
  {
    if path !in router { return Refuse404; }
    r := Dispatch(router[path], verb, listener);
  }

  /** The reference: what a list of entries answers. */
  function AnswerOf<H>(entries: seq<Entry<H>>, verb: string, listener: Option<string>): RouteAnswer<H> {
    if entries == [] then Refuse404
    else if Admits(entries[0].scope, verb, listener) then Serve(entries[0].handler)
    else
      match AnswerOf(entries[1..], verb, listener)
      case Refuse404 => if ServesListener(entries[0].scope, listener) then Refuse405 else Refuse404
      case other => other
  }

  lemma {:induction false} FirstAnswers<H>(entries: seq<Entry<H>>, verb: string, listener: Option<string>, index: nat)
    requires index < |entries| && Admits(entries[index].scope, verb, listener)
    requires forall j :: 0 <= j < index ==> !Admits(entries[j].scope, verb, listener)
    ensures AnswerOf(entries, verb, listener) == Serve(entries[index].handler)
  {
    if index > 0 {
      FirstAnswers(entries[1..], verb, listener, index - 1);
    }
  }

  lemma {:induction false} NoneAnswers<H>(entries: seq<Entry<H>>, verb: string, listener: Option<string>)
    requires forall k :: 0 <= k < |entries| ==> !Admits(entries[k].scope, verb, listener)
    ensures !AnswerOf(entries, verb, listener).Serve?
    ensures AnswerOf(entries, verb, listener) == Refuse405
       <==> exists k :: 0 <= k < |entries| && ServesListener(entries[k].scope, listener)
  {
    if entries != [] {
      NoneAnswers(entries[1..], verb, listener);
      if k :| 0 <= k < |entries| && ServesListener(entries[k].scope, listener) && k > 0 {
        assert ServesListener(entries[1..][k - 1].scope, listener);
      }
      if k :| 0 <= k < |entries[1..]| && ServesListener(entries[1..][k].scope, listener) {
        assert ServesListener(entries[k + 1].scope, listener);
      }
    }
  }

  // ── Only served registrations answer ───────────────────────────────────

  /** The registrations served on a listener. */
  function ServedOn<H>(routes: seq<Registration<H>>, listener: Option<string>): seq<Registration<H>> {
    if routes == [] then []
    else
      var n := |routes| - 1;
      var before := ServedOn(routes[..n], listener);
      if ServesListener(routes[n].scope, listener) then before + [routes[n]] else before
  }

  /** Entries of one path that are served on a listener. */
  function OnListener<H>(entries: seq<Entry<H>>, listener: Option<string>): seq<Entry<H>> {
    if entries == [] then []
    else
      var rest := OnListener(entries[1..], listener);
      if ServesListener(entries[0].scope, listener) then [entries[0]] + rest else rest
  }

  lemma {:induction false} OnListenerAppend<H>(entries: seq<Entry<H>>, e: Entry<H>, listener: Option<string>)
    ensures OnListener(entries + [e], listener)
         == OnListener(entries, listener) + (if ServesListener(e.scope, listener) then [e] else [])
  {
    if entries == [] {
      assert entries + [e] == [e];
      assert OnListener([e][1..], listener) == [];
    } else {
      OnListenerAppend(entries[1..], e, listener);
      assert (entries + [e])[1..] == entries[1..] + [e];
    }
  }

  lemma {:induction false} EntriesServed<H>(routes: seq<Registration<H>>, path: string, listener: Option<string>)
    ensures EntriesFor(ServedOn(routes, listener), path) == OnListener(EntriesFor(routes, path), listener)
  {
    if routes != [] {
      var n := |routes| - 1;
      EntriesServed(routes[..n], path, listener);
      var kept := ServedOn(routes[..n], listener);
      assert (kept + [routes[n]])[..|kept|] == kept;
      if routes[n].path == path {
        OnListenerAppend(EntriesFor(routes[..n], path), Entry(routes[n].scope, routes[n].handler), listener);
      }
    }
  }

  lemma {:induction false} HiddenEntriesDoNotAnswer<H>(entries: seq<Entry<H>>, verb: string, listener: Option<string>)
    ensures AnswerOf(OnListener(entries, listener), verb, listener) == AnswerOf(entries, verb, listener)
  {
    if entries != [] {
      HiddenEntriesDoNotAnswer(entries[1..], verb, listener);
      var rest := OnListener(entries[1..], listener);
      assert ([entries[0]] + rest)[1..] == rest;
    }
  }

  /** What a router built from these registrations answers once `path` has been matched. */
  function RoutedAnswer<H>(routes: seq<Registration<H>>, path: string, verb: string, listener: Option<string>)
    : RouteAnswer<H>
  {
    if path == "" then Refuse404 else AnswerOf(EntriesFor(routes, path), verb, listener)
  }

  /** What a matched path answers depends on its registrations served on the request's listener only. */
  lemma OnlyServedRegistrationsAnswer<H>(
    routes: seq<Registration<H>>, path: string, verb: string, listener: Option<string>)
    ensures RoutedAnswer(routes, path, verb, listener)
         == RoutedAnswer(ServedOn(routes, listener), path, verb, listener)
  {
    EntriesServed(routes, path, listener);
    HiddenEntriesDoNotAnswer(EntriesFor(routes, path), verb, listener);
  }

  /** The registrations served on every listener. */
  function Unrestricted<H>(routes: seq<Registration<H>>): seq<Registration<H>> {
    if routes == [] then []
    else
      var n := |routes| - 1;
      var before := Unrestricted(routes[..n]);
      if routes[n].scope.listeners == None then before + [routes[n]] else before
  }

  lemma {:induction false} UnrestrictedEntries<H>(routes: seq<Registration<H>>, path: string)
    ensures forall k :: 0 <= k < |EntriesFor(Unrestricted(routes), path)| ==>
                          EntriesFor(Unrestricted(routes), path)[k].scope.listeners == None
    ensures Unrestricted(routes) == ServedOn(routes, None)
  {
    if routes != [] {
      var n := |routes| - 1;
      UnrestrictedEntries(routes[..n], path);
      var kept := Unrestricted(routes[..n]);
      assert (kept + [routes[n]])[..|kept|] == kept;
    }
  }

  lemma {:induction false} UnrestrictedAnswerAnywhere<H>(
    entries: seq<Entry<H>>, verb: string, one: Option<string>, other: Option<string>)
    requires forall k :: 0 <= k < |entries| ==> entries[k].scope.listeners == None
    ensures AnswerOf(entries, verb, one) == AnswerOf(entries, verb, other)
  {
    if entries != [] {
      UnrestrictedAnswerAnywhere(entries[1..], verb, one, other);
    }
  }

  /** When the listener is not known, the unrestricted registrations answer, as they do anywhere. */
  lemma OnlyUnrestrictedRegistrationsAnswer<H>(
    routes: seq<Registration<H>>, path: string, verb: string, any: Option<string>)
    ensures RoutedAnswer(routes, path, verb, None) == RoutedAnswer(Unrestricted(routes), path, verb, any)
  {
    OnlyServedRegistrationsAnswer(routes, path, verb, None);
    UnrestrictedEntries(routes, path);
    UnrestrictedAnswerAnywhere(EntriesFor(Unrestricted(routes), path), verb, None, any);
  }

  /** A registration that could answer the request but for its method. */
  predicate Here<H>(r: Registration<H>, path: string, listener: Option<string>) {
    && r.path == path
    && match r.scope.listeners case None => true case Some(names) => listener.Some? && listener.value in names
  }

  predicate Answers<H>(r: Registration<H>, path: string, verb: string, listener: Option<string>) {
    Here(r, path, listener) && verb in r.scope.methods
  }

  predicate FirstToAnswer<H>(routes: seq<Registration<H>>, i: nat, path: string, verb: string, listener: Option<string>)
    requires i < |routes|
  {
    && Answers(routes[i], path, verb, listener)
    && forall j :: 0 <= j < i ==> !Answers(routes[j], path, verb, listener)
  }

  lemma {:induction false} AnswerAppend<H>(entries: seq<Entry<H>>, e: Entry<H>, verb: string, listener: Option<string>)
    ensures AnswerOf(entries + [e], verb, listener)
         == match AnswerOf(entries, verb, listener)
            case Serve(h) => Serve(h)
            case refusal =>
              if Admits(e.scope, verb, listener) then Serve(e.handler)
              else if ServesListener(e.scope, listener) then Refuse405
              else refusal
  {
    if entries == [] {
      assert entries + [e] == [e];
      assert AnswerOf([e][1..], verb, listener) == Refuse404;
    } else {
      AnswerAppend(entries[1..], e, verb, listener);
      assert (entries + [e])[1..] == entries[1..] + [e];
    }
  }

  lemma {:induction false} FirstRegistrationAnswers<H>(
    routes: seq<Registration<H>>, i: nat, path: string, verb: string, listener: Option<string>)
    requires path != "" && i < |routes| && FirstToAnswer(routes, i, path, verb, listener)
    ensures RoutedAnswer(routes, path, verb, listener) == Serve(routes[i].handler)
  {
    var n := |routes| - 1;
    var before := routes[..n];
    if routes[n].path == path {
      AnswerAppend(EntriesFor(before, path), Entry(routes[n].scope, routes[n].handler), verb, listener);
    }
    if i < n {
      assert FirstToAnswer(before, i, path, verb, listener);
      FirstRegistrationAnswers(before, i, path, verb, listener);
    } else {
      assert forall j :: 0 <= j < n ==> before[j] == routes[j];
      NoRegistrationAnswers(before, path, verb, listener);
    }
  }

  lemma {:induction false} NoRegistrationAnswers<H>(
    routes: seq<Registration<H>>, path: string, verb: string, listener: Option<string>)
    requires path != "" && forall j :: 0 <= j < |routes| ==> !Answers(routes[j], path, verb, listener)
    ensures RoutedAnswer(routes, path, verb, listener)
         == if exists j :: 0 <= j < |routes| && Here(routes[j], path, listener) then Refuse405 else Refuse404
  {
    if routes != [] {
      var n := |routes| - 1;
      var before := routes[..n];
      assert forall j :: 0 <= j < n ==> before[j] == routes[j];
      NoRegistrationAnswers(before, path, verb, listener);
      if routes[n].path == path {
        AnswerAppend(EntriesFor(before, path), Entry(routes[n].scope, routes[n].handler), verb, listener);
      }
      if j :| 0 <= j < n && Here(routes[j], path, listener) {
        assert Here(before[j], path, listener);
      }
    }
  }

  /**
    In terms of the registrations alone: the first one whose path, listeners and methods fit
    answers; without one it is 405 exactly when the path is served on the listener at all, else 404.
   */
  lemma FirstFittingRegistrationAnswers<H>(
    routes: seq<Registration<H>>, path: string, verb: string, listener: Option<string>)
    requires path != ""
    ensures forall i :: 0 <= i < |routes| && FirstToAnswer(routes, i, path, verb, listener) ==>
                          RoutedAnswer(routes, path, verb, listener) == Serve(routes[i].handler)
    ensures (forall j :: 0 <= j < |routes| ==> !Answers(routes[j], path, verb, listener)) ==>
      RoutedAnswer(routes, path, verb, listener)
        == if exists j :: 0 <= j < |routes| && Here(routes[j], path, listener) then Refuse405 else Refuse404
  {
    forall i | 0 <= i < |routes| && FirstToAnswer(routes, i, path, verb, listener)
      ensures RoutedAnswer(routes, path, verb, listener) == Serve(routes[i].handler)
    {
      FirstRegistrationAnswers(routes, i, path, verb, listener);
    }
    if forall j :: 0 <= j < |routes| ==> !Answers(routes[j], path, verb, listener) {
      NoRegistrationAnswers(routes, path, verb, listener);
    }
  }
}
