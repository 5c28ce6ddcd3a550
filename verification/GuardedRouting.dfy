/**
  The router with a guard on its routes, `guarded` in `src/runtime.rs`: the guard runs for every
  path that matches a template, so it can tell a restricted route from one that does not exist.
 */
module GuardedRouting {
  import opened Octets
  import opened Routing
  import opened RouteMatching
  import opened Admissions

  /** What the guard of a listener makes of a request, if there is one. */
  datatype Decision = Unguarded | Refuses(refusal: Admissions.Response) | Passes(respond: nat -> Fields)

  /** The 404 of a path no route has, and of a route that is not on this listener. */
  const NOT_FOUND: Admissions.Response := Admissions.Response(404, [], [])

  /** What is around the handlers: the handler's response, the 405 and the validity of header fields. */
  datatype Endpoints<!H> = Endpoints(
    handle: H -> Admissions.Response,
    methodNotAllowed: Admissions.Response,
    validity: Validity)

  function ResponseTo<H>(env: Endpoints<H>, answer: RouteAnswer<H>): Admissions.Response {
    match answer
    case Serve(handler) => env.handle(handler)
    case Refuse405 => env.methodNotAllowed
    case Refuse404 => NOT_FOUND
  }

  /** The guard around what the routes answer. */
  function Guarded<H>(env: Endpoints<H>, inner: Admissions.Response, decision: Decision): Admissions.Response {
    match decision
    case Unguarded => inner
    case Refuses(refusal) => RefusalResponse(env.validity, refusal)
    case Passes(respond) => WithFields(env.validity, inner, respond)
  }

  /** The response to a request. The guard is a layer on the routes: a path that matches none is not guarded. */
  function GuardedResponse<H>(env: Endpoints<H>, pick: Pick, routes: seq<Registration<H>>, target: string,
                              verb: string, listener: Option<string>, decision: Decision): Admissions.Response
  {
    var inner := ResponseTo(env, RouterAnswer(pick, routes, target, verb, listener));
    if Picked(pick, routes, target) == None then inner else Guarded(env, inner, decision)
  }

  /**
    In terms of the registrations: the first fitting one of the template answers through the guard,
    else the 405 or the plain 404 does; a path that matches no template gets the plain 404 as it is.
   */
  lemma ResponsesMean<H>(env: Endpoints<H>, pick: Pick, routes: seq<Registration<H>>, target: string, verb: string,
                         listener: Option<string>, decision: Decision)
    requires Prefers(pick)
    ensures var response := GuardedResponse(env, pick, routes, target, verb, listener, decision);
      match Picked(pick, routes, target)
      case None => response == Admissions.Response(404, [], [])
      case Some(path) =>
        && (forall i :: 0 <= i < |routes| && FirstToAnswer(routes, i, path, verb, listener) ==>
              response == Guarded(env, env.handle(routes[i].handler), decision))
        && ((forall j :: 0 <= j < |routes| ==> !Answers(routes[j], path, verb, listener)) ==>
              response == Guarded(env,
                if exists j :: 0 <= j < |routes| && Here(routes[j], path, listener) then env.methodNotAllowed
                else Admissions.Response(404, [], []), decision))
  {
    var picked := Picked(pick, routes, target);
    if picked.Some? {
      assert Templates(routes) <= Templates(routes);
      assert picked.value in Templates(routes);
      FirstFittingRegistrationAnswers(routes, picked.value, verb, listener);
    }
  }

  /** A guard that leaves the plain 404 as it is: it adds no valid field, or refuses with that very response. */
  predicate Discreet(validity: Validity, decision: Decision) {
    match decision
    case Unguarded => true
    case Refuses(refusal) => RefusalResponse(validity, refusal) == NOT_FOUND
    case Passes(respond) => ValidFields(validity, respond(404)) == []
  }

  lemma DiscreetKeepsNotFound<H>(env: Endpoints<H>, decision: Decision)
    ensures Guarded(env, NOT_FOUND, decision) == NOT_FOUND <==> Discreet(env.validity, decision)
  {
    if decision.Passes? {
      var added := ValidFields(env.validity, decision.respond(404));
      assert NOT_FOUND.headers + added == added;
    }
  }

  /** Only a refusal makes different responses alike. */
  lemma GuardKeepsApart<H>(env: Endpoints<H>, one: Admissions.Response, other: Admissions.Response, decision: Decision)
    ensures Guarded(env, one, decision) == Guarded(env, other, decision) <==> decision.Refuses? || one == other
  {
    if decision.Passes? && Guarded(env, one, decision) == Guarded(env, other, decision) {
      var added := ValidFields(env.validity, decision.respond(one.status));
      assert one.headers == (one.headers + added)[..|one.headers|];
      assert other.headers == (other.headers + added)[..|other.headers|];
    }
  }

  /**
    The response is the one after deleting every registration not served on the request's listener,
    exactly when the path keeps its template; or it matches none then, and the guard leaves the
    plain 404 as it is; or it matches another then, and the guard refuses or that one's response is
    the plain 404.
   */
  lemma RestrictedRoutesAreHiddenUnlessGuarded<H>(
    env: Endpoints<H>, pick: Pick, routes: seq<Registration<H>>, target: string, verb: string,
    listener: Option<string>, decision: Decision)
    requires Prefers(pick)
    ensures var served := ServedOn(routes, listener);
      GuardedResponse(env, pick, routes, target, verb, listener, decision)
      == GuardedResponse(env, pick, served, target, verb, listener, decision)
      <==> match Picked(pick, served, target)
           case None => Picked(pick, routes, target) == None || Discreet(env.validity, decision)
           case Some(template) =>
             || Picked(pick, routes, target) == Some(template)
             || decision.Refuses?
             || ResponseTo(env, RoutedAnswer(served, template, verb, listener)) == NOT_FOUND
  {
    var served := ServedOn(routes, listener);
    if Picked(pick, served, target) == Picked(pick, routes, target) {
      RestrictedRoutesDoNotExistElsewhere(pick, routes, target, verb, listener);
    } else {
      PickAfterDeletion(pick, routes, target, listener);
      LostPickIsNotFound(pick, routes, target, verb, listener);
      DiscreetKeepsNotFound(env, decision);
      GuardKeepsApart(env, NOT_FOUND, ResponseTo(env, RouterAnswer(pick, served, target, verb, listener)), decision);
    }
  }

  /** An overloaded guard answers 503 for a route of another listener, and 404 is answered for no route. */
  lemma RefusalShowsRestrictedRoute<H>(env: Endpoints<H>, pick: Pick, handler: H, refusal: Admissions.Response)
    requires Prefers(pick) && pick({"/keys"}, "/keys") == Some("/keys") && pick({"/keys"}, "/none") == None
    requires refusal.status == 503
    ensures var routes := [Registration("/keys", Scope(["POST"], Some(["internal"])), handler)];
      && GuardedResponse(env, pick, routes, "/keys", "POST", Some("public"), Refuses(refusal)).status == 503
      && GuardedResponse(env, pick, routes, "/none", "POST", Some("public"), Refuses(refusal)) == NOT_FOUND
  {
    var routes := [Registration("/keys", Scope(["POST"], Some(["internal"])), handler)];
    assert routes[0].path in Templates(routes);
    assert Templates(routes) == {"/keys"};
  }
}
