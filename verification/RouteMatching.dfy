/**
  The router of `src/runtime.rs` over request paths. Which of the registered templates a path matches
  is axum's choice, a parameter here: it does not know of listeners, so a route restricted to
  another listener can still take a path away from a template that would serve it.
 */
module RouteMatching {
  import opened Octets
  import opened Routing

  /** The template, of those registered, that a request path matches. */
  type Pick = (set<string>, string) -> Option<string>

  /**
    A pick is by a fixed preference: it is one of the templates, it stays the pick among fewer
    templates while it is one of them, and what matches no template matches none of fewer.
   */
  ghost predicate Prefers(pick: Pick) {
    forall templates: set<string>, fewer: set<string>, target: string | fewer <= templates ::
      match pick(templates, target)
      case None => pick(fewer, target) == None
      case Some(template) => template in templates && (template in fewer ==> pick(fewer, target) == Some(template))
  }

  /** The templates of the router: an empty path is skipped. */
  function Templates<H>(routes: seq<Registration<H>>): set<string> {
    set k | 0 <= k < |routes| && routes[k].path != "" :: routes[k].path
  }

  function Picked<H>(pick: Pick, routes: seq<Registration<H>>, target: string): Option<string> {
    pick(Templates(routes), target)
  }

  /** What the router answers to a request for `target`. */
  function RouterAnswer<H>(pick: Pick, routes: seq<Registration<H>>, target: string, verb: string,
                           listener: Option<string>): RouteAnswer<H>
  {
    match Picked(pick, routes, target)
    case None => Refuse404
    case Some(template) => RoutedAnswer(routes, template, verb, listener)
  }

  lemma {:induction false} TemplateHasEntries<H>(routes: seq<Registration<H>>, template: string)
    ensures template in Templates(routes) <==> template != "" && EntriesFor(routes, template) != []
  {
    if routes != [] {
      var n := |routes| - 1;
      TemplateHasEntries(routes[..n], template);
      assert routes == routes[..n] + [routes[n]];
      assert template in Templates(routes) <==>
          template in Templates(routes[..n]) || (template != "" && routes[n].path == template);
    }
  }

  lemma {:induction false} ServedIsPart<H>(routes: seq<Registration<H>>, listener: Option<string>)
    ensures forall k :: 0 <= k < |ServedOn(routes, listener)| ==>
      ServedOn(routes, listener)[k] in routes && ServesListener(ServedOn(routes, listener)[k].scope, listener)
  {
    if routes != [] {
      ServedIsPart(routes[..|routes| - 1], listener);
    }
  }

  lemma ServedTemplates<H>(routes: seq<Registration<H>>, listener: Option<string>)
    ensures Templates(ServedOn(routes, listener)) <= Templates(routes)
  {
    ServedIsPart(routes, listener);
  }

  lemma {:induction false} ServedEntriesAnswer<H>(entries: seq<Entry<H>>, verb: string, listener: Option<string>)
    requires OnListener(entries, listener) != []
    ensures AnswerOf(entries, verb, listener) != Refuse404
  {
    if !ServesListener(entries[0].scope, listener) {
      ServedEntriesAnswer(entries[1..], verb, listener);
    }
  }

  /** A template is answered with other than 404 exactly when it has a route served on the listener. */
  lemma ServedTemplateAnswers<H>(
    routes: seq<Registration<H>>, template: string, verb: string, listener: Option<string>)
    ensures template in Templates(ServedOn(routes, listener))
       <==> RoutedAnswer(routes, template, verb, listener) != Refuse404
  {
    TemplateHasEntries(ServedOn(routes, listener), template);
    EntriesServed(routes, template, listener);
    if template in Templates(ServedOn(routes, listener)) {
      ServedEntriesAnswer(EntriesFor(routes, template), verb, listener);
    } else {
      HiddenEntriesDoNotAnswer(EntriesFor(routes, template), verb, listener);
    }
  }

  /** The pick before and after the deletion of what is not served here. */
  lemma PickAfterDeletion<H>(pick: Pick, routes: seq<Registration<H>>, target: string, listener: Option<string>)
    requires Prefers(pick)
    ensures var before := Picked(pick, routes, target);
      var after := Picked(pick, ServedOn(routes, listener), target);
      && (after == before || before.Some?)
      && (before.Some? && before.value in Templates(ServedOn(routes, listener)) ==> after == before)
      && (after.Some? ==> after.value in Templates(ServedOn(routes, listener)))
  {
    ServedTemplates(routes, listener);
    var fewer := Templates(ServedOn(routes, listener));
    assert fewer <= fewer;
  }

  /** When another template takes over, or none, the router answered 404. */
  lemma LostPickIsNotFound<H>(
    pick: Pick, routes: seq<Registration<H>>, target: string, verb: string, listener: Option<string>)
    requires Prefers(pick)
    requires Picked(pick, ServedOn(routes, listener), target) != Picked(pick, routes, target)
    ensures RouterAnswer(pick, routes, target, verb, listener) == Refuse404
    ensures Picked(pick, ServedOn(routes, listener), target).Some?
       <==> RouterAnswer(pick, ServedOn(routes, listener), target, verb, listener) != Refuse404
  {
    var served := ServedOn(routes, listener);
    var before, after := Picked(pick, routes, target), Picked(pick, served, target);
    PickAfterDeletion(pick, routes, target, listener);
    ServedTemplateAnswers(routes, before.value, verb, listener);
    if after.Some? {
      ServedTemplateAnswers(routes, after.value, verb, listener);
      OnlyServedRegistrationsAnswer(routes, after.value, verb, listener);
    }
  }

  /**
    The answer is the one after deleting every registration not served on the request's listener,
    exactly when the deletion leaves the path the template it matched, or none.
   */
  lemma RestrictedRoutesDoNotExistElsewhere<H>(
    pick: Pick, routes: seq<Registration<H>>, target: string, verb: string, listener: Option<string>)
    requires Prefers(pick)
    ensures var served := ServedOn(routes, listener);
      RouterAnswer(pick, routes, target, verb, listener) == RouterAnswer(pick, served, target, verb, listener)
      <==> Picked(pick, served, target) == None || Picked(pick, served, target) == Picked(pick, routes, target)
  {
    var before := Picked(pick, routes, target);
    if Picked(pick, ServedOn(routes, listener), target) != before {
      LostPickIsNotFound(pick, routes, target, verb, listener);
    } else if before.Some? {
      OnlyServedRegistrationsAnswer(routes, before.value, verb, listener);
    }
  }

  lemma UnrestrictedAnywhere<H>(
    pick: Pick, routes: seq<Registration<H>>, target: string, verb: string, any: Option<string>)
    ensures Unrestricted(routes) == ServedOn(routes, None)
    ensures RouterAnswer(pick, Unrestricted(routes), target, verb, any)
         == RouterAnswer(pick, Unrestricted(routes), target, verb, None)
  {
    var template := Picked(pick, Unrestricted(routes), target);
    UnrestrictedEntries(routes, "");
    if template.Some? {
      OnlyUnrestrictedRegistrationsAnswer(routes, template.value, verb, any);
      OnlyUnrestrictedRegistrationsAnswer(routes, template.value, verb, None);
    }
  }

  /** A request whose listener is not known is answered as if only unrestricted routes existed, likewise. */
  lemma UnknownListenerSeesUnrestrictedRoutes<H>(
    pick: Pick, routes: seq<Registration<H>>, target: string, verb: string, any: Option<string>)
    requires Prefers(pick)
    ensures var open := Unrestricted(routes);
      RouterAnswer(pick, routes, target, verb, None) == RouterAnswer(pick, open, target, verb, any)
      <==> Picked(pick, open, target) == None || Picked(pick, open, target) == Picked(pick, routes, target)
  {
    UnrestrictedAnywhere(pick, routes, target, verb, any);
    RestrictedRoutesDoNotExistElsewhere(pick, routes, target, verb, None);
  }

  /** For the path "/keys", axum prefers the template "/keys" to "/{page}". */
  function StaticFirst(templates: set<string>, target: string): Option<string> {
    if target == "/keys" && "/keys" in templates then Some("/keys")
    else if target == "/keys" && "/{page}" in templates then Some("/{page}")
    else None
  }

  function Overlapping<H>(keys: H, page: H): seq<Registration<H>> {
    [Registration("/keys", Scope(["GET"], Some(["internal"])), keys),
     Registration("/{page}", Scope(["GET"], None), page)]
  }

  /** The restricted "/keys" answers 404 on another listener, where "/{page}" would serve the path without it. */
  lemma RestrictedRouteTakesThePath<H>(keys: H, page: H)
    ensures var routes := Overlapping(keys, page);
      && Prefers(StaticFirst)
      && RouterAnswer(StaticFirst, routes, "/keys", "GET", Some("public")) == Refuse404
      && RouterAnswer(StaticFirst, ServedOn(routes, Some("public")), "/keys", "GET", Some("public")) == Serve(page)
  {
    var routes := Overlapping(keys, page);
    assert "/keys"[1] != "/{page}"[1];
    var served := [routes[1]];
    assert routes[..1] == [routes[0]] && routes[..1][..0] == [] && served[..0] == [];
    assert ServedOn(routes, Some("public")) == served by {
      assert ServedOn(routes[..1], Some("public")) == [];
    }
    assert routes[0].path in Templates(routes);
    assert served[0].path in Templates(served);
    assert "/keys" !in Templates(served);
    var hidden := [Entry(routes[0].scope, keys)];
    assert EntriesFor(routes[..1], "/keys") == hidden;
    assert EntriesFor(routes, "/keys") == hidden;
    assert AnswerOf(hidden[1..], "GET", Some("public")) == Refuse404;
    assert EntriesFor(served, "/{page}") == [Entry(routes[1].scope, page)];
  }
}
