/**
  `src/admission.rs`: the `guard` layer around a request, with the documented `Limit` guard, whose
  shared counter many requests step at once. The counter is a 64-bit word that wraps.
 */
module Admissions {
  import opened Octets

  // ── One request ────────────────────────────────────────────────────────

  class Counter {
    var value: nat

    constructor ()
      ensures value == 0
    {
      value := 0;
    }

    method FetchAdd() returns (before: nat)
      modifies this
      ensures before == old(value) && value == (old(value) + 1) % U64
    {
      before := value;
      value := (value + 1) % U64;
    }

    method FetchSub()
      modifies this
      ensures value == (old(value) + U64 - 1) % U64
    {
      value := (value + U64 - 1) % U64;
    }
  }

  type Fields = seq<(string, string)>

  /** What makes a header field valid is the `http` crate's business. */
  datatype Validity = Validity(name: string -> bool, value: string -> bool)

  /** The fields that are valid, in order. */
  function ValidFields(validity: Validity, fields: Fields): Fields {
    if fields == [] then []
    else
      var n := |fields| - 1;
      var before := ValidFields(validity, fields[..n]);
      if validity.name(fields[n].0) && validity.value(fields[n].1) then before + [fields[n]] else before
  }

  /** Each field is kept exactly when its name and value are valid, in its place. */
  lemma {:induction false} ValidFieldsMeans(validity: Validity, before: Fields, field: (string, string), after: Fields)
    ensures ValidFields(validity, before + [field] + after)
         == ValidFields(validity, before)
            + (if validity.name(field.0) && validity.value(field.1) then [field] else [])
            + ValidFields(validity, after)
    ensures ValidFields(validity, []) == []
  {
    var whole := before + [field] + after;
    if after == [] {
      assert whole == before + [field] && whole[..|before|] == before;
    } else {
      var n := |after| - 1;
      ValidFieldsMeans(validity, before, field, after[..n]);
      assert whole[..|whole| - 1] == before + [field] + after[..n];
    }
  }

  class HeaderMap {
    var fields: Fields

    constructor (fields: Fields)
      ensures this.fields == fields
    {
      this.fields := fields;
    }

    /** `append`: fields that are not valid are left out. */
    method Append(validity: Validity, more: Fields)
      modifies this
      ensures fields == old(fields) + ValidFields(validity, more)
    {
      for i := 0 to |more|
        invariant fields == old(fields) + ValidFields(validity, more[..i])
      {
        var (name, value) := more[i];
        assert more[..i + 1][..i] == more[..i];
        if validity.name(name) && validity.value(value) {
          fields := fields + [(name, value)];
        }
      }
      assert more[..|more|] == more;
    }
  }

  datatype Response = Response(status: nat, headers: Fields, body: seq<byte>)

  /** The response to a refused request; a status that is not one becomes 503. */
  function RefusalResponse(validity: Validity, refusal: Response): Response {
    Response(if 100 <= refusal.status <= 999 then refusal.status else 503,
             ValidFields(validity, refusal.headers), refusal.body)
  }

  /** A refusal's status is sent as it is exactly when it is one, else 503 in its place. */
  lemma RefusalKeepsStatus(validity: Validity, refusal: Response)
    ensures var sent := RefusalResponse(validity, refusal);
      && (sent.status == refusal.status <==> 100 <= refusal.status <= 999)
      && (sent.status != refusal.status ==> sent.status == 503)
      && sent.body == refusal.body && sent.headers == ValidFields(validity, refusal.headers)
  {
  }

  /** A response with what `respond` adds, given its status. */
  function WithFields(validity: Validity, response: Response, respond: nat -> Fields): Response {
    response.(headers := response.headers + ValidFields(validity, respond(response.status)))
  }

  /**
    `guard` with `Limit`, undisturbed: `handled` is what the rest of the stack answers, be it the
    handler or a layer before it, or `None` when the request ends without a response. Whatever was
    admitted is released on the way out.
   */
  method Guard(counter: Counter, maximum: nat, refusal: Response, handled: Option<Response>,
               respond: nat -> Fields, validity: Validity)
    returns (r: Option<Response>, responds: nat)
    requires counter.value < U64
    modifies counter
    ensures counter.value == old(counter.value)
    ensures old(counter.value) >= maximum ==>
      && responds == 0
      && r == Some(RefusalResponse(validity, refusal))
    ensures old(counter.value) < maximum ==>
      match handled
      case None => r == None && responds == 0
      case Some(response) =>
        && responds == 1
        && r == Some(WithFields(validity, response, respond))
  {
    responds := 0;
    var at := counter.FetchAdd();
    if at >= maximum {
      counter.FetchSub();
      var status := if 100 <= refusal.status <= 999 then refusal.status else 503;
      var headers := new HeaderMap([]);
      headers.Append(validity, refusal.headers);
      assert [] + ValidFields(validity, refusal.headers) == ValidFields(validity, refusal.headers);
      return Some(Response(status, headers.fields, refusal.body)), responds;
    }
    match handled
    case None =>
      counter.FetchSub();
      return None, responds;
    case Some(response) =>
      var headers := new HeaderMap(response.headers);
      responds := responds + 1;
      headers.Append(validity, respond(response.status));
      counter.FetchSub();
      return Some(response.(headers := headers.fields)), responds;
  }

  // ── Many requests ──────────────────────────────────────────────────────

  /** Whose response comes back to the guard. The limits of time and of the body are layers inside it. */
  datatype Answerer = Handler | Timeout | BodyLimit

  /**
    `Refusing`: counted, over the limit, not yet taken back. `Running`: admitted. `Answered`: a
    response came back. `Responded`: `respond` was called. `Released`: dropped, with or without a
    response.
   */
  datatype Phase =
    | Arrived
    | Refusing
    | Refused
    | Running
    | Answered(answerer: Answerer)
    | Responded(answerer: Answerer)
    | Released(answer: Option<Answerer>)

  datatype Request = Request(phase: Phase, responds: nat)

  datatype State = State(busy: nat, requests: seq<Request>)

  /** `Cancel`: the client went away before any response. */
  datatype Event =
    | Arrive
    | Add(request: nat)
    | TakeBack(request: nat)
    | Answer(request: nat, answerer: Answerer)
    | Respond(request: nat)
    | Release(request: nat)
    | Cancel(request: nat)

  const INITIAL: State := State(0, [])

  function PhaseOf(s: State, r: nat): Phase {
    if r < |s.requests| then s.requests[r].phase else Refused
  }

  predicate Enabled(s: State, e: Event) {
    match e
    case Arrive => true
    case Add(r) => PhaseOf(s, r) == Arrived
    case TakeBack(r) => PhaseOf(s, r) == Refusing
    case Answer(r, _) => PhaseOf(s, r) == Running
    case Respond(r) => PhaseOf(s, r).Answered?
    case Release(r) => PhaseOf(s, r).Responded?
    case Cancel(r) => PhaseOf(s, r) == Running
  }

  function Move(s: State, r: nat, phase: Phase): State
    requires r < |s.requests|
  {
    s.(requests := s.requests[r := s.requests[r].(phase := phase)])
  }

  function Decrement(s: State): State {
    s.(busy := (s.busy + U64 - 1) % U64)
  }

  function Apply(s: State, e: Event, maximum: nat): State
    requires Enabled(s, e)
  {
    match e
    case Arrive => s.(requests := s.requests + [Request(Arrived, 0)])
    case Add(r) => Move(s, r, if s.busy >= maximum then Refusing else Running).(busy := (s.busy + 1) % U64)
    case TakeBack(r) => Decrement(Move(s, r, Refused))
    case Answer(r, answerer) => Move(s, r, Answered(answerer))
    case Respond(r) =>
      s.(requests := s.requests[r := Request(Responded(s.requests[r].phase.answerer), s.requests[r].responds + 1)])
    case Release(r) => Decrement(Move(s, r, Released(Some(s.requests[r].phase.answerer))))
    case Cancel(r) => Decrement(Move(s, r, Released(None)))
  }

  function Run(events: seq<Event>, maximum: nat): Option<State> {
    if events == [] then Some(INITIAL)
    else
      var n := |events| - 1;
      var s :- Run(events[..n], maximum);
      if Enabled(s, events[n]) then Some(Apply(s, events[n], maximum)) else None
  }

  /** Admitted, and its response not yet built. */
  predicate InProgress(p: Phase) {
    p.Running? || p.Answered? || p.Responded?
  }

  /** Counted in `busy`: in progress, or a refusal not yet taken back. */
  predicate Counted(p: Phase) {
    InProgress(p) || p.Refusing?
  }

  function Count(requests: seq<Request>, p: Phase -> bool): nat {
    if requests == [] then 0
    else
      var n := |requests| - 1;
      Count(requests[..n], p) + (if p(requests[n].phase) then 1 else 0)
  }

  lemma {:induction false} CountUpdate(requests: seq<Request>, i: nat, r: Request, p: Phase -> bool)
    requires i < |requests|
    ensures Count(requests[i := r], p) + (if p(requests[i].phase) then 1 else 0)
         == Count(requests, p) + (if p(r.phase) then 1 else 0)
  {
    var n := |requests| - 1;
    if i < n {
      CountUpdate(requests[..n], i, r, p);
      assert requests[i := r][..n] == requests[..n][i := r];
    } else {
      assert requests[i := r][..n] == requests[..n];
    }
  }

  lemma {:induction false} CountBound(requests: seq<Request>, p: Phase -> bool, q: Phase -> bool)
    requires forall phase :: p(phase) ==> q(phase)
    ensures Count(requests, p) <= Count(requests, q) <= |requests|
  {
    if requests != [] {
      CountBound(requests[..|requests| - 1], p, q);
    }
  }

  /** A response came back and `respond` was called on it. */
  predicate PastRespond(p: Phase) {
    p.Responded? || (p.Released? && p.answer.Some?)
  }

  /** `respond` was called once if a response came back, as soon as it could be, else never. */
  predicate RespondedOnce(r: Request) {
    r.responds == if PastRespond(r.phase) then 1 else 0
  }

  predicate Inv(s: State, maximum: nat) {
    && s.busy == Count(s.requests, Counted)
    && Count(s.requests, InProgress) <= maximum
    && forall r :: 0 <= r < |s.requests| ==> RespondedOnce(s.requests[r])
  }

  /** An atomic step moves one request and changes the counter by one, which wraps at 2^64 only. */
  lemma MoveKeepsCounts(s: State, t: State, r: nat, maximum: nat)
    requires Inv(s, maximum) && Count(t.requests, Counted) < U64
    requires r < |s.requests| == |t.requests| && t.requests == s.requests[r := t.requests[r]]
    requires var was, now := s.requests[r].phase, t.requests[r].phase;
      && (Counted(now) && !Counted(was) ==> t.busy == (s.busy + 1) % U64)
      && (Counted(was) && !Counted(now) ==> t.busy == (s.busy + U64 - 1) % U64)
      && (Counted(was) == Counted(now) ==> t.busy == s.busy)
      && (InProgress(now) && !InProgress(was) ==> s.busy < maximum)
    ensures t.busy == Count(t.requests, Counted)
    ensures Count(t.requests, InProgress) <= maximum
  {
    CountUpdate(s.requests, r, t.requests[r], Counted);
    CountUpdate(s.requests, r, t.requests[r], InProgress);
    CountBound(s.requests, InProgress, Counted);
    CountBound(t.requests, InProgress, Counted);
  }

  lemma StepKeeps(s: State, e: Event, maximum: nat)
    requires Inv(s, maximum) && Enabled(s, e)
    requires Count(Apply(s, e, maximum).requests, Counted) < U64
    ensures Inv(Apply(s, e, maximum), maximum)
  {
    var t := Apply(s, e, maximum);
    if e.Arrive? {
      assert t.requests[..|s.requests|] == s.requests;
    } else {
      assert RespondedOnce(s.requests[e.request]);
      MoveKeepsCounts(s, t, e.request, maximum);
    }
  }

  /** Fewer than 2^64 requests are counted at any time. */
  predicate Fits(events: seq<Event>, maximum: nat)
    requires Run(events, maximum).Some?
  {
    && Count(Run(events, maximum).value.requests, Counted) < 0x1_0000_0000_0000_0000
    && (events != [] ==> Fits(events[..|events| - 1], maximum))
  }

  lemma {:induction false} Reachable(events: seq<Event>, maximum: nat)
    requires Run(events, maximum).Some? && Fits(events, maximum)
    ensures Inv(Run(events, maximum).value, maximum)
  {
    if events != [] {
      var n := |events| - 1;
      var s := Run(events[..n], maximum).value;
      Reachable(events[..n], maximum);
      StepKeeps(s, events[n], maximum);
    }
  }

  /**
    In every interleaving that counts fewer than 2^64 requests at a time: at most `maximum` are in
    progress, the counter is those plus the refusals not yet taken back, and `respond` ran once for
    a request some response came back for, and never for any other.
   */
  lemma LimitHolds(events: seq<Event>, maximum: nat)
    requires Run(events, maximum).Some? && Fits(events, maximum)
    ensures var s := Run(events, maximum).value;
      && Count(s.requests, InProgress) <= maximum
      && s.busy == Count(s.requests, InProgress) + Count(s.requests, (p: Phase) => p.Refusing?)
      && forall r :: 0 <= r < |s.requests| ==>
           s.requests[r].responds == if PastRespond(s.requests[r].phase) then 1 else 0
  {
    Reachable(events, maximum);
    CountSplit(Run(events, maximum).value.requests);
    var s := Run(events, maximum).value;
    assert forall r :: 0 <= r < |s.requests| ==> RespondedOnce(s.requests[r]);
  }

  lemma {:induction false} RespondsOnce(events: seq<Event>, maximum: nat, r: nat)
    requires Run(events, maximum).Some? && r < |Run(events, maximum).value.requests|
    ensures RespondedOnce(Run(events, maximum).value.requests[r])
  {
    var n := |events| - 1;
    var s := Run(events[..n], maximum).value;
    if r < |s.requests| {
      RespondsOnce(events[..n], maximum, r);
    }
  }

  /**
    Of a request that is over, `respond` ran as documented, once if its handler answered and never
    otherwise, exactly unless the limit of time or of the body answered in the handler's place.
   */
  lemma RespondsAsDocumented(events: seq<Event>, maximum: nat, r: nat)
    requires Run(events, maximum).Some? && r < |Run(events, maximum).value.requests|
    requires Run(events, maximum).value.requests[r].phase.Released?
    ensures var request := Run(events, maximum).value.requests[r];
      request.responds == (if request.phase.answer == Some(Handler) then 1 else 0)
      <==> request.phase.answer == None || request.phase.answer == Some(Handler)
  {
    RespondsOnce(events, maximum, r);
  }

  lemma {:induction false} CountSplit(requests: seq<Request>)
    ensures Count(requests, Counted) == Count(requests, InProgress) + Count(requests, (p: Phase) => p.Refusing?)
  {
    if requests != [] {
      CountSplit(requests[..|requests| - 1]);
    }
  }

  lemma {:induction false} CountNone(requests: seq<Request>, p: Phase -> bool)
    ensures Count(requests, p) == 0 <==> forall r :: 0 <= r < |requests| ==> !p(requests[r].phase)
  {
    if requests != [] {
      CountNone(requests[..|requests| - 1], p);
    }
  }

  /** The counter is zero exactly when nothing is in progress and no refusal is still to be taken back. */
  lemma ZeroWhenIdle(events: seq<Event>, maximum: nat)
    requires Run(events, maximum).Some? && Fits(events, maximum)
    ensures var s := Run(events, maximum).value;
      s.busy == 0 <==> forall r :: 0 <= r < |s.requests| ==> !Counted(s.requests[r].phase)
  {
    Reachable(events, maximum);
    CountNone(Run(events, maximum).value.requests, Counted);
  }

  /**
    In every interleaving a request is refused exactly when those in progress and the refusals not
    yet taken back are at least `maximum` together.
   */
  lemma RefusedWhenFull(events: seq<Event>, maximum: nat, r: nat)
    requires Run(events, maximum).Some? && Fits(events, maximum)
    requires Enabled(Run(events, maximum).value, Add(r))
    ensures var s := Run(events, maximum).value;
      PhaseOf(Apply(s, Add(r), maximum), r).Refusing?
      <==> Count(s.requests, InProgress) + Count(s.requests, (p: Phase) => p.Refusing?) >= maximum
  {
    Reachable(events, maximum);
    CountSplit(Run(events, maximum).value.requests);
  }

  predicate IsOver(p: Phase) {
    p.Refused? || p.Released?
  }

  /** Requests come in at any time, and one that is not over never waits for another. */
  lemma NoRequestWaits(s: State, r: nat)
    requires r < |s.requests| && !IsOver(s.requests[r].phase)
    ensures Enabled(s, Arrive)
    ensures match s.requests[r].phase
            case Arrived => Enabled(s, Add(r))
            case Refusing => Enabled(s, TakeBack(r))
            case Running => Enabled(s, Cancel(r)) && forall answerer :: Enabled(s, Answer(r, answerer))
            case Answered(_) => Enabled(s, Respond(r))
            case _ => Enabled(s, Release(r))
  {
  }

  lemma RunLast(events: seq<Event>, e: Event, maximum: nat)
    requires Run(events, maximum).Some? && Enabled(Run(events, maximum).value, e)
    ensures Run(events + [e], maximum) == Some(Apply(Run(events, maximum).value, e, maximum))
  {
    assert (events + [e])[..|events|] == events;
  }

  lemma Arrivals(n: nat)
    ensures Run(seq(n, _ => Arrive), 1) == Some(State(0, seq(n, _ => Request(Arrived, 0))))
  {
    if n > 0 {
      Arrivals(n - 1);
      RunLast(seq(n - 1, _ => Arrive), Arrive, 1);
      assert seq(n - 1, _ => Arrive) + [Arrive] == seq(n, _ => Arrive);
      assert seq(n - 1, _ => Request(Arrived, 0)) + [Request(Arrived, 0)] == seq(n, _ => Request(Arrived, 0));
    } else {
      assert seq(n, _ => Arrive) == [];
      assert seq(n, _ => Request(Arrived, 0)) == [];
    }
  }

  /**
    A refusal under way refuses another request although none is in progress: with a limit of one,
    the second of three requests is refused, the first ends, and the third finds the counter at one.
   */
  lemma SpuriousRefusal()
    ensures var events := seq(3, _ => Arrive) + [Add(0)] + [Add(1)] + [Cancel(0)] + [Add(2)];
      Run(events, 1) == Some(State(2, [Request(Released(None), 0), Request(Refusing, 0), Request(Refusing, 0)]))
  {
    var three := seq(3, _ => Arrive);
    Arrivals(3);
    RunLast(three, Add(0), 1);
    RunLast(three + [Add(0)], Add(1), 1);
    RunLast(three + [Add(0)] + [Add(1)], Cancel(0), 1);
    RunLast(three + [Add(0)] + [Add(1)] + [Cancel(0)], Add(2), 1);
    var s := Run(three + [Add(0)] + [Add(1)] + [Cancel(0)] + [Add(2)], 1).value;
    assert s.requests == [Request(Released(None), 0), Request(Refusing, 0), Request(Refusing, 0)];
  }

  /** The state of a lone request. */
  function Alone(busy: nat, phase: Phase, responds: nat): State {
    State(busy, [Request(phase, responds)])
  }

  lemma ArrivesAlone()
    ensures Run([Arrive], 1) == Some(Alone(0, Arrived, 0))
  {
    assert [Arrive][..0] == [];
    assert INITIAL.requests + [Request(Arrived, 0)] == [Request(Arrived, 0)];
  }

  /** From its arrival, a lone request is admitted and the time limit answers it. */
  lemma TimesOutAlone(events: seq<Event>)
    requires Run(events, 1) == Some(Alone(0, Arrived, 0))
    ensures Run(events + [Add(0)] + [Answer(0, Timeout)], 1) == Some(Alone(1, Answered(Timeout), 0))
  {
    RunLast(events, Add(0), 1);
    assert Apply(Alone(0, Arrived, 0), Add(0), 1).requests == [Request(Running, 0)];
    RunLast(events + [Add(0)], Answer(0, Timeout), 1);
    assert Apply(Alone(1, Running, 0), Answer(0, Timeout), 1).requests == [Request(Answered(Timeout), 0)];
  }

  lemma RespondsAlone(events: seq<Event>, answerer: Answerer)
    requires Run(events, 1) == Some(Alone(1, Answered(answerer), 0))
    ensures Run(events + [Respond(0)] + [Release(0)], 1) == Some(Alone(0, Released(Some(answerer)), 1))
  {
    RunLast(events, Respond(0), 1);
    assert Apply(Alone(1, Answered(answerer), 0), Respond(0), 1).requests == [Request(Responded(answerer), 1)];
    RunLast(events + [Respond(0)], Release(0), 1);
    assert Apply(Alone(1, Responded(answerer), 1), Release(0), 1).requests
        == [Request(Released(Some(answerer)), 1)];
  }

  /** The handler times out, and `respond` is called on the 504. */
  lemma TimedOutRequestResponds()
    ensures Run([Arrive] + [Add(0)] + [Answer(0, Timeout)] + [Respond(0)] + [Release(0)], 1)
         == Some(Alone(0, Released(Some(Timeout)), 1))
  {
    ArrivesAlone();
    TimesOutAlone([Arrive]);
    RespondsAlone([Arrive] + [Add(0)] + [Answer(0, Timeout)], Timeout);
  }
}
