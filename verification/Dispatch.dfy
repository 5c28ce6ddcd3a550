/**
  `src/dispatch.rs`: a request runs through its middlewares and handler. Stages run in one
  executor job until a coroutine that can suspend turns up; from there on they run as one
  coroutine, the Python `drive`, which delivers the response through a sink.

  Script functions are transformers of an arbitrary world `W` (the request, the script's state),
  so a stage sees whatever the stages before it did.
 */
module Dispatch {
  import opened Octets

  /** A script's `http.Response`, as plain data. */
  datatype Response = Response(status: nat, headers: seq<(string, string)>, body: seq<byte>)

  /** What a script function returns: Python's `None`, a `Response`, or anything else. */
  datatype Returned = Nothing | Responds(response: Response) | Junk

  /** An `Exception`, another exception (a `SystemExit`, say), or a panic of native code the script calls. */
  datatype Failure = Error | BaseError | Panic

  /** How a call ends. */
  datatype Finish = Raised(failure: Failure) | Gave(value: Returned)

  /** What calling an `async def` makes: nothing is run yet, and `suspends` says whether it can suspend. */
  datatype Created<!W> = Uncallable(failure: Failure) | Created(suspends: bool, body: W -> (W, Finish))

  datatype Stage<!W> = Sync(call: W -> (W, Finish)) | Async(make: W -> (W, Created<W>))

  /** A status-500 text, or the script's response. */
  datatype Reply = Script(response: Response) | Failed(message: string)

  const INTERNAL: Reply := Failed("internal error")
  const NO_RESPONSE: Reply := Failed("handler error")

  /** `stage_response`. */
  function StageResponse(value: Returned, isMiddleware: bool): Reply {
    match value
    case Responds(response) => Script(response)
    case _ => Failed(if isMiddleware then "middleware must return Response or None" else "bad response")
  }

  /** `stage_raised`. */
  function StageRaised(isMiddleware: bool): Reply {
    Failed(if isMiddleware then "middleware error" else "handler error")
  }

  // ── The reference: one left-to-right chain ─────────────────────────────

  datatype Step<+W> = Step(world: W, finish: Finish, met: bool)

  /** One stage, run to its end; `met` says whether a coroutine that can suspend has been met. */
  function RunStage<W>(stage: Stage<W>, world: W, met: bool, expiry: Option<W -> W>): Step<W> {
    match stage
    case Sync(call) =>
      var (after, finish) := call(world);
      Step(after, finish, met)
    case Async(make) =>
      var (made, created) := make(world);
      match created
      case Uncallable(failure) => Step(made, Raised(failure), met)
      case Created(suspends, body) =>
        if (met || suspends) && expiry.Some? then Step(expiry.value(made), Raised(Error), true)
        else
          var (after, finish) := body(made);
          Step(after, finish, met || suspends)
  }

  /** The stage that decided, how it ended, and the first stage met that can suspend. */
  datatype ChainOutcome<+W> = ChainOutcome(world: W, last: nat, finish: Finish, met: Option<nat>)

  /**
    The plain chain from stage `i` on: the first middleware that does not return `None`, else the
    handler (the last stage), answers. Awaits are under a deadline once a coroutine that can
    suspend has been met.
   */
  function Plain<W>(stages: seq<Stage<W>>, i: nat, world: W, met: Option<nat>, expires: nat -> Option<W -> W>)
    : ChainOutcome<W>
    requires i < |stages|
    decreases |stages| - i
  {
    var isMiddleware := i < |stages| - 1;
    var step := RunStage(stages[i], world, met.Some?, expires(i));
    var first := if met.None? && step.met then Some(i) else met;
    if isMiddleware && step.finish == Gave(Nothing) then Plain(stages, i + 1, step.world, first, expires)
    else ChainOutcome(step.world, i, step.finish, first)
  }

  /** What a request is to be answered when a stage decides it this way. */
  function Decided(finish: Finish, isHandler: bool): Reply {
    match finish
    case Gave(Responds(response)) => Script(response)
    case Gave(_) => Failed(if isHandler then "bad response" else "middleware must return Response or None")
    case Raised(Panic) => Failed("internal error")
    case Raised(_) => Failed(if isHandler then "handler error" else "middleware error")
  }

  function ChainReply<W>(p: ChainOutcome<W>, stages: nat): Reply {
    Decided(p.finish, p.last + 1 == stages)
  }

  // ── The split execution ────────────────────────────────────────────────

  /** What `start` does from stage `i` on: an answer, a panic, or the coroutine that takes over. */
  datatype Begun<!W> =
    | Done(world: W, reply: Reply, last: nat)
    | Panicked(world: W, last: nat)
    | Over(first: nat, world: W, body: W -> (W, Finish))

  /** A stage run in the job: it ends there, or made a coroutine that can suspend, which is not started. */
  datatype Inline<!W> = Ended(finish: Finish) | Suspended(body: W -> (W, Finish))

  function RunInline<W>(stage: Stage<W>, world: W): (W, Inline<W>) {
    match stage
    case Sync(call) =>
      var (after, finish) := call(world);
      (after, Ended(finish))
    case Async(make) =>
      var (made, created) := make(world);
      match created
      case Uncallable(failure) => (made, Ended(Raised(failure)))
      case Created(true, body) => (made, Suspended(body))
      case Created(false, body) =>
        var (after, finish) := body(made);
        (after, Ended(finish))
  }

  function Settle<W>(stages: seq<Stage<W>>, i: nat, world: W, finish: Finish): (b: Begun<W>)
    requires i < |stages|
    ensures b.Over? ==> b.first < |stages|
    decreases |stages| - i, 0
  {
    var isMiddleware := i < |stages| - 1;
    match finish
    case Raised(Panic) => Panicked(world, i)
    case Raised(_) => Done(world, StageRaised(isMiddleware), i)
    case Gave(value) =>
      if isMiddleware && value.Nothing? then StartFrom(stages, i + 1, world)
      else Done(world, StageResponse(value, isMiddleware), i)
  }

  function StartFrom<W>(stages: seq<Stage<W>>, i: nat, world: W): (b: Begun<W>)
    requires i < |stages|
    ensures b.Over? ==> b.first < |stages|
    decreases |stages| - i, 1
  {
    var (after, inline) := RunInline(stages[i], world);
    match inline
    case Suspended(body) => Over(i, after, body)
    case Ended(finish) => Settle(stages, i, after, finish)
  }

  /** What `drive` does: `failure` is what leaves it, with no reply sent then. */
  datatype Driven<+W> =
    | Delivered(world: W, last: nat, reply: Reply)
    | Escaped(world: W, last: nat, failure: Failure)

  /** Awaiting a body under a deadline: if it expires, its effect so far and a `TimeoutError`. */
  function Await<W>(body: W -> (W, Finish), world: W, expiry: Option<W -> W>): (W, Finish) {
    match expiry
    case None => body(world)
    case Some(effect) => (effect(world), Raised(Error))
  }

  /** A stage the driver calls: whatever coroutine it makes is awaited. */
  function DriveStage<W>(stage: Stage<W>, world: W, expiry: Option<W -> W>): (W, Finish) {
    match stage
    case Sync(call) => call(world)
    case Async(make) =>
      var (made, created) := make(world);
      match created
      case Uncallable(failure) => (made, Raised(failure))
      case Created(_, body) => Await(body, made, expiry)
  }

  function DriveFrom<W>(stages: seq<Stage<W>>, i: nat, world: W, started: Option<W -> (W, Finish)>,
                        expires: nat -> Option<W -> W>): Driven<W>
    requires i < |stages|
    decreases |stages| - i
  {
    var isMiddleware := i < |stages| - 1;
    var (after, finish) :=
      match started
      case Some(body) => Await(body, world, expires(i))
      case None => DriveStage(stages[i], world, expires(i));
    match finish
    case Raised(Error) => Delivered(after, i, StageRaised(isMiddleware))
    case Raised(failure) => Escaped(after, i, failure)
    case Gave(value) =>
      if isMiddleware && value.Nothing? then DriveFrom(stages, i + 1, after, None, expires)
      else Delivered(after, i, StageResponse(value, isMiddleware))
  }

  /** Where a hand-off may fail: before the driver exists, or when it is submitted. */
  datatype Fault = NoFault | NoDriver | NotSubmitted

  /**
    What surrounds a request: whether the executor takes the job, whether the `Request` object can
    be made, whether an asyncio pool is installed, where the hand-off fails, which awaits of the
    driver run into the deadline, and whether leaving the deadline's scope raises after the
    response was given.
   */
  datatype Surroundings<!W> = Surroundings(
    executorTakes: bool,
    requestMade: bool,
    pool: bool,
    fault: Fault,
    expires: nat -> Option<W -> W>,
    lateRaise: bool)

  predicate NoFaults<W>(env: Surroundings<W>) {
    env.executorTakes && env.requestMade && env.fault.NoFault?
  }

  /** The reply of `answer`, the world after it, and how many stages were called. */
  datatype Served<+W> = Served(world: W, reply: Reply, calls: nat)

  function Serve<W>(stages: seq<Stage<W>>, world: W, env: Surroundings<W>): Served<W>
    requires stages != []
  {
    if !env.executorTakes || !env.requestMade then Served(world, INTERNAL, 0)
    else
      match StartFrom(stages, 0, world)
      case Done(after, reply, last) => Served(after, reply, last + 1)
      case Panicked(after, last) => Served(after, INTERNAL, last + 1)
      case Over(first, made, body) =>
        if env.fault != NoFault then Served(made, INTERNAL, first + 1)
        else
          var driven := DriveFrom(stages, first, made, Some(body), env.expires);
          Served(driven.world,
                 if driven.Delivered? then driven.reply else if env.pool then NO_RESPONSE else INTERNAL,
                 driven.last + 1)
  }

  /** The stages called, in order: the first `n`, once each. */
  function Calls(n: nat): seq<nat> {
    seq(n, k => k)
  }

  lemma CallsJoin(n: nat, m: nat, more: seq<nat>)
    ensures Calls(n) + [] == Calls(n)
    ensures n <= m && more == Calls(m)[n..] ==> Calls(n) + more == Calls(m)
    ensures Calls(n) + [n] == Calls(n + 1)
  {
  }

  // ── The imperative form ────────────────────────────────────────────────

  /** A one-shot channel: it is used at most once, and dropping an unused sender shows at the receiver. */
  datatype ChannelState = Open | Sent(reply: Reply) | Dropped

  class Channel {
    var state: ChannelState

    constructor ()
      ensures state == Open
    {
      state := Open;
    }
  }

  class ResponseSink {
    var sender: Channel?

    constructor (channel: Channel)
      ensures sender == channel
    {
      sender := channel;
    }

    /** The sender is taken, so a second delivery finds none. */
    method Deliver(reply: Reply)
      requires sender != null ==> sender.state == Open
      modifies this, sender
      ensures sender == null
      ensures old(sender) != null ==> old(sender).state == Sent(reply)
    {
      var taken := sender;
      sender := null;
      if taken != null {
        taken.state := Sent(reply);
      }
    }

    method Respond(value: Returned, isMiddleware: bool)
      requires sender != null ==> sender.state == Open
      modifies this, sender
      ensures sender == null
      ensures old(sender) != null ==> old(sender).state == Sent(StageResponse(value, isMiddleware))
    {
      Deliver(StageResponse(value, isMiddleware));
    }

    method Raise(isMiddleware: bool)
      requires sender != null ==> sender.state == Open
      modifies this, sender
      ensures sender == null
      ensures old(sender) != null ==> old(sender).state == Sent(StageRaised(isMiddleware))
    {
      Deliver(StageRaised(isMiddleware));
    }

    /** The sink goes with its coroutine. */
    method Drop()
      requires sender != null ==> sender.state == Open
      modifies this, sender
      ensures sender == null
      ensures old(sender) != null ==> old(sender).state == Dropped
    {
      var taken := sender;
      sender := null;
      if taken != null {
        taken.state := Dropped;
      }
    }
  }

  datatype Progress = Pending | Finished | Closed

  /** A Python coroutine object, for whether it is left pending. */
  class Coroutine {
    var progress: Progress

    constructor ()
      ensures progress == Pending
    {
      progress := Pending;
    }

    method Close()
      modifies this
      ensures progress == if old(progress) == Pending then Closed else old(progress)
    {
      if progress == Pending { progress := Closed; }
    }
  }

  /** `drive`, up to the end of the coroutine; `escaped` is the exception or panic that leaves it. */
  method Drive<W>(stages: seq<Stage<W>>, first: nat, world: W, sink: ResponseSink, started: Coroutine,
                  body: W -> (W, Finish), expires: nat -> Option<W -> W>, lateRaise: bool)
    returns (after: W, escaped: Option<Failure>, calls: seq<nat>)
    requires first < |stages|
    requires sink.sender != null && sink.sender.state == Open
    modifies sink, sink.sender, started
    ensures var driven := DriveFrom(stages, first, world, Some(body), expires);
      && after == driven.world && escaped == (if driven.Escaped? then Some(driven.failure) else None)
      && old(sink.sender).state == (if driven.Delivered? then Sent(driven.reply) else Dropped)
      && first <= driven.last && calls == Calls(driven.last + 1)[first + 1..]
    ensures started.progress == Finished
  {
    ghost var channel := sink.sender;
    after, escaped, calls := world, None, [];
    var isMiddleware := first < |stages| - 1;
    var index := first;
    var pending := true;
    ghost var driven := DriveFrom(stages, first, world, Some(body), expires);
    while index < |stages|
      invariant first <= index < |stages|
      invariant sink.sender == channel && channel.state == Open
      invariant pending <==> index == first
      invariant pending || started.progress == Finished
      invariant calls == Calls(index)[if pending then first else first + 1..]
      invariant DriveFrom(stages, index, after, if pending then Some(body) else None, expires) == driven
      decreases |stages| - index
    {
      isMiddleware := index < |stages| - 1;
      var finish: Finish;
      if pending {
        var (awaited, ended) := Await(body, after, expires(index));
        after, finish := awaited, ended;
        pending := false;
        started.progress := Finished;
      } else {
        calls := calls + [index];
        var (driven, ended) := DriveStage(stages[index], after, expires(index));
        after, finish := driven, ended;
      }
      assert calls == Calls(index + 1)[first + 1..];
      match finish {
        case Raised(failure) =>
          if failure.Error? {
            sink.Raise(isMiddleware);
          } else {
            escaped := Some(failure);
            sink.Drop();
          }
          return;
        case Gave(value) =>
          if isMiddleware && value.Nothing? {
            index := index + 1;
            continue;
          }
          sink.Respond(value, isMiddleware);
          if lateRaise { sink.Raise(isMiddleware); }
          return;
      }
    }
    assert false;
  }

  /**
    What the executor job made of a request, with the driver an asyncio pool still has to run;
    `Gone` is the executor's error for a job that panicked.
   */
  datatype Started<!W> =
    | Answered(reply: Reply)
    | Gone
    | Waiting(channel: Channel)
    | Queued(channel: Channel, first: nat, sink: ResponseSink, started: Coroutine, body: W -> (W, Finish))

  /**
    `hand_off`. If it fails, neither the driver nor the coroutine it was to take over is left
    pending; without a pool the driver runs to its end here.
   */
  method HandOff<W>(stages: seq<Stage<W>>, first: nat, world: W, body: W -> (W, Finish), started: Coroutine,
                    env: Surroundings<W>)
    returns (r: Started<W>, after: W, calls: seq<nat>, driver: Coroutine?)
    requires first < |stages|
    requires started.progress == Pending
    modifies started
    ensures env.fault != NoFault ==>
      && r == Answered(INTERNAL) && after == world && calls == []
      && started.progress == Closed && (driver != null ==> driver.progress == Closed)
    ensures env.fault == NoFault && env.pool ==>
      && r.Queued? && r.first == first && r.body == body && r.started == started && after == world && calls == []
      && fresh(r.sink) && fresh(r.channel) && r.sink.sender == r.channel && r.channel.state == Open
      && started.progress == Pending
    ensures env.fault == NoFault && !env.pool ==>
      var driven := DriveFrom(stages, first, world, Some(body), env.expires);
      && after == driven.world && first <= driven.last && calls == Calls(driven.last + 1)[first + 1..]
      && started.progress == Finished && driver != null && driver.progress == Finished
      && (driven.Escaped? ==> r == if driven.failure.Panic? then Gone else Answered(INTERNAL))
      && (driven.Delivered? ==> r.Waiting? && r.channel.state == Sent(driven.reply))
  {
    after, calls, driver := world, [], null;
    var channel := new Channel();
    if env.fault == NoDriver {
      started.Close();
      return Answered(INTERNAL), after, calls, driver;
    }
    var sink := new ResponseSink(channel);
    driver := new Coroutine();
    if env.fault == NotSubmitted {
      driver.Close();
      started.Close();
      return Answered(INTERNAL), after, calls, driver;
    }
    if env.pool {
      return Queued(channel, first, sink, started, body), after, calls, driver;
    }
    var escaped: Option<Failure>;
    after, escaped, calls := Drive(stages, first, world, sink, started, body, env.expires, env.lateRaise);
    driver.progress := Finished;
    if escaped == Some(Panic) {
      return Gone, after, calls, driver;
    }
    if escaped.Some? {
      // `asyncio.run` raises what the coroutine raised.
      driver.Close();
      started.Close();
      return Answered(INTERNAL), after, calls, driver;
    }
    return Waiting(channel), after, calls, driver;
  }

  /** The hand-off of stage `first`, with the stages called up to there. */
  method TakeOver<W>(stages: seq<Stage<W>>, first: nat, made: W, body: W -> (W, Finish), env: Surroundings<W>)
    returns (r: Started<W>, after: W, calls: seq<nat>)
    requires first < |stages|
    ensures env.fault != NoFault ==> r == Answered(INTERNAL) && after == made && calls == Calls(first + 1)
    ensures env.fault == NoFault && env.pool ==>
      && r.Queued? && r.first == first && r.body == body && after == made && calls == Calls(first + 1)
      && fresh(r.sink) && fresh(r.channel) && fresh(r.started)
      && r.sink.sender == r.channel && r.channel.state == Open
    ensures env.fault == NoFault && !env.pool ==>
      var driven := DriveFrom(stages, first, made, Some(body), env.expires);
      && after == driven.world && calls == Calls(driven.last + 1)
      && (driven.Escaped? ==> r == if driven.failure.Panic? then Gone else Answered(INTERNAL))
      && (driven.Delivered? ==> r.Waiting? && r.channel.state == Sent(driven.reply))
  {
    var coroutine := new Coroutine();
    var more: seq<nat>;
    var driver: Coroutine?;
    r, after, more, driver := HandOff(stages, first, made, body, coroutine, env);
    ghost var driven := DriveFrom(stages, first, made, Some(body), env.expires);
    CallsJoin(first + 1, driven.last + 1, more);
    calls := Calls(first + 1) + more;
  }

  /** `start`: the stages in order, until one answers or a coroutine takes over. */
  method Start<W>(stages: seq<Stage<W>>, world: W, env: Surroundings<W>)
    returns (r: Started<W>, after: W, calls: seq<nat>)
    requires stages != []
    ensures !env.requestMade ==> r == Answered(INTERNAL) && after == world && calls == []
    ensures env.requestMade ==>
      match StartFrom(stages, 0, world)
      case Done(done, reply, last) => r == Answered(reply) && after == done && calls == Calls(last + 1)
      case Panicked(done, last) => r == Gone && after == done && calls == Calls(last + 1)
      case Over(first, made, body) =>
        && (env.fault != NoFault ==> r == Answered(INTERNAL) && after == made && calls == Calls(first + 1))
        && (env.fault == NoFault && env.pool ==>
          && r.Queued? && r.first == first && r.body == body && after == made && calls == Calls(first + 1)
          && fresh(r.sink) && fresh(r.channel) && fresh(r.started)
          && r.sink.sender == r.channel && r.channel.state == Open)
        && (env.fault == NoFault && !env.pool ==>
          var driven := DriveFrom(stages, first, made, Some(body), env.expires);
          && after == driven.world && calls == Calls(driven.last + 1)
          && (driven.Escaped? ==> r == if driven.failure.Panic? then Gone else Answered(INTERNAL))
          && (driven.Delivered? ==> r.Waiting? && r.channel.state == Sent(driven.reply)))
  {
    r, after, calls := Answered(INTERNAL), world, [];
    if !env.requestMade { return; }
    var index := 0;
    while index < |stages|
      invariant index < |stages|
      invariant calls == Calls(index)
      invariant StartFrom(stages, index, after) == StartFrom(stages, 0, world)
      decreases |stages| - index
    {
      var isMiddleware := index < |stages| - 1;
      CallsJoin(index, index, []);
      calls := calls + [index];
      var (ran, inline) := RunInline(stages[index], after);
      after := ran;
      if inline.Suspended? {
        r, after, calls := TakeOver(stages, index, after, inline.body, env);
        return;
      }
      match inline.finish {
        case Raised(failure) =>
          r := if failure.Panic? then Gone else Answered(StageRaised(isMiddleware));
          return;
        case Gave(value) =>
          if isMiddleware && value.Nothing? {
            index := index + 1;
            continue;
          }
          r := Answered(StageResponse(value, isMiddleware));
          return;
      }
    }
    // The route handler is the last stage and always answers.
    assert false;
  }

  /** `answer`: one reply to every request. */
  method AnswerRequest<W>(stages: seq<Stage<W>>, world: W, env: Surroundings<W>)
    returns (reply: Reply, after: W, calls: seq<nat>)
    requires stages != []
    ensures var served := Serve(stages, world, env);
      reply == served.reply && after == served.world && calls == Calls(served.calls)
  {
    if !env.executorTakes { return INTERNAL, world, []; }
    var job: Started<W>;
    job, after, calls := Start(stages, world, env);
    match job {
      case Answered(answer) => reply := answer;
      case Gone => reply := INTERNAL;
      case Waiting(channel) => reply := if channel.state.Sent? then channel.state.reply else NO_RESPONSE;
      case Queued(channel, first, sink, started, body) =>
        var escaped: Option<Failure>;
        var more: seq<nat>;
        after, escaped, more := Drive(stages, first, after, sink, started, body, env.expires, env.lateRaise);
        calls := calls + more;
        reply := if channel.state.Sent? then channel.state.reply else NO_RESPONSE;
    }
  }

  // ── The split execution refines the chain ──────────────────────────────

  /** The driver ends as the chain does, but lets through what is not an `Exception`. */
  ghost predicate EndsAs<W>(d: Driven<W>, p: ChainOutcome<W>, stages: nat) {
    && d.world == p.world && d.last == p.last
    && match p.finish
       case Raised(BaseError) => d.Escaped? && d.failure == BaseError
       case Raised(Panic) => d.Escaped? && d.failure == Panic
       case _ => d.Delivered? && d.reply == ChainReply(p, stages)
  }

  lemma {:induction false} DriveIsPlain<W>(stages: seq<Stage<W>>, i: nat, world: W, met: nat,
                                           expires: nat -> Option<W -> W>)
    requires i < |stages|
    ensures var p := Plain(stages, i, world, Some(met), expires);
      && EndsAs(DriveFrom(stages, i, world, None, expires), p, |stages|)
      && i <= p.last < |stages| && p.met == Some(met)
    decreases |stages| - i
  {
    var step := RunStage(stages[i], world, true, expires(i));
    if step.finish == Gave(Nothing) && i < |stages| - 1 {
      DriveIsPlain(stages, i + 1, step.world, met, expires);
    }
  }

  /** Taking over at stage `i` is awaiting the coroutine it made. */
  lemma TakeOverIsPlain<W>(stages: seq<Stage<W>>, i: nat, world: W, expires: nat -> Option<W -> W>)
    requires i < |stages|
    requires stages[i].Async? && stages[i].make(world).1.Created? && stages[i].make(world).1.suspends
    ensures var (made, created) := stages[i].make(world);
      var p := Plain(stages, i, world, None, expires);
      && EndsAs(DriveFrom(stages, i, made, Some(created.body), expires), p, |stages|)
      && i <= p.last < |stages| && p.met == Some(i)
  {
    var step := RunStage(stages[i], world, false, expires(i));
    if step.finish == Gave(Nothing) && i < |stages| - 1 {
      DriveIsPlain(stages, i + 1, step.world, i, expires);
    }
  }

  lemma {:induction false} StartIsPlain<W>(stages: seq<Stage<W>>, i: nat, world: W, expires: nat -> Option<W -> W>)
    requires i < |stages|
    ensures var p := Plain(stages, i, world, None, expires);
      match StartFrom(stages, i, world)
      case Done(after, reply, last) =>
        && after == p.world && reply == ChainReply(p, |stages|) && last == p.last
        && p.met.None? && p.finish != Raised(Panic)
      case Panicked(after, last) =>
        after == p.world && last == p.last && p.met.None? && p.finish == Raised(Panic)
      case Over(first, made, body) =>
        p.met == Some(first) && EndsAs(DriveFrom(stages, first, made, Some(body), expires), p, |stages|)
    ensures i <= Plain(stages, i, world, None, expires).last < |stages|
    decreases |stages| - i
  {
    var step := RunStage(stages[i], world, false, expires(i));
    if step.met {
      var (made, created) := stages[i].make(world);
      assert StartFrom(stages, i, world) == Over(i, made, created.body);
      TakeOverIsPlain(stages, i, world, expires);
    } else {
      assert StartFrom(stages, i, world) == Settle(stages, i, step.world, step.finish);
      if step.finish == Gave(Nothing) && i < |stages| - 1 {
        StartIsPlain(stages, i + 1, step.world, expires);
      }
    }
  }

  /**
    The reply is lost when what leaves the driver is not an `Exception` and its text is not the one
    sent then.
   */
  predicate Lost<W>(p: ChainOutcome<W>, stages: nat, pool: bool) {
    && p.met.Some?
    && match p.finish
       case Raised(BaseError) => pool ==> p.last + 1 < stages
       case Raised(Panic) => pool
       case _ => false
  }

  /**
    For every chain, world and pattern of suspension, deadline and panic, the split execution calls
    exactly the stages of the plain chain, once each and in order, and leaves the same world.
   */
  lemma SplitRunsThePlainStages<W>(stages: seq<Stage<W>>, world: W, env: Surroundings<W>)
    requires stages != [] && NoFaults(env)
    ensures var p := Plain(stages, 0, world, None, env.expires);
      var s := Serve(stages, world, env);
      s.world == p.world && s.calls == p.last + 1
  {
    StartIsPlain(stages, 0, world, env.expires);
  }

  /**
    Its reply is the chain's exactly unless a base exception leaves the driver from a middleware
    (or, without a pool, from any stage), or a panic leaves it under a pool.
   */
  lemma SplitRefinesPlain<W>(stages: seq<Stage<W>>, world: W, env: Surroundings<W>)
    requires stages != [] && NoFaults(env)
    ensures var p := Plain(stages, 0, world, None, env.expires);
      Serve(stages, world, env).reply == ChainReply(p, |stages|) <==> !Lost(p, |stages|, env.pool)
  {
    SplitReply(stages, world, env);
    var p := Plain(stages, 0, world, None, env.expires);
    StartIsPlain(stages, 0, world, env.expires);
    LostMeans(p, |stages|, env.pool);
  }

  /** The deciding stage ends in the driver, with what is not an `Exception`. */
  predicate Escapes<W>(p: ChainOutcome<W>) {
    p.met.Some? && (p.finish == Raised(BaseError) || p.finish == Raised(Panic))
  }

  function ReplyTo<W>(p: ChainOutcome<W>, stages: nat, pool: bool): Reply {
    if Escapes(p) then Failed(if pool then "handler error" else "internal error") else ChainReply(p, stages)
  }

  lemma LostMeans<W>(p: ChainOutcome<W>, stages: nat, pool: bool)
    requires p.last < stages
    ensures ReplyTo(p, stages, pool) == ChainReply(p, stages) <==> !Lost(p, stages, pool)
  {
    TextsDiffer();
  }

  /** The first letters and the lengths tell the texts apart. */
  lemma TextsDiffer()
    ensures |"middleware must return Response or None"| == 39 && |"middleware error"| == 16
    ensures |"handler error"| == 13 && |"bad response"| == 12 && |"internal error"| == 14
  {
  }

  /** The reply in terms of what the deciding stage did, and of what leaves the driver. */
  lemma SplitReply<W>(stages: seq<Stage<W>>, world: W, env: Surroundings<W>)
    requires stages != [] && NoFaults(env)
    ensures var p := Plain(stages, 0, world, None, env.expires);
      Serve(stages, world, env).reply
      == ReplyTo(p, |stages|, env.pool)
  {
    StartIsPlain(stages, 0, world, env.expires);
  }

  /**
    What each reply tells: a script's response is that of the deciding stage, and each text says
    which stage returned or raised what, up to what is lost in the driver.
   */
  lemma RepliesMean<W>(stages: seq<Stage<W>>, world: W, env: Surroundings<W>)
    requires stages != [] && NoFaults(env)
    ensures var p := Plain(stages, 0, world, None, env.expires);
      var reply := Serve(stages, world, env).reply;
      var handler := p.last == |stages| - 1;
      && (forall response :: reply == Script(response) <==> p.finish == Gave(Responds(response)))
      && (reply == Failed("middleware must return Response or None") <==> !handler && p.finish == Gave(Junk))
      && (reply == Failed("bad response") <==> handler && (p.finish == Gave(Nothing) || p.finish == Gave(Junk)))
      && (reply == Failed("middleware error") <==>
            !handler && !Escapes(p) && (p.finish == Raised(Error) || p.finish == Raised(BaseError)))
      && (reply == Failed("handler error") <==>
            if Escapes(p) then env.pool else handler && (p.finish == Raised(Error) || p.finish == Raised(BaseError)))
      && (reply == Failed("internal error") <==> if Escapes(p) then !env.pool else p.finish == Raised(Panic))
  {
    SplitReply(stages, world, env);
    PlainDecides(stages, 0, world, None, env.expires);
    ReturnsMean(Plain(stages, 0, world, None, env.expires), |stages|, env.pool);
    RaisesMean(Plain(stages, 0, world, None, env.expires), |stages|, env.pool);
  }

  lemma ReturnsMean<W>(p: ChainOutcome<W>, stages: nat, pool: bool)
    requires p.finish == Gave(Nothing) ==> p.last == stages - 1
    ensures var reply := ReplyTo(p, stages, pool);
      var handler := p.last == stages - 1;
      && (forall response :: reply == Script(response) <==> p.finish == Gave(Responds(response)))
      && (reply == Failed("middleware must return Response or None") <==> !handler && p.finish == Gave(Junk))
      && (reply == Failed("bad response") <==> handler && (p.finish == Gave(Nothing) || p.finish == Gave(Junk)))
  {
    TextsDiffer();
  }

  lemma RaisesMean<W>(p: ChainOutcome<W>, stages: nat, pool: bool)
    ensures var reply := ReplyTo(p, stages, pool);
      var handler := p.last == stages - 1;
      && (reply == Failed("middleware error") <==>
            !handler && !Escapes(p) && (p.finish == Raised(Error) || p.finish == Raised(BaseError)))
      && (reply == Failed("handler error") <==>
            if Escapes(p) then pool else handler && (p.finish == Raised(Error) || p.finish == Raised(BaseError)))
      && (reply == Failed("internal error") <==> if Escapes(p) then !pool else p.finish == Raised(Panic))
  {
    TextsDiffer();
  }

  /** A middleware that returns `None` decides nothing. */
  lemma {:induction false} PlainDecides<W>(stages: seq<Stage<W>>, i: nat, world: W, met: Option<nat>,
                                           expires: nat -> Option<W -> W>)
    requires i < |stages|
    ensures var p := Plain(stages, i, world, met, expires);
      i <= p.last < |stages| && (p.finish == Gave(Nothing) ==> p.last == |stages| - 1)
    decreases |stages| - i
  {
    var step := RunStage(stages[i], world, met.Some?, expires(i));
    if step.finish == Gave(Nothing) && i < |stages| - 1 {
      PlainDecides(stages, i + 1, step.world, if met.None? && step.met then Some(i) else met, expires);
    }
  }

  /**
    A middleware that suspends and then raises what is not an `Exception`: the chain answers
    "middleware error" (or "internal error" after a panic), the driver under a pool sends nothing
    and the request is answered "handler error".
   */
  lemma EscapeLosesTheReply<W>(failure: Failure, handler: Stage<W>, world: W, env: Surroundings<W>)
    requires failure != Error && NoFaults(env) && env.pool && env.expires(0).None?
    ensures var stages := [Async((w: W) => (w, Created(true, (v: W) => (v, Raised(failure))))), handler];
      var p := Plain(stages, 0, world, None, env.expires);
      && Lost(p, 2, true)
      && ChainReply(p, 2) == Failed(if failure.Panic? then "internal error" else "middleware error")
      && Serve(stages, world, env).reply == Failed("handler error")
  {}

  /**
    A request the job, its object or the hand-off fails is answered too. After a failed hand-off no
    stage runs but those up to the first coroutine that can suspend.
   */
  lemma FaultsAnswer<W>(stages: seq<Stage<W>>, world: W, env: Surroundings<W>)
    requires stages != []
    ensures var s := Serve(stages, world, env);
      var p := Plain(stages, 0, world, None, env.expires);
      && (!env.executorTakes || !env.requestMade ==> s == Served(world, Failed("internal error"), 0))
      && (env.executorTakes && env.requestMade && env.fault != NoFault ==>
            match p.met
            case Some(first) => s.reply == Failed("internal error") && s.calls == first + 1
            case None => s == Served(p.world, ChainReply(p, |stages|), p.last + 1))
  {
    StartIsPlain(stages, 0, world, env.expires);
  }
}
