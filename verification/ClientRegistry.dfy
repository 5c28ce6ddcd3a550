/**
  `HttpClient::named` and `HttpClient::pooled` of `src/outbound.rs`: the pools built so far, by
  name, with the settings each was built from. A lock is held over each call, so a history of
  calls is a list.
 */
module ClientRegistry {
  import opened Octets

  datatype Error = UnknownClient(name: string) | Conflict(name: string) | Configuration(reason: string)

  datatype Result<+P> = Ok(pool: P) | Err(error: Error)

  /** What building a pool from settings would yield at this call. */
  datatype Attempt<+P> = Built(pool: P) | Broken(reason: string)

  /** The settings a pool was built from, and the pool. */
  type Pools<S, P> = map<string, (S, P)>

  /** The specification of `Registry.Pooled`: its answer and the pools after it. */
  function Ask<S(==), P>(pools: Pools<S, P>, name: string, settings: S, build: Attempt<P>): (Result<P>, Pools<S, P>) {
    if name in pools then
      if pools[name].0 == settings then (Ok(pools[name].1), pools) else (Err(Conflict(name)), pools)
    else
      match build
      case Broken(reason) => (Err(Configuration(reason)), pools)
      case Built(pool) => (Ok(pool), pools[name := (settings, pool)])
  }

  /** The specification of `Registry.Named`: `settings` is what the configuration has for the name, if anything. */
  function AskNamed<S(==), P>(pools: Pools<S, P>, call: Call<S, P>): (Result<P>, Pools<S, P>) {
    match call.settings
    case None => (Err(UnknownClient(call.name)), pools)
    case Some(settings) => Ask(pools, call.name, settings, call.build)
  }

  datatype Call<S, P> = Call(name: string, settings: Option<S>, build: Attempt<P>)

  class Registry<S(==), P> {
    var pools: Pools<S, P>

    constructor ()
      ensures pools == map[]
    {
      pools := map[];
    }

    method Pooled(name: string, settings: S, build: Attempt<P>) returns (r: Result<P>)
      modifies this
      ensures (r, pools) == Ask(old(pools), name, settings, build)
    {
      if name in pools {
        var (builtFrom, pool) := pools[name];
        if builtFrom == settings { return Ok(pool); }
        return Err(Conflict(name));
      }
      match build
      case Broken(reason) => return Err(Configuration(reason));
      case Built(pool) =>
        pools := pools[name := (settings, pool)];
        return Ok(pool);
    }

    method Named(configured: map<string, S>, name: string, build: Attempt<P>) returns (r: Result<P>)
      modifies this
      ensures (r, pools) == AskNamed(old(pools),
        Call(name, if name in configured then Some(configured[name]) else None, build))
    {
      if name !in configured { return Err(UnknownClient(name)); }
      r := Pooled(name, configured[name], build);
    }
  }

  // ── Histories ──────────────────────────────────────────────────────────

  /** The pools after a history of calls. */
  function After<S(==), P>(history: seq<Call<S, P>>): Pools<S, P> {
    if history == [] then map[]
    else AskNamed(After(history[..|history| - 1]), history[|history| - 1]).1
  }

  /** The answer to call `i` of a history. */
  function Answer<S(==), P>(history: seq<Call<S, P>>, i: nat): Result<P>
    requires i < |history|
  {
    AskNamed(After(history[..i]), history[i]).0
  }

  /** What a name is bound to stays as it is. */
  lemma {:induction false} BindingStays<S, P>(history: seq<Call<S, P>>, i: nat, name: string)
    requires i <= |history|
    requires name in After(history[..i])
    ensures name in After(history) && After(history)[name] == After(history[..i])[name]
  {
    if i == |history| {
      assert history[..i] == history;
    } else {
      var n := |history| - 1;
      assert history[..n][..i] == history[..i];
      BindingStays(history[..n], i, name);
    }
  }

  lemma OkBinds<S, P>(history: seq<Call<S, P>>, i: nat)
    requires i < |history| && Answer(history, i).Ok?
    ensures var call := history[i];
      && call.settings.Some? && call.name in After(history[..i + 1])
      && After(history[..i + 1])[call.name] == (call.settings.value, Answer(history, i).pool)
  {
    assert history[..i + 1][..i] == history[..i];
  }

  /**
    Once a call for a name succeeded, every later call for it with the same settings gets that very
    pool, and every one with other settings gets a conflict, whatever building would yield then.
   */
  lemma OnePoolPerName<S, P>(history: seq<Call<S, P>>, i: nat, j: nat)
    requires i < j < |history|
    requires Answer(history, i).Ok?
    requires history[j].name == history[i].name && history[j].settings.Some?
    ensures Answer(history, j)
         == if history[j].settings == history[i].settings then Answer(history, i) else Err(Conflict(history[j].name))
  {
    OkBinds(history, i);
    assert history[..j][..i + 1] == history[..i + 1];
    BindingStays(history[..j], i + 1, history[i].name);
  }

  /** A call that fails leaves the registry as it was. */
  lemma FailureChangesNothing<S, P>(history: seq<Call<S, P>>, i: nat)
    requires i < |history| && Answer(history, i).Err?
    ensures After(history[..i + 1]) == After(history[..i])
  {
    assert history[..i + 1][..i] == history[..i];
  }

  /** Call `i` built the pool, from the settings it asked with, and got it. */
  predicate BuiltAt<S(==), P(==)>(history: seq<Call<S, P>>, i: nat, name: string, bound: (S, P))
    requires i < |history|
  {
    && Answer(history, i) == Ok(bound.1)
    && history[i] == Call(name, Some(bound.0), Built(bound.1))
  }

  /** Every pool in the registry is the answer of the call that built it, from that call's settings. */
  lemma {:induction false} EveryPoolWasBuilt<S, P>(history: seq<Call<S, P>>, name: string)
    requires name in After(history)
    ensures exists i :: 0 <= i < |history| && BuiltAt(history, i, name, After(history)[name])
  {
    var n := |history| - 1;
    var before := history[..n];
    if name in After(before) {
      EveryPoolWasBuilt(before, name);
      var i :| 0 <= i < |before| && BuiltAt(before, i, name, After(before)[name]);
      assert before[..i] == history[..i];
      assert BuiltAt(history, i, name, After(history)[name]);
    } else {
      assert BuiltAt(history, n, name, After(history)[name]);
    }
  }

  /** No call for the name has succeeded yet. */
  predicate Unbound<S(==), P>(history: seq<Call<S, P>>, i: nat, name: string)
    requires i <= |history|
  {
    forall j :: 0 <= j < i && history[j].name == name ==> !Answer(history, j).Ok?
  }

  /**
    What a call is answered when none for its name has succeeded: an unconfigured name is unknown,
    a build that works gives its pool, and one that does not its reason.
   */
  lemma FirstCallsBuild<S, P>(history: seq<Call<S, P>>, i: nat)
    requires i < |history| && Unbound(history, i, history[i].name)
    ensures Answer(history, i)
         == match (history[i].settings, history[i].build)
            case (None, _) => Err(UnknownClient(history[i].name))
            case (Some(_), Built(pool)) => Ok(pool)
            case (Some(_), Broken(reason)) => Err(Configuration(reason))
  {
    UnboundIsAbsent(history[..i], history[i].name);
    forall j | 0 <= j < i ensures Answer(history[..i], j) == Answer(history, j) {
      assert history[..i][..j] == history[..j];
    }
  }

  lemma UnboundIsAbsent<S, P>(history: seq<Call<S, P>>, name: string)
    ensures Unbound(history, |history|, name) ==> name !in After(history)
  {
    if name in After(history) {
      EveryPoolWasBuilt(history, name);
      var i :| 0 <= i < |history| && BuiltAt(history, i, name, After(history)[name]);
      assert Answer(history, i).Ok?;
    }
  }

  /** A name that is not configured is unknown, whatever was built for it before. */
  lemma UnconfiguredIsUnknown<S, P>(history: seq<Call<S, P>>, i: nat)
    requires i < |history| && history[i].settings == None
    ensures Answer(history, i) == Err(UnknownClient(history[i].name))
  {
  }
}
