/**
  When the client `Pool::client` of `src/outbound.rs` ends up with is the newest: a condition on
  the order in which callers looked and stored.
 */
module StoreOrder {
  import opened Octets
  import opened Files
  import opened ClientPool

  /** Where an event happened last. */
  function Position(events: seq<Event>, e: Event): Option<nat> {
    if events == [] then None
    else if events[|events| - 1] == e then Some(|events| - 1)
    else Position(events[..|events| - 1], e)
  }

  /** The caller that stored last. */
  function LastStore(events: seq<Event>): Option<nat> {
    if events == [] then None
    else
      match events[|events| - 1]
      case Store(c) => Some(c)
      case _ => LastStore(events[..|events| - 1])
  }

  /** `c` compared the stamps before `d` did. */
  predicate ComparedBefore(events: seq<Event>, c: nat, d: nat) {
    var p, q := Position(events, Compare(c)), Position(events, Compare(d));
    p.Some? && q.Some? && p.value < q.value
  }

  /** The caller that stored last compared before another that stored too. */
  ghost predicate Overtaken(events: seq<Event>) {
    LastStore(events).Some?
    && exists d: nat :: Store(d) in events && ComparedBefore(events, LastStore(events).value, d)
  }

  predicate HasJob(s: State, c: nat) {
    At(s, c) && JobOf(s.callers[c]).Some?
  }

  function Job(s: State, c: nat): nat
    requires HasJob(s, c)
  {
    JobOf(s.callers[c]).value
  }

  /** Rebuilds are numbered in the order their callers compared. */
  ghost predicate Numbered(events: seq<Event>, s: State) {
    && (forall c: nat :: HasJob(s, c) ==> Position(events, Compare(c)).Some?)
    && (forall c: nat, d: nat :: HasJob(s, c) && HasJob(s, d) && Job(s, c) < Job(s, d) ==> ComparedBefore(events, c, d))
  }

  /** The current client is that of the last store. */
  predicate LastIsCurrent(events: seq<Event>, s: State) {
    match LastStore(events)
    case None => s.newest == 0 && s.current.job == 0
    case Some(c) => HasJob(s, c) && Job(s, c) == s.current.job
  }

  /** `newest` is the greatest number stored. */
  ghost predicate Stored(events: seq<Event>, s: State) {
    && (forall d: nat :: Store(d) in events ==> HasJob(s, d) && Job(s, d) <= s.newest)
    && (s.newest == 0 || exists d: nat :: Store(d) in events && HasJob(s, d) && Job(s, d) == s.newest)
  }

  lemma PositionBound(events: seq<Event>, e: Event)
    ensures Position(events, e).Some? ==> Position(events, e).value < |events|
  {
  }

  lemma PositionLast(events: seq<Event>, last: Event, e: Event)
    ensures Position(events + [last], e) == if last == e then Some(|events|) else Position(events, e)
  {
    assert (events + [last])[..|events|] == events;
  }

  lemma StoreLast(events: seq<Event>, last: Event)
    ensures LastStore(events + [last]) == if last.Store? then Some(last.caller) else LastStore(events)
  {
    assert (events + [last])[..|events|] == events;
  }

  lemma {:induction false} LastStoreIsThere(events: seq<Event>)
    ensures LastStore(events).Some? ==> Store(LastStore(events).value) in events
    ensures LastStore(events) == None ==> forall d: nat :: Store(d) !in events
  {
    if events != [] {
      var n := |events| - 1;
      LastStoreIsThere(events[..n]);
      assert events == events[..n] + [events[n]];
    }
  }

  /** A caller keeps its rebuild, and takes one on by comparing only: the next number. */
  lemma JobsStep<S, C>(setting: Setting<S, C>, s: State, e: Event, c: nat)
    requires Enabled(s, e)
    ensures var t := Apply(setting, s, e);
      && (HasJob(s, c) ==> HasJob(t, c) && Job(t, c) == Job(s, c) && e != Compare(c))
      && (HasJob(t, c) && !HasJob(s, c) ==> e == Compare(c) && Job(t, c) == |s.log|)
  {
  }

  lemma JobIsLogged<S, C>(setting: Setting<S, C>, s: State, c: nat)
    requires Inv(setting, s) && HasJob(s, c)
    ensures Job(s, c) < |s.log|
  {
  }

  lemma NumberedStep<S, C>(setting: Setting<S, C>, events: seq<Event>, s: State, e: Event)
    requires Inv(setting, s) && Enabled(s, e) && Numbered(events, s)
    ensures Numbered(events + [e], Apply(setting, s, e))
  {
    var t := Apply(setting, s, e);
    forall c: nat | HasJob(t, c) ensures Position(events + [e], Compare(c)).Some? {
      JobsStep(setting, s, e, c);
      PositionLast(events, e, Compare(c));
    }
    forall c: nat, d: nat | HasJob(t, c) && HasJob(t, d) && Job(t, c) < Job(t, d)
      ensures ComparedBefore(events + [e], c, d)
    {
      JobsStep(setting, s, e, c);
      JobsStep(setting, s, e, d);
      if HasJob(s, d) {
        JobIsLogged(setting, s, d);
      }
      PositionLast(events, e, Compare(c));
      PositionLast(events, e, Compare(d));
      PositionBound(events, Compare(c));
    }
  }

  lemma LastIsCurrentStep<S, C>(setting: Setting<S, C>, events: seq<Event>, s: State, e: Event)
    requires Enabled(s, e) && LastIsCurrent(events, s)
    ensures LastIsCurrent(events + [e], Apply(setting, s, e))
  {
    StoreLast(events, e);
    if LastStore(events).Some? {
      JobsStep(setting, s, e, LastStore(events).value);
    }
  }

  lemma StoredStep<S, C>(setting: Setting<S, C>, events: seq<Event>, s: State, e: Event)
    requires Enabled(s, e) && Stored(events, s)
    ensures Stored(events + [e], Apply(setting, s, e))
  {
    var t := Apply(setting, s, e);
    forall d: nat | Store(d) in events + [e] ensures HasJob(t, d) && Job(t, d) <= t.newest {
      JobsStep(setting, s, e, d);
    }
    if s.newest != 0 {
      var d: nat :| Store(d) in events && HasJob(s, d) && Job(s, d) == s.newest;
      JobsStep(setting, s, e, d);
      assert Store(d) in events + [e];
    }
    if e.Store? {
      assert Store(e.caller) in events + [e] && HasJob(t, e.caller);
    }
  }

  lemma {:induction false} Ordered<S, C>(setting: Setting<S, C>, events: seq<Event>)
    requires Sound(setting) && Run(setting, events).Some?
    ensures var s := Run(setting, events).value;
      Inv(setting, s) && Numbered(events, s) && LastIsCurrent(events, s) && Stored(events, s)
  {
    Reachable(setting, events);
    if events != [] {
      var n := |events| - 1;
      var s := Run(setting, events[..n]).value;
      Reachable(setting, events[..n]);
      Ordered(setting, events[..n]);
      NumberedStep(setting, events[..n], s, events[n]);
      LastIsCurrentStep(setting, events[..n], s, events[n]);
      StoredStep(setting, events[..n], s, events[n]);
      assert events == events[..n] + [events[n]];
    }
  }

  lemma LaterHasGreaterJob<S, C>(setting: Setting<S, C>, events: seq<Event>, s: State, c: nat, d: nat)
    requires Inv(setting, s) && Numbered(events, s)
    requires HasJob(s, c) && HasJob(s, d) && ComparedBefore(events, c, d)
    ensures Job(s, c) < Job(s, d)
  {
    assert s.log[Job(s, c)].owner == c && s.log[Job(s, d)].owner == d;
    assert ComparedBefore(events, d, c) ==> false;
  }

  /** The current client is the newest one stored exactly when the last store was not overtaken. */
  lemma NewestUnlessOvertaken<S, C>(setting: Setting<S, C>, events: seq<Event>)
    requires Sound(setting) && Run(setting, events).Some?
    ensures var s := Run(setting, events).value; s.current.job == s.newest <==> !Overtaken(events)
  {
    Ordered(setting, events);
    LastStoreIsThere(events);
    var s := Run(setting, events).value;
    if s.current.job != s.newest {
      var d: nat :| Store(d) in events && HasJob(s, d) && Job(s, d) == s.newest;
      assert ComparedBefore(events, LastStore(events).value, d);
    }
    if Overtaken(events) {
      var c := LastStore(events).value;
      var d: nat :| Store(d) in events && ComparedBefore(events, c, d);
      LaterHasGreaterJob(setting, events, s, c, d);
    }
  }

  /**
    At rest the current client is the newest rebuild that loaded exactly when the last caller to
    store did not compare before another that stored too; and it always is when no change was
    observed during a rebuild. The last rebuild read its files after the stamps now remembered, and
    loaded or failed.
   */
  lemma AtRestNewestIsCurrent<S, C>(setting: Setting<S, C>, events: seq<Event>)
    requires Sound(setting) && Run(setting, events).Some?
    requires !Busy(Run(setting, events).value)
    ensures var s := Run(setting, events).value;
      && s.log != []
      && (s.current.job == NewestLoaded(s.log) <==> !Overtaken(events))
      && (!s.overlapped ==> !Overtaken(events))
      && (var last := s.log[|s.log| - 1];
          && Stamps(setting.source, s.seen) == Stamps(setting.source, last.looked)
          && !last.outcome.Unknown? && (|s.log| > 1 ==> Before(last.looked, last.outcome.from)))
  {
    Reachable(setting, events);
    NewestUnlessOvertaken(setting, events);
    var s := Run(setting, events).value;
    NewestIsStored(setting, s);
    assert EntryInv(setting, s, |s.log| - 1);
  }

  /**
    At rest, when the stamps remembered are those of the files as they are, tell them from what
    they were, and the files load, and when the last store was not overtaken: the current client was
    built from them, exactly unless they last changed between the build that made the pool and the
    first look at the stamps.
   */
  lemma QuietPoolIsFresh<S, C>(setting: Setting<S, C>, events: seq<Event>)
    requires Sound(setting) && Run(setting, events).Some?
    requires var s := Run(setting, events).value;
      && !Busy(s) && s.seen == s.files && Tells(setting.source, s.files) && setting.source.load(s.files).Some?
    requires !Overtaken(events)
    ensures var s := Run(setting, events).value;
      s.current.from == s.files <==> s.files != setting.first || setting.bound == setting.first
  {
    Reachable(setting, events);
    NewestUnlessOvertaken(setting, events);
    var s := Run(setting, events).value;
    NewestIsStored(setting, s);
    var n := |s.log| - 1;
    assert EntryInv(setting, s, n);
    StampsAgree(setting.source, s.log[n].looked, s.files);
    assert s.log[n].looked == s.files;
    if n > 0 {
      Between(s.log[n].looked, s.log[n].outcome.from, s.files);
      assert s.log[n].outcome == Loaded(s.files);
      NewestLoadedIs(s.log, n);
    } else {
      assert s.current.job == 0;
    }
  }
}
