/**
  No caller of `Pool::client` of `src/outbound.rs` is ever stuck: the lock is held over the look at
  the stamps only, and its holder can always go on.
 */
module CallerProgress {
  import opened Octets
  import opened Files
  import opened ClientPool

  /** The next step of a caller that is not through. */
  function Next(s: State, c: nat): Event
    requires At(s, c)
  {
    match s.callers[c]
    case Entering => Look(c)
    case Stamping(stamped) => if |stamped| < |s.files| then Stamp(c) else Compare(c)
    case Building(_, read) => if |read| < |s.files| then ReadFile(c) else Load(c)
    case Storing(_, _) => Store(c)
    case _ => Fetch(c)
  }

  predicate LockIsHeld(s: State) {
    s.lock.Some? ==> At(s, s.lock.value) && s.callers[s.lock.value].Stamping?
  }

  /** A look waits for another caller, which can go on. */
  predicate WaitsForLock(s: State, c: nat)
    requires At(s, c)
  {
    && s.callers[c].Entering? && s.lock.Some? && s.lock != Some(c)
    && At(s, s.lock.value) && Enabled(s, Next(s, s.lock.value))
  }

  lemma LockStep<S, C>(setting: Setting<S, C>, s: State, e: Event)
    requires Inv(setting, s) && Enabled(s, e) && LockIsHeld(s)
    ensures LockIsHeld(Apply(setting, s, e))
  {
  }

  lemma {:induction false} LockReachable<S, C>(setting: Setting<S, C>, events: seq<Event>)
    requires Sound(setting) && Run(setting, events).Some?
    ensures LockIsHeld(Run(setting, events).value)
  {
    if events != [] {
      var n := |events| - 1;
      LockReachable(setting, events[..n]);
      Reachable(setting, events[..n]);
      LockStep(setting, Run(setting, events[..n]).value, events[n]);
    }
  }

  /**
    In every interleaving the next step of a caller can be taken, but for a look that waits for the
    lock, whose holder is another caller that can take its own; and files change, time passes and
    calls come in whatever the callers do.
   */
  lemma NobodyIsStuck<S, C>(setting: Setting<S, C>, events: seq<Event>, c: nat)
    requires Sound(setting) && Run(setting, events).Some?
    requires var s := Run(setting, events).value; At(s, c) && !s.callers[c].Finished?
    ensures var s := Run(setting, events).value;
      && (Enabled(s, Next(s, c)) || WaitsForLock(s, c))
      && (forall file: nat :: file < |s.files| ==> Enabled(s, Touch(file)))
      && (forall time: nat :: Enabled(s, Wait(time))) && Enabled(s, Call)
  {
    Reachable(setting, events);
    LockReachable(setting, events);
    var s := Run(setting, events).value;
    assert PhaseInv(s, c);
    if s.lock.Some? {
      assert PhaseInv(s, s.lock.value);
    }
  }
}
