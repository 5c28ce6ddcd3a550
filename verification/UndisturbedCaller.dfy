/**
  A caller of `Pool::client` that nothing disturbs: its steps in the machine of `ClientPool` come
  to what the sequential form does.
 */
module UndisturbedCaller {
  import opened Octets
  import opened Files
  import opened ClientPool

  /** What the pool remembers, as far as the code can tell. */
  function MemoryOf<S, C>(setting: Setting<S, C>, s: State): Memory<S, Option<C>> {
    Memory(s.seenAt, Stamps(setting.source, s.seen), setting.source.load(s.current.from))
  }

  /** One step of caller `c`, as often as there are files. */
  function Repeat(e: Event, n: nat): seq<Event> {
    seq(n, _ => e)
  }

  function Rebuilding<S, C>(setting: Setting<S, C>, s: State, c: nat): seq<Event> {
    Repeat(ReadFile(c), |s.files|) + (if setting.source.load(s.files).Some? then [Load(c), Store(c)] else [Load(c)])
  }

  function Looking<S(==), C>(setting: Setting<S, C>, s: State, c: nat): seq<Event> {
    (Repeat(Stamp(c), |s.files|) + [Compare(c)])
    + (if Stamps(setting.source, s.files) != Stamps(setting.source, s.seen) then Rebuilding(setting, s, c) else [])
  }

  /** Every step of the next caller, from its call to its client. */
  function Steps<S(==), C>(setting: Setting<S, C>, s: State): seq<Event> {
    var c := |s.callers|;
    ([Call, Look(c)] + (if s.clock - s.seenAt < setting.period then [] else Looking(setting, s, c))) + [Fetch(c)]
  }

  lemma {:induction false} StampAll<S, C>(setting: Setting<S, C>, s: State, c: nat, n: nat)
    requires At(s, c) && s.callers[c] == Stamping([]) && n <= |s.files|
    ensures RunFrom(setting, s, Repeat(Stamp(c), n)) == Some(s.(callers := s.callers[c := Stamping(s.files[..n])]))
  {
    if n == 0 {
      assert s.callers[c := Stamping(s.files[..0])] == s.callers;
    } else {
      StampAll(setting, s, c, n - 1);
      Then(setting, s, Repeat(Stamp(c), n - 1), Stamp(c));
      assert Repeat(Stamp(c), n) == Repeat(Stamp(c), n - 1) + [Stamp(c)];
      assert s.files[..n - 1] + [s.files[n - 1]] == s.files[..n];
      assert s.callers[c := Stamping(s.files[..n - 1])][c := Stamping(s.files[..n])]
          == s.callers[c := Stamping(s.files[..n])];
    }
  }

  lemma {:induction false} ReadAll<S, C>(setting: Setting<S, C>, s: State, c: nat, job: nat, n: nat)
    requires At(s, c) && s.callers[c] == Building(job, []) && n <= |s.files|
    ensures RunFrom(setting, s, Repeat(ReadFile(c), n))
         == Some(s.(callers := s.callers[c := Building(job, s.files[..n])]))
  {
    if n == 0 {
      assert s.callers[c := Building(job, s.files[..0])] == s.callers;
    } else {
      ReadAll(setting, s, c, job, n - 1);
      Then(setting, s, Repeat(ReadFile(c), n - 1), ReadFile(c));
      assert Repeat(ReadFile(c), n) == Repeat(ReadFile(c), n - 1) + [ReadFile(c)];
      assert s.files[..n - 1] + [s.files[n - 1]] == s.files[..n];
      assert s.callers[c := Building(job, s.files[..n - 1])][c := Building(job, s.files[..n])]
          == s.callers[c := Building(job, s.files[..n])];
    }
  }

  /** What a stretch of the caller's steps leaves: the same files, and the caller about to fetch. */
  predicate AboutToFetch(s: State, t: State, c: nat) {
    At(t, c) && t.callers[c].Fetching? && t.files == s.files && t.clock == s.clock && t.lock == None
  }

  lemma RebuildAlone<S, C>(setting: Setting<S, C>, s: State, c: nat, job: nat)
    requires At(s, c) && s.callers[c] == Building(job, []) && job < |s.log| && s.lock == None
    ensures var t := RunFrom(setting, s, Rebuilding(setting, s, c));
      && t.Some? && AboutToFetch(s, t.value, c) && t.value.seen == s.seen && t.value.seenAt == s.seenAt
      && t.value.current == if setting.source.load(s.files).Some? then BuiltClient(job, s.files) else s.current
  {
    var fileReads := Repeat(ReadFile(c), |s.files|);
    ReadAll(setting, s, c, job, |s.files|);
    assert s.files[..|s.files|] == s.files;
    Then(setting, s, fileReads, Load(c));
    if setting.source.load(s.files).Some? {
      Then(setting, s, fileReads + [Load(c)], Store(c));
      assert fileReads + [Load(c)] + [Store(c)] == fileReads + [Load(c), Store(c)];
    }
  }

  lemma LookAlone<S, C>(setting: Setting<S, C>, s: State, c: nat)
    requires At(s, c) && s.callers[c] == Stamping([])
    ensures var t := RunFrom(setting, s, Looking(setting, s, c));
      && t.Some? && AboutToFetch(s, t.value, c) && t.value.seen == s.files && t.value.seenAt == s.clock
      && t.value.current.from ==
           if Stamps(setting.source, s.files) != Stamps(setting.source, s.seen) && setting.source.load(s.files).Some?
           then s.files else s.current.from
  {
    var stamps := Repeat(Stamp(c), |s.files|);
    StampAll(setting, s, c, |s.files|);
    assert s.files[..|s.files|] == s.files;
    Then(setting, s, stamps, Compare(c));
    var t := RunFrom(setting, s, stamps + [Compare(c)]).value;
    if Stamps(setting.source, s.files) != Stamps(setting.source, s.seen) {
      RebuildAlone(setting, t, c, |s.log|);
      RunOn(setting, s, stamps + [Compare(c)], Rebuilding(setting, t, c));
    } else {
      assert stamps + [Compare(c)] + [] == stamps + [Compare(c)];
    }
  }

  lemma CallAndLook<S, C>(setting: Setting<S, C>, s: State)
    requires s.lock == None
    ensures var c := |s.callers|;
      RunFrom(setting, s, [Call, Look(c)]) == Some(ApplyLook(setting, s.(callers := s.callers + [Entering]), c))
  {
    var c := |s.callers|;
    Then(setting, s, [], Call);
    assert [] + [Call] == [Call];
    Then(setting, s, [Call], Look(c));
    assert [Call] + [Look(c)] == [Call, Look(c)];
  }

  /** The steps up to the fetch. */
  lemma BeforeFetch<S, C>(setting: Setting<S, C>, s: State)
    requires s.lock == None
    ensures var c := |s.callers|;
      var early := s.clock - s.seenAt < setting.period;
      var t := RunFrom(setting, s, [Call, Look(c)] + (if early then [] else Looking(setting, s, c)));
      && t.Some? && AboutToFetch(s, t.value, c)
      && (early ==> t.value.seen == s.seen && t.value.seenAt == s.seenAt && t.value.current == s.current)
      && (!early ==>
           && t.value.seen == s.files && t.value.seenAt == s.clock
           && t.value.current.from ==
                if Stamps(setting.source, s.files) != Stamps(setting.source, s.seen)
                   && setting.source.load(s.files).Some?
                then s.files else s.current.from)
  {
    var c := |s.callers|;
    CallAndLook(setting, s);
    var looked := RunFrom(setting, s, [Call, Look(c)]).value;
    var steps := [Call, Look(c)];
    if s.clock - s.seenAt < setting.period {
      assert steps + [] == steps;
    } else {
      LookAlone(setting, looked, c);
      RunOn(setting, s, steps, Looking(setting, looked, c));
    }
  }

  /**
    From any state with the lock free, the steps of one more caller, undisturbed, do to what the
    pool remembers what the sequential form does, and the caller gets the current client.
   */
  lemma UndisturbedIsSequential<S, C>(setting: Setting<S, C>, s: State)
    requires s.lock == None && setting.source.load(s.current.from).Some?
    ensures var t := RunFrom(setting, s, Steps(setting, s));
      && t.Some? && t.value.files == s.files
      && |s.callers| < |t.value.callers| && t.value.callers[|s.callers|].Finished?
      && t.value.callers[|s.callers|].got == t.value.current
      && MemoryOf(setting, t.value)
           == var loaded := setting.source.load(s.files);
              AfterCall(MemoryOf(setting, s), setting.period, s.clock, Stamps(setting.source, s.files),
                        if loaded.Some? then Some(loaded) else None)
  {
    var c := |s.callers|;
    BeforeFetch(setting, s);
    var steps := [Call, Look(c)] + (if s.clock - s.seenAt < setting.period then [] else Looking(setting, s, c));
    Then(setting, s, steps, Fetch(c));
  }
}
