/**
  How `Pool::client` of `src/outbound.rs` can keep a stale client: two rebuilds under way at once
  may store in either order, and a change before the first look goes unnoticed.
 */
module StaleClients {
  import opened Octets
  import opened Files
  import opened ClientPool
  import opened StoreOrder

  /** Nothing is being rebuilt and every stamp read so far is that of a file as it is. */
  predicate Settled(s: State) {
    && !Busy(s) && s.seen == s.files
    && forall c :: 0 <= c < |s.callers| && s.callers[c].Stamping? ==> s.callers[c].stamped <= s.files
  }

  lemma SettledStep<S, C>(setting: Setting<S, C>, s: State, e: Event)
    requires Settled(s) && Enabled(s, e) && !e.Touch?
    ensures var t := Apply(setting, s, e); Settled(t) && t.current == s.current && t.files == s.files
  {
    var t := Apply(setting, s, e);
    if !e.Wait? && !e.Call? {
      assert !Working(s.callers[e.caller]);
      if e.Compare? {
        assert s.callers[e.caller].stamped == s.files;
      }
    }
    forall c | 0 <= c < |t.callers| ensures !Working(t.callers[c]) {
      if c < |s.callers| {
        assert !Working(s.callers[c]);
      }
    }
  }

  /** A settled pool keeps its client, fresh or stale, until a file changes. */
  lemma {:induction false} SettledStays<S, C>(setting: Setting<S, C>, s: State, events: seq<Event>)
    requires Settled(s) && RunFrom(setting, s, events).Some?
    requires forall k :: 0 <= k < |events| ==> !events[k].Touch?
    ensures var t := RunFrom(setting, s, events).value; Settled(t) && t.current == s.current && t.files == s.files
  {
    if events != [] {
      var n := |events| - 1;
      SettledStays(setting, s, events[..n]);
      SettledStep(setting, RunFrom(setting, s, events[..n]).value, events[n]);
    }
  }

  /** One file, looked at every second, whose every version loads. */
  function OneFile(): Setting<nat, Versions> {
    Setting(Source((i, v) => v, v => Some(v)), 1, [0], [0])
  }

  /** A caller that finds the file changed, and builds from it. */
  function Rebuild(caller: nat): seq<Event> {
    [Wait(1), Touch(0), Look(caller), Stamp(caller), Compare(caller), ReadFile(caller), Load(caller)]
  }

  /** The file changes, and the caller reads its stamp. */
  function Noticing(caller: nat): seq<Event> {
    [Wait(1), Touch(0), Look(caller), Stamp(caller)]
  }

  lemma TwoSteps(s: State, e: Event, f: Event)
    requires Enabled(s, e) && Enabled(Apply(OneFile(), s, e), f)
    ensures RunFrom(OneFile(), s, [e, f]) == Some(Apply(OneFile(), Apply(OneFile(), s, e), f))
  {
    Then(OneFile(), s, [], e);
    assert [] + [e] == [e];
    Then(OneFile(), s, [e], f);
    assert [e] + [f] == [e, f];
  }

  lemma RebuildBegins(s: State, caller: nat)
    requires |s.files| == 1 && s.lock == None && At(s, caller) && s.callers[caller].Entering?
    requires s.clock >= s.seenAt
    ensures var v := [s.files[0] + 1];
      RunFrom(OneFile(), s, Noticing(caller)) == Some(s.(
        clock := s.clock + 1, files := v, lock := Some(caller), callers := s.callers[caller := Stamping(v)]))
  {
    TouchOne(s);
    TwoSteps(s, Wait(1), Touch(0));
    StampOne(RunFrom(OneFile(), s, [Wait(1), Touch(0)]).value, caller);
    RunOn(OneFile(), s, [Wait(1), Touch(0)], [Look(caller), Stamp(caller)]);
    assert [Wait(1), Touch(0)] + [Look(caller), Stamp(caller)] == Noticing(caller);
  }

  lemma TouchOne(s: State)
    requires |s.files| == 1
    ensures Enabled(s, Wait(1)) && Enabled(Apply(OneFile(), s, Wait(1)), Touch(0))
    ensures Apply(OneFile(), Apply(OneFile(), s, Wait(1)), Touch(0))
         == s.(clock := s.clock + 1, files := [s.files[0] + 1])
  {
    NextVersion(s.files);
  }

  lemma NextVersion(v: Versions)
    requires |v| == 1
    ensures v[0 := v[0] + 1] == [v[0] + 1]
  {
  }

  lemma StampOne(s: State, caller: nat)
    requires |s.files| == 1 && s.lock == None && At(s, caller) && s.callers[caller].Entering?
    requires s.clock > s.seenAt
    ensures RunFrom(OneFile(), s, [Look(caller), Stamp(caller)])
         == Some(s.(lock := Some(caller), callers := s.callers[caller := Stamping(s.files)]))
  {
    TwoSteps(s, Look(caller), Stamp(caller));
    assert [] + [s.files[0]] == s.files;
    assert s.callers[caller := Stamping([])][caller := Stamping(s.files)] == s.callers[caller := Stamping(s.files)];
  }

  lemma RebuildRuns(s: State, caller: nat)
    requires |s.files| == 1 && s.seen == s.files && s.lock == None && At(s, caller) && s.callers[caller].Entering?
    requires s.clock >= s.seenAt
    ensures var v := [s.files[0] + 1];
      RunFrom(OneFile(), s, Rebuild(caller)) == Some(s.(
        files := v, clock := s.clock + 1, seenAt := s.clock + 1, seen := v,
        callers := s.callers[caller := Storing(|s.log|, v)],
        log := s.log + [Entry(v, Loaded(v), caller)],
        overlapped := s.overlapped || Busy(s)))
  {
    RebuildBegins(s, caller);
    RebuildEnds(s, RunFrom(OneFile(), s, Noticing(caller)).value, caller);
    RunOn(OneFile(), s, Noticing(caller), [Compare(caller), ReadFile(caller), Load(caller)]);
    assert Rebuild(caller) == Noticing(caller) + [Compare(caller), ReadFile(caller), Load(caller)];
  }

  lemma CompareOne(s: State, s4: State, caller: nat)
    requires |s.files| == 1 && s.seen == s.files && s.lock == None && At(s, caller) && s.callers[caller].Entering?
    requires s4 == s.(clock := s.clock + 1, files := [s.files[0] + 1], lock := Some(caller),
                      callers := s.callers[caller := Stamping([s.files[0] + 1])])
    ensures var v := [s.files[0] + 1];
      RunFrom(OneFile(), s4, [Compare(caller)]) == Some(s.(
        files := v, clock := s.clock + 1, seenAt := s.clock + 1, seen := v,
        callers := s.callers[caller := Building(|s.log|, [])],
        log := s.log + [Entry(v, Unknown, caller)],
        overlapped := s.overlapped || Busy(s)))
  {
    var o, v := OneFile(), [s.files[0] + 1];
    BusyBut(s, s4, caller);
    assert Stamps(o.source, s.seen)[0] != Stamps(o.source, v)[0];
    Then(o, s4, [], Compare(caller));
    assert [] + [Compare(caller)] == [Compare(caller)];
    assert s4.callers[caller := Building(|s.log|, [])] == s.callers[caller := Building(|s.log|, [])];
  }

  lemma BuildOne(s: State, caller: nat, job: nat)
    requires |s.files| == 1 && At(s, caller) && s.callers[caller] == Building(job, []) && job < |s.log|
    ensures RunFrom(OneFile(), s, [ReadFile(caller), Load(caller)])
         == Some(s.(callers := s.callers[caller := Storing(job, s.files)],
                    log := s.log[job := s.log[job].(outcome := Loaded(s.files))]))
  {
    assert [] + [s.files[0]] == s.files;
    TwoSteps(s, ReadFile(caller), Load(caller));
    assert s.callers[caller := Building(job, s.files)][caller := Storing(job, s.files)]
        == s.callers[caller := Storing(job, s.files)];
  }

  lemma RebuildEnds(s: State, s4: State, caller: nat)
    requires |s.files| == 1 && s.seen == s.files && s.lock == None && At(s, caller) && s.callers[caller].Entering?
    requires s4 == s.(clock := s.clock + 1, files := [s.files[0] + 1], lock := Some(caller),
                      callers := s.callers[caller := Stamping([s.files[0] + 1])])
    ensures var v := [s.files[0] + 1];
      RunFrom(OneFile(), s4, [Compare(caller), ReadFile(caller), Load(caller)]) == Some(s.(
        files := v, clock := s.clock + 1, seenAt := s.clock + 1, seen := v,
        callers := s.callers[caller := Storing(|s.log|, v)],
        log := s.log + [Entry(v, Loaded(v), caller)],
        overlapped := s.overlapped || Busy(s)))
  {
    var v := [s.files[0] + 1];
    CompareOne(s, s4, caller);
    var s5 := RunFrom(OneFile(), s4, [Compare(caller)]).value;
    BuildOne(s5, caller, |s.log|);
    RunOn(OneFile(), s4, [Compare(caller)], [ReadFile(caller), Load(caller)]);
    assert [Compare(caller)] + [ReadFile(caller), Load(caller)] == [Compare(caller), ReadFile(caller), Load(caller)];
    assert s5.callers[caller := Storing(|s.log|, v)] == s.callers[caller := Storing(|s.log|, v)];
    assert s5.log[|s.log| := Entry(v, Loaded(v), caller)] == s.log + [Entry(v, Loaded(v), caller)];
  }

  lemma BusyBut(s: State, t: State, c: nat)
    requires At(s, c) && At(t, c) && t.callers == s.callers[c := t.callers[c]]
    requires !Working(s.callers[c]) && !Working(t.callers[c])
    ensures Busy(s) == Busy(t)
  {
    if Busy(s) {
      var d :| 0 <= d < |s.callers| && Working(s.callers[d]);
      assert Working(t.callers[d]);
    }
    if Busy(t) {
      var d :| 0 <= d < |t.callers| && Working(t.callers[d]);
      assert Working(s.callers[d]);
    }
  }

  lemma TwoCalls()
    ensures RunFrom(OneFile(), Initial(OneFile()), [Call, Call])
         == Some(Initial(OneFile()).(callers := [Entering, Entering]))
  {
    var o := OneFile();
    TwoSteps(Initial(o), Call, Call);
    assert [Entering] + [Entering] == [Entering, Entering];
    assert Apply(o, Apply(o, Initial(o), Call), Call).callers == [Entering, Entering];
  }

  function Overlapping(): seq<Event> {
    ([Call, Call] + Rebuild(0)) + Rebuild(1)
  }

  lemma FirstRebuild()
    ensures var s := RunFrom(OneFile(), Initial(OneFile()), [Call, Call] + Rebuild(0));
      && s.Some? && s.value.files == s.value.seen == [1] && s.value.newest == 0 && s.value.lock == None
      && s.value.clock == s.value.seenAt == 1
      && s.value.callers == [Storing(1, [1]), Entering] && |s.value.log| == 2
  {
    TwoCalls();
    var s1 := Initial(OneFile()).(callers := [Entering, Entering]);
    RebuildRuns(s1, 0);
    RunOn(OneFile(), Initial(OneFile()), [Call, Call], Rebuild(0));
  }

  lemma OverlapRuns()
    ensures var s := RunFrom(OneFile(), Initial(OneFile()), Overlapping());
      && s.Some? && s.value.files == s.value.seen == [2] && s.value.newest == 0
      && s.value.callers == [Storing(1, [1]), Storing(2, [2])]
  {
    FirstRebuild();
    var first := [Call, Call] + Rebuild(0);
    var s2 := RunFrom(OneFile(), Initial(OneFile()), first).value;
    RebuildRuns(s2, 1);
    RunOn(OneFile(), Initial(OneFile()), first, Rebuild(1));
  }

  lemma StoreOutOfOrder(s: State)
    requires s.callers == [Storing(1, [1]), Storing(2, [2])] && s.newest == 0
    ensures var t := RunFrom(OneFile(), s, [Store(1), Store(0)]);
      && t.Some? && t.value == s.(callers := [Fetching(Some(1)), Fetching(Some(2))],
                                  current := BuiltClient(1, [1]), newest := 2)
  {
    TwoSteps(s, Store(1), Store(0));
  }

  /**
    Two callers rebuild at once and store in the other order: the file loads, its last version was
    seen and built, and yet the client of the version before is current, and stays so until the
    file changes again.
   */
  lemma OverlapLeavesStaleClient(more: seq<Event>)
    requires forall k :: 0 <= k < |more| ==> !more[k].Touch?
    ensures var events := Overlapping() + [Store(1), Store(0)];
      && Run(OneFile(), events).Some? && Overtaken(events)
      && (Run(OneFile(), events + more).Some? ==>
            var s := Run(OneFile(), events + more).value;
            !Busy(s) && s.seen == s.files == [2] && s.current == BuiltClient(1, [1]))
  {
    var o := OneFile();
    OverlapRuns();
    var s3 := RunFrom(o, Initial(o), Overlapping()).value;
    StoreOutOfOrder(s3);
    RunOn(o, Initial(o), Overlapping(), [Store(1), Store(0)]);
    var events := Overlapping() + [Store(1), Store(0)];
    var s4 := RunFrom(o, s3, [Store(1), Store(0)]).value;
    NewestUnlessOvertaken(o, events);
    RunOn(o, Initial(o), events, more);
    if Run(o, events + more).Some? {
      SettledStays(o, s4, more);
    }
  }

  /** The file changes once, after the pool was made and before its stamps were first read. */
  lemma ChangeBeforeFirstLookIsMissed(events: seq<Event>)
    requires forall k :: 0 <= k < |events| ==> !events[k].Touch?
    ensures var setting := OneFile().(first := [1]);
      Run(setting, events).Some? ==>
        var s := Run(setting, events).value;
        s.seen == s.files == [1] && s.current.from == [0]
  {
    var setting := OneFile().(first := [1]);
    if Run(setting, events).Some? {
      SettledStays(setting, Initial(setting), events);
    }
  }
}
