/**
  `Pool::client` of `src/outbound.rs`, called by any number of requests at once over files that
  change underneath. The look at the stamps happens under a lock; building and storing do not.

  Every caller goes through the steps of `Pool::client` one at a time, and reads stamps and files
  one file at a time, so callers and changes interleave in every way the code allows.
 */
module ClientPool {
  import opened Octets
  import opened Files

  // ── The sequential form ────────────────────────────────────────────────

  /** What a pool remembers: when the files were last looked at, their stamps then, and its client. */
  datatype Memory<Stamp, Client> = Memory(seenAt: nat, seen: seq<Stamp>, current: Client)

  /** One call of `Pool::client` at time `now`, when the stamps and the build are as given. */
  function AfterCall<Stamp(==), Client>(m: Memory<Stamp, Client>, period: nat, now: nat, stamps: seq<Stamp>,
                                        built: Option<Client>): Memory<Stamp, Client>
  {
    if now - m.seenAt < period then m
    else Memory(now, stamps, if stamps != m.seen && built.Some? then built.value else m.current)
  }

  class Pool<Stamp(==), Client> {
    var seenAt: nat
    var seen: seq<Stamp>
    var current: Client
    const period: nat

    constructor (at: nat, seen: seq<Stamp>, client: Client, period: nat)
      ensures Remembers() == Memory(at, seen, client) && this.period == period
    {
      seenAt, this.seen, current, this.period := at, seen, client, period;
    }

    function Remembers(): Memory<Stamp, Client>
      reads this
    {
      Memory(seenAt, seen, current)
    }

    method GetClient(now: nat, stamps: seq<Stamp>, built: Option<Client>) returns (client: Client)
      modifies this
      ensures Remembers() == AfterCall(old(Remembers()), period, now, stamps, built)
      ensures client == current
    {
      var changed := false;
      if now - seenAt >= period {
        seenAt := now;
        changed := stamps != seen;
        seen := stamps;
      }
      if changed {
        match built
        case Some(rebuilt) => current := rebuilt;
        case None =>
      }
      return current;
    }
  }

  // ── Many callers ───────────────────────────────────────────────────────

  /** Where a caller is. `job` numbers the rebuild it took on; rebuild 0 made the pool. */
  datatype Phase =
    | Entering
    | Stamping(stamped: Versions)
    | Building(job: nat, read: Versions)
    | Storing(job: nat, read: Versions)
    | Fetching(took: Option<nat>)
    | Finished(took: Option<nat>, got: BuiltClient)

  /** A client, by the rebuild that made it and the versions it was built from. */
  datatype BuiltClient = BuiltClient(job: nat, from: Versions)

  datatype RebuildOutcome = Unknown | Failed(from: Versions) | Loaded(from: Versions)

  /** An observed change: the versions whose stamps were seen, what came of the rebuild, who took it on. */
  datatype Entry = Entry(looked: Versions, outcome: RebuildOutcome, owner: nat)

  /**
    `log` and `newest` are bookkeeping: the changes observed so far (entry 0 stands for making the
    pool), and the latest rebuild stored so far. `overlapped` is set once a change was observed
    during a rebuild.
   */
  datatype State = State(
    files: Versions,
    clock: nat,
    seenAt: nat,
    seen: Versions,
    current: BuiltClient,
    lock: Option<nat>,
    callers: seq<Phase>,
    log: seq<Entry>,
    newest: nat,
    overlapped: bool)

  datatype Event =
    | Touch(file: nat)
    | Wait(time: nat)
    | Call
    | Look(caller: nat)
    | Stamp(caller: nat)
    | Compare(caller: nat)
    | ReadFile(caller: nat)
    | Load(caller: nat)
    | Store(caller: nat)
    | Fetch(caller: nat)

  datatype Setting<!S, !C> = Setting(source: Source<S, C>, period: nat, bound: Versions, first: Versions)

  /** `HttpClient::pooled`: the pool is built, and only then are the first stamps read. */
  function Initial<S, C>(setting: Setting<S, C>): State {
    State(setting.first, 0, 0, setting.first, BuiltClient(0, setting.bound), None, [],
          [Entry(setting.first, Loaded(setting.bound), 0)], 0, false)
  }

  predicate Working(p: Phase) {
    p.Building? || p.Storing?
  }

  predicate Busy(s: State) {
    exists c :: 0 <= c < |s.callers| && Working(s.callers[c])
  }

  predicate At(s: State, caller: nat) {
    caller < |s.callers|
  }

  predicate Enabled(s: State, e: Event) {
    match e
    case Touch(file) => file < |s.files|
    case Wait(_) => true
    case Call => true
    case Look(c) => At(s, c) && s.callers[c].Entering? && s.lock == None
    case Stamp(c) => At(s, c) && s.callers[c].Stamping? && |s.callers[c].stamped| < |s.files|
    case Compare(c) => At(s, c) && s.callers[c].Stamping? && |s.callers[c].stamped| == |s.files|
    case ReadFile(c) => At(s, c) && s.callers[c].Building? && |s.callers[c].read| < |s.files|
    case Load(c) => At(s, c) && s.callers[c].Building? && |s.callers[c].read| == |s.files| && s.callers[c].job < |s.log|
    case Store(c) => At(s, c) && s.callers[c].Storing?
    case Fetch(c) => At(s, c) && s.callers[c].Fetching?
  }

  function Move(s: State, c: nat, p: Phase): State
    requires At(s, c)
  {
    s.(callers := s.callers[c := p])
  }

  /** The period is not over: no look. Otherwise the lock stays with the caller until it compared. */
  function ApplyLook<S, C>(setting: Setting<S, C>, s: State, c: nat): State
    requires At(s, c)
  {
    if s.clock - s.seenAt < setting.period then Move(s, c, Fetching(None))
    else Move(s, c, Stamping([])).(lock := Some(c))
  }

  function ApplyCompare<S(==), C>(setting: Setting<S, C>, s: State, c: nat): State
    requires Enabled(s, Compare(c))
  {
    var looked := s.callers[c].stamped;
    var changed := Stamps(setting.source, looked) != Stamps(setting.source, s.seen);
    var unlocked := s.(lock := None, seenAt := s.clock, seen := looked);
    if changed then
      Move(unlocked, c, Building(|s.log|, [])).(
        log := s.log + [Entry(looked, Unknown, c)],
        overlapped := s.overlapped || Busy(s))
    else Move(unlocked, c, Fetching(None))
  }

  function ApplyLoad<S, C>(setting: Setting<S, C>, s: State, c: nat): State
    requires Enabled(s, Load(c))
  {
    var job, read := s.callers[c].job, s.callers[c].read;
    if setting.source.load(read).Some? then
      Move(s, c, Storing(job, read)).(log := s.log[job := s.log[job].(outcome := Loaded(read))])
    else Move(s, c, Fetching(Some(job))).(log := s.log[job := s.log[job].(outcome := Failed(read))])
  }

  function ApplyStore(s: State, c: nat): State
    requires Enabled(s, Store(c))
  {
    var job, read := s.callers[c].job, s.callers[c].read;
    Move(s, c, Fetching(Some(job))).(
      current := BuiltClient(job, read),
      newest := if job < s.newest then s.newest else job)
  }

  function Apply<S(==), C>(setting: Setting<S, C>, s: State, e: Event): State
    requires Enabled(s, e)
  {
    match e
    case Touch(file) => s.(files := s.files[file := s.files[file] + 1])
    case Wait(time) => s.(clock := s.clock + time)
    case Call => s.(callers := s.callers + [Entering])
    case Look(c) => ApplyLook(setting, s, c)
    case Stamp(c) => var p := s.callers[c]; Move(s, c, Stamping(p.stamped + [s.files[|p.stamped|]]))
    case Compare(c) => ApplyCompare(setting, s, c)
    case ReadFile(c) => var p := s.callers[c]; Move(s, c, Building(p.job, p.read + [s.files[|p.read|]]))
    case Load(c) => ApplyLoad(setting, s, c)
    case Store(c) => ApplyStore(s, c)
    case Fetch(c) => Move(s, c, Finished(s.callers[c].took, s.current))
  }

  /** The state `events` lead to from `s`, if every one of them is enabled in turn. */
  function RunFrom<S(==), C>(setting: Setting<S, C>, s: State, events: seq<Event>): Option<State> {
    if events == [] then Some(s)
    else
      var n := |events| - 1;
      var before :- RunFrom(setting, s, events[..n]);
      if Enabled(before, events[n]) then Some(Apply(setting, before, events[n])) else None
  }

  function Run<S(==), C>(setting: Setting<S, C>, events: seq<Event>): Option<State> {
    RunFrom(setting, Initial(setting), events)
  }

  lemma RunLast<S, C>(setting: Setting<S, C>, s: State, events: seq<Event>, e: Event)
    ensures RunFrom(setting, s, events + [e])
         == match RunFrom(setting, s, events)
            case None => None
            case Some(t) => if Enabled(t, e) then Some(Apply(setting, t, e)) else None
  {
    assert (events + [e])[..|events|] == events;
  }

  lemma Then<S, C>(setting: Setting<S, C>, s: State, events: seq<Event>, e: Event)
    requires RunFrom(setting, s, events).Some? && Enabled(RunFrom(setting, s, events).value, e)
    ensures RunFrom(setting, s, events + [e]) == Some(Apply(setting, RunFrom(setting, s, events).value, e))
  {
    RunLast(setting, s, events, e);
  }

  lemma {:induction false} RunOn<S, C>(setting: Setting<S, C>, s: State, events: seq<Event>, more: seq<Event>)
    requires RunFrom(setting, s, events).Some?
    ensures RunFrom(setting, s, events + more) == RunFrom(setting, RunFrom(setting, s, events).value, more)
  {
    if more == [] {
      assert events + more == events;
    } else {
      var n := |more| - 1;
      RunOn(setting, s, events, more[..n]);
      assert more == more[..n] + [more[n]];
      assert events + more == (events + more[..n]) + [more[n]];
      RunLast(setting, s, events + more[..n], more[n]);
      RunLast(setting, RunFrom(setting, s, events).value, more[..n], more[n]);
    }
  }

  // ── The invariant ──────────────────────────────────────────────────────

  /** The rebuild a caller took on. */
  function JobOf(p: Phase): Option<nat> {
    match p
    case Building(job, _) => Some(job)
    case Storing(job, _) => Some(job)
    case Fetching(took) => took
    case Finished(took, _) => took
    case _ => None
  }

  /** Every observed change has exactly one caller that took its rebuild on. */
  predicate OneRebuildEach(s: State) {
    && (forall k :: 1 <= k < |s.log| ==> At(s, s.log[k].owner) && JobOf(s.callers[s.log[k].owner]) == Some(k))
    && (forall c :: 0 <= c < |s.callers| && JobOf(s.callers[c]).Some? ==>
          var k := JobOf(s.callers[c]).value; 1 <= k < |s.log| && s.log[k].owner == c)
  }

  /** Reads so far: none of them later than the files are now, nor before `since`. */
  predicate ReadSince(since: Versions, read: Versions, files: Versions) {
    && |since| == |files| && |read| <= |files|
    && forall i :: 0 <= i < |read| ==> since[i] <= read[i] <= files[i]
  }

  /** What holds of a caller's phase. */
  predicate PhaseInv(s: State, c: nat)
    requires At(s, c)
  {
    match s.callers[c]
    case Stamping(stamped) => s.lock == Some(c) && ReadSince(s.seen, stamped, s.files)
    case Building(job, read) =>
      job < |s.log| && s.log[job].outcome == Unknown && ReadSince(s.log[job].looked, read, s.files)
    case Storing(job, read) => job < |s.log| && s.log[job].outcome == Loaded(read)
    case _ => true
  }

  predicate PhasesInv(s: State) {
    forall c :: 0 <= c < |s.callers| ==> PhaseInv(s, c)
  }

  /** What holds of an observed change. */
  predicate EntryInv<S, C>(setting: Setting<S, C>, s: State, k: nat)
    requires k < |s.log|
  {
    var entry := s.log[k];
    && Before(setting.first, entry.looked) && Before(entry.looked, s.files)
    && (k > 0 ==> entry.looked != setting.first)
    && (k == 0 ==> entry == Entry(setting.first, Loaded(setting.bound), 0))
    && (k > 0 && !entry.outcome.Unknown? ==>
          Before(entry.looked, entry.outcome.from) && Before(entry.outcome.from, s.files))
    && (entry.outcome.Loaded? ==> setting.source.load(entry.outcome.from).Some?)
    && (entry.outcome.Failed? ==> setting.source.load(entry.outcome.from).None?)
  }

  predicate LogInv<S, C>(setting: Setting<S, C>, s: State) {
    && s.log != []
    && forall k :: 0 <= k < |s.log| ==> EntryInv(setting, s, k)
  }

  predicate SeenInv<S(==), C>(setting: Setting<S, C>, s: State) {
    && s.log != []
    && Before(setting.first, s.seen) && Before(s.seen, s.files)
    && Stamps(setting.source, s.seen) == Stamps(setting.source, s.log[|s.log| - 1].looked)
  }

  /** A rebuild not yet stored is still on its way, in the hands of its caller. */
  predicate OnItsWay(s: State, k: nat)
    requires k < |s.log|
  {
    match s.log[k].outcome
    case Unknown => At(s, s.log[k].owner) && s.callers[s.log[k].owner].Building?
    case Loaded(_) => k <= s.newest || (At(s, s.log[k].owner) && s.callers[s.log[k].owner].Storing?)
    case Failed(_) => true
  }

  predicate StoreInv(s: State) {
    && s.current.job <= s.newest < |s.log|
    && s.log[s.current.job].outcome == Loaded(s.current.from)
    && s.log[s.newest].outcome.Loaded?
    && (forall k :: 0 <= k < |s.log| ==> OnItsWay(s, k))
    && (forall c :: 0 <= c < |s.callers| && s.callers[c].Finished? ==>
          var got := s.callers[c].got; got.job < |s.log| && s.log[got.job].outcome == Loaded(got.from))
  }

  /** Without overlap the one rebuild under way is the newest. */
  predicate AloneInv(s: State) {
    !s.overlapped ==>
      && s.current.job == s.newest
      && forall c :: 0 <= c < |s.callers| && Working(s.callers[c]) ==> s.callers[c].job == |s.log| - 1
  }

  predicate Inv<S(==), C>(setting: Setting<S, C>, s: State) {
    && LogInv(setting, s) && PhasesInv(s) && SeenInv(setting, s)
    && OneRebuildEach(s) && StoreInv(s) && AloneInv(s)
  }

  lemma InitialInv<S, C>(setting: Setting<S, C>)
    requires Before(setting.bound, setting.first) && setting.source.load(setting.bound).Some?
    ensures Inv(setting, Initial(setting))
  {
  }

  /** Changing files keeps what is known about reads made before. */
  lemma TouchKeeps<S, C>(setting: Setting<S, C>, s: State, file: nat)
    requires Inv(setting, s) && file < |s.files|
    ensures Inv(setting, Apply(setting, s, Touch(file)))
  {
    var t := Apply(setting, s, Touch(file));
    forall k | 0 <= k < |t.log| ensures EntryInv(setting, t, k) && OnItsWay(t, k) {
      assert EntryInv(setting, s, k) && OnItsWay(s, k);
    }
    forall c | 0 <= c < |t.callers| ensures PhaseInv(t, c) {
      assert PhaseInv(s, c);
    }
  }

  lemma WaitAndCallKeep<S, C>(setting: Setting<S, C>, s: State, e: Event)
    requires Inv(setting, s) && (e.Wait? || e.Call?)
    ensures Inv(setting, Apply(setting, s, e))
  {
    var t := Apply(setting, s, e);
    forall k | 0 <= k < |t.log| ensures EntryInv(setting, t, k) && OnItsWay(t, k) {
      assert EntryInv(setting, s, k) && OnItsWay(s, k);
    }
    forall c | 0 <= c < |t.callers| ensures PhaseInv(t, c) {
      if c < |s.callers| {
        assert PhaseInv(s, c);
      }
    }
  }

  /** A step of one caller that leaves the log, the stamps and the current client alone. */
  lemma MoveKeeps<S, C>(setting: Setting<S, C>, s: State, t: State, c: nat)
    requires Inv(setting, s) && At(s, c)
    requires At(t, c) && t == s.(callers := s.callers[c := t.callers[c]], lock := t.lock)
    requires PhaseInv(t, c)
    requires JobOf(t.callers[c]) == JobOf(s.callers[c])
    requires Working(t.callers[c]) == Working(s.callers[c]) && t.callers[c].Storing? == s.callers[c].Storing?
    requires t.callers[c].Finished? ==> t.callers[c].got == s.current
    requires t.lock == s.lock || s.lock == None
    ensures Inv(setting, t)
  {
    forall k | 0 <= k < |t.log| ensures EntryInv(setting, t, k) && OnItsWay(t, k) {
      assert EntryInv(setting, s, k) && OnItsWay(s, k);
    }
    forall d | 0 <= d < |t.callers| ensures PhaseInv(t, d) {
      assert PhaseInv(s, d);
    }
  }

  lemma LookKeeps<S, C>(setting: Setting<S, C>, s: State, c: nat)
    requires Inv(setting, s) && Enabled(s, Look(c))
    ensures Inv(setting, Apply(setting, s, Look(c)))
  {
    MoveKeeps(setting, s, Apply(setting, s, Look(c)), c);
  }

  lemma StampKeeps<S, C>(setting: Setting<S, C>, s: State, c: nat)
    requires Inv(setting, s) && Enabled(s, Stamp(c))
    ensures Inv(setting, Apply(setting, s, Stamp(c)))
  {
    assert PhaseInv(s, c);
    MoveKeeps(setting, s, Apply(setting, s, Stamp(c)), c);
  }

  lemma FetchKeeps<S, C>(setting: Setting<S, C>, s: State, c: nat)
    requires Inv(setting, s) && Enabled(s, Fetch(c))
    ensures Inv(setting, Apply(setting, s, Fetch(c)))
  {
    MoveKeeps(setting, s, Apply(setting, s, Fetch(c)), c);
  }

  lemma ReadFileKeeps<S, C>(setting: Setting<S, C>, s: State, c: nat)
    requires Inv(setting, s) && Enabled(s, ReadFile(c))
    ensures Inv(setting, Apply(setting, s, ReadFile(c)))
  {
    assert PhaseInv(s, c);
    assert EntryInv(setting, s, s.callers[c].job);
    MoveKeeps(setting, s, Apply(setting, s, ReadFile(c)), c);
  }

  // A look that ends.

  lemma CompareSees<S, C>(setting: Setting<S, C>, s: State, c: nat)
    requires Inv(setting, s) && Enabled(s, Compare(c))
    ensures var t := Apply(setting, s, Compare(c));
      && Before(setting.first, t.seen) && Before(t.seen, s.files)
      && (Stamps(setting.source, t.seen) != Stamps(setting.source, s.seen) ==> t.seen != setting.first)
  {
    assert PhaseInv(s, c);
    Between(setting.first, s.seen, s.callers[c].stamped);
  }

  lemma CompareKeepsLog<S, C>(setting: Setting<S, C>, s: State, c: nat)
    requires Inv(setting, s) && Enabled(s, Compare(c))
    ensures var t := Apply(setting, s, Compare(c)); LogInv(setting, t) && SeenInv(setting, t)
  {
    var t := Apply(setting, s, Compare(c));
    CompareSees(setting, s, c);
    forall k | 0 <= k < |t.log| ensures EntryInv(setting, t, k) {
      if k < |s.log| {
        assert EntryInv(setting, s, k);
      }
    }
  }

  lemma CompareKeepsPhases<S, C>(setting: Setting<S, C>, s: State, c: nat)
    requires Inv(setting, s) && Enabled(s, Compare(c))
    ensures PhasesInv(Apply(setting, s, Compare(c)))
  {
    var t := Apply(setting, s, Compare(c));
    CompareSees(setting, s, c);
    assert PhaseInv(s, c);
    forall d | 0 <= d < |t.callers| ensures PhaseInv(t, d) {
      assert PhaseInv(s, d);
    }
  }

  lemma CompareKeepsJobs<S, C>(setting: Setting<S, C>, s: State, c: nat)
    requires Inv(setting, s) && Enabled(s, Compare(c))
    ensures OneRebuildEach(Apply(setting, s, Compare(c)))
  {
    var t := Apply(setting, s, Compare(c));
    assert JobOf(s.callers[c]) == None;
    assert forall d :: 0 <= d < |s.callers| && d != c ==> t.callers[d] == s.callers[d];
    assert forall k :: 0 <= k < |s.log| ==> t.log[k] == s.log[k];
    forall k | 1 <= k < |t.log| ensures At(t, t.log[k].owner) && JobOf(t.callers[t.log[k].owner]) == Some(k) {
      if k < |s.log| {
        assert JobOf(s.callers[s.log[k].owner]) == Some(k);
      }
    }
    forall d | 0 <= d < |t.callers| && JobOf(t.callers[d]).Some?
      ensures var k := JobOf(t.callers[d]).value; 1 <= k < |t.log| && t.log[k].owner == d
    {
      if d != c {
        assert JobOf(s.callers[d]).Some?;
      }
    }
  }

  lemma CompareKeepsStores<S, C>(setting: Setting<S, C>, s: State, c: nat)
    requires Inv(setting, s) && Enabled(s, Compare(c))
    ensures StoreInv(Apply(setting, s, Compare(c)))
  {
    var t := Apply(setting, s, Compare(c));
    forall k | 0 <= k < |t.log| ensures OnItsWay(t, k) {
      if k < |s.log| {
        assert OnItsWay(s, k);
      }
    }
  }

  lemma CompareKeepsAlone<S, C>(setting: Setting<S, C>, s: State, c: nat)
    requires Inv(setting, s) && Enabled(s, Compare(c))
    ensures AloneInv(Apply(setting, s, Compare(c)))
  {
  }

  // A build that ends.

  lemma LoadEntry<S, C>(setting: Setting<S, C>, s: State, c: nat)
    requires Inv(setting, s) && Enabled(s, Load(c))
    ensures EntryInv(setting, Apply(setting, s, Load(c)), s.callers[c].job)
  {
    assert PhaseInv(s, c);
    var job, read := s.callers[c].job, s.callers[c].read;
    assert JobOf(s.callers[c]) == Some(job);
    assert EntryInv(setting, s, job);
    assert Before(s.log[job].looked, read) && Before(read, s.files);
  }

  lemma LoadKeepsLog<S, C>(setting: Setting<S, C>, s: State, c: nat)
    requires Inv(setting, s) && Enabled(s, Load(c))
    ensures var t := Apply(setting, s, Load(c)); LogInv(setting, t) && SeenInv(setting, t)
  {
    var t := Apply(setting, s, Load(c));
    LoadEntry(setting, s, c);
    forall k | 0 <= k < |t.log| ensures EntryInv(setting, t, k) {
      if k != s.callers[c].job {
        assert EntryInv(setting, s, k);
      }
    }
    assert t.log[|t.log| - 1].looked == s.log[|s.log| - 1].looked;
  }

  lemma LoadKeepsPhases<S, C>(setting: Setting<S, C>, s: State, c: nat)
    requires Inv(setting, s) && Enabled(s, Load(c))
    ensures PhasesInv(Apply(setting, s, Load(c)))
  {
    var t := Apply(setting, s, Load(c));
    forall d | 0 <= d < |t.callers| ensures PhaseInv(t, d) {
      assert PhaseInv(s, d);
      assert JobOf(s.callers[c]) == Some(s.callers[c].job);
    }
  }

  lemma LoadKeepsJobs<S, C>(setting: Setting<S, C>, s: State, c: nat)
    requires Inv(setting, s) && Enabled(s, Load(c))
    ensures OneRebuildEach(Apply(setting, s, Load(c)))
  {
    var t := Apply(setting, s, Load(c));
    assert JobOf(t.callers[c]) == JobOf(s.callers[c]);
    forall k | 1 <= k < |t.log| ensures At(t, t.log[k].owner) && JobOf(t.callers[t.log[k].owner]) == Some(k) {
      assert t.log[k].owner == s.log[k].owner;
      assert JobOf(s.callers[s.log[k].owner]) == Some(k);
    }
  }

  /** The rebuild whose build ended is on its way to be stored, or failed. */
  lemma LoadKeepsItsOwn<S, C>(setting: Setting<S, C>, s: State, c: nat)
    requires Inv(setting, s) && Enabled(s, Load(c))
    ensures OnItsWay(Apply(setting, s, Load(c)), s.callers[c].job)
    ensures 1 <= s.callers[c].job && s.log[s.callers[c].job].owner == c
    ensures s.log[s.callers[c].job].outcome == Unknown
  {
    assert PhaseInv(s, c);
    assert JobOf(s.callers[c]) == Some(s.callers[c].job);
  }

  /** The other rebuilds are in other hands. */
  lemma LoadKeepsOthers<S, C>(setting: Setting<S, C>, s: State, c: nat, k: nat)
    requires Inv(setting, s) && Enabled(s, Load(c))
    requires k < |s.log| && k != s.callers[c].job
    ensures OnItsWay(Apply(setting, s, Load(c)), k)
  {
    assert OnItsWay(s, k);
    if k == 0 {
      assert EntryInv(setting, s, 0);
    } else {
      assert JobOf(s.callers[s.log[k].owner]) == Some(k);
      assert s.log[k].owner != c;
    }
  }

  lemma LoadKeepsStores<S, C>(setting: Setting<S, C>, s: State, c: nat)
    requires Inv(setting, s) && Enabled(s, Load(c))
    ensures StoreInv(Apply(setting, s, Load(c)))
  {
    var t := Apply(setting, s, Load(c));
    var job := s.callers[c].job;
    LoadKeepsItsOwn(setting, s, c);
    forall k | 0 <= k < |t.log| ensures OnItsWay(t, k) {
      if k != job {
        LoadKeepsOthers(setting, s, c, k);
      }
    }
    assert forall k :: 0 <= k < |s.log| && k != job ==> t.log[k] == s.log[k];
  }

  lemma LoadKeepsAlone<S, C>(setting: Setting<S, C>, s: State, c: nat)
    requires Inv(setting, s) && Enabled(s, Load(c))
    ensures AloneInv(Apply(setting, s, Load(c)))
  {
  }

  // A store.

  lemma StoreKeepsLog<S, C>(setting: Setting<S, C>, s: State, c: nat)
    requires Inv(setting, s) && Enabled(s, Store(c))
    ensures var t := Apply(setting, s, Store(c));
      LogInv(setting, t) && SeenInv(setting, t) && PhasesInv(t) && OneRebuildEach(t)
  {
    var t := Apply(setting, s, Store(c));
    forall k | 0 <= k < |t.log| ensures EntryInv(setting, t, k) {
      assert EntryInv(setting, s, k);
    }
    forall d | 0 <= d < |t.callers| ensures PhaseInv(t, d) {
      assert PhaseInv(s, d);
    }
  }

  lemma StoreKeepsStores<S, C>(setting: Setting<S, C>, s: State, c: nat)
    requires Inv(setting, s) && Enabled(s, Store(c))
    ensures StoreInv(Apply(setting, s, Store(c)))
    ensures AloneInv(Apply(setting, s, Store(c)))
  {
    var t := Apply(setting, s, Store(c));
    assert PhaseInv(s, c);
    var job := s.callers[c].job;
    assert JobOf(s.callers[c]) == Some(job);
    forall k | 0 <= k < |t.log| ensures OnItsWay(t, k) {
      assert OnItsWay(s, k);
      if k != job && k >= 1 {
        assert JobOf(s.callers[s.log[k].owner]) == Some(k);
      }
    }
  }

  /** Every step keeps the invariant. */
  lemma EveryStepKeeps<S, C>(setting: Setting<S, C>, s: State, e: Event)
    requires Inv(setting, s) && Enabled(s, e)
    ensures Inv(setting, Apply(setting, s, e))
  {
    match e
    case Touch(file) => TouchKeeps(setting, s, file);
    case Wait(_) => WaitAndCallKeep(setting, s, e);
    case Call => WaitAndCallKeep(setting, s, e);
    case Compare(c) =>
      CompareKeepsLog(setting, s, c);
      CompareKeepsPhases(setting, s, c);
      CompareKeepsJobs(setting, s, c);
      CompareKeepsStores(setting, s, c);
      CompareKeepsAlone(setting, s, c);
    case Load(c) =>
      LoadKeepsLog(setting, s, c);
      LoadKeepsPhases(setting, s, c);
      LoadKeepsJobs(setting, s, c);
      LoadKeepsStores(setting, s, c);
      LoadKeepsAlone(setting, s, c);
    case Store(c) =>
      StoreKeepsLog(setting, s, c);
      StoreKeepsStores(setting, s, c);
    case ReadFile(c) => ReadFileKeeps(setting, s, c);
    case Look(c) => LookKeeps(setting, s, c);
    case Stamp(c) => StampKeeps(setting, s, c);
    case Fetch(c) => FetchKeeps(setting, s, c);
  }

  /** The pool is built before its first stamps are read, from files that load. */
  predicate Sound<S, C>(setting: Setting<S, C>) {
    Before(setting.bound, setting.first) && setting.source.load(setting.bound).Some?
  }

  lemma {:induction false} Reachable<S, C>(setting: Setting<S, C>, events: seq<Event>)
    requires Sound(setting) && Run(setting, events).Some?
    ensures Inv(setting, Run(setting, events).value)
  {
    if events == [] {
      InitialInv(setting);
    } else {
      var n := |events| - 1;
      Reachable(setting, events[..n]);
      EveryStepKeeps(setting, Run(setting, events[..n]).value, events[n]);
    }
  }

  // ── What follows ───────────────────────────────────────────────────────

  /** The latest rebuild that loaded, whether or not it is stored. */
  function NewestLoaded(log: seq<Entry>): nat {
    if log == [] then 0
    else if log[|log| - 1].outcome.Loaded? then |log| - 1
    else NewestLoaded(log[..|log| - 1])
  }

  lemma {:induction false} NewestLoadedIs(log: seq<Entry>, k: nat)
    requires k < |log| && log[k].outcome.Loaded?
    requires forall j :: k < j < |log| ==> !log[j].outcome.Loaded?
    ensures NewestLoaded(log) == k
  {
    var n := |log| - 1;
    if k < n {
      NewestLoadedIs(log[..n], k);
    }
  }

  /**
    In every interleaving the current client, and every client a caller got, is the result of a
    load that succeeded, and every observed change was given to exactly one caller to rebuild.
   */
  lemma EveryClientLoaded<S, C>(setting: Setting<S, C>, events: seq<Event>)
    requires Sound(setting) && Run(setting, events).Some?
    ensures var s := Run(setting, events).value;
      && setting.source.load(s.current.from).Some?
      && (forall c :: 0 <= c < |s.callers| && s.callers[c].Finished? ==>
            setting.source.load(s.callers[c].got.from).Some?)
      && OneRebuildEach(s)
  {
    Reachable(setting, events);
    var s := Run(setting, events).value;
    assert EntryInv(setting, s, s.current.job);
    forall c | 0 <= c < |s.callers| && s.callers[c].Finished?
      ensures setting.source.load(s.callers[c].got.from).Some?
    {
      assert EntryInv(setting, s, s.callers[c].got.job);
    }
  }

  lemma NewestIsStored<S, C>(setting: Setting<S, C>, s: State)
    requires Inv(setting, s) && !Busy(s)
    ensures NewestLoaded(s.log) == s.newest
    ensures forall k :: 0 <= k < |s.log| ==> !s.log[k].outcome.Unknown?
  {
    forall k | 0 <= k < |s.log|
      ensures !s.log[k].outcome.Unknown?
      ensures k > s.newest ==> !s.log[k].outcome.Loaded?
    {
      assert OnItsWay(s, k);
      assert At(s, s.log[k].owner) ==> !Working(s.callers[s.log[k].owner]);
    }
    NewestLoadedIs(s.log, s.newest);
  }
}
