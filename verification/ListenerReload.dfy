/**
  `reload_listener` of `src/runtime.rs`: every tick looks at the stamps of a listener's TLS files
  and, when they changed, builds from the files and serves the result.

  The loop is one task, so a run is the list of its ticks, each with the version of every file its
  stamp was read at and the version the build read. Files change at any time between and during
  these reads; all the model asks is that a later read sees no earlier version.
 */
module ListenerReload {
  import opened Octets
  import opened Files

  datatype State<Stamp, Config> = Loop(seen: seq<Stamp>, served: Config)

  /** One turn of the loop: `now` was read first, `built` is what building yields if it is tried. */
  function Turn<Stamp(==), Config>(s: State<Stamp, Config>, now: seq<Stamp>, built: Option<Config>)
    : State<Stamp, Config>
  {
    if now == s.seen then s
    else Loop(now, if built.Some? then built.value else s.served)
  }

  /** `looked`: the versions whose stamps were read. `read`: the versions the build read. */
  datatype Tick = Tick(looked: Versions, read: Versions)

  /** The loop after `ticks`: bound with a build from `bound`, its first stamps read at `first`. */
  function Run<Stamp(==), Config>(source: Source<Stamp, Config>, bound: Versions, first: Versions, ticks: seq<Tick>)
    : State<Stamp, Config>
    requires source.load(bound).Some?
  {
    if ticks == [] then Loop(Stamps(source, first), source.load(bound).value)
    else
      var n := |ticks| - 1;
      Turn(Run(source, bound, first, ticks[..n]), Stamps(source, ticks[n].looked), source.load(ticks[n].read))
  }

  class Listener<Stamp(==), Config> {
    var seen: seq<Stamp>
    var served: Config

    constructor (seen: seq<Stamp>, served: Config)
      ensures this.seen == seen && this.served == served
    {
      this.seen, this.served := seen, served;
    }

    function Current(): State<Stamp, Config>
      reads this
    {
      Loop(seen, served)
    }

    /** The body of the loop after the interval ticked. */
    method TurnOnce(now: seq<Stamp>, built: Option<Config>)
      modifies this
      ensures Current() == Turn(old(Current()), now, built)
    {
      if now == seen { return; }
      seen := now;
      match built
      case Some(config) => served := config;
      case None =>
    }

    /** `reload_listener`, for as many ticks as it gets: it first looks at the stamps, then waits. */
    method Reload(source: Source<Stamp, Config>, bound: Versions, first: Versions, ticks: seq<Tick>)
      requires source.load(bound) == Some(served)
      modifies this
      ensures Current() == Run(source, bound, first, ticks)
    {
      seen := Stamps(source, first);
      for k := 0 to |ticks|
        invariant Current() == Run(source, bound, first, ticks[..k])
      {
        assert ticks[..k + 1][..k] == ticks[..k];
        TurnOnce(Stamps(source, ticks[k].looked), source.load(ticks[k].read));
      }
      assert ticks[..|ticks|] == ticks;
    }
  }

  /** The versions whose stamps were read last. */
  function Looked(first: Versions, ticks: seq<Tick>): Versions {
    if ticks == [] then first else ticks[|ticks| - 1].looked
  }

  /** The versions read last, by a build or by the first look. */
  function LastRead(first: Versions, ticks: seq<Tick>): Versions {
    if ticks == [] then first else ticks[|ticks| - 1].read
  }

  /** Reads happen in this order: bind, first stamps, then for each tick its stamps and its build. */
  predicate InOrder(bound: Versions, first: Versions, ticks: seq<Tick>) {
    if ticks == [] then Before(bound, first)
    else
      var n := |ticks| - 1;
      && InOrder(bound, first, ticks[..n])
      && Before(LastRead(first, ticks[..n]), ticks[n].looked)
      && Before(ticks[n].looked, ticks[n].read)
  }

  /** The reference: the versions the latest build that succeeded read. */
  function LatestSuccess<Stamp(==), Config>(
    source: Source<Stamp, Config>, bound: Versions, first: Versions, ticks: seq<Tick>): Versions
  {
    if ticks == [] then bound
    else
      var n := |ticks| - 1;
      var changed := Stamps(source, ticks[n].looked) != Stamps(source, Looked(first, ticks[..n]));
      if changed && source.load(ticks[n].read).Some? then ticks[n].read
      else LatestSuccess(source, bound, first, ticks[..n])
  }

  /** Over every run the latest successful build is served, and a failed one never replaces it. */
  lemma {:induction false} ServesLatestSuccess<Stamp, Config>(
    source: Source<Stamp, Config>, bound: Versions, first: Versions, ticks: seq<Tick>)
    requires source.load(bound).Some?
    ensures var s := Run(source, bound, first, ticks);
      && s.seen == Stamps(source, Looked(first, ticks))
      && source.load(LatestSuccess(source, bound, first, ticks)) == Some(s.served)
  {
    if ticks != [] {
      ServesLatestSuccess(source, bound, first, ticks[..|ticks| - 1]);
    }
  }

  lemma {:induction false} ReadsAreLater(bound: Versions, first: Versions, ticks: seq<Tick>)
    requires InOrder(bound, first, ticks)
    ensures Before(first, Looked(first, ticks)) && Before(Looked(first, ticks), LastRead(first, ticks))
  {
    if ticks != [] {
      var n := |ticks| - 1;
      ReadsAreLater(bound, first, ticks[..n]);
      Between(first, Looked(first, ticks[..n]), LastRead(first, ticks[..n]));
      Between(first, LastRead(first, ticks[..n]), ticks[n].looked);
    }
  }

  lemma {:induction false} OriginOnceQuiet<Stamp, Config>(
    source: Source<Stamp, Config>, bound: Versions, first: Versions, ticks: seq<Tick>, current: Versions)
    requires Tells(source, current) && source.load(current).Some?
    requires InOrder(bound, first, ticks)
    requires Looked(first, ticks) == LastRead(first, ticks) == current
    ensures LatestSuccess(source, bound, first, ticks) == if current != first then current else bound
  {
    if ticks != [] {
      var n := |ticks| - 1;
      var previous := Looked(first, ticks[..n]);
      var read := LastRead(first, ticks[..n]);
      ReadsAreLater(bound, first, ticks[..n]);
      Between(previous, read, current);
      Between(first, previous, current);
      StampsAgree(source, previous, current);
      if Stamps(source, previous) == Stamps(source, current) {
        assert previous == current;
        OriginOnceQuiet(source, bound, first, ticks[..n], current);
      }
    }
  }

  /**
    After a tick during which the files no longer changed, and if they load, the listener serves a
    build of them, exactly unless they last changed between the build that bound the listener and
    the loop's first look at the stamps: then it goes on serving what it bound with.
   */
  lemma QuietTickServesFiles<Stamp, Config>(
    source: Source<Stamp, Config>, bound: Versions, first: Versions, ticks: seq<Tick>, current: Versions)
    requires Tells(source, current) && source.load(bound).Some? && source.load(current).Some?
    requires InOrder(bound, first, ticks)
    requires ticks != [] && ticks[|ticks| - 1] == Tick(current, current)
    ensures var origin := LatestSuccess(source, bound, first, ticks);
      && source.load(origin) == Some(Run(source, bound, first, ticks).served)
      && (origin == current <==> current != first || bound == first)
      && (origin != current ==> origin == bound)
  {
    OriginOnceQuiet(source, bound, first, ticks, current);
    ServesLatestSuccess(source, bound, first, ticks);
  }

  /** Every version of one file carries a stamp of its own and loads. */
  function OneFile(): Source<nat, Versions> {
    Source((i, v) => v, v => Some(v))
  }

  /** The file changes once, between the bind and the first look: no tick ever serves the change. */
  lemma ChangeBeforeFirstLookIsMissed(n: nat)
    ensures var ticks := seq(n, _ => Tick([1], [1]));
      && InOrder([0], [1], ticks) && Run(OneFile(), [0], [1], ticks).served == [0]
  {
    var ticks := seq(n, _ => Tick([1], [1]));
    if n > 0 {
      ChangeBeforeFirstLookIsMissed(n - 1);
      assert ticks[..n - 1] == seq(n - 1, _ => Tick([1], [1]));
    }
    ServesLatestSuccess(OneFile(), [0], [1], ticks);
    if n > 0 {
      assert ticks[n - 1].looked == Looked([1], ticks[..n - 1]);
    }
  }
}
