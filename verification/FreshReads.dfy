/**
  Whether the client `Pool::client` of `src/outbound.rs` hands out is built from the files as they
  are: a condition on the order in which its rebuild read them and they changed.
 */
module FreshReads {
  import opened Octets
  import opened Files
  import opened ClientPool
  import opened StoreOrder

  /** How many files a caller has read. It reads them in order, for one rebuild. */
  function Reads(events: seq<Event>, c: nat): nat {
    if events == [] then 0
    else
      var n := |events| - 1;
      Reads(events[..n], c) + (if events[n] == ReadFile(c) then 1 else 0)
  }

  /** The file changed after the caller had read it. */
  predicate ChangedSinceRead(events: seq<Event>, c: nat, file: nat) {
    && events != []
    && var n := |events| - 1;
       ChangedSinceRead(events[..n], c, file) || (events[n] == Touch(file) && file < Reads(events[..n], c))
  }

  predicate NoneChangedSinceRead(events: seq<Event>, c: nat, files: nat) {
    forall file :: 0 <= file < files ==> !ChangedSinceRead(events, c, file)
  }

  /** What a caller has read is older than the files exactly where they changed since. */
  ghost predicate Copied(events: seq<Event>, files: Versions, c: nat, read: Versions) {
    && |read| == Reads(events, c) <= |files|
    && forall i :: 0 <= i < |files| ==>
         if i < |read| then read[i] <= files[i] && (read[i] == files[i] <==> !ChangedSinceRead(events, c, i))
         else !ChangedSinceRead(events, c, i)
  }

  /** What a caller in this phase has read. */
  ghost predicate Reading(events: seq<Event>, files: Versions, c: nat, p: Phase) {
    match p
    case Entering => Copied(events, files, c, [])
    case Stamping(_) => Copied(events, files, c, [])
    case Building(_, read) => Copied(events, files, c, read)
    case Storing(_, read) => Copied(events, files, c, read) && |read| == |files|
    case _ => true
  }

  ghost predicate CurrentCopied<S, C>(setting: Setting<S, C>, events: seq<Event>, s: State) {
    match LastStore(events)
    case None => s.current.from == setting.bound
    case Some(c) => Copied(events, s.files, c, s.current.from) && |s.current.from| == |s.files|
  }

  ghost predicate ReadsInv<S, C>(setting: Setting<S, C>, events: seq<Event>, s: State) {
    && (forall c :: 0 <= c < |s.callers| ==> Reading(events, s.files, c, s.callers[c]))
    && (forall c: nat :: |s.callers| <= c ==> Copied(events, s.files, c, []))
    && (LastStore(events).Some? ==> At(s, LastStore(events).value) && PastStore(s.callers[LastStore(events).value]))
    && CurrentCopied(setting, events, s)
  }

  predicate PastStore(p: Phase) {
    p.Fetching? || p.Finished?
  }

  lemma ReadsLast(events: seq<Event>, e: Event, c: nat)
    ensures Reads(events + [e], c) == Reads(events, c) + (if e == ReadFile(c) then 1 else 0)
    ensures forall i: nat :: ChangedSinceRead(events + [e], c, i) <==>
              ChangedSinceRead(events, c, i) || (e == Touch(i) && i < Reads(events, c))
  {
    assert (events + [e])[..|events|] == events;
  }

  /** A step that is not the caller's own keeps what is known of its reads. */
  lemma CopiedStep<S, C>(setting: Setting<S, C>, events: seq<Event>, s: State, e: Event, c: nat, read: Versions)
    requires Enabled(s, e) && e != ReadFile(c) && Copied(events, s.files, c, read)
    ensures Copied(events + [e], Apply(setting, s, e).files, c, read)
  {
    ReadsLast(events, e, c);
  }

  /** Reading a file copies its present version. */
  lemma CopiedRead(events: seq<Event>, files: Versions, c: nat, read: Versions)
    requires Copied(events, files, c, read) && |read| < |files|
    ensures Copied(events + [ReadFile(c)], files, c, read + [files[|read|]])
  {
    ReadsLast(events, ReadFile(c), c);
  }

  lemma ReadingStep<S, C>(setting: Setting<S, C>, events: seq<Event>, s: State, e: Event, c: nat)
    requires Enabled(s, e) && At(s, c) && Reading(events, s.files, c, s.callers[c])
    ensures var t := Apply(setting, s, e); At(t, c) && Reading(events + [e], t.files, c, t.callers[c])
  {
    if e == ReadFile(c) {
      CopiedRead(events, s.files, c, s.callers[c].read);
    } else {
      match s.callers[c]
      case Building(_, read) => CopiedStep(setting, events, s, e, c, read);
      case Storing(_, read) => CopiedStep(setting, events, s, e, c, read);
      case Entering => CopiedStep(setting, events, s, e, c, []);
      case Stamping(_) => CopiedStep(setting, events, s, e, c, []);
      case _ =>
    }
  }

  lemma CurrentStep<S, C>(setting: Setting<S, C>, events: seq<Event>, s: State, e: Event)
    requires Enabled(s, e) && ReadsInv(setting, events, s)
    ensures var t := Apply(setting, s, e);
      && CurrentCopied(setting, events + [e], t)
      && (LastStore(events + [e]).Some? ==>
            var c := LastStore(events + [e]).value; At(t, c) && PastStore(t.callers[c]))
  {
    StoreLast(events, e);
    if e.Store? {
      CopiedStep(setting, events, s, e, e.caller, s.callers[e.caller].read);
    } else if LastStore(events).Some? {
      CopiedStep(setting, events, s, e, LastStore(events).value, s.current.from);
    }
  }

  lemma ReadsStep<S, C>(setting: Setting<S, C>, events: seq<Event>, s: State, e: Event)
    requires Enabled(s, e) && ReadsInv(setting, events, s)
    ensures ReadsInv(setting, events + [e], Apply(setting, s, e))
  {
    var t := Apply(setting, s, e);
    CurrentStep(setting, events, s, e);
    forall c: nat | |s.callers| <= c ensures Copied(events + [e], t.files, c, []) {
      CopiedStep(setting, events, s, e, c, []);
    }
    forall c | 0 <= c < |t.callers| ensures Reading(events + [e], t.files, c, t.callers[c]) {
      if c < |s.callers| {
        ReadingStep(setting, events, s, e, c);
      }
    }
  }

  lemma {:induction false} ReadsReachable<S, C>(setting: Setting<S, C>, events: seq<Event>)
    requires Run(setting, events).Some?
    ensures ReadsInv(setting, events, Run(setting, events).value)
  {
    if events != [] {
      var n := |events| - 1;
      ReadsReachable(setting, events[..n]);
      ReadsStep(setting, events[..n], Run(setting, events[..n]).value, events[n]);
      assert events == events[..n] + [events[n]];
    }
  }

  /**
    At every moment of every run the current client was built from the files as they are exactly
    when no file changed after the caller that stored last had read it, or, when none stored, when
    the files are those the pool was made from.
   */
  lemma CurrentIsFreshExactly<S, C>(setting: Setting<S, C>, events: seq<Event>)
    requires Run(setting, events).Some?
    ensures var s := Run(setting, events).value;
      s.current.from == s.files <==>
      match LastStore(events)
      case None => s.files == setting.bound
      case Some(c) => NoneChangedSinceRead(events, c, |s.files|)
  {
    ReadsReachable(setting, events);
    var s := Run(setting, events).value;
    if LastStore(events).Some? {
      var c := LastStore(events).value;
      SameExactly(events, s.files, c, s.current.from);
    }
  }

  lemma SameExactly(events: seq<Event>, files: Versions, c: nat, read: Versions)
    requires Copied(events, files, c, read) && |read| == |files|
    ensures read == files <==> NoneChangedSinceRead(events, c, |files|)
  {
    if read == files {
      forall file | 0 <= file < |files| ensures !ChangedSinceRead(events, c, file) {
        assert read[file] == files[file];
      }
    } else {
      var file :| 0 <= file < |files| && read[file] != files[file];
      assert ChangedSinceRead(events, c, file);
    }
  }
}
