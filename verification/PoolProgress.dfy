/** What the pool supervisor gets done: when an empty pool is given a child again,
    when a slot is granted, and what each operation leaves if nothing interrupts it. */
module PoolProgress {
  import opened Common
  import opened Lists
  import opened Pool
  import opened PoolSafety

  // --------------------------------------------------------- restarts, by history

  /** Something that leaves the pool in want of a child: one was seen to have exited,
      was taken from its attempt, or was given up by an acquisition. */
  predicate Demands(w: World, e: Event) {
    || (w.op == Unlocked && w.fields.process.Some? && e == BeginLiveness(true))
    || (w.op == Unlocked && w.fields.process.Some? && e.BeginReclaim? && e.attempt in w.fields.busy)
    || (w.op.Checked? && !w.op.running && e == Recover)
  }

  /** Something that ends the want: a start probed to its end, or a shutdown. */
  predicate Settles(w: World, e: Event) {
    || (w.op.Probing? && e.Probe? && e.outcome.Some?)
    || (w.op == Unlocked && e == BeginShutdown)
  }

  /** Whether a child is wanted after a run, told from what happened in it alone. */
  function Owed(w: World, events: seq<Event>, owed: bool): bool
    decreases |events|
  {
    if events == [] then owed
    else Owed(Step(w, events[0]), events[1..], Demands(w, events[0]) || (owed && !Settles(w, events[0])))
  }

  /** The restart flag says just that, and a start under way was wanted. */
  predicate OwedInv(w: World, owed: bool) {
    && w.fields.restart == owed
    && (w.op.Starting? ==> owed)
    && ((w.op.Terminating? || w.op.Verified? || w.op.Swept?) && w.op.reason.ForAcquire? ==> owed)
  }

  lemma {:induction false} OwedOnBegin(w: World, e: Event, owed: bool)
    requires Inv(w) && OwedInv(w, owed) && w.op == Unlocked
    ensures OwedInv(Begin(w, e), Demands(w, e) || (owed && !Settles(w, e)))
  {
  }

  lemma {:induction false} OwedOnStart(w: World, e: Event, owed: bool)
    requires Inv(w) && OwedInv(w, owed) && w.op != Unlocked
    requires e.AnnounceStart? || e.Spawn? || e.Record? || e.Probe? || e.ReadReady? || e.Grant? || e.RefreshOutcome?
    ensures OwedInv(StepStart(w, e), Demands(w, e) || (owed && !Settles(w, e)))
  {
  }

  lemma {:induction false} OwedOnTermination(w: World, e: Event, owed: bool)
    requires Inv(w) && OwedInv(w, owed) && w.op != Unlocked
    requires !(e.AnnounceStart? || e.Spawn? || e.Record? || e.Probe? || e.ReadReady? || e.Grant? || e.RefreshOutcome?)
    ensures OwedInv(StepTermination(w, e), Demands(w, e) || (owed && !Settles(w, e)))
  {
  }

  lemma {:induction false} OwedOnDrop(w: World, e: Event, owed: bool)
    requires Inv(w) && OwedInv(w, owed) && (e.DropLease? || e.Abort?)
    ensures OwedInv(Step(w, e), Demands(w, e) || (owed && !Settles(w, e)))
  {
  }

  lemma {:induction false} OwedStep(w: World, e: Event, owed: bool)
    requires Inv(w) && OwedInv(w, owed)
    ensures OwedInv(Step(w, e), Demands(w, e) || (owed && !Settles(w, e)))
  {
    if e.DropLease? || e.Abort? {
      OwedOnDrop(w, e, owed);
    } else if w.op == Unlocked {
      OwedOnBegin(w, e, owed);
    } else if e.AnnounceStart? || e.Spawn? || e.Record? || e.Probe? || e.ReadReady? || e.Grant? || e.RefreshOutcome? {
      OwedOnStart(w, e, owed);
    } else {
      OwedOnTermination(w, e, owed);
    }
  }

  lemma {:induction false} OwedRun(w: World, events: seq<Event>, owed: bool)
    requires Inv(w) && OwedInv(w, owed)
    ensures Inv(Run(w, events)) && OwedInv(Run(w, events), Owed(w, events, owed))
    decreases |events|
  {
    if events != [] {
      StepInv(w, events[0]);
      OwedStep(w, events[0], owed);
      OwedRun(Step(w, events[0]), events[1..], Demands(w, events[0]) || (owed && !Settles(w, events[0])));
    }
  }

  lemma {:induction false} OwedFromStart(events: seq<Event>)
    ensures Inv(Run(INITIAL, events)) && OwedInv(Run(INITIAL, events), Owed(INITIAL, events, false))
  {
    InitialInv();
    OwedRun(INITIAL, events, false);
  }

  /** After any run: a liveness check starts a child in an empty pool exactly if one is
      wanted, and otherwise leaves the pool alone. */
  lemma {:induction false} EmptyPoolIsRestartedIff(events: seq<Event>, exitStatus: bool)
    requires Run(INITIAL, events).op == Unlocked && Run(INITIAL, events).fields.process == None
    ensures var w := Run(INITIAL, events);
      Step(w, BeginLiveness(exitStatus)) ==
        if Owed(INITIAL, events, false) then w.(op := Starting(ForLiveness)) else w
  {
    OwedFromStart(events);
  }

  /** After any run: once a child's termination has been verified, the operation goes
      on to start another for an acquisition, and for a liveness check exactly if one
      is wanted; an unload or a reclaim is over. */
  lemma {:induction false} CleanedPoolIsRestartedIff(events: seq<Event>)
    requires Run(INITIAL, events).op.Swept?
    ensures var w := Run(INITIAL, events);
      Step(w, Continue).op == match w.op.reason
        case ForAcquire(_) => Starting(w.op.reason)
        case ForLiveness => if Owed(INITIAL, events, false) then Starting(ForLiveness) else Unlocked
        case ForIdle => Unlocked
        case ForReclaim(_) => Unlocked
  {
    OwedFromStart(events);
  }

  // ---------------------------------------------------------- suspects, by history

  /** Something after which the pool's child may not be trusted. */
  predicate Taints(w: World, e: Event) {
    || (w.op == Unlocked && w.fields.process.Some? && e == BeginLiveness(true))
    || (w.op.Spawning? && e.Spawn? && e.child.Some? && e.child.value !in w.live)
    || (w.op.Restoring? && e == PutBack)
    || (w.op.Terminating? && e == Abort)
  }

  predicate Clears(w: World, e: Event) {
    w.op.Probing? && e.Probe? && e.outcome.Some?
  }

  function Suspect(w: World, events: seq<Event>, suspect: bool): bool
    decreases |events|
  {
    if events == [] then suspect
    else Suspect(Step(w, events[0]), events[1..], Taints(w, events[0]) || (suspect && !Clears(w, events[0])))
  }

  predicate SuspectInv(w: World, suspect: bool) {
    w.fields.process.Some? ==> w.fields.pending == suspect
  }

  lemma {:induction false} SuspectOnBegin(w: World, e: Event, suspect: bool)
    requires Inv(w) && SuspectInv(w, suspect) && w.op == Unlocked
    ensures SuspectInv(Begin(w, e), Taints(w, e) || (suspect && !Clears(w, e)))
  {
  }

  lemma {:induction false} SuspectOnStart(w: World, e: Event, suspect: bool)
    requires Inv(w) && SuspectInv(w, suspect) && w.op != Unlocked
    requires e.AnnounceStart? || e.Spawn? || e.Record? || e.Probe? || e.ReadReady? || e.Grant? || e.RefreshOutcome?
    ensures SuspectInv(StepStart(w, e), Taints(w, e) || (suspect && !Clears(w, e)))
  {
  }

  lemma {:induction false} SuspectOnTermination(w: World, e: Event, suspect: bool)
    requires Inv(w) && SuspectInv(w, suspect) && w.op != Unlocked
    requires !(e.AnnounceStart? || e.Spawn? || e.Record? || e.Probe? || e.ReadReady? || e.Grant? || e.RefreshOutcome?)
    requires !e.Abort?
    ensures SuspectInv(StepTermination(w, e), Taints(w, e) || (suspect && !Clears(w, e)))
  {
  }

  lemma {:induction false} SuspectOnDrop(w: World, e: Event, suspect: bool)
    requires Inv(w) && SuspectInv(w, suspect) && (e.DropLease? || e.Abort?)
    ensures SuspectInv(Step(w, e), Taints(w, e) || (suspect && !Clears(w, e)))
  {
  }

  lemma {:induction false} SuspectStep(w: World, e: Event, suspect: bool)
    requires Inv(w) && SuspectInv(w, suspect)
    ensures SuspectInv(Step(w, e), Taints(w, e) || (suspect && !Clears(w, e)))
  {
    if e.DropLease? || e.Abort? {
      SuspectOnDrop(w, e, suspect);
    } else if w.op == Unlocked {
      SuspectOnBegin(w, e, suspect);
    } else if e.AnnounceStart? || e.Spawn? || e.Record? || e.Probe? || e.ReadReady? || e.Grant? || e.RefreshOutcome? {
      SuspectOnStart(w, e, suspect);
    } else {
      SuspectOnTermination(w, e, suspect);
    }
  }

  lemma {:induction false} SuspectRun(w: World, events: seq<Event>, suspect: bool)
    requires Inv(w) && SuspectInv(w, suspect)
    ensures Inv(Run(w, events)) && SuspectInv(Run(w, events), Suspect(w, events, suspect))
    decreases |events|
  {
    if events != [] {
      StepInv(w, events[0]);
      SuspectStep(w, events[0], suspect);
      SuspectRun(Step(w, events[0]), events[1..], Taints(w, events[0]) || (suspect && !Clears(w, events[0])));
    }
  }

  /** After any run: a liveness check takes the child away exactly if it has exited, or
      was spawned or put back without a completed probe since. */
  lemma {:induction false} SuspectChildIsTakenIff(events: seq<Event>, exitStatus: bool)
    requires Run(INITIAL, events).op == Unlocked && Run(INITIAL, events).fields.process.Some?
    ensures Step(Run(INITIAL, events), BeginLiveness(exitStatus)).op ==
      if exitStatus || Suspect(INITIAL, events, false) then TakingExited else Unlocked
  {
    InitialInv();
    SuspectRun(INITIAL, events, false);
  }

  // ------------------------------------------------------- operations undisturbed

  lemma {:induction false} RunFirst(w: World, e: Event, rest: seq<Event>)
    ensures Run(w, [e] + rest) == Run(Step(w, e), rest)
  {
    assert ([e] + rest)[1..] == rest;
  }

  lemma {:induction false} RunTwo(w: World, a: Event, b: Event)
    ensures Run(w, [a, b]) == Step(Step(w, a), b)
  {
    assert [a, b] == [a] + [b] && [b] == [b] + [];
    RunFirst(w, a, [b]);
    RunFirst(Step(w, a), b, []);
  }

  lemma {:induction false} RunThree(w: World, a: Event, b: Event, c: Event)
    ensures Run(w, [a, b, c]) == Step(Step(Step(w, a), b), c)
  {
    assert [a, b, c] == [a] + [b, c];
    RunFirst(w, a, [b, c]);
    RunTwo(Step(w, a), b, c);
  }

  /** A start that goes well: the child is spawned and recorded, then found ready. */
  function Spawning(d: Child): seq<Event> {
    [AnnounceStart, Spawn(Some(d))]
  }

  function Probing(): seq<Event> {
    [Record(true), Probe(Some(true))]
  }

  function Launched(w: World, d: Child): World {
    Run(Run(w, Spawning(d)), Probing())
  }

  /** What serves: one child, one free slot. */
  function Serving(d: Child): Fields {
    Fields(Some(d), true, true, 1, 1, false, false, [])
  }

  lemma {:induction false} SpawningRecords(w: World, reason: Reason, d: Child)
    requires Inv(w) && w.op == Starting(reason) && d !in w.live
    ensures Run(w, Spawning(d)) == w.(
      fields := Fields(Some(d), false, false, 0, 0, true, true, []), op := Recording(reason), live := w.live + {d})
  {
    RunTwo(w, AnnounceStart, Spawn(Some(d)));
  }

  lemma {:induction false} ProbingServes(w: World, reason: Reason, d: Child)
    requires w.op == Recording(reason) && w.fields == Fields(Some(d), false, false, 0, 0, true, true, [])
    ensures Run(w, Probing()) == w.(
      fields := Serving(d), op := if reason.ForAcquire? then Started(reason.attempt) else Unlocked, holder := None)
  {
    RunTwo(w, Record(true), Probe(Some(true)));
  }

  lemma {:induction false} LaunchServes(w: World, reason: Reason, d: Child)
    requires Inv(w) && w.op == Starting(reason) && d !in w.live
    ensures Launched(w, d) == w.(fields := Serving(d), live := w.live + {d}, holder := None,
                                 op := if reason.ForAcquire? then Started(reason.attempt) else Unlocked)
  {
    SpawningRecords(w, reason, d);
    ProbingServes(Run(w, Spawning(d)), reason, d);
  }

  /** No child, nothing published. */
  function Vacant(restart: bool): Fields {
    Fields(None, false, false, 0, 0, restart, false, [])
  }

  /** A termination that goes well. */
  function Cleaning(): seq<Event> {
    [Terminated(true), ClearPending, Continue]
  }

  lemma {:induction false} TerminationIsVerified(w: World, c: Child, reason: Reason)
    requires w.op == Terminating(c, reason)
    ensures Step(Step(w, Terminated(true)), ClearPending)
      == w.(fields := w.fields.(pending := false), live := w.live - {c}, op := Swept(reason))
  {
  }

  lemma {:induction false} SweepEmpties(w: World, reason: Reason)
    requires w.op == Swept(reason)
    ensures Step(w, Continue) == w.(
      fields := Vacant(w.fields.restart), holder := None,
      op := if reason.ForAcquire? || (reason.ForLiveness? && w.fields.restart) then Starting(reason) else Unlocked)
  {
  }

  lemma {:induction false} CleaningEmpties(w: World, c: Child, reason: Reason)
    requires Inv(w) && w.op == Terminating(c, reason)
    ensures Run(w, Cleaning()) == w.(
      fields := Vacant(w.fields.restart), live := w.live - {c}, holder := None,
      op := if reason.ForAcquire? || (reason.ForLiveness? && w.fields.restart) then Starting(reason) else Unlocked)
    ensures Inv(Run(w, Cleaning()))
  {
    RunInv(w, Cleaning());
    RunThree(w, Terminated(true), ClearPending, Continue);
    TerminationIsVerified(w, c, reason);
    SweepEmpties(Step(Step(w, Terminated(true)), ClearPending), reason);
  }

  lemma {:induction false} ExitIsSeen(w: World)
    requires Inv(w) && w.op == Unlocked && w.fields.process.Some?
    ensures var after := Run(w, [BeginLiveness(true), TakeExited]);
      && Inv(after) && after.op == Terminating(w.fields.process.value, ForLiveness)
      && after.fields.restart && after.live == w.live
  {
    RunTwo(w, BeginLiveness(true), TakeExited);
    RunInv(w, [BeginLiveness(true), TakeExited]);
  }

  lemma {:induction false} AfterAnyRun(events: seq<Event>)
    ensures Inv(Run(INITIAL, events))
  {
    InitialInv();
    RunInv(INITIAL, events);
  }

  /** After any run: a child that a liveness check sees to have exited is cleaned up
      after and replaced by a new one, in a ready pool with its slot free. */
  lemma {:induction false} ExitedChildIsReplaced(events: seq<Event>, d: Child)
    requires var w := Run(INITIAL, events);
      w.op == Unlocked && w.fields.process.Some? && d !in w.live
    ensures var w := Run(INITIAL, events);
      var exited := Run(w, [BeginLiveness(true), TakeExited]);
      var after := Launched(Run(exited, Cleaning()), d);
      && after.op == Unlocked && after.fields == Serving(d)
      && after.live == w.live - {w.fields.process.value} + {d}
  {
    var w := Run(INITIAL, events);
    AfterAnyRun(events);
    ExitIsSeen(w);
    var exited := Run(w, [BeginLiveness(true), TakeExited]);
    CleaningEmpties(exited, w.fields.process.value, ForLiveness);
    LaunchServes(Run(exited, Cleaning()), ForLiveness, d);
  }

  /** After any run: a wanted child is started by the next liveness check. */
  lemma {:induction false} WantedChildIsStarted(events: seq<Event>, exitStatus: bool, d: Child)
    requires var w := Run(INITIAL, events);
      w.op == Unlocked && w.fields.process == None && Owed(INITIAL, events, false) && d !in w.live
    ensures var w := Run(INITIAL, events);
      var after := Launched(Step(w, BeginLiveness(exitStatus)), d);
      after.op == Unlocked && after.fields == Serving(d) && after.live == w.live + {d}
  {
    var w := Run(INITIAL, events);
    EmptyPoolIsRestartedIff(events, exitStatus);
    AfterAnyRun(events);
    StepInv(w, BeginLiveness(exitStatus));
    LaunchServes(Step(w, BeginLiveness(exitStatus)), ForLiveness, d);
  }

  /** The sections of an acquisition up to its start, if the child must be replaced. */
  function Recovered(w: World, a: Attempt): World {
    var given := Run(w, [BeginAcquire(a), Recover]);
    if w.fields.process.Some? then Run(given, Cleaning()) else given
  }

  /** The whole acquisition, if all goes well. */
  function Granted(w: World, a: Attempt, lease: nat, d: Child): World {
    if w.fields.process.Some? && w.fields.ready then Run(w, [BeginAcquire(a), Grant(lease)])
    else Run(Launched(Recovered(w, a), d), [ReadReady, Grant(lease)])
  }

  lemma {:induction false} RecoveryGivesUp(w: World, a: Attempt)
    requires Inv(w) && w.op == Unlocked && w.fields.busy == [] && !(w.fields.process.Some? && w.fields.ready)
    ensures var given := Run(w, [BeginAcquire(a), Recover]);
      && Inv(given) && given.leases == w.leases && given.live == w.live
      && given.op == if w.fields.process.Some? then Terminating(w.fields.process.value, ForAcquire(a))
                     else Starting(ForAcquire(a))
  {
    RunTwo(w, BeginAcquire(a), Recover);
    RunInv(w, [BeginAcquire(a), Recover]);
  }

  lemma {:induction false} RecoveryStarts(w: World, a: Attempt)
    requires Inv(w) && w.op == Unlocked && w.fields.busy == [] && !(w.fields.process.Some? && w.fields.ready)
    ensures var after := Recovered(w, a);
      && Inv(after) && after.op == Starting(ForAcquire(a)) && after.leases == w.leases && after.live <= w.live
  {
    RecoveryGivesUp(w, a);
    if w.fields.process.Some? {
      CleaningEmpties(Run(w, [BeginAcquire(a), Recover]), w.fields.process.value, ForAcquire(a));
    }
  }

  lemma {:induction false} StartedIsGranted(w: World, a: Attempt, lease: nat, d: Child)
    requires w.op == Started(a) && w.fields == Serving(d) && lease !in w.leases
    ensures Run(w, [ReadReady, Grant(lease)]) == w.(
      fields := Serving(d).(free := 0, busy := [a]), op := Unlocked, leases := w.leases[lease := a],
      holder := Some(lease))
  {
    RunTwo(w, ReadReady, Grant(lease));
  }

  /** After any run: an acquisition that finds no attempt on the slot is granted it,
      whatever state the child was in. */
  lemma {:induction false} FreeSlotIsGranted(events: seq<Event>, a: Attempt, lease: nat, d: Child)
    requires var w := Run(INITIAL, events);
      w.op == Unlocked && w.fields.busy == [] && lease !in w.leases && d !in w.live
    ensures var w := Run(INITIAL, events);
      var after := Granted(w, a, lease, d);
      && after.op == Unlocked && after.holder == Some(lease) && after.leases == w.leases[lease := a]
      && after.fields.busy == [a] && after.fields.ready && after.fields.free == 0 && after.fields.process.Some?
  {
    var w := Run(INITIAL, events);
    AfterAnyRun(events);
    if w.fields.process.Some? && w.fields.ready {
      RunTwo(w, BeginAcquire(a), Grant(lease));
    } else {
      RecoveryStarts(w, a);
      LaunchServes(Recovered(w, a), ForAcquire(a), d);
      StartedIsGranted(Launched(Recovered(w, a), d), a, lease, d);
    }
  }

  /** After any run: an acquisition that finds an attempt on the slot is refused and
      changes nothing. */
  lemma {:induction false} BusySlotIsRefused(events: seq<Event>, a: Attempt, lease: nat)
    requires Run(INITIAL, events).op == Unlocked && Run(INITIAL, events).fields.busy != []
    requires lease !in Run(INITIAL, events).leases
    ensures Run(Run(INITIAL, events), [BeginAcquire(a), Grant(lease)]) == Run(INITIAL, events)
  {
    AfterAnyRun(events);
    RunTwo(Run(INITIAL, events), BeginAcquire(a), Grant(lease));
  }

  /** After any run: an unload is begun exactly on a child that has long been idle; it
      ends there if the child can give its memory back, and otherwise leaves the pool
      empty, to be started again only when wanted. */
  lemma {:induction false} IdleChildIsUnloadedIff(events: seq<Event>, longIdle: bool)
    requires Run(INITIAL, events).op == Unlocked
    ensures var w := Run(INITIAL, events);
      Step(w, BeginIdle(longIdle)) ==
        if w.fields.process.Some? && w.fields.busy == [] && longIdle then w.(op := Releasing) else w
  {
  }

  lemma {:induction false} UnloadBegins(w: World)
    requires w.op == Unlocked && w.fields.process.Some? && w.fields.busy == []
    ensures Step(Step(w, BeginIdle(true)), MemoryReleased(false)) == w.(op := Unloading)
  {
  }

  lemma {:induction false} UnloadTakes(w: World)
    requires Inv(w) && w.op == Unlocked && w.fields.process.Some? && w.fields.busy == []
    ensures var after := Run(w, [BeginIdle(true), MemoryReleased(false), Unload]);
      && Inv(after) && after.op == Terminating(w.fields.process.value, ForIdle)
      && after.fields.restart == w.fields.restart && after.live == w.live
  {
    RunThree(w, BeginIdle(true), MemoryReleased(false), Unload);
    UnloadBegins(w);
    RunInv(w, [BeginIdle(true), MemoryReleased(false), Unload]);
  }

  lemma {:induction false} UnloadEmpties(events: seq<Event>)
    requires var w := Run(INITIAL, events);
      w.op == Unlocked && w.fields.process.Some? && w.fields.busy == []
    ensures var w := Run(INITIAL, events);
      var after := Run(Run(w, [BeginIdle(true), MemoryReleased(false), Unload]), Cleaning());
      && after.op == Unlocked && after.fields == Vacant(w.fields.restart)
      && after.live == w.live - {w.fields.process.value}
  {
    var w := Run(INITIAL, events);
    AfterAnyRun(events);
    UnloadTakes(w);
    CleaningEmpties(Run(w, [BeginIdle(true), MemoryReleased(false), Unload]), w.fields.process.value, ForIdle);
  }

  lemma {:induction false} ReleasedMemoryIsEnough(events: seq<Event>)
    requires var w := Run(INITIAL, events);
      w.op == Unlocked && w.fields.process.Some? && w.fields.busy == []
    ensures var w := Run(INITIAL, events);
      Run(w, [BeginIdle(true), MemoryReleased(true)]) == if w.fields.backend then w else w.(op := Unloading)
  {
    RunTwo(Run(INITIAL, events), BeginIdle(true), MemoryReleased(true));
  }

  lemma {:induction false} ReclaimTakes(w: World, a: Attempt)
    requires Inv(w) && w.op == Unlocked && w.fields.process.Some?
    ensures a !in w.fields.busy ==> Step(w, BeginReclaim(a)) == w
    ensures a in w.fields.busy ==>
      var after := Step(w, BeginReclaim(a));
      && Inv(after) && after.op == Terminating(w.fields.process.value, ForReclaim(a))
      && after.fields.restart && after.live == w.live
  {
    StepInv(w, BeginReclaim(a));
  }

  /** After any run: a reclaim takes the child exactly from the attempt that holds its
      slot, leaves the pool empty, and the next liveness check starts another. */
  lemma {:induction false} ReclaimedPoolIsRestarted(events: seq<Event>, a: Attempt, exitStatus: bool)
    requires Run(INITIAL, events).op == Unlocked && Run(INITIAL, events).fields.process.Some?
    ensures var w := Run(INITIAL, events);
      if a !in w.fields.busy then Step(w, BeginReclaim(a)) == w
      else
        var after := Run(Step(w, BeginReclaim(a)), Cleaning());
        && after.op == Unlocked && after.fields == Vacant(true) && after.live == w.live - {w.fields.process.value}
        && Step(after, BeginLiveness(exitStatus)).op == Starting(ForLiveness)
  {
    var w := Run(INITIAL, events);
    AfterAnyRun(events);
    ReclaimTakes(w, a);
    if a in w.fields.busy {
      CleaningEmpties(Step(w, BeginReclaim(a)), w.fields.process.value, ForReclaim(a));
      VacantPoolIsStarted(Run(Step(w, BeginReclaim(a)), Cleaning()), exitStatus);
    }
  }

  lemma {:induction false} VacantPoolIsStarted(w: World, exitStatus: bool)
    requires w.op == Unlocked && w.fields == Vacant(true)
    ensures Step(w, BeginLiveness(exitStatus)).op == Starting(ForLiveness)
  {
  }

  lemma {:induction false} ChildIsPutBack(w: World, c: Child, reason: Reason)
    requires w.op == Terminating(c, reason)
    ensures var after := Run(w, [Terminated(false), PutBack]);
      && after.op == Unlocked && after.live == w.live
      && after.fields == Fields(Some(c), false, false, 0, 0, w.fields.restart, true, w.fields.busy)
  {
    RunTwo(w, Terminated(false), PutBack);
  }

  lemma {:induction false} PendingIsTaken(w: World, exitStatus: bool)
    requires w.op == Unlocked && w.fields.process.Some? && w.fields.pending
    ensures Step(w, BeginLiveness(exitStatus)).op == TakingExited
  {
  }

  /** After any run: a termination that fails puts the child back, and the next
      liveness check tries again. */
  lemma {:induction false} FailedTerminationIsRetried(events: seq<Event>, exitStatus: bool)
    requires Run(INITIAL, events).op.Terminating?
    ensures var w := Run(INITIAL, events);
      var after := Run(w, [Terminated(false), PutBack]);
      && after.op == Unlocked && after.fields.process == Some(w.op.child) && after.live == w.live
      && !after.fields.ready && after.fields.free == 0
      && Step(after, BeginLiveness(exitStatus)).op == TakingExited
  {
    var w := Run(INITIAL, events);
    ChildIsPutBack(w, w.op.child, w.op.reason);
    PendingIsTaken(Run(w, [Terminated(false), PutBack]), exitStatus);
  }

  /** A refresh is made exactly of a child whose backend is known. */
  lemma {:induction false} RefreshBeginsIff(w: World)
    requires w.op == Unlocked
    ensures Step(w, BeginRefresh) == if w.fields.process.Some? && w.fields.backend then w.(op := Refreshing) else w
  {
  }

  /** After any run: it publishes what the probes say, around the slot's holder, and a
      lost one withdraws the slot. */
  lemma {:induction false} RefreshPublishes(events: seq<Event>, outcome: Option<bool>)
    requires var w := Run(INITIAL, events);
      w.op == Unlocked && w.fields.process.Some? && w.fields.backend
    ensures var w := Run(INITIAL, events);
      var ready := outcome == Some(true);
      Run(w, [BeginRefresh, RefreshOutcome(outcome)]) == w.(fields := w.fields.(
        ready := ready, total := if ready then 1 else 0, free := if ready && w.fields.busy == [] then 1 else 0))
  {
    var w := Run(INITIAL, events);
    AfterAnyRun(events);
    RunTwo(w, BeginRefresh, RefreshOutcome(outcome));
    RefreshBeginsIff(w);
    OutcomePublishes(w.(op := Refreshing), outcome);
  }

  lemma {:induction false} OutcomePublishes(w: World, outcome: Option<bool>)
    requires Accounting(w.fields) && w.op == Refreshing
    ensures var ready := outcome == Some(true);
      Step(w, RefreshOutcome(outcome)) == w.(op := Unlocked, fields := w.fields.(
        ready := ready, total := if ready then 1 else 0, free := if ready && w.fields.busy == [] then 1 else 0))
  {
  }

  lemma {:induction false} ShutdownEmpties(w: World)
    requires Inv(w) && w.op == Unlocked
    ensures Run(w, [BeginShutdown, ShutdownTerminated(true)]) == w.(fields := NOT_STARTED, holder := None,
      live := w.live - (if w.fields.process.Some? then {w.fields.process.value} else {}))
  {
    RunTwo(w, BeginShutdown, ShutdownTerminated(true));
  }

  lemma {:induction false} NothingToCheck(w: World, exitStatus: bool)
    requires w.op == Unlocked && w.fields == NOT_STARTED
    ensures Step(w, BeginLiveness(exitStatus)) == w
  {
  }

  /** After any run: a shutdown that terminates its child leaves an empty pool, which
      no liveness check starts again. */
  lemma {:induction false} ShutdownIsFinal(events: seq<Event>, exitStatus: bool)
    requires Run(INITIAL, events).op == Unlocked
    ensures var w := Run(INITIAL, events);
      var after := Run(w, [BeginShutdown, ShutdownTerminated(true)]);
      && after.op == Unlocked && after.fields == NOT_STARTED && after.abandoned == w.abandoned
      && after.live == w.live - (if w.fields.process.Some? then {w.fields.process.value} else {})
      && Step(after, BeginLiveness(exitStatus)) == after
  {
    AfterAnyRun(events);
    ShutdownEmpties(Run(INITIAL, events));
    NothingToCheck(Run(Run(INITIAL, events), [BeginShutdown, ShutdownTerminated(true)]), exitStatus);
  }

  // ------------------------------------------------------- operations that go wrong

  /** A start that fails at any point, or finds the pool not ready, lets go of the
      operation lock and leaves everything else to the next check; so does a grant that
      finds no free slot. */
  lemma {:induction false} FailedStartLetsGo(w: World, lease: nat)
    ensures w.op.Spawning? ==> Step(w, Spawn(None)) == w.(op := Unlocked)
    ensures w.op.Recording? ==> Step(w, Record(false)) == w.(op := Unlocked)
    ensures w.op.Probing? ==> Step(w, Probe(None)) == w.(op := Unlocked)
    ensures w.op.Started? && !w.fields.ready ==> Step(w, ReadReady) == w.(op := Unlocked)
    ensures w.op.Checked? && w.op.running && lease !in w.leases && (!w.fields.ready || w.fields.free == 0) ==>
      Step(w, Grant(lease)) == w.(op := Unlocked)
  {
  }

  /** A child whose probes fail is kept, its pool published without a slot. */
  lemma {:induction false} FailedProbesPublish(events: seq<Event>)
    requires Run(INITIAL, events).op.Probing?
    ensures var w := Run(INITIAL, events);
      Step(w, Probe(Some(false))) == w.(
        fields := Fields(w.fields.process, true, false, 0, 0, false, false, []), holder := None,
        op := if w.op.reason.ForAcquire? then Started(w.op.reason.attempt) else Unlocked)
  {
  }

  /** Where the future is dropped: a termination puts its child back, a shutdown loses
      the one it took, a start or a wait lets go, and no other section awaits. */
  lemma {:induction false} DroppedFutureLetsGo(w: World)
    ensures w.op.Terminating? ==> Step(w, Abort) == w.(
      fields := Fields(Some(w.op.child), false, false, 0, 0, w.fields.restart, true, w.fields.busy), op := Unlocked)
    ensures w.op.ShuttingDown? && w.op.victim.Some? ==>
      Step(w, Abort) == w.(op := Unlocked, cut := true, abandoned := w.abandoned + {w.op.victim.value})
    ensures w.op.Spawning? || w.op.Recording? || w.op.Probing? || w.op.Releasing? || w.op.Refreshing? ==>
      Step(w, Abort) == w.(op := Unlocked)
    ensures
      (w.op.Unlocked? || w.op.Checked? || w.op.Verified? || w.op.Swept? || w.op.Restoring? || w.op.Starting?
       || w.op.Started? || w.op.Unloading? || w.op.TakingExited?) ==> Step(w, Abort) == w
  {
  }

  /** After any run: dropping a lease forgets it, and empties the slot exactly if its
      attempt is on it; the slot is then free again in a ready pool. */
  lemma {:induction false} DropEmptiesIff(events: seq<Event>, lease: nat)
    requires lease in Run(INITIAL, events).leases
    ensures var w := Run(INITIAL, events);
      var after := Step(w, DropLease(lease));
      && after.leases == w.leases - {lease} && after.op == w.op && after.live == w.live
      && (after.fields.busy == [] <==> w.fields.busy == [] || w.fields.busy == [w.leases[lease]])
      && after.fields.free == (if w.fields.ready && after.fields.busy == [] then 1 else 0)
      && after.fields.process == w.fields.process && after.fields.ready == w.fields.ready
  {
    AfterAnyRun(events);
    DroppedShape(Run(INITIAL, events), lease);
  }
}
