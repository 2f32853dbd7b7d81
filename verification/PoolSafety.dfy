/** What every interleaving of the pool supervisor keeps. */
module PoolSafety {
  import opened Common
  import opened Lists
  import opened Pool

  /** Exact slot accounting, at every release of the state lock. */
  predicate Accounting(f: Fields) {
    && f.total == Count(f.ready)
    && f.free == Count(f.ready && f.busy == [])
    && |f.busy| <= 1
    && (f.pending ==> !f.ready && !f.backend)
  }

  /** The slot belongs to the lease that holds it, if any. */
  predicate HolderMatches(w: World) {
    && (w.holder.Some? ==> w.holder.value in w.leases)
    && w.fields.busy == if w.holder.Some? then [w.leases[w.holder.value]] else []
  }

  function ChildOf(op: Op): Option<Child> {
    match op
    case Terminating(c, _) => Some(c)
    case Restoring(c) => Some(c)
    case ShuttingDown(victim) => victim
    case _ => None
  }

  function AsSet(c: Option<Child>): set<Child> {
    if c.Some? then {c.value} else {}
  }

  function Owned(w: World): set<Child> {
    AsSet(w.fields.process) + AsSet(ChildOf(w.op))
  }

  /** Every live child is owned by the state or by the operation in flight, never
      by both, unless a shutdown lost it. */
  predicate Ownership(w: World) {
    && w.live == Owned(w) + w.abandoned
    && Owned(w) !! w.abandoned
    && (w.fields.process == None || ChildOf(w.op) == None)
  }

  /** Whose slot an operation that takes the child away may still find busy. */
  predicate Spares(reason: Reason, busy: seq<Attempt>) {
    match reason
    case ForReclaim(a) => forall b :: b in busy ==> b == a
    case ForLiveness => true
    case _ => busy == []
  }

  predicate OpShape(w: World) {
    var f := w.fields;
    match w.op
    case Unlocked => true
    case Checked(_, running) => if running then f.process.Some? else !(f.process.Some? && f.ready) && f.busy == []
    case Terminating(_, reason) => f.pending && Spares(reason, f.busy)
    case Verified(reason) => f.process == None && f.pending && Spares(reason, f.busy)
    case Swept(reason) => f.process == None && !f.ready && !f.backend && Spares(reason, f.busy)
    case Restoring(_) => f.pending
    case Starting(_) => f.process == None && f.busy == []
    case Spawning(_) => f.process == None && f.busy == [] && !f.ready && !f.backend && !f.pending
    case Recording(_) => f.process.Some? && f.pending && f.busy == []
    case Probing(_) => f.process.Some? && f.pending && f.busy == []
    case Started(_) => f.process.Some? && f.busy == []
    case Releasing => f.process.Some? && f.busy == []
    case Unloading => f.process.Some? && f.busy == []
    case Refreshing => f.process.Some? && f.backend
    case TakingExited => f.process.Some? && f.pending
    case ShuttingDown(_) => f.process == None && !f.pending && !f.restart
  }

  /** A restart is only ever requested for an empty slot. */
  predicate Settled(w: World) {
    (w.op.Unlocked? || w.op.Checked?) && w.fields.restart && w.fields.process == None ==> w.fields.busy == []
  }

  /** A ready pool has its child, except while a shutdown is under way or after one
      was dropped half-way. */
  predicate ReadyHasChild(w: World) {
    w.fields.ready && !w.op.ShuttingDown? && !w.cut ==> w.fields.process.Some?
  }

  predicate Inv(w: World) {
    Accounting(w.fields) && HolderMatches(w) && Ownership(w) && OpShape(w) && Settled(w) && ReadyHasChild(w)
  }

  lemma InitialInv()
    ensures Inv(INITIAL)
  {
  }

  // --------------------------------------------------------------- preservation

  lemma {:induction false} BeginTakingInv(w: World, e: Event)
    requires Inv(w) && w.op == Unlocked && (e.BeginReclaim? || e.BeginShutdown?)
    ensures Inv(Begin(w, e))
  {
  }

  lemma {:induction false} BeginKeepingInv(w: World, e: Event)
    requires Inv(w) && w.op == Unlocked && !e.BeginReclaim? && !e.BeginShutdown?
    ensures Inv(Begin(w, e))
  {
  }

  lemma {:induction false} BeginInv(w: World, e: Event)
    requires Inv(w) && w.op == Unlocked
    ensures Inv(Begin(w, e))
  {
    if e.BeginReclaim? || e.BeginShutdown? {
      BeginTakingInv(w, e);
    } else {
      BeginKeepingInv(w, e);
    }
  }

  lemma {:induction false} AbortInv(w: World)
    requires Inv(w)
    ensures Inv(Aborted(w))
  {
  }

  /** Sections that take the child away. */
  predicate Takes(e: Event) {
    e.Recover? || e.MemoryReleased? || e.Unload? || e.TakeExited?
  }

  lemma {:induction false} TakingInv(w: World, e: Event)
    requires Inv(w) && Takes(e)
    ensures Inv(StepTermination(w, e))
  {
  }

  lemma {:induction false} TerminatedInv(w: World, ok: bool)
    requires Inv(w)
    ensures Inv(StepTermination(w, Terminated(ok)))
  {
  }

  lemma {:induction false} ShutdownEndsInv(w: World, ok: bool)
    requires Inv(w)
    ensures Inv(StepTermination(w, ShutdownTerminated(ok)))
  {
  }

  lemma {:induction false} CleaningInv(w: World, e: Event)
    requires Inv(w) && !Takes(e) && !e.Terminated? && !e.ShutdownTerminated?
    ensures Inv(StepTermination(w, e))
  {
  }

  lemma {:induction false} TerminationInv(w: World, e: Event)
    requires Inv(w)
    ensures Inv(StepTermination(w, e))
  {
    if Takes(e) {
      TakingInv(w, e);
    } else if e.Terminated? {
      TerminatedInv(w, e.ok);
    } else if e.ShutdownTerminated? {
      ShutdownEndsInv(w, e.ok);
    } else {
      CleaningInv(w, e);
    }
  }

  lemma {:induction false} LaunchInv(w: World, e: Event)
    requires Inv(w) && (e.AnnounceStart? || e.Spawn? || e.Record?)
    ensures Inv(StepStart(w, e))
  {
  }

  lemma {:induction false} ProbeInv(w: World, e: Event)
    requires Inv(w) && !(e.AnnounceStart? || e.Spawn? || e.Record?)
    ensures Inv(StepStart(w, e))
  {
  }

  lemma {:induction false} StartInv(w: World, e: Event)
    requires Inv(w)
    ensures Inv(StepStart(w, e))
  {
    if e.AnnounceStart? || e.Spawn? || e.Record? {
      LaunchInv(w, e);
    } else {
      ProbeInv(w, e);
    }
  }

  /** Removing one attempt from a slot that holds at most one. */
  lemma {:induction false} ReleasedBusy(f: Fields, a: Attempt)
    requires |f.busy| <= 1
    ensures Released(f, a).busy == if f.busy == [a] then [] else f.busy
  {
    if f.busy != [] {
      var b := f.busy[0];
      assert f.busy == [b];
      FilterSmall(Other(a), b);
    }
  }

  /** A drop empties the slot of its attempt, or touches nothing but the lease. */
  lemma {:induction false} DroppedShape(w: World, lease: nat)
    requires Inv(w) && lease in w.leases
    ensures var after := w.(leases := w.leases - {lease});
      Dropped(w, lease) == if w.fields.busy != [w.leases[lease]] then after
        else after.(fields := w.fields.(busy := [], free := w.fields.total), holder := None)
  {
    ReleasedBusy(w.fields, w.leases[lease]);
    assert w.fields.busy != [] ==> w.fields.busy == [w.fields.busy[0]];
  }

  lemma {:induction false} StaleDropInv(w: World, lease: nat)
    requires Inv(w) && lease in w.leases && w.fields.busy != [w.leases[lease]]
    ensures Inv(w.(leases := w.leases - {lease}))
  {
  }

  lemma {:induction false} HolderDropInv(w: World, lease: nat)
    requires Inv(w) && lease in w.leases
    ensures Inv(w.(leases := w.leases - {lease}, fields := w.fields.(busy := [], free := w.fields.total),
                   holder := None))
  {
  }

  lemma {:induction false} DroppedInv(w: World, lease: nat)
    requires Inv(w)
    ensures Inv(Dropped(w, lease))
  {
    if lease in w.leases {
      DroppedShape(w, lease);
      if w.fields.busy == [w.leases[lease]] {
        HolderDropInv(w, lease);
      } else {
        StaleDropInv(w, lease);
      }
    }
  }

  lemma {:induction false} StepInv(w: World, e: Event)
    requires Inv(w)
    ensures Inv(Step(w, e))
  {
    if e.DropLease? {
      DroppedInv(w, e.lease);
    } else if e.Abort? {
      AbortInv(w);
    } else if w.op == Unlocked {
      BeginInv(w, e);
    } else {
      StartInv(w, e);
      TerminationInv(w, e);
    }
  }

  lemma {:induction false} RunInv(w: World, events: seq<Event>)
    requires Inv(w)
    ensures Inv(Run(w, events))
    decreases |events|
  {
    if events != [] {
      StepInv(w, events[0]);
      RunInv(Step(w, events[0]), events[1..]);
    }
  }

  // ------------------------------------------------------- one child per pool

  lemma {:induction false} OwnedAtMostOne(w: World)
    requires Ownership(w)
    ensures |Owned(w)| <= 1
  {
    assert Owned(w) == AsSet(w.fields.process) || Owned(w) == AsSet(ChildOf(w.op));
  }

  /** A shutdown loses its child when the termination fails or the future is
      dropped. */
  predicate LosesChild(w: World, e: Event) {
    && w.op.ShuttingDown? && w.op.victim.Some?
    && (e == Abort || e == ShutdownTerminated(false))
  }

  lemma {:induction false} TerminationLosesIff(w: World, e: Event)
    requires Ownership(w) && e != Abort
    ensures w.abandoned <= StepTermination(w, e).abandoned
    ensures StepTermination(w, e).abandoned != w.abandoned <==> LosesChild(w, e)
  {
  }

  lemma {:induction false} AbortLosesIff(w: World)
    requires Ownership(w)
    ensures w.abandoned <= Aborted(w).abandoned
    ensures Aborted(w).abandoned != w.abandoned <==> LosesChild(w, Abort)
  {
  }

  lemma {:induction false} OthersLoseNothing(w: World, e: Event)
    ensures StepStart(w, e).abandoned == w.abandoned
    ensures w.op == Unlocked ==> Begin(w, e).abandoned == w.abandoned
    ensures e.DropLease? ==> Dropped(w, e.lease).abandoned == w.abandoned
  {
  }

  /** A child is lost in exactly those two ways. */
  lemma {:induction false} ChildrenAreLostIff(w: World, e: Event)
    requires Ownership(w)
    ensures w.abandoned <= Step(w, e).abandoned
    ensures Step(w, e).abandoned != w.abandoned <==> LosesChild(w, e)
  {
    OthersLoseNothing(w, e);
    if e.Abort? {
      AbortLosesIff(w);
    } else {
      TerminationLosesIff(w, e);
    }
  }

  predicate NeverLoses(w: World, events: seq<Event>)
    decreases |events|
  {
    events == [] || (!LosesChild(w, events[0]) && NeverLoses(Step(w, events[0]), events[1..]))
  }

  /** As long as no shutdown loses one, no interleaving has two live children. */
  lemma {:induction false} OneChildPerPool(w: World, events: seq<Event>)
    requires Inv(w) && w.abandoned == {} && NeverLoses(w, events)
    ensures |Run(w, events).live| <= 1
    ensures Run(w, events).abandoned == {}
    decreases |events|
  {
    if events == [] {
      OwnedAtMostOne(w);
      assert w.live == Owned(w);
    } else {
      StepInv(w, events[0]);
      ChildrenAreLostIff(w, events[0]);
      OneChildPerPool(Step(w, events[0]), events[1..]);
    }
  }

  /** Every child taken out of the state is verified as terminated, still in the
      hands of the guard, or back in the state, however the operation ends. */
  lemma {:induction false} TakenChildIsAccountedFor(w: World, e: Event, c: Child)
    requires Inv(w) && ChildOf(w.op) == Some(c) && !LosesChild(w, e)
    ensures var after := Step(w, e);
      c !in after.live || ChildOf(after.op) == Some(c) || after.fields.process == Some(c)
  {
    StepInv(w, e);
    ChildrenAreLostIff(w, e);
  }

  /** Whatever happened before: where a child is spawned, the pool has none, no
      operation holds one, and the slot is free; every other live child is one that
      a shutdown lost. */
  lemma {:induction false} SpawnsIntoEmptyPool(events: seq<Event>, c: Child)
    requires Step(Run(INITIAL, events), Spawn(Some(c))) != Run(INITIAL, events)
    ensures var w := Run(INITIAL, events);
      && w.fields.process == None && ChildOf(w.op) == None && w.fields.busy == []
      && w.live == w.abandoned && Step(w, Spawn(Some(c))).live == w.abandoned + {c}
  {
    InitialInv();
    RunInv(INITIAL, events);
    SpawnsWhenSpawning(Run(INITIAL, events), c);
  }

  lemma {:induction false} SpawnsWhenSpawning(w: World, c: Child)
    ensures Step(w, Spawn(Some(c))) != w ==>
      w.op.Spawning? && c !in w.live && Step(w, Spawn(Some(c))).live == w.live + {c}
  {
  }

  /** Where the identity of a spawned child is recorded the process is there, as the
      source takes for granted. */
  lemma {:induction false} RecordingFindsChild(events: seq<Event>)
    requires Run(INITIAL, events).op.Recording?
    ensures Run(INITIAL, events).fields.process.Some?
  {
    InitialInv();
    RunInv(INITIAL, events);
  }

  /** The child of a pool stays, or passes to the operation in flight. */
  predicate Handed(w: World, after: World) {
    after.fields.process == w.fields.process
    || (after.fields.process == None && ChildOf(after.op) == w.fields.process)
  }

  lemma {:induction false} TerminationHands(w: World, e: Event)
    requires OpShape(w) && Ownership(w) && w.fields.process.Some?
    ensures Handed(w, StepTermination(w, e))
  {
  }

  lemma {:induction false} OthersHand(w: World, e: Event)
    requires OpShape(w) && Ownership(w) && w.fields.process.Some?
    ensures Handed(w, StepStart(w, e)) && Handed(w, Aborted(w))
    ensures w.op == Unlocked ==> Handed(w, Begin(w, e))
    ensures e.DropLease? ==> Handed(w, Dropped(w, e.lease))
  {
  }

  /** No step overwrites or forgets the child of a pool. */
  lemma {:induction false} NoChildIsOverwritten(w: World, e: Event)
    requires OpShape(w) && Ownership(w) && w.fields.process.Some?
    ensures Handed(w, Step(w, e))
  {
    TerminationHands(w, e);
    OthersHand(w, e);
  }

  /** A reclaim or an idle unload under way never faces the slot of another
      attempt; recovery for a new attempt never discards a busy slot. */
  lemma {:induction false} NoOtherAttemptIsKilled(w: World, events: seq<Event>)
    requires Inv(w)
    ensures Run(w, events).op.Terminating? ==> Spares(Run(w, events).op.reason, Run(w, events).fields.busy)
  {
    RunInv(w, events);
  }

  // ------------------------------------------------------------------- leases

  /** Dropping a lease that no longer holds the slot leaves the holder alone
      exactly when their attempts differ. */
  lemma {:induction false} StaleDropIsHarmlessIff(w: World, lease: nat)
    requires Inv(w) && lease in w.leases && w.holder.Some? && w.holder != Some(lease)
    ensures Step(w, DropLease(lease)).fields == w.fields <==> w.leases[lease] != w.leases[w.holder.value]
  {
    ReleasedBusy(w.fields, w.leases[lease]);
  }

  /** The holder's drop frees the slot of a ready pool at once. */
  lemma {:induction false} HolderDropFrees(w: World, lease: nat)
    requires Inv(w) && w.holder == Some(lease)
    ensures var after := Step(w, DropLease(lease)).fields;
      after.busy == [] && after.free == Count(after.ready) && after.ready == w.fields.ready
  {
    ReleasedBusy(w.fields, w.leases[lease]);
  }


  // ----------------------------------------------------------- counterexamples

  ghost predicate Reachable(w: World) {
    exists events :: Run(INITIAL, events) == w
  }

  lemma {:induction false} RunAppend(w: World, events: seq<Event>, e: Event)
    ensures Run(w, events + [e]) == Step(Run(w, events), e)
    decreases |events|
  {
    if events == [] {
      assert [e][1..] == [];
    } else {
      assert (events + [e])[1..] == events[1..] + [e];
      RunAppend(Step(w, events[0]), events[1..], e);
    }
  }

  lemma {:induction false} Reach(w: World, e: Event, after: World)
    requires Reachable(w) && Step(w, e) == after
    ensures Reachable(after)
  {
    var events :| Run(INITIAL, events) == w;
    RunAppend(INITIAL, events, e);
  }

  /** No child but those of earlier shutdowns. */
  function Empty(lost: set<Child>): World {
    INITIAL.(live := lost, abandoned := lost)
  }

  function Announced(a: Attempt, lost: set<Child>): World {
    Empty(lost).(fields := StartAnnounced(NOT_STARTED), op := Spawning(ForAcquire(a)))
  }

  function Launched(a: Attempt, child: Child, lost: set<Child>): World {
    Announced(a, lost).(fields := Spawned(StartAnnounced(NOT_STARTED), child), live := {child} + lost,
                        op := Probing(ForAcquire(a)))
  }

  function Serving(a: Attempt, child: Child, lease: nat, lost: set<Child>): World {
    World(Fields(Some(child), true, true, 1, 0, false, false, [a]), Unlocked,
          {child} + lost, lost, false, map[lease := a], Some(lease))
  }

  lemma {:induction false} ReachAnnounced(a: Attempt, lost: set<Child>)
    requires Reachable(Empty(lost))
    ensures Reachable(Announced(a, lost))
  {
    var w1 := Empty(lost).(op := Checked(a, false));
    Reach(Empty(lost), BeginAcquire(a), w1);
    var w2 := w1.(fields := NOT_STARTED.(restart := true), op := Starting(ForAcquire(a)));
    Reach(w1, Recover, w2);
    Reach(w2, AnnounceStart, Announced(a, lost));
  }

  lemma {:induction false} ReachLaunched(a: Attempt, child: Child, lost: set<Child>)
    requires Reachable(Announced(a, lost)) && child !in lost
    ensures Reachable(Launched(a, child, lost))
  {
    var w := Launched(a, child, lost).(op := Recording(ForAcquire(a)));
    assert lost + {child} == {child} + lost;
    Reach(Announced(a, lost), Spawn(Some(child)), w);
    Reach(w, Record(true), Launched(a, child, lost));
  }

  function Ready(a: Attempt, child: Child, lost: set<Child>): World {
    Launched(a, child, lost).(
      fields := Fields(Some(child), true, true, 1, 1, false, false, []), op := Checked(a, true))
  }

  lemma {:induction false} ReachReady(a: Attempt, child: Child, lost: set<Child>)
    requires Reachable(Launched(a, child, lost))
    ensures Reachable(Ready(a, child, lost))
  {
    var w := Ready(a, child, lost).(op := Started(a));
    Reach(Launched(a, child, lost), Probe(Some(true)), w);
    Reach(w, ReadReady, Ready(a, child, lost));
  }

  lemma {:induction false} ReachServing(a: Attempt, child: Child, lease: nat, lost: set<Child>)
    requires Reachable(Launched(a, child, lost))
    ensures Reachable(Serving(a, child, lease, lost))
  {
    var w := Ready(a, child, lost);
    ReachReady(a, child, lost);
    Reach(w, Grant(lease), Serving(a, child, lease, lost));
  }

  lemma {:induction false} ReachShutDown(a: Attempt, child: Child, lease: nat)
    requires Reachable(Serving(a, child, lease, {}))
    ensures Reachable(Empty({child}))
  {
    var w1 := Serving(a, child, lease, {});
    var w2 := w1.(fields := TakenForShutdown(w1.fields), op := ShuttingDown(Some(child)));
    Reach(w1, BeginShutdown, w2);
    var w3 := Empty({child}).(leases := map[lease := a]);
    assert w3.fields == Unready(w2.fields);
    Reach(w2, ShutdownTerminated(false), w3);
    assert map[lease := a] - {lease} == map[];
    Reach(w3, DropLease(lease), Empty({child}));
  }

  /** `shutdown` ignores a failed termination, so a later acquisition can start a
      second child beside the first. */
  lemma {:induction false} FailedShutdownAllowsSecondChild()
    ensures Reachable(Serving(8, 2, 1, {1})) && |Serving(8, 2, 1, {1}).live| == 2
  {
    assert Run(INITIAL, []) == Empty({});
    ReachAnnounced(7, {});
    ReachLaunched(7, 1, {});
    ReachServing(7, 1, 0, {});
    ReachShutDown(7, 1, 0);
    ReachAnnounced(8, {1});
    ReachLaunched(8, 2, {1});
    ReachServing(8, 2, 1, {1});
    assert Serving(8, 2, 1, {1}).live == {1, 2};
  }

  /** A pool that calls itself ready without a child. */
  predicate Headless(w: World) {
    w.fields.ready && w.fields.process == None
  }

  lemma {:induction false} TerminationStaysHeaded(w: World, e: Event)
    requires Inv(w) && !Headless(w)
    ensures !Headless(StepTermination(w, e))
  {
  }

  lemma {:induction false} StartStaysHeaded(w: World, e: Event)
    requires Inv(w) && !Headless(w)
    ensures !Headless(StepStart(w, e))
  {
  }

  lemma {:induction false} DropsStayHeaded(w: World, lease: nat)
    requires Inv(w) && !Headless(w)
    ensures !Headless(Dropped(w, lease)) && !Headless(Aborted(w))
  {
  }

  lemma {:induction false} BeginHeadedIff(w: World, e: Event)
    requires Inv(w) && !Headless(w) && w.op == Unlocked
    ensures Headless(Begin(w, e)) <==> e == BeginShutdown && w.fields.ready
  {
  }

  /** A ready pool loses its child exactly when a shutdown takes it. */
  lemma {:induction false} HeadlessBeginsIff(w: World, e: Event)
    requires Inv(w) && !Headless(w)
    ensures Headless(Step(w, e)) <==> w.op == Unlocked && e == BeginShutdown && w.fields.ready
  {
    if e.DropLease? {
      DropsStayHeaded(w, e.lease);
    } else if e.Abort? {
      DropsStayHeaded(w, 0);
    } else if w.op == Unlocked {
      BeginHeadedIff(w, e);
    } else {
      TerminationStaysHeaded(w, e);
      StartStaysHeaded(w, e);
    }
  }

  /** And it is still without one when the shutdown is over exactly if that was
      dropped half-way. */
  lemma {:induction false} HeadlessOutlivesShutdownIff(w: World, e: Event)
    requires Inv(w) && Headless(w) && w.op.ShuttingDown?
    ensures !Step(w, e).op.ShuttingDown? && Headless(Step(w, e)) <==> e == Abort && w.op.victim.Some?
  {
    if !e.Abort? && !e.DropLease? {
      ShutdownWaits(w, e);
    }
  }

  lemma {:induction false} ShutdownWaits(w: World, e: Event)
    requires w.op.ShuttingDown?
    ensures StepStart(w, e) == w
    ensures StepTermination(w, e) == w || (e.ShutdownTerminated? && !StepTermination(w, e).fields.ready)
  {
  }

  /** So in a run that drops no shutdown, a ready pool has its child whenever no
      shutdown is under way. */
  ghost predicate NeverDropsShutdown(w: World, events: seq<Event>)
    decreases |events|
  {
    events == [] || (!(w.op.ShuttingDown? && events[0] == Abort) && NeverDropsShutdown(Step(w, events[0]), events[1..]))
  }

  lemma {:induction false} CutsOnlyDropped(w: World, e: Event)
    ensures Step(w, e).cut && !w.cut ==> w.op.ShuttingDown? && e == Abort
  {
    SectionsCutNothing(w, e);
  }

  lemma {:induction false} SectionsCutNothing(w: World, e: Event)
    ensures StepStart(w, e).cut == w.cut && StepTermination(w, e).cut == w.cut
    ensures w.op == Unlocked ==> Begin(w, e).cut == w.cut
  {
  }

  lemma {:induction false} ReadyPoolHasChild(w: World, events: seq<Event>)
    requires Inv(w) && !w.cut && NeverDropsShutdown(w, events)
    ensures var v := Run(w, events);
      v.fields.ready && !v.op.ShuttingDown? ==> v.fields.process.Some?
    decreases |events|
  {
    if events != [] {
      StepInv(w, events[0]);
      CutsOnlyDropped(w, events[0]);
      ReadyPoolHasChild(Step(w, events[0]), events[1..]);
    }
  }

  /** The pool that served `a`, its child taken by a shutdown. */
  function HalfShut(a: Attempt, child: Child, lease: nat): World {
    World(Fields(None, true, true, 1, 0, false, false, [a]), ShuttingDown(Some(child)),
          {child}, {}, false, map[lease := a], Some(lease))
  }

  lemma {:induction false} ReachHalfShut(a: Attempt, child: Child, lease: nat)
    ensures Reachable(HalfShut(a, child, lease))
  {
    assert Run(INITIAL, []) == Empty({});
    ReachAnnounced(a, {});
    ReachLaunched(a, child, {});
    ReachServing(a, child, lease, {});
    assert {child} + {} == {child};
    Reach(Serving(a, child, lease, {}), BeginShutdown, HalfShut(a, child, lease));
  }

  /** A dropped shutdown does happen, and leaves the pool that way. */
  lemma {:induction false} DroppedShutdownLeavesReadyPool(a: Attempt, child: Child, lease: nat)
    ensures var w := HalfShut(a, child, lease).(op := Unlocked, cut := true, abandoned := {child});
      Reachable(w) && Headless(w)
  {
    ReachHalfShut(a, child, lease);
    var w := HalfShut(a, child, lease).(op := Unlocked, cut := true, abandoned := {child});
    assert {} + {child} == {child};
    Reach(HalfShut(a, child, lease), Abort, w);
  }
}
