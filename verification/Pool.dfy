/** The Device Pool supervisor of a Worker: one managed inference child, one
    slot. Every critical section of the short state lock is one atomic step; who
    holds the operation lock, and how far it got, is the phase. */
module Pool {
  import opened Common
  import opened Lists

  type Attempt = nat
  type Child = nat

  // ------------------------------------------------------------ guarded fields

  /** What the state lock protects. Of the backend only its presence matters. */
  datatype Fields = Fields(
    process: Option<Child>, backend: bool, ready: bool, total: nat, free: nat,
    restart: bool, pending: bool, busy: seq<Attempt>)

  const NOT_STARTED: Fields := Fields(None, false, false, 0, 0, false, false, [])

  function Count(b: bool): nat {
    if b then 1 else 0
  }

  /** The slot and backend are taken out of service. */
  function Withdrawn(f: Fields): Fields {
    f.(backend := false, ready := false, total := 0, free := 0)
  }

  predicate CanAcquire(f: Fields) {
    f.ready && f.free != 0
  }

  function Acquired(f: Fields, a: Attempt): Fields {
    if CanAcquire(f) then f.(free := 0, busy := f.busy + [a]) else f
  }

  function Other(a: Attempt): Attempt -> bool {
    (b: Attempt) => b != a
  }

  function Released(f: Fields, a: Attempt): Fields {
    var busy := Filter(Other(a), f.busy);
    f.(busy := busy, free := if |busy| < |f.busy| then (if f.ready then f.total else 0) else f.free)
  }

  /** `TerminatingProcessGuard::restore`. */
  function Restored(f: Fields, c: Child): Fields {
    Withdrawn(f).(process := Some(c), pending := true)
  }

  function TakenForRecovery(f: Fields): Fields {
    Withdrawn(f).(restart := true, pending := f.process.Some?, process := None)
  }

  function TakenForUnload(f: Fields): Fields {
    Withdrawn(f).(pending := true, process := None)
  }

  function TakenForReclaim(f: Fields): Fields {
    Withdrawn(f).(restart := true, pending := true, process := None)
  }

  function TakenForShutdown(f: Fields): Fields {
    f.(restart := false, pending := false, process := None)
  }

  function ExitObserved(f: Fields): Fields {
    Withdrawn(f).(restart := true, pending := true)
  }

  function StartAnnounced(f: Fields): Fields {
    Withdrawn(f).(restart := true, pending := false)
  }

  function Spawned(f: Fields, c: Child): Fields {
    f.(process := Some(c), pending := true)
  }

  function Probed(f: Fields, ready: bool): Fields {
    f.(restart := false, pending := false, backend := true, ready := ready,
       total := Count(ready), free := Count(ready), busy := [])
  }

  function ProbeLost(f: Fields): Fields {
    if f.ready then f.(ready := false, total := 0, free := 0) else f
  }

  function Refreshed(f: Fields, ready: bool): Fields {
    f.(ready := ready, total := Count(ready), free := Count(ready && f.busy == []))
  }

  function TerminationFailed(f: Fields): Fields {
    Withdrawn(f).(pending := true)
  }

  function Unready(f: Fields): Fields {
    Withdrawn(f).(process := None, busy := [], pending := false)
  }

  // -------------------------------------------------------------- mutable state

  /** `PoolState`; each method is one section of code under the state lock. */
  class PoolState {
    var process: Option<Child>
    var backend: bool
    var ready: bool
    var slotsTotal: nat
    var slotsFree: nat
    var restartRequested: bool
    var terminationPending: bool
    var busy: seq<Attempt>

    function View(): Fields
      reads this
    {
      Fields(process, backend, ready, slotsTotal, slotsFree, restartRequested, terminationPending, busy)
    }

    constructor ()
      ensures View() == NOT_STARTED
    {
      process, backend, ready := None, false, false;
      slotsTotal, slotsFree := 0, 0;
      restartRequested, terminationPending := false, false;
      busy := [];
    }

    method TryAcquire(a: Attempt) returns (acquired: bool)
      modifies this
      ensures acquired == CanAcquire(old(View()))
      ensures View() == Acquired(old(View()), a)
    {
      if !ready || slotsFree == 0 {
        return false;
      }
      slotsFree := 0;
      busy := busy + [a];
      return true;
    }

    method Release(a: Attempt)
      modifies this
      ensures View() == Released(old(View()), a)
    {
      var before := |busy|;
      busy := Filter(Other(a), busy);
      if |busy| < before {
        slotsFree := if ready then slotsTotal else 0;
      }
    }

    method Withdraw()
      modifies `backend, `ready, `slotsTotal, `slotsFree
      ensures View() == Withdrawn(old(View()))
    {
      backend := false;
      ready := false;
      slotsTotal := 0;
      slotsFree := 0;
    }

    method Restore(c: Child)
      modifies this
      ensures View() == Restored(old(View()), c)
    {
      process := Some(c);
      terminationPending := true;
      Withdraw();
    }

    method TakeForRecovery() returns (taken: Option<Child>)
      modifies this
      ensures taken == old(process) && View() == TakenForRecovery(old(View()))
    {
      restartRequested := true;
      terminationPending := process.Some?;
      Withdraw();
      taken := process;
      process := None;
    }

    method TakeForUnload() returns (taken: Option<Child>)
      modifies this
      ensures taken == old(process) && View() == TakenForUnload(old(View()))
    {
      terminationPending := true;
      Withdraw();
      taken := process;
      process := None;
    }

    /** `force_reclaim`: leaves everything alone unless `a` holds the slot of a
        present child. */
    method TakeForReclaim(a: Attempt) returns (taken: Option<Child>)
      modifies this
      ensures taken == if a in old(busy) then old(process) else None
      ensures View() == if taken.Some? then TakenForReclaim(old(View())) else old(View())
    {
      if a !in busy {
        return None;
      }
      taken := process;
      process := None;
      if taken == None {
        return;
      }
      restartRequested := true;
      terminationPending := true;
      Withdraw();
    }

    method TakeForShutdown() returns (taken: Option<Child>)
      modifies this
      ensures taken == old(process) && View() == TakenForShutdown(old(View()))
    {
      restartRequested := false;
      terminationPending := false;
      taken := process;
      process := None;
    }

    /** First section of `check_process_liveness`; an exit status can only be read
        from a present child. */
    method Observe(exitStatus: bool) returns (terminate: bool, restart: bool)
      modifies this
      ensures View() == if exitStatus && old(process).Some? then ExitObserved(old(View())) else old(View())
      ensures terminate == (terminationPending && process.Some?)
      ensures restart == (restartRequested && process.None?)
    {
      var exited := process.Some? && exitStatus;
      if exited {
        restartRequested := true;
        terminationPending := true;
        Withdraw();
      }
      terminate := terminationPending && process.Some?;
      restart := process.None? && restartRequested;
    }

    method AnnounceStart()
      modifies this
      ensures View() == StartAnnounced(old(View()))
    {
      restartRequested := true;
      terminationPending := false;
      Withdraw();
    }

    method AdoptSpawned(c: Child)
      modifies this
      ensures View() == Spawned(old(View()), c)
    {
      process := Some(c);
      terminationPending := true;
    }

    method AcceptProbe(passed: bool)
      modifies this
      ensures View() == Probed(old(View()), passed)
    {
      restartRequested := false;
      terminationPending := false;
      backend := true;
      ready := passed;
      slotsTotal := Count(passed);
      slotsFree := Count(passed);
      busy := [];
    }

    method LoseProbe()
      modifies this
      ensures View() == ProbeLost(old(View()))
    {
      if ready {
        ready := false;
        slotsTotal := 0;
        slotsFree := 0;
      }
    }

    method Refresh(passed: bool)
      modifies this
      ensures View() == Refreshed(old(View()), passed)
    {
      ready := passed;
      slotsTotal := Count(passed);
      slotsFree := Count(passed && busy == []);
    }

    method FailTermination()
      modifies this
      ensures View() == TerminationFailed(old(View()))
    {
      terminationPending := true;
      Withdraw();
    }

    method MarkUnready()
      modifies this
      ensures View() == Unready(old(View()))
    {
      process := None;
      Withdraw();
      busy := [];
      terminationPending := false;
    }
  }

  // ----------------------------------------------------------------- the world

  datatype Reason = ForAcquire(attempt: Attempt) | ForIdle | ForReclaim(holder: Attempt) | ForLiveness

  /** Holder of the operation lock, between two sections of the state lock. */
  datatype Op =
    | Unlocked
    | Checked(attempt: Attempt, running: bool)
    | Terminating(child: Child, reason: Reason)
    | Verified(reason: Reason)
    | Swept(reason: Reason)
    | Restoring(child: Child)
    | Starting(reason: Reason)
    | Spawning(reason: Reason)
    | Recording(reason: Reason)
    | Probing(reason: Reason)
    | Started(attempt: Attempt)
    | Releasing
    | Unloading
    | Refreshing
    | TakingExited
    | ShuttingDown(victim: Option<Child>)

  /** `live` holds every child tree not yet verified as terminated; `abandoned`
      those a shutdown lost track of. `leases` are the outstanding SlotLease
      handles and `holder` the one that owns the slot. */
  datatype World = World(
    fields: Fields, op: Op, live: set<Child>, abandoned: set<Child>, cut: bool,
    leases: map<nat, Attempt>, holder: Option<nat>)

  const INITIAL: World := World(NOT_STARTED, Unlocked, {}, {}, false, map[], None)

  datatype Event =
    | BeginAcquire(attempt: Attempt)
    | Recover
    | Grant(lease: nat)
    | Terminated(ok: bool)
    | ClearPending
    | PutBack
    | Continue
    | AnnounceStart
    | Spawn(child: Option<Child>)
    | Record(ok: bool)
    | Probe(outcome: Option<bool>)
    | ReadReady
    | BeginIdle(longIdle: bool)
    | MemoryReleased(ok: bool)
    | Unload
    | BeginReclaim(attempt: Attempt)
    | BeginLiveness(exitStatus: bool)
    | TakeExited
    | BeginRefresh
    | RefreshOutcome(outcome: Option<bool>)
    | BeginShutdown
    | ShutdownTerminated(ok: bool)
    | Abort
    | DropLease(lease: nat)

  /** The child taken out of the state goes to a termination guard. */
  function Taken(w: World, taken: Option<Child>, after: Fields, reason: Reason, otherwise: Op): World {
    w.(fields := after, op := if taken.Some? then Terminating(taken.value, reason) else otherwise)
  }

  /** Lock acquisition with the first section of each operation. */
  function Begin(w: World, e: Event): World
    requires w.op == Unlocked
  {
    var f := w.fields;
    match e
    case BeginAcquire(a) =>
      var running := f.process.Some? && f.ready;
      if !running && f.busy != [] then w else w.(op := Checked(a, running))
    case BeginIdle(longIdle) =>
      if f.process.Some? && f.busy == [] && longIdle then w.(op := Releasing) else w
    case BeginReclaim(a) =>
      if a in f.busy && f.process.Some? then Taken(w, f.process, TakenForReclaim(f), ForReclaim(a), Unlocked) else w
    case BeginLiveness(exitStatus) =>
      var after := if exitStatus && f.process.Some? then ExitObserved(f) else f;
      w.(fields := after,
         op := if after.pending && after.process.Some? then TakingExited
               else if after.restart && after.process == None then Starting(ForLiveness)
               else Unlocked)
    case BeginRefresh => if f.process.Some? && f.backend then w.(op := Refreshing) else w
    case BeginShutdown => w.(fields := TakenForShutdown(f), op := ShuttingDown(f.process))
    case _ => w
  }

  /** The future that holds the operation lock is dropped where it awaits. A
      termination guard puts its child back; a shutdown has no guard. */
  function Aborted(w: World): World {
    match w.op
    case Terminating(c, _) => w.(fields := Restored(w.fields, c), op := Unlocked)
    case ShuttingDown(victim) =>
      if victim == None then w
      else w.(op := Unlocked, cut := true, abandoned := w.abandoned + {victim.value})
    case Spawning(_) => w.(op := Unlocked)
    case Recording(_) => w.(op := Unlocked)
    case Probing(_) => w.(op := Unlocked)
    case Releasing => w.(op := Unlocked)
    case Refreshing => w.(op := Unlocked)
    case _ => w
  }

  /** After `terminate_managed_process` returned true. */
  function AfterTermination(w: World, reason: Reason): Op {
    match reason
    case ForAcquire(_) => Starting(reason)
    case ForLiveness => if w.fields.restart then Starting(reason) else Unlocked
    case _ => Unlocked
  }

  function StepTermination(w: World, e: Event): World {
    var f := w.fields;
    match (w.op, e)
    case (Checked(a, running), Recover) =>
      if running then w
      else Taken(w, f.process, TakenForRecovery(f), ForAcquire(a), Starting(ForAcquire(a)))
    case (Releasing, MemoryReleased(ok)) => w.(op := if ok && f.backend then Unlocked else Unloading)
    case (Unloading, Unload) => Taken(w, f.process, TakenForUnload(f), ForIdle, Unlocked)
    case (TakingExited, TakeExited) => Taken(w, f.process, f.(process := None), ForLiveness, Unlocked)
    case (Terminating(c, reason), Terminated(ok)) =>
      if ok then w.(live := w.live - {c}, op := Verified(reason))
      else w.(fields := TerminationFailed(f), op := Restoring(c))
    case (Verified(reason), ClearPending) => w.(fields := f.(pending := false), op := Swept(reason))
    case (Swept(reason), Continue) =>
      var after := w.(fields := Unready(f), holder := None);
      after.(op := AfterTermination(after, reason))
    case (Restoring(c), PutBack) => w.(fields := Restored(f, c), op := Unlocked)
    case (ShuttingDown(victim), ShutdownTerminated(ok)) =>
      var child := if victim.Some? then {victim.value} else {};
      var after := w.(fields := Unready(f), op := Unlocked, holder := None);
      if ok then after.(live := w.live - child) else after.(abandoned := w.abandoned + child)
    case _ => w
  }

  function StepStart(w: World, e: Event): World {
    var f := w.fields;
    match (w.op, e)
    case (Starting(reason), AnnounceStart) => w.(fields := StartAnnounced(f), op := Spawning(reason))
    case (Spawning(reason), Spawn(child)) =>
      if child == None then w.(op := Unlocked)
      else if child.value in w.live then w
      else w.(fields := Spawned(f, child.value), live := w.live + {child.value}, op := Recording(reason))
    case (Recording(reason), Record(ok)) => w.(op := if ok then Probing(reason) else Unlocked)
    case (Probing(reason), Probe(outcome)) =>
      if outcome == None then w.(op := Unlocked)
      else w.(fields := Probed(f, outcome.value), holder := None,
              op := if reason.ForAcquire? then Started(reason.attempt) else Unlocked)
    case (Started(a), ReadReady) => w.(op := if f.ready then Checked(a, true) else Unlocked)
    case (Checked(a, running), Grant(lease)) =>
      if !running || lease in w.leases then w
      else if CanAcquire(f) then
        w.(fields := Acquired(f, a), op := Unlocked, leases := w.leases[lease := a], holder := Some(lease))
      else w.(op := Unlocked)
    case (Refreshing, RefreshOutcome(outcome)) =>
      w.(fields := if outcome.Some? then Refreshed(f, outcome.value) else ProbeLost(f), op := Unlocked)
    case _ => w
  }

  /** `SlotLease::drop` needs no operation lock and can come between any two
      sections. */
  function Dropped(w: World, lease: nat): World {
    if lease !in w.leases then w
    else
      w.(fields := Released(w.fields, w.leases[lease]),
         leases := w.leases - {lease},
         holder := if w.leases[lease] in w.fields.busy then None else w.holder)
  }

  function Step(w: World, e: Event): World {
    match e
    case DropLease(lease) => Dropped(w, lease)
    case Abort => Aborted(w)
    case _ =>
      if w.op == Unlocked then Begin(w, e)
      else if e.AnnounceStart? || e.Spawn? || e.Record? || e.Probe? || e.ReadReady? || e.Grant? || e.RefreshOutcome?
      then StepStart(w, e)
      else StepTermination(w, e)
  }

  function Run(w: World, events: seq<Event>): World
    decreases |events|
  {
    if events == [] then w else Run(Step(w, events[0]), events[1..])
  }
}
