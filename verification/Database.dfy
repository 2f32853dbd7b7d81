/** Remote's queue tables and every transaction that moves a Generation, an
    Attempt or a slot claim. One event is one committed (or rolled back)
    transaction; the scheduler's plan may stem from any earlier snapshot, so an
    assignment event carries an arbitrary Generation and pool. */
module Database {
  import opened Common
  import opened Lifecycle

  type Id = nat

  datatype Generation = Generation(state: GenerationState, attemptCount: nat, createdAt: int)

  datatype Attempt = Attempt(
    generation: Id, pool: Id, worker: Id, number: nat, state: AttemptState, failure: Option<FailureKind>)

  datatype Pool = Pool(total: nat, claimed: nat)

  /** `spentPools` holds every pool id ever handed out: ids are never reused. */
  datatype Db = Db(
    generations: map<Id, Generation>,
    attempts: map<Id, Attempt>,
    pools: map<Id, Pool>,
    rejections: set<(Id, Id)>,
    spentPools: set<Id>
  )

  const EMPTY: Db := Db(map[], map[], map[], {}, {})

  datatype Event =
    | Submit(g: Id, createdAt: int)
    | TryAssign(g: Id, pool: Id, worker: Id, attempt: Id, delivered: bool, commits: bool)
    | ConfirmRunning(attempt: Id)
    | RecordFailure(attempt: Id, kind: FailureKind, to: AttemptState, candidatesRemain: bool)
    | RejectLease(attempt: Id)
    | AcceptResult(attempt: Id)
    | CancelQueued(g: Id)
    | RequestCancel(g: Id)
    | AcknowledgeCancel(attempt: Id)
    | ExpireQueued(g: Id)
    | ReportPool(pool: Id, total: nat)
    | RemovePool(pool: Id)

  // ------------------------------------------------------------------- queries

  predicate LiveFor(db: Db, a: Id, g: Id) {
    a in db.attempts && db.attempts[a].generation == g && db.attempts[a].state.IsLive()
  }

  function LiveOn(db: Db, p: Id): set<Id> {
    set a | a in db.attempts && db.attempts[a].pool == p && db.attempts[a].state.IsLive()
  }

  predicate RanOutOfMemory(db: Db, a: Id, g: Id, p: Id) {
    && a in db.attempts && db.attempts[a].generation == g && db.attempts[a].pool == p
    && db.attempts[a].failure == Some(OutOfMemory)
  }

  /** `excluded_pools`: out-of-memory history united with rejections. */
  predicate Excluded(db: Db, g: Id, p: Id) {
    (g, p) in db.rejections || exists a :: a in db.attempts && RanOutOfMemory(db, a, g, p)
  }

  // -------------------------------------------------------------- transactions

  function SetGeneration(db: Db, g: Id, state: GenerationState): Db
    requires g in db.generations
  {
    db.(generations := db.generations[g := db.generations[g].(state := state)])
  }

  /** `claim_slot`: `None` when no slot is free or the pool is gone. */
  function ClaimSlot(db: Db, p: Id): Option<Db> {
    if p in db.pools && db.pools[p].claimed < db.pools[p].total then
      Some(db.(pools := db.pools[p := db.pools[p].(claimed := db.pools[p].claimed + 1)]))
    else None
  }

  /** `release_slot`, floored at zero. */
  function ReleaseSlot(db: Db, p: Id): Db {
    if p in db.pools then
      db.(pools := db.pools[p := db.pools[p].(claimed := Max(0, db.pools[p].claimed - 1))])
    else db
  }

  /** `attempts::create`: only from `Queued`, off an excluded pool never, and
      below the maximum. */
  function CreateAttempt(db: Db, g: Id, p: Id, w: Id, a: Id): Option<Db> {
    if g !in db.generations || db.generations[g].state != Queued then None
    else if Excluded(db, g, p) then None
    else if db.generations[g].attemptCount + 1 > MAX_ATTEMPTS then None
    else
      var number := db.generations[g].attemptCount + 1;
      Some(db.(attempts := db.attempts[a := Attempt(g, p, w, number, Leased, None)],
               generations := db.generations[g := db.generations[g].(attemptCount := number)]))
  }

  /** The committed effect of `try_assign`; `None` when it rolls back. */
  function Assigned(db: Db, g: Id, p: Id, w: Id, a: Id): Option<Db> {
    if Excluded(db, g, p) then None
    else match ClaimSlot(db, p)
      case None => None
      case Some(claimed) =>
        match CreateAttempt(claimed, g, p, w, a)
        case None => None
        case Some(created) => Some(SetGeneration(created, g, Running))
  }

  /** `finish`: settles a live Attempt and gives its slot back. */
  function Settle(db: Db, a: Id, to: AttemptState, failure: Option<FailureKind>): Db
    requires a in db.attempts
  {
    ReleaseSlot(db.(attempts := db.attempts[a := db.attempts[a].(state := to, failure := failure)]),
                db.attempts[a].pool)
  }

  /** `finish_and_decide`. */
  function FinishAndDecide(db: Db, a: Id, kind: FailureKind, to: AttemptState, candidatesRemain: bool): Db
    requires a in db.attempts && db.attempts[a].generation in db.generations
  {
    var g := db.attempts[a].generation;
    var settled := Settle(db, a, to, Some(kind));
    var generation := db.generations[g];
    if generation.state == Cancelling then SetGeneration(settled, g, Cancelled)
    else match RetryDecisionFor(kind, generation.attemptCount, candidatesRemain)
      case Requeue => if generation.state == Running then SetGeneration(settled, g, Queued) else settled
      case GiveUp =>
        if generation.state in {Queued, Running, Cancelling} then SetGeneration(settled, g, Failed) else settled
  }

  /** `reject_lease`: the Attempt row disappears and its number is given back. */
  function Reject(db: Db, a: Id): Db
    requires a in db.attempts && db.attempts[a].generation in db.generations
  {
    var (g, p) := (db.attempts[a].generation, db.attempts[a].pool);
    var released := ReleaseSlot(db.(rejections := db.rejections + {(g, p)}, attempts := db.attempts - {a}), p);
    released.(generations := db.generations[g :=
      db.generations[g].(state := Queued, attemptCount := Max(0, db.generations[g].attemptCount - 1))])
  }

  /** Removing a pool cascades to its Attempts and rejections. */
  function DropPool(db: Db, p: Id): Db {
    db.(pools := db.pools - {p},
        attempts := map a | a in db.attempts && db.attempts[a].pool != p :: db.attempts[a],
        rejections := set r | r in db.rejections && r.1 != p)
  }

  predicate LiveAttempt(db: Db, a: Id) {
    && a in db.attempts && db.attempts[a].state.IsLive()
    && db.attempts[a].generation in db.generations
  }

  predicate InState(db: Db, g: Id, state: GenerationState) {
    g in db.generations && db.generations[g].state == state
  }

  /** One transaction; an event whose guards fail changes nothing. Attempt events
      come from the Worker that owns the Attempt. */
  function Step(db: Db, e: Event): Db {
    match e
    case Submit(g, createdAt) =>
      if g in db.generations then db
      else db.(generations := db.generations[g := Generation(Queued, 0, createdAt)])
    case TryAssign(g, p, w, a, delivered, commits) =>
      if a in db.attempts then db
      else
        var after := Assigned(db, g, p, w, a);
        if after.Some? && delivered && commits then after.value else db
    case ConfirmRunning(a) =>
      if a in db.attempts && db.attempts[a].state == Leased then
        db.(attempts := db.attempts[a := db.attempts[a].(state := Executing)])
      else db
    case RecordFailure(a, kind, to, candidatesRemain) =>
      if LiveAttempt(db, a) && to in {Broken, LeaseLapsed} then
        FinishAndDecide(db, a, kind, to, candidatesRemain)
      else db
    case RejectLease(a) =>
      if LiveAttempt(db, a) && db.attempts[a].state == Leased
         && InState(db, db.attempts[a].generation, Running) then Reject(db, a)
      else db
    case AcceptResult(a) =>
      if LiveAttempt(db, a) && db.generations[db.attempts[a].generation].state.CanBecome(Succeeded) then
        SetGeneration(Settle(db, a, Done, None), db.attempts[a].generation, Succeeded)
      else db
    case CancelQueued(g) =>
      if InState(db, g, Queued) then SetGeneration(db, g, Cancelled) else db
    case RequestCancel(g) =>
      if InState(db, g, Running) then SetGeneration(db, g, Cancelling) else db
    case AcknowledgeCancel(a) =>
      // An Attempt that is no longer live still moves its Generation.
      if a in db.attempts && InState(db, db.attempts[a].generation, Cancelling) then
        var settled := if db.attempts[a].state.IsLive() then Settle(db, a, Stopped, None) else db;
        SetGeneration(settled, db.attempts[a].generation, Cancelled)
      else db
    case ExpireQueued(g) =>
      if InState(db, g, Queued) then SetGeneration(db, g, Expired) else db
    case ReportPool(p, total) =>
      if p in db.pools then
        // A check constraint aborts a report that would undercut the claims.
        if db.pools[p].claimed <= total then db.(pools := db.pools[p := db.pools[p].(total := total)]) else db
      else if p in db.spentPools then db
      else db.(pools := db.pools[p := Pool(total, 0)], spentPools := db.spentPools + {p})
    case RemovePool(p) => if p in db.pools then DropPool(db, p) else db
  }

  function Run(db: Db, events: seq<Event>): Db
    decreases |events|
  {
    if events == [] then db else Run(Step(db, events[0]), events[1..])
  }

  // ---------------------------------------------------------------- the method

  /** Remote's handle on the tables. */
  class Remote {
    var db: Db

    constructor ()
      ensures db == EMPTY
    {
      db := EMPTY;
    }

    /** `try_assign`: works on an uncommitted copy and commits only once the lease
        has been sent. */
    method TryAssignLease(g: Id, p: Id, w: Id, a: Id, delivered: bool, commits: bool)
      requires a !in db.attempts
      modifies this
      ensures db == Step(old(db), TryAssign(g, p, w, a, delivered, commits))
    {
      if Excluded(db, g, p) {
        return;
      }
      var tx := db;
      var claimed := ClaimSlot(tx, p);
      if claimed == None {
        return;
      }
      tx := claimed.value;
      var created := CreateAttempt(tx, g, p, w, a);
      if created == None {
        return;
      }
      tx := created.value;
      tx := SetGeneration(tx, g, Running);
      if delivered {
        if commits {
          db := tx;
        }
      }
    }

    /** One scheduling pass: every planned assignment is its own transaction.
        `outcomes[i]` are the fresh Attempt id and the send and commit results. */
    method RunPass(plan: seq<(Id, Id, Id)>, outcomes: seq<(Id, bool, bool)>)
      requires |plan| == |outcomes|
      modifies this
      ensures db == Run(old(db), PassEvents(plan, outcomes))
    {
      var i := 0;
      while i < |plan|
        invariant 0 <= i <= |plan|
        invariant Run(db, PassEvents(plan[i..], outcomes[i..])) == Run(old(db), PassEvents(plan, outcomes))
      {
        var (g, p, w) := plan[i];
        var (a, delivered, commits) := outcomes[i];
        assert plan[i..][1..] == plan[i + 1..] && outcomes[i..][1..] == outcomes[i + 1..];
        assert PassEvents(plan[i..], outcomes[i..])[1..] == PassEvents(plan[i + 1..], outcomes[i + 1..]);
        if a !in db.attempts {
          TryAssignLease(g, p, w, a, delivered, commits);
        }
        i := i + 1;
      }
    }
  }

  function PassEvents(plan: seq<(Id, Id, Id)>, outcomes: seq<(Id, bool, bool)>): seq<Event>
    requires |plan| == |outcomes|
  {
    if plan == [] then []
    else
      [TryAssign(plan[0].0, plan[0].1, plan[0].2, outcomes[0].0, outcomes[0].1, outcomes[0].2)]
      + PassEvents(plan[1..], outcomes[1..])
  }
}
