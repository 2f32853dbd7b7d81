/** When each transaction on the queue tables takes effect, and what it then is, in
    terms of the columns alone. */
module Transactions {
  import opened Common
  import opened Lifecycle
  import opened Database
  import opened DatabaseSafety

  predicate InProgress(db: Db, a: Id) {
    a in db.attempts && (db.attempts[a].state == Leased || db.attempts[a].state == Executing)
  }

  function StateOf(db: Db, a: Id): Option<GenerationState>
    requires a in db.attempts
  {
    var g := db.attempts[a].generation;
    if g in db.generations then Some(db.generations[g].state) else None
  }

  /** The tables with another state of one Generation and of one Attempt. */
  function Moved(db: Db, g: Id, state: GenerationState): Db
    requires g in db.generations
  {
    Db(db.generations[g := Generation(state, db.generations[g].attemptCount, db.generations[g].createdAt)],
       db.attempts, db.pools, db.rejections, db.spentPools)
  }

  function Closed(db: Db, a: Id, state: AttemptState, failure: Option<FailureKind>): Db
    requires a in db.attempts
  {
    var (x, p) := (db.attempts[a], db.attempts[a].pool);
    Db(db.generations,
       db.attempts[a := Attempt(x.generation, p, x.worker, x.number, state, failure)],
       if p in db.pools then db.pools[p := Pool(db.pools[p].total, OneLess(db.pools[p].claimed))] else db.pools,
       db.rejections, db.spentPools)
  }

  function OneLess(n: nat): nat {
    if n == 0 then 0 else n - 1
  }

  // ----------------------------------------------------------------- assignment

  /** What one row set says against running `g` on `p`: only what happened on `p`
      itself counts. */
  predicate BarredFrom(db: Db, g: Id, p: Id) {
    || (g, p) in db.rejections
    || exists b :: b in db.attempts && db.attempts[b].generation == g && db.attempts[b].pool == p
                   && db.attempts[b].failure == Some(OutOfMemory)
  }

  lemma {:induction false} ExcludedIff(db: Db, g: Id, p: Id)
    ensures Excluded(db, g, p) <==> BarredFrom(db, g, p)
  {
    if BarredFrom(db, g, p) && (g, p) !in db.rejections {
      var b :| b in db.attempts && db.attempts[b].generation == g && db.attempts[b].pool == p
               && db.attempts[b].failure == Some(OutOfMemory);
      assert RanOutOfMemory(db, b, g, p);
    }
  }

  predicate Assignable(db: Db, g: Id, p: Id, a: Id) {
    && a !in db.attempts && g in db.generations && db.generations[g].state == Queued
    && db.generations[g].attemptCount < 3 && !BarredFrom(db, g, p)
    && p in db.pools && db.pools[p].claimed < db.pools[p].total
  }

  /** An assignment takes effect exactly when its lease was delivered and committed,
      the Generation is queued with an Attempt left and not barred from that very
      pool, and the pool has a slot left. */
  lemma {:induction false} AssignmentTakesEffectIff(db: Db, g: Id, p: Id, w: Id, a: Id, delivered: bool, commits: bool)
    ensures Step(db, TryAssign(g, p, w, a, delivered, commits)) != db
      <==> delivered && commits && Assignable(db, g, p, a)
  {
    ExcludedIff(db, g, p);
    AssignmentIsAtomic(db, g, p, w, a, delivered, commits);
    if Assignable(db, g, p, a) {
      SameRejectionsSameExclusion(db, ClaimSlot(db, p).value, g, p);
      assert delivered && commits ==> a in Step(db, TryAssign(g, p, w, a, delivered, commits)).attempts;
    }
  }

  /** Then exactly this is committed. */
  lemma {:induction false} AssignmentCommits(db: Db, g: Id, p: Id, w: Id, a: Id)
    requires Assignable(db, g, p, a)
    ensures var (n, pool) := (db.generations[g].attemptCount + 1, db.pools[p]);
      Step(db, TryAssign(g, p, w, a, true, true)) == Db(
        db.generations[g := Generation(Running, n, db.generations[g].createdAt)],
        db.attempts[a := Attempt(g, p, w, n, Leased, None)],
        db.pools[p := Pool(pool.total, pool.claimed + 1)],
        db.rejections, db.spentPools)
  {
    ExcludedIff(db, g, p);
    SameRejectionsSameExclusion(db, ClaimSlot(db, p).value, g, p);
  }

  // --------------------------------------------------------------- the Attempt's

  lemma {:induction false} ConfirmationTakesEffectIff(db: Db, a: Id)
    ensures var after := Step(db, ConfirmRunning(a));
      && (after != db <==> a in db.attempts && db.attempts[a].state == Leased)
      && (after != db ==>
           var x := db.attempts[a];
           after == Db(db.generations,
                       db.attempts[a := Attempt(x.generation, x.pool, x.worker, x.number, Executing, x.failure)],
                       db.pools, db.rejections, db.spentPools))
  {
    assert a in db.attempts && db.attempts[a].state == Leased ==>
      Step(db, ConfirmRunning(a)).attempts[a].state == Executing;
  }

  /** Where a failed Attempt leaves its Generation: the cancellation asked for wins,
      else the queue again for a passing cause with Attempts left and, out of
      memory, another candidate. */
  function AfterFailure(state: GenerationState, kind: FailureKind, used: nat, candidatesRemain: bool): GenerationState {
    var passing := kind in {OutOfMemory, BackendCrashed, TransferFailed, WorkerLost, LeaseExpired};
    var again := passing && used < 3 && (kind == OutOfMemory ==> candidatesRemain);
    match state
    case Cancelling => Cancelled
    case Running => if again then Queued else Failed
    case Queued => if again then Queued else Failed
    case _ => state
  }

  lemma {:induction false} FailureTakesEffectIff(db: Db, a: Id, kind: FailureKind, to: AttemptState, candidatesRemain: bool)
    ensures var after := Step(db, RecordFailure(a, kind, to, candidatesRemain));
      && (after != db <==> InProgress(db, a) && StateOf(db, a) != None && (to == Broken || to == LeaseLapsed))
      && (after != db ==>
           var g := db.attempts[a].generation;
           var x := db.generations[g];
           after == Moved(Closed(db, a, to, Some(kind)), g,
                          AfterFailure(x.state, kind, x.attemptCount, candidatesRemain)))
  {
    if LiveAttempt(db, a) && to in {Broken, LeaseLapsed} {
      FailureMoves(db, a, kind, to, candidatesRemain);
      assert Step(db, RecordFailure(a, kind, to, candidatesRemain)).attempts[a].state == to;
    }
  }

  lemma {:induction false} FailureMoves(db: Db, a: Id, kind: FailureKind, to: AttemptState, candidatesRemain: bool)
    requires LiveAttempt(db, a)
    ensures var g := db.attempts[a].generation;
      var x := db.generations[g];
      FinishAndDecide(db, a, kind, to, candidatesRemain) ==
        Moved(Closed(db, a, to, Some(kind)), g, AfterFailure(x.state, kind, x.attemptCount, candidatesRemain))
  {
    var g := db.attempts[a].generation;
    var x := db.generations[g];
    assert Settle(db, a, to, Some(kind)) == Closed(db, a, to, Some(kind));
    assert db.generations[g := x] == db.generations;
    assert RetryDecisionFor(kind, x.attemptCount, candidatesRemain).Requeue? <==>
      kind in {OutOfMemory, BackendCrashed, TransferFailed, WorkerLost, LeaseExpired}
      && x.attemptCount < 3 && (kind == OutOfMemory ==> candidatesRemain);
  }

  /** A lease is only handed back before it is confirmed. */
  lemma {:induction false} RejectionTakesEffectIff(db: Db, a: Id)
    ensures var after := Step(db, RejectLease(a));
      && (after != db <==> a in db.attempts && db.attempts[a].state == Leased && StateOf(db, a) == Some(Running))
      && (after != db ==>
           var (g, p) := (db.attempts[a].generation, db.attempts[a].pool);
           var x := db.generations[g];
           && after.attempts == db.attempts - {a}
           && after.generations == db.generations[g := Generation(Queued, OneLess(x.attemptCount), x.createdAt)]
           && after.rejections == db.rejections + {(g, p)}
           && after.pools == Closed(db, a, Stopped, None).pools && after.spentPools == db.spentPools)
  {
    if LiveAttempt(db, a) && db.attempts[a].state == Leased && InState(db, db.attempts[a].generation, Running) {
      assert a !in Step(db, RejectLease(a)).attempts;
    }
  }

  lemma {:induction false} AcceptanceTakesEffectIff(db: Db, a: Id)
    ensures var after := Step(db, AcceptResult(a));
      && (after != db <==> InProgress(db, a) && StateOf(db, a) in {Some(Running), Some(Cancelling)})
      && (after != db ==> after == Moved(Closed(db, a, Done, None), db.attempts[a].generation, Succeeded))
  {
    if InProgress(db, a) && StateOf(db, a) in {Some(Running), Some(Cancelling)} {
      assert Step(db, AcceptResult(a)).attempts[a].state == Done;
    }
  }

  lemma {:induction false} AcknowledgementTakesEffectIff(db: Db, a: Id)
    ensures var after := Step(db, AcknowledgeCancel(a));
      && (after != db <==> a in db.attempts && StateOf(db, a) == Some(Cancelling))
      && (after != db ==>
           after == Moved(if InProgress(db, a) then Closed(db, a, Stopped, None) else db,
                          db.attempts[a].generation, Cancelled))
  {
    if a in db.attempts && StateOf(db, a) == Some(Cancelling) {
      var g := db.attempts[a].generation;
      assert Step(db, AcknowledgeCancel(a)).generations[g].state == Cancelled;
    }
  }

  // ------------------------------------------------------------- the Generation's

  lemma {:induction false} SubmissionTakesEffectIff(db: Db, g: Id, createdAt: int)
    ensures var after := Step(db, Submit(g, createdAt));
      && (after != db <==> g !in db.generations)
      && (after != db ==>
           after == Db(db.generations[g := Generation(Queued, 0, createdAt)], db.attempts, db.pools, db.rejections,
                       db.spentPools))
  {
    assert g in Step(db, Submit(g, createdAt)).generations;
  }

  /** Cancelling ends a queued Generation and asks a running one to stop; only a
      queued one expires. */
  lemma {:induction false} CancellationTakesEffectIff(db: Db, g: Id)
    ensures Step(db, CancelQueued(g)) == if InState(db, g, Queued) then Moved(db, g, Cancelled) else db
    ensures Step(db, CancelQueued(g)) != db <==> g in db.generations && db.generations[g].state == Queued
    ensures Step(db, RequestCancel(g)) == if InState(db, g, Running) then Moved(db, g, Cancelling) else db
    ensures Step(db, RequestCancel(g)) != db <==> g in db.generations && db.generations[g].state == Running
    ensures Step(db, ExpireQueued(g)) == if InState(db, g, Queued) then Moved(db, g, Expired) else db
    ensures Step(db, ExpireQueued(g)) != db <==> g in db.generations && db.generations[g].state == Queued
  {
    if g in db.generations {
      assert Moved(db, g, Cancelled).generations[g].state == Cancelled;
      assert Moved(db, g, Cancelling).generations[g].state == Cancelling;
      assert Moved(db, g, Expired).generations[g].state == Expired;
    }
  }

  // -------------------------------------------------------------------- the pool's

  /** A report resizes a registered pool down to its claims at most, and registers
      an id only once. */
  lemma {:induction false} ReportTakesEffectIff(db: Db, p: Id, total: nat)
    ensures var after := Step(db, ReportPool(p, total));
      && (after != db <==>
           if p in db.pools then db.pools[p].claimed <= total && db.pools[p].total != total else p !in db.spentPools)
      && (after != db ==>
           && after.pools == db.pools[p := Pool(total, if p in db.pools then db.pools[p].claimed else 0)]
           && after.spentPools == db.spentPools + (if p in db.pools then {} else {p})
           && after.generations == db.generations && after.attempts == db.attempts && after.rejections == db.rejections)
  {
    var after := Step(db, ReportPool(p, total));
    if p in db.pools {
      assert db.pools[p].total == total ==> db.pools[p := db.pools[p].(total := total)] == db.pools;
      assert db.pools[p].total != total && db.pools[p].claimed <= total ==> after.pools[p].total == total;
    } else {
      assert p !in db.spentPools ==> p in after.pools;
    }
  }

  /** Removal takes with it exactly the rows that name the pool. */
  lemma {:induction false} RemovalTakesEffectIff(db: Db, p: Id)
    ensures var after := Step(db, RemovePool(p));
      && (after != db <==> p in db.pools)
      && (after != db ==>
           && after.pools == db.pools - {p}
           && (forall a :: a in after.attempts <==> a in db.attempts && db.attempts[a].pool != p)
           && (forall a :: a in after.attempts ==> after.attempts[a] == db.attempts[a])
           && (forall r :: r in after.rejections <==> r in db.rejections && r.1 != p)
           && after.generations == db.generations && after.spentPools == db.spentPools)
  {
    assert p !in Step(db, RemovePool(p)).pools;
  }
}
