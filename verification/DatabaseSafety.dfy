/** Assignment safety: what every transaction on the queue tables keeps, for
    any order of transactions and any stale plan. */
module DatabaseSafety {
  import opened Common
  import opened Lifecycle
  import opened Database

  /** Claims are exactly the live Attempts and never exceed the pool. */
  ghost predicate Slots(db: Db) {
    forall p :: p in db.pools ==>
      db.pools[p].claimed == |LiveOn(db, p)| && db.pools[p].claimed <= db.pools[p].total
  }

  ghost predicate References(db: Db) {
    && (forall a :: a in db.attempts ==>
         db.attempts[a].generation in db.generations && db.attempts[a].pool in db.pools)
    && (forall r :: r in db.rejections ==> r.1 in db.pools)
    && db.pools.Keys <= db.spentPools
  }

  /** A queued Generation has no live Attempt. */
  ghost predicate LiveIsNotQueued(db: Db)
    requires References(db)
  {
    forall a :: a in db.attempts && db.attempts[a].state.IsLive() ==>
      db.generations[db.attempts[a].generation].state != Queued
  }

  ghost predicate OneLiveAttempt(db: Db) {
    forall g, a, b :: LiveFor(db, a, g) && LiveFor(db, b, g) ==> a == b
  }

  ghost predicate Counts(db: Db) {
    forall g :: g in db.generations ==> db.generations[g].attemptCount <= MAX_ATTEMPTS
  }

  /** Attempt numbers run from 1, and a live Attempt is the latest one. */
  ghost predicate Numbers(db: Db)
    requires References(db)
  {
    forall a :: a in db.attempts ==>
      && 1 <= db.attempts[a].number <= db.generations[db.attempts[a].generation].attemptCount
      && (db.attempts[a].state.IsLive() ==>
           db.attempts[a].number == db.generations[db.attempts[a].generation].attemptCount)
  }

  /** No two Attempts of a Generation share a number. */
  ghost predicate DistinctNumbers(db: Db) {
    forall a, b | a in db.attempts && b in db.attempts && a != b ::
      db.attempts[a].generation == db.attempts[b].generation ==>
        db.attempts[a].number != db.attempts[b].number
  }

  /** A live Attempt never runs on a pool excluded for its Generation. */
  ghost predicate OffExcludedPools(db: Db) {
    forall a :: a in db.attempts && db.attempts[a].state.IsLive() ==>
      !Excluded(db, db.attempts[a].generation, db.attempts[a].pool)
  }

  ghost predicate Inv(db: Db) {
    && Slots(db) && References(db) && LiveIsNotQueued(db) && OneLiveAttempt(db)
    && Counts(db) && Numbers(db) && DistinctNumbers(db) && OffExcludedPools(db)
  }

  lemma {:induction false} EmptyInv()
    ensures Inv(EMPTY)
  {
  }

  // ------------------------------------------------ an Attempt begins on a pool

  ghost predicate Began(db: Db, after: Db, g: Id, p: Id, a: Id) {
    && a !in db.attempts && g in db.generations && p in db.pools
    && db.generations[g].state == Queued && db.generations[g].attemptCount < MAX_ATTEMPTS
    && db.pools[p].claimed < db.pools[p].total && !Excluded(db, g, p)
    && a in after.attempts
    && after.attempts == db.attempts[a :=
         Attempt(g, p, after.attempts[a].worker, db.generations[g].attemptCount + 1, Leased, None)]
    && after.generations == db.generations[g :=
         db.generations[g].(state := Running, attemptCount := db.generations[g].attemptCount + 1)]
    && after.pools == db.pools[p := db.pools[p].(claimed := db.pools[p].claimed + 1)]
    && after.rejections == db.rejections && after.spentPools == db.spentPools
  }

  lemma {:induction false} SameRejectionsSameExclusion(db: Db, tx: Db, g: Id, p: Id)
    requires tx.rejections == db.rejections && tx.attempts == db.attempts
    ensures Excluded(tx, g, p) == Excluded(db, g, p)
  {
    forall a | a in db.attempts ensures RanOutOfMemory(tx, a, g, p) == RanOutOfMemory(db, a, g, p) {
    }
  }

  /** All or nothing: the transaction either does nothing, or commits the claim,
      the Attempt and the Running state together, with the lease delivered. */
  lemma {:induction false} AssignmentIsAtomic(db: Db, g: Id, p: Id, w: Id, a: Id, delivered: bool, commits: bool)
    ensures
      var after := Step(db, TryAssign(g, p, w, a, delivered, commits));
      after == db || (delivered && commits && Began(db, after, g, p, a))
  {
    var after := Step(db, TryAssign(g, p, w, a, delivered, commits));
    if after != db {
      var claimed := ClaimSlot(db, p).value;
      SameRejectionsSameExclusion(db, claimed, g, p);
      assert after.attempts ==
        db.attempts[a := Attempt(g, p, w, db.generations[g].attemptCount + 1, Leased, None)];
    }
  }

  lemma {:induction false} BeganSlots(db: Db, after: Db, g: Id, p: Id, a: Id)
    requires Began(db, after, g, p, a) && Slots(db)
    ensures Slots(after)
  {
    assert LiveOn(after, p) == LiveOn(db, p) + {a};
    forall q | q in db.pools && q != p ensures LiveOn(after, q) == LiveOn(db, q) {
    }
  }

  lemma {:induction false} BeganLive(db: Db, after: Db, g: Id, p: Id, a: Id)
    requires Began(db, after, g, p, a) && References(db) && LiveIsNotQueued(db) && OneLiveAttempt(db)
    ensures References(after) && LiveIsNotQueued(after) && OneLiveAttempt(after)
  {
    forall h, b, c | LiveFor(after, b, h) && LiveFor(after, c, h) ensures b == c {
      assert b != a ==> LiveFor(db, b, h);
      assert c != a ==> LiveFor(db, c, h);
    }
  }

  lemma {:induction false} BeganNumbers(db: Db, after: Db, g: Id, p: Id, a: Id)
    requires Began(db, after, g, p, a) && References(db) && LiveIsNotQueued(db) && References(after)
    requires Counts(db) && Numbers(db) && DistinctNumbers(db)
    ensures Counts(after) && Numbers(after) && DistinctNumbers(after)
  {
    forall b | b in db.attempts && db.attempts[b].generation == g
      ensures !db.attempts[b].state.IsLive() && db.attempts[b].number <= db.generations[g].attemptCount
    {
    }
  }

  lemma {:induction false} BeganExclusions(db: Db, after: Db, g: Id, p: Id, a: Id)
    requires Began(db, after, g, p, a) && OffExcludedPools(db)
    ensures OffExcludedPools(after)
  {
    forall h: Id, q: Id | Excluded(after, h, q) ensures Excluded(db, h, q) {
      if (h, q) !in after.rejections {
        var b :| b in after.attempts && RanOutOfMemory(after, b, h, q);
        assert b in db.attempts && RanOutOfMemory(db, b, h, q);
      }
    }
  }

  lemma {:induction false} BeganInv(db: Db, after: Db, g: Id, p: Id, a: Id)
    requires Inv(db) && Began(db, after, g, p, a)
    ensures Inv(after)
  {
    BeganSlots(db, after, g, p, a);
    BeganLive(db, after, g, p, a);
    BeganNumbers(db, after, g, p, a);
    BeganExclusions(db, after, g, p, a);
  }

  // ------------------------------------------------------ a live Attempt ends

  /** `a` stops being live: it is settled, or its row disappears and its number
      is given back. Only its own Generation and pool are touched. */
  ghost predicate Ended(db: Db, after: Db, a: Id) {
    && LiveAttempt(db, a) && db.attempts[a].pool in db.pools
    && var (g, p) := (db.attempts[a].generation, db.attempts[a].pool);
    && (forall b :: b != a ==> (b in after.attempts <==> b in db.attempts))
    && (forall b :: b != a && b in db.attempts ==> after.attempts[b] == db.attempts[b])
    && (a in after.attempts ==>
         && after.attempts[a].generation == g && after.attempts[a].pool == p
         && after.attempts[a].number == db.attempts[a].number && !after.attempts[a].state.IsLive())
    && after.generations.Keys == db.generations.Keys
    && (forall h :: h != g && h in db.generations ==> after.generations[h] == db.generations[h])
    && after.generations[g].attemptCount ==
         (if a in after.attempts then db.generations[g].attemptCount
          else Max(0, db.generations[g].attemptCount - 1))
    && after.pools == db.pools[p := db.pools[p].(claimed := Max(0, db.pools[p].claimed - 1))]
    && db.rejections <= after.rejections <= db.rejections + {(g, p)}
    && (a !in after.attempts ==> (g, p) in after.rejections)
    && after.spentPools == db.spentPools
  }

  lemma {:induction false} SettleEnds(db: Db, a: Id, to: AttemptState, failure: Option<FailureKind>,
                                      state: GenerationState)
    requires LiveAttempt(db, a) && db.attempts[a].pool in db.pools && !to.IsLive()
    ensures Ended(db, SetGeneration(Settle(db, a, to, failure), db.attempts[a].generation, state), a)
  {
  }

  lemma {:induction false} RejectEnds(db: Db, a: Id)
    requires LiveAttempt(db, a) && db.attempts[a].pool in db.pools
    ensures Ended(db, Reject(db, a), a)
  {
  }

  lemma {:induction false} EndedSlots(db: Db, after: Db, a: Id)
    requires Ended(db, after, a) && Slots(db)
    ensures Slots(after)
  {
    var p := db.attempts[a].pool;
    assert a in LiveOn(db, p);
    assert LiveOn(after, p) == LiveOn(db, p) - {a};
    forall q | q in db.pools && q != p ensures LiveOn(after, q) == LiveOn(db, q) {
    }
  }

  lemma {:induction false} EndedOthersAreElsewhere(db: Db, after: Db, a: Id, b: Id)
    requires Ended(db, after, a) && OneLiveAttempt(db)
    requires b in after.attempts && after.attempts[b].state.IsLive()
    ensures b in db.attempts && after.attempts[b] == db.attempts[b]
    ensures db.attempts[b].generation != db.attempts[a].generation
  {
    assert LiveFor(db, a, db.attempts[a].generation);
    assert LiveFor(db, b, db.attempts[b].generation);
  }

  lemma {:induction false} EndedLive(db: Db, after: Db, a: Id)
    requires Ended(db, after, a) && References(db) && LiveIsNotQueued(db) && OneLiveAttempt(db)
    ensures References(after) && LiveIsNotQueued(after) && OneLiveAttempt(after)
  {
    forall b | b in after.attempts && after.attempts[b].state.IsLive()
      ensures after.generations[after.attempts[b].generation].state != Queued
    {
      EndedOthersAreElsewhere(db, after, a, b);
    }
    forall h, b, c | LiveFor(after, b, h) && LiveFor(after, c, h) ensures b == c {
      assert LiveFor(db, b, h) && LiveFor(db, c, h);
    }
  }

  lemma {:induction false} EndedCounts(db: Db, after: Db, a: Id)
    requires Ended(db, after, a) && Counts(db)
    ensures Counts(after)
  {
  }

  /** The settled Attempt keeps its number; a removed one had the highest, so the
      count falls to the next below. */
  lemma {:induction false} EndedNumber(db: Db, after: Db, a: Id, b: Id)
    requires Ended(db, after, a) && References(db) && References(after) && OneLiveAttempt(db)
    requires Numbers(db) && DistinctNumbers(db) && b in after.attempts
    ensures 1 <= after.attempts[b].number <= after.generations[after.attempts[b].generation].attemptCount
    ensures after.attempts[b].state.IsLive() ==>
      after.attempts[b].number == after.generations[after.attempts[b].generation].attemptCount
  {
    if after.attempts[b].state.IsLive() {
      EndedOthersAreElsewhere(db, after, a, b);
    }
  }

  lemma {:induction false} EndedDistinctNumbers(db: Db, after: Db, a: Id)
    requires Ended(db, after, a) && DistinctNumbers(db)
    ensures DistinctNumbers(after)
  {
  }

  lemma {:induction false} EndedNumbers(db: Db, after: Db, a: Id)
    requires Ended(db, after, a) && References(db) && References(after) && OneLiveAttempt(db)
    requires Counts(db) && Numbers(db) && DistinctNumbers(db)
    ensures Counts(after) && Numbers(after) && DistinctNumbers(after)
  {
    EndedCounts(db, after, a);
    EndedDistinctNumbers(db, after, a);
    forall b | b in after.attempts
      ensures 1 <= after.attempts[b].number <= after.generations[after.attempts[b].generation].attemptCount
      ensures after.attempts[b].state.IsLive() ==>
        after.attempts[b].number == after.generations[after.attempts[b].generation].attemptCount
    {
      EndedNumber(db, after, a, b);
    }
  }

  /** Only the Generation of the ended Attempt can gain an exclusion. */
  lemma {:induction false} EndedExcludesItself(db: Db, after: Db, a: Id, h: Id, q: Id)
    requires Ended(db, after, a) && h != db.attempts[a].generation
    ensures Excluded(after, h, q) ==> Excluded(db, h, q)
  {
    if Excluded(after, h, q) && (h, q) !in after.rejections {
      var c :| c in after.attempts && RanOutOfMemory(after, c, h, q);
      assert RanOutOfMemory(db, c, h, q);
    }
  }

  lemma {:induction false} EndedExclusions(db: Db, after: Db, a: Id)
    requires Ended(db, after, a) && OneLiveAttempt(db) && OffExcludedPools(db)
    ensures OffExcludedPools(after)
  {
    forall b | b in after.attempts && after.attempts[b].state.IsLive()
      ensures !Excluded(after, after.attempts[b].generation, after.attempts[b].pool)
    {
      EndedOthersAreElsewhere(db, after, a, b);
      EndedExcludesItself(db, after, a, after.attempts[b].generation, after.attempts[b].pool);
    }
  }

  lemma {:induction false} EndedInv(db: Db, after: Db, a: Id)
    requires Inv(db) && Ended(db, after, a)
    ensures Inv(after)
  {
    EndedSlots(db, after, a);
    EndedLive(db, after, a);
    EndedNumbers(db, after, a);
    EndedExclusions(db, after, a);
  }

  /** Recording a failure settles the Attempt and moves only its Generation. */
  lemma {:induction false} FailureEnds(db: Db, a: Id, kind: FailureKind, to: AttemptState, candidatesRemain: bool)
    requires LiveAttempt(db, a) && db.attempts[a].pool in db.pools && !to.IsLive()
    ensures Ended(db, FinishAndDecide(db, a, kind, to, candidatesRemain), a)
  {
    var g := db.attempts[a].generation;
    var after := FinishAndDecide(db, a, kind, to, candidatesRemain);
    var settled := Settle(db, a, to, Some(kind));
    SettleEnds(db, a, to, Some(kind), after.generations[g].state);
    assert after == SetGeneration(settled, g, after.generations[g].state) by {
      assert settled.generations == db.generations;
      if after == settled {
        assert settled.generations[g := settled.generations[g]] == settled.generations;
      }
    }
  }

  // -------------------------------------------------------- a pool disappears

  lemma {:induction false} DropPoolInv(db: Db, p: Id)
    requires Inv(db)
    ensures Inv(DropPool(db, p))
  {
    DropPoolSlots(db, p);
    DropPoolExclusions(db, p);
    var after := DropPool(db, p);
    forall h, b, c | LiveFor(after, b, h) && LiveFor(after, c, h) ensures b == c {
      assert LiveFor(db, b, h) && LiveFor(db, c, h);
    }
  }

  lemma {:induction false} DropPoolSlots(db: Db, p: Id)
    requires Slots(db)
    ensures Slots(DropPool(db, p))
  {
    forall q | q in DropPool(db, p).pools ensures LiveOn(DropPool(db, p), q) == LiveOn(db, q) {
    }
  }

  lemma {:induction false} DropPoolExclusions(db: Db, p: Id)
    requires OffExcludedPools(db)
    ensures OffExcludedPools(DropPool(db, p))
  {
    var after := DropPool(db, p);
    forall h: Id, q: Id | Excluded(after, h, q) ensures Excluded(db, h, q) {
      if (h, q) !in after.rejections {
        var c :| c in after.attempts && RanOutOfMemory(after, c, h, q);
        assert RanOutOfMemory(db, c, h, q);
      }
    }
  }

  // ------------------------------------- changes that settle or begin nothing

  ghost predicate SameAttempts(db: Db, after: Db) {
    && after.attempts.Keys == db.attempts.Keys && after.rejections == db.rejections
    && (forall a :: a in db.attempts ==>
         && after.attempts[a].generation == db.attempts[a].generation
         && after.attempts[a].pool == db.attempts[a].pool
         && after.attempts[a].number == db.attempts[a].number
         && after.attempts[a].failure == db.attempts[a].failure
         && after.attempts[a].state.IsLive() == db.attempts[a].state.IsLive())
  }

  /** Pools may appear with nothing claimed, or change their size. */
  ghost predicate PoolsGrow(db: Db, after: Db) {
    && db.pools.Keys <= after.pools.Keys <= after.spentPools
    && forall p :: p in after.pools ==>
         && after.pools[p].claimed <= after.pools[p].total
         && after.pools[p].claimed == if p in db.pools then db.pools[p].claimed else 0
  }

  ghost predicate GenerationsGrow(db: Db, after: Db) {
    && (forall g :: g in db.generations ==>
         && g in after.generations
         && after.generations[g].attemptCount == db.generations[g].attemptCount
         && (db.generations[g].state != Queued ==> after.generations[g].state != Queued))
    && (forall g :: g in after.generations && g !in db.generations ==> after.generations[g].attemptCount == 0)
  }

  predicate Claims(db: Db) {
    forall p :: p in db.pools ==> db.pools[p].claimed <= db.pools[p].total
  }

  lemma {:induction false} QuietSlots(db: Db, after: Db)
    requires Slots(db) && References(db) && SameAttempts(db, after) && PoolsGrow(db, after)
    ensures Slots(after)
  {
    forall p | p in after.pools
      ensures LiveOn(after, p) == LiveOn(db, p) && (p !in db.pools ==> LiveOn(db, p) == {})
    {
    }
  }

  lemma {:induction false} QuietExclusions(db: Db, after: Db)
    requires OffExcludedPools(db) && SameAttempts(db, after)
    ensures OffExcludedPools(after)
  {
    forall h: Id, q: Id | Excluded(after, h, q) ensures Excluded(db, h, q) {
      if (h, q) !in after.rejections {
        var c :| c in after.attempts && RanOutOfMemory(after, c, h, q);
        assert RanOutOfMemory(db, c, h, q);
      }
    }
  }

  lemma {:induction false} QuietLive(db: Db, after: Db)
    requires References(db) && LiveIsNotQueued(db) && OneLiveAttempt(db)
    requires SameAttempts(db, after) && PoolsGrow(db, after) && GenerationsGrow(db, after)
    ensures References(after) && LiveIsNotQueued(after) && OneLiveAttempt(after)
  {
    forall h, b, c | LiveFor(after, b, h) && LiveFor(after, c, h) ensures b == c {
      assert LiveFor(db, b, h) && LiveFor(db, c, h);
    }
  }

  lemma {:induction false} QuietNumbers(db: Db, after: Db)
    requires References(db) && References(after) && Counts(db) && Numbers(db) && DistinctNumbers(db)
    requires SameAttempts(db, after) && GenerationsGrow(db, after)
    ensures Counts(after) && Numbers(after) && DistinctNumbers(after)
  {
  }

  lemma {:induction false} QuietInv(db: Db, after: Db)
    requires Inv(db) && SameAttempts(db, after) && PoolsGrow(db, after) && GenerationsGrow(db, after)
    ensures Inv(after)
  {
    QuietSlots(db, after);
    QuietExclusions(db, after);
    QuietLive(db, after);
    QuietNumbers(db, after);
  }

  /** Events that end a live Attempt, if they do anything. */
  predicate Ends(db: Db, e: Event) {
    || e.RecordFailure? || e.RejectLease? || e.AcceptResult?
    || (e.AcknowledgeCancel? && LiveAttempt(db, e.attempt))
  }

  lemma {:induction false} EndingStep(db: Db, e: Event)
    requires References(db) && Ends(db, e)
    ensures Step(db, e) == db || Ended(db, Step(db, e), e.attempt)
  {
    var a := e.attempt;
    if Step(db, e) != db {
      match e {
        case RecordFailure(_, kind, to, candidatesRemain) => FailureEnds(db, a, kind, to, candidatesRemain);
        case RejectLease(_) => RejectEnds(db, a);
        case AcceptResult(_) => SettleEnds(db, a, Done, None, Succeeded);
        case AcknowledgeCancel(_) => SettleEnds(db, a, Stopped, None, Cancelled);
      }
    }
  }

  /** Only Generations change, and none goes back to the queue. */
  lemma {:induction false} GenerationsOnly(db: Db, after: Db)
    requires References(db) && Claims(db) && after == db.(generations := after.generations) && GenerationsGrow(db, after)
    ensures SameAttempts(db, after) && PoolsGrow(db, after)
  {
  }

  lemma {:induction false} GenerationEventsGrow(db: Db, e: Event)
    requires !Ends(db, e)
    requires e.Submit? || e.AcknowledgeCancel? || e.CancelQueued? || e.RequestCancel? || e.ExpireQueued?
    ensures GenerationsGrow(db, Step(db, e)) && Step(db, e) == db.(generations := Step(db, e).generations)
  {
  }

  lemma {:induction false} QuietStep(db: Db, e: Event)
    requires References(db) && Claims(db) && !Ends(db, e) && !e.TryAssign? && !e.RemovePool?
    ensures SameAttempts(db, Step(db, e)) && PoolsGrow(db, Step(db, e)) && GenerationsGrow(db, Step(db, e))
  {
    var after := Step(db, e);
    if e.Submit? || e.AcknowledgeCancel? || e.CancelQueued? || e.RequestCancel? || e.ExpireQueued? {
      GenerationEventsGrow(db, e);
      GenerationsOnly(db, after);
    } else if e.ConfirmRunning? {
      ConfirmIsQuiet(db, e.attempt);
    } else {
      ReportIsQuiet(db, e.pool, e.total);
    }
  }

  lemma {:induction false} ConfirmIsQuiet(db: Db, a: Id)
    requires References(db) && Claims(db)
    ensures var after := Step(db, ConfirmRunning(a));
      SameAttempts(db, after) && PoolsGrow(db, after) && GenerationsGrow(db, after)
  {
    var after := Step(db, ConfirmRunning(a));
    assert after.pools == db.pools && after.generations == db.generations && after.rejections == db.rejections;
  }

  lemma {:induction false} ReportIsQuiet(db: Db, p: Id, total: nat)
    requires References(db) && Claims(db)
    ensures var after := Step(db, ReportPool(p, total));
      SameAttempts(db, after) && PoolsGrow(db, after) && GenerationsGrow(db, after)
  {
    var after := Step(db, ReportPool(p, total));
    assert after.attempts == db.attempts && after.generations == db.generations;
  }

  /** Every transaction keeps the invariant. */
  lemma {:induction false} StepInv(db: Db, e: Event)
    requires Inv(db)
    ensures Inv(Step(db, e))
  {
    if Ends(db, e) {
      EndingStep(db, e);
      if Step(db, e) != db {
        EndedInv(db, Step(db, e), e.attempt);
      }
    } else if e.TryAssign? {
      AssignmentIsAtomic(db, e.g, e.pool, e.worker, e.attempt, e.delivered, e.commits);
      if Step(db, e) != db {
        BeganInv(db, Step(db, e), e.g, e.pool, e.attempt);
      }
    } else if e.RemovePool? {
      DropPoolInv(db, e.pool);
    } else {
      QuietStep(db, e);
      QuietInv(db, Step(db, e));
    }
  }

  lemma {:induction false} RunInv(db: Db, events: seq<Event>)
    requires Inv(db)
    ensures Inv(Run(db, events))
    decreases |events|
  {
    if events != [] {
      StepInv(db, events[0]);
      RunInv(Step(db, events[0]), events[1..]);
    }
  }

  // ---------------------------------------------------------------- lifecycle

  /** The Generation is still there, in the same or a permitted next state. */
  predicate Follows(db: Db, after: Db, g: Id)
    requires g in db.generations
  {
    && g in after.generations
    && var (s, t) := (db.generations[g].state, after.generations[g].state);
       s == t || s.CanBecome(t)
  }

  lemma {:induction false} FailureFollowsLifecycle(db: Db, e: Event, g: Id)
    requires g in db.generations && e.RecordFailure?
    ensures Follows(db, Step(db, e), g)
  {
  }

  lemma {:induction false} EndingFollowsLifecycle(db: Db, e: Event, g: Id)
    requires g in db.generations && Ends(db, e) && !e.RecordFailure?
    ensures Follows(db, Step(db, e), g)
  {
  }

  lemma {:induction false} OthersFollowLifecycle(db: Db, e: Event, g: Id)
    requires g in db.generations && !Ends(db, e)
    ensures Follows(db, Step(db, e), g)
  {
  }

  /** Every transaction moves each Generation along the lifecycle relation. */
  lemma {:induction false} GenerationFollowsLifecycle(db: Db, e: Event, g: Id)
    requires g in db.generations
    ensures Follows(db, Step(db, e), g)
  {
    if e.RecordFailure? {
      FailureFollowsLifecycle(db, e, g);
    } else if Ends(db, e) {
      EndingFollowsLifecycle(db, e, g);
    } else {
      OthersFollowLifecycle(db, e, g);
    }
  }

  /** Every transaction moves each Attempt along its relation, or removes it. */
  lemma {:induction false} AttemptFollowsLifecycle(db: Db, e: Event, a: Id)
    requires a in db.attempts
    ensures a in Step(db, e).attempts ==>
      var (s, t) := (db.attempts[a].state, Step(db, e).attempts[a].state);
      s == t || s.CanBecome(t)
    ensures a !in Step(db, e).attempts ==>
      e == RejectLease(a) || e == RemovePool(db.attempts[a].pool)
  {
  }

  // ---------------------------------------------- stale cancel acknowledgements

  /** A live Attempt belongs to an active Generation. */
  ghost predicate LiveIsActive(db: Db)
    requires References(db)
  {
    forall a :: a in db.attempts && db.attempts[a].state.IsLive() ==>
      db.generations[db.attempts[a].generation].state.IsActive()
  }

  /** An earlier Attempt acknowledges the cancellation while a later one runs. */
  ghost predicate StaleAcknowledgement(db: Db, e: Event) {
    && e.AcknowledgeCancel? && e.attempt in db.attempts && !db.attempts[e.attempt].state.IsLive()
    && InState(db, db.attempts[e.attempt].generation, Cancelling)
    && exists b :: LiveFor(db, b, db.attempts[e.attempt].generation)
  }

  lemma {:induction false} EndingKeepsActive(db: Db, after: Db, a: Id)
    requires References(db) && OneLiveAttempt(db) && LiveIsActive(db)
    requires Ended(db, after, a) && References(after)
    ensures LiveIsActive(after)
  {
    forall b | b in after.attempts && after.attempts[b].state.IsLive()
      ensures after.generations[after.attempts[b].generation].state.IsActive()
    {
      EndedOthersAreElsewhere(db, after, a, b);
    }
  }

  lemma {:induction false} AcknowledgementKeepsActiveIff(db: Db, e: Event)
    requires References(db) && LiveIsActive(db) && e.AcknowledgeCancel? && !LiveAttempt(db, e.attempt)
    requires References(Step(db, e))
    ensures LiveIsActive(Step(db, e)) <==> !StaleAcknowledgement(db, e)
  {
    var after := Step(db, e);
    if StaleAcknowledgement(db, e) {
      var b :| LiveFor(db, b, db.attempts[e.attempt].generation);
      assert b in after.attempts && after.attempts[b].state.IsLive();
    } else if after != db {
      forall b | b in after.attempts && after.attempts[b].state.IsLive()
        ensures after.generations[after.attempts[b].generation].state.IsActive()
      {
        assert LiveFor(db, b, db.attempts[b].generation);
      }
    }
  }

  lemma {:induction false} BeganKeepsActive(db: Db, after: Db, g: Id, p: Id, a: Id)
    requires References(db) && LiveIsActive(db) && Began(db, after, g, p, a) && References(after)
    ensures LiveIsActive(after)
  {
    assert forall b :: b in db.attempts && db.attempts[b].state.IsLive() ==> db.attempts[b].generation != g;
  }

  lemma {:induction false} QuietKeepsActive(db: Db, e: Event)
    requires References(db) && LiveIsActive(db) && References(Step(db, e))
    requires !Ends(db, e) && !e.AcknowledgeCancel? && !e.TryAssign?
    ensures LiveIsActive(Step(db, e))
  {
    var after := Step(db, e);
    forall b | b in after.attempts && after.attempts[b].state.IsLive()
      ensures after.generations[after.attempts[b].generation].state.IsActive()
    {
      assert b in db.attempts && db.attempts[b].state.IsLive()
        && db.attempts[b].generation == after.attempts[b].generation;
    }
  }

  lemma {:induction false} OrdinaryKeepsActive(db: Db, e: Event)
    requires References(db) && OneLiveAttempt(db) && LiveIsActive(db) && References(Step(db, e))
    requires Ends(db, e) || !e.AcknowledgeCancel?
    ensures LiveIsActive(Step(db, e))
  {
    var after := Step(db, e);
    if after != db {
      if Ends(db, e) {
        EndingStep(db, e);
        EndingKeepsActive(db, after, e.attempt);
      } else if e.TryAssign? {
        AssignmentIsAtomic(db, e.g, e.pool, e.worker, e.attempt, e.delivered, e.commits);
        BeganKeepsActive(db, after, e.g, e.pool, e.attempt);
      } else {
        QuietKeepsActive(db, e);
      }
    }
  }

  /** No Attempt outlives the active states of its Generation, except through a
      stale acknowledgement: the source settles the Generation without asking
      whether the acknowledging Attempt is still the live one. */
  lemma {:induction false} LiveStaysActiveIff(db: Db, e: Event)
    requires References(db) && OneLiveAttempt(db) && LiveIsActive(db) && References(Step(db, e))
    ensures LiveIsActive(Step(db, e)) <==> !StaleAcknowledgement(db, e)
  {
    if Ends(db, e) || !e.AcknowledgeCancel? {
      OrdinaryKeepsActive(db, e);
    } else {
      AcknowledgementKeepsActiveIff(db, e);
    }
  }
}
