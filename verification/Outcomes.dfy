/** How Generations end: what a failure decides, that ends are final, and that at
    most one result is ever accepted. */
module Outcomes {
  import opened Common
  import opened Lifecycle
  import opened Database
  import opened DatabaseSafety
  import opened Retry

  /** Causes worth another Attempt, out of memory only on another pool. */
  predicate DeservesRetry(kind: FailureKind, used: nat, candidatesRemain: bool) {
    && kind in {OutOfMemory, BackendCrashed, TransferFailed, WorkerLost, LeaseExpired}
    && used < 3 && (kind == OutOfMemory ==> candidatesRemain)
  }

  /** What a failure makes of an executing or already ended Generation. */
  function Verdict(state: GenerationState, retry: bool): GenerationState {
    match state
    case Cancelling => Cancelled
    case Running => if retry then Queued else Failed
    case _ => state
  }

  /** A failure settles the Attempt; a cancellation under way wins over the retry
      policy, and a Generation that had already ended stays as it was. */
  lemma {:induction false} FailureDecides(db: Db, a: Id, kind: FailureKind, to: AttemptState, candidatesRemain: bool)
    requires LiveAttempt(db, a) && db.generations[db.attempts[a].generation].state != Queued
    ensures var g := db.attempts[a].generation;
      var before := db.generations[g];
      var after := FinishAndDecide(db, a, kind, to, candidatesRemain);
      && after.attempts == db.attempts[a := db.attempts[a].(state := to, failure := Some(kind))]
      && after.generations == db.generations[g := before.(
           state := Verdict(before.state, DeservesRetry(kind, before.attemptCount, candidatesRemain)))]
  {
    var g := db.attempts[a].generation;
    var settled := Settle(db, a, to, Some(kind));
    assert settled.generations == db.generations;
    assert db.generations[g := db.generations[g]] == db.generations;
    assert RetryDecisionFor(kind, db.generations[g].attemptCount, candidatesRemain).Requeue?
      <==> DeservesRetry(kind, db.generations[g].attemptCount, candidatesRemain);
  }

  predicate IsOver(db: Db, g: Id) {
    g in db.generations && db.generations[g].state.IsTerminal()
  }

  lemma {:induction false} TerminalStep(db: Db, e: Event, g: Id)
    requires IsOver(db, g)
    ensures g in Step(db, e).generations && Step(db, e).generations[g].state == db.generations[g].state
  {
    GenerationFollowsLifecycle(db, e, g);
  }

  /** No transaction, however late, changes how a Generation ended. */
  lemma {:induction false} TerminalIsForever(db: Db, events: seq<Event>, g: Id)
    requires IsOver(db, g)
    ensures g in Run(db, events).generations && Run(db, events).generations[g].state == db.generations[g].state
    decreases |events|
  {
    if events != [] {
      TerminalStep(db, events[0], g);
      TerminalIsForever(Step(db, events[0]), events[1..], g);
    }
  }

  /** A result of one of the Generation's Attempts is taken. */
  predicate Accepts(db: Db, e: Event, g: Id) {
    e.AcceptResult? && e.attempt in db.attempts && db.attempts[e.attempt].generation == g && Step(db, e) != db
  }

  function AcceptedCount(db: Db, events: seq<Event>, g: Id): nat
    decreases |events|
  {
    if events == [] then 0
    else One(Accepts(db, events[0], g)) + AcceptedCount(Step(db, events[0]), events[1..], g)
  }

  /** Taking a result ends the Generation, settles its live Attempt and frees
      exactly one slot of the pool it ran on. */
  lemma {:induction false} AcceptanceEnds(db: Db, e: Event, g: Id)
    requires Inv(db) && Accepts(db, e, g)
    ensures !IsOver(db, g) && InState(Step(db, e), g, Succeeded)
    ensures db.attempts[e.attempt].state.IsLive() && Step(db, e).attempts[e.attempt].state == Done
    ensures var p := db.attempts[e.attempt].pool;
      && p in db.pools && Step(db, e).pools.Keys == db.pools.Keys
      && Step(db, e).pools[p].claimed + 1 == db.pools[p].claimed
      && forall q :: q in db.pools && q != p ==> Step(db, e).pools[q] == db.pools[q]
  {
    AcceptanceSettles(db, e);
    EndingStep(db, e);
    EndedFreesSlot(db, Step(db, e), e.attempt);
  }

  lemma {:induction false} EndedFreesSlot(db: Db, after: Db, a: Id)
    requires Ended(db, after, a) && Slots(db)
    ensures var p := db.attempts[a].pool;
      && after.pools.Keys == db.pools.Keys && after.pools[p].claimed + 1 == db.pools[p].claimed
      && forall q :: q in db.pools && q != p ==> after.pools[q] == db.pools[q]
  {
    assert a in LiveOn(db, db.attempts[a].pool);
  }

  lemma {:induction false} AcceptanceSettles(db: Db, e: Event)
    requires e.AcceptResult? && Step(db, e) != db
    ensures LiveAttempt(db, e.attempt) && e.attempt in Step(db, e).attempts
    ensures Step(db, e).attempts[e.attempt].state == Done
    ensures var g := db.attempts[e.attempt].generation;
      !IsOver(db, g) && InState(Step(db, e), g, Succeeded)
  {
  }

  lemma {:induction false} NothingAcceptedAfterEnd(db: Db, events: seq<Event>, g: Id)
    requires IsOver(db, g)
    ensures AcceptedCount(db, events, g) == 0
    decreases |events|
  {
    if events != [] {
      TerminalStep(db, events[0], g);
      NothingAcceptedAfterEnd(Step(db, events[0]), events[1..], g);
    }
  }

  /** Over any run at most one result of a Generation is accepted. */
  lemma {:induction false} AcceptedAtMostOnce(db: Db, events: seq<Event>, g: Id)
    requires Inv(db)
    ensures AcceptedCount(db, events, g) <= 1
    ensures AcceptedCount(db, events, g) == 1 ==> InState(Run(db, events), g, Succeeded)
    decreases |events|
  {
    if events != [] {
      var e := events[0];
      StepInv(db, e);
      if Accepts(db, e, g) {
        AcceptanceEnds(db, e, g);
        NothingAcceptedAfterEnd(Step(db, e), events[1..], g);
        TerminalIsForever(Step(db, e), events[1..], g);
      } else {
        AcceptedAtMostOnce(Step(db, e), events[1..], g);
      }
    }
  }
}
