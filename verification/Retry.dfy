/** Why retries end: every return to the queue uses up an Attempt number or a
    pool, and a pool that rejected a Generation never sees it again. */
module Retry {
  import opened Common
  import opened Lifecycle
  import opened Database
  import opened DatabaseSafety

  function Used(db: Db, g: Id): nat {
    if g in db.generations then db.generations[g].attemptCount else 0
  }

  /** Registered pools that have not rejected the Generation. */
  function OpenPools(db: Db, g: Id): set<Id> {
    set p | p in db.pools && (g, p) !in db.rejections
  }

  /** Attempts left plus pools left: what further leases can use up. */
  function Budget(db: Db, g: Id): int {
    MAX_ATTEMPTS - Used(db, g) + |OpenPools(db, g)|
  }

  predicate Leases(db: Db, e: Event, g: Id) {
    e.TryAssign? && e.g == g && Step(db, e) != db
  }

  predicate Registers(db: Db, e: Event) {
    e.ReportPool? && e.pool !in db.pools && e.pool !in db.spentPools
  }

  predicate Returns(db: Db, e: Event, g: Id) {
    InState(db, g, Running) && InState(Step(db, e), g, Queued)
  }

  function One(b: bool): nat {
    if b then 1 else 0
  }

  function LeaseCount(db: Db, events: seq<Event>, g: Id): nat
    decreases |events|
  {
    if events == [] then 0 else One(Leases(db, events[0], g)) + LeaseCount(Step(db, events[0]), events[1..], g)
  }

  function ReturnCount(db: Db, events: seq<Event>, g: Id): nat
    decreases |events|
  {
    if events == [] then 0 else One(Returns(db, events[0], g)) + ReturnCount(Step(db, events[0]), events[1..], g)
  }

  function RegistrationCount(db: Db, events: seq<Event>): nat
    decreases |events|
  {
    if events == [] then 0 else One(Registers(db, events[0])) + RegistrationCount(Step(db, events[0]), events[1..])
  }

  // ------------------------------------------------------------------- leases

  lemma {:induction false} FewerOpenPools(db: Db, after: Db, g: Id)
    requires OpenPools(after, g) <= OpenPools(db, g)
    ensures |OpenPools(after, g)| <= |OpenPools(db, g)|
  {
    SubsetSize(OpenPools(after, g), OpenPools(db, g));
  }

  lemma {:induction false} SubsetSize(a: set<Id>, b: set<Id>)
    requires a <= b
    ensures |a| <= |b|
    decreases |a|
  {
    if a != {} {
      var x :| x in a;
      SubsetSize(a - {x}, b - {x});
    }
  }

  lemma {:induction false} BeganBudget(db: Db, after: Db, h: Id, p: Id, a: Id, g: Id)
    requires Began(db, after, h, p, a)
    ensures Budget(after, g) == Budget(db, g) - One(h == g)
  {
    assert OpenPools(after, g) == OpenPools(db, g);
  }

  /** A settled Attempt leaves the budget alone; a rejected one trades its number
      for its pool, which its Generation had not lost before. */
  lemma {:induction false} EndedBudget(db: Db, after: Db, a: Id, g: Id)
    requires Ended(db, after, a) && OffExcludedPools(db) && Counts(db) && WasNumbered(db, a)
    ensures Budget(after, g) <= Budget(db, g)
  {
    var (h, p) := (db.attempts[a].generation, db.attempts[a].pool);
    assert !Excluded(db, h, p);
    if a !in after.attempts && h == g {
      assert p in OpenPools(db, g);
      assert OpenPools(after, g) == OpenPools(db, g) - {p};
    } else {
      FewerOpenPools(db, after, g);
    }
  }

  predicate WasNumbered(db: Db, a: Id) {
    a in db.attempts && db.attempts[a].generation in db.generations
    && 1 <= db.generations[db.attempts[a].generation].attemptCount
  }

  lemma {:induction false} QuietBudget(db: Db, after: Db, g: Id, added: set<Id>)
    requires SameAttempts(db, after) && GenerationsGrow(db, after)
    requires after.pools.Keys <= db.pools.Keys + added
    ensures Budget(after, g) <= Budget(db, g) + |added|
  {
    assert OpenPools(after, g) <= OpenPools(db, g) + added;
    SubsetSize(OpenPools(after, g), OpenPools(db, g) + added);
  }

  function Added(db: Db, e: Event): (added: set<Id>)
    ensures |added| == One(Registers(db, e))
  {
    if Registers(db, e) then {e.pool} else {}
  }

  lemma {:induction false} ReportedPools(db: Db, p: Id, total: nat)
    ensures Step(db, ReportPool(p, total)).pools.Keys <= db.pools.Keys + Added(db, ReportPool(p, total))
  {
  }

  lemma {:induction false} QuietPools(db: Db, e: Event)
    requires !Ends(db, e) && !e.TryAssign? && !e.RemovePool?
    ensures Step(db, e).pools.Keys <= db.pools.Keys + Added(db, e)
  {
    if e.ReportPool? {
      ReportedPools(db, e.pool, e.total);
    } else {
      assert Step(db, e).pools == db.pools;
    }
  }

  lemma {:induction false} QuietStepBudget(db: Db, e: Event, g: Id)
    requires References(db) && Claims(db) && !Ends(db, e) && !e.TryAssign? && !e.RemovePool?
    ensures Budget(Step(db, e), g) <= Budget(db, g) + One(Registers(db, e))
  {
    QuietStep(db, e);
    QuietPools(db, e);
    QuietBudget(db, Step(db, e), g, Added(db, e));
  }

  lemma {:induction false} EndingStepBudget(db: Db, e: Event, g: Id)
    requires Inv(db) && Ends(db, e) && Step(db, e) != db
    ensures Budget(Step(db, e), g) <= Budget(db, g)
  {
    EndingStep(db, e);
    assert WasNumbered(db, e.attempt);
    EndedBudget(db, Step(db, e), e.attempt, g);
  }

  lemma {:induction false} LeaseBudget(db: Db, e: Event, g: Id)
    requires e.TryAssign?
    ensures Budget(Step(db, e), g) == Budget(db, g) - One(Leases(db, e, g))
  {
    AssignmentIsAtomic(db, e.g, e.pool, e.worker, e.attempt, e.delivered, e.commits);
    if Step(db, e) != db {
      BeganBudget(db, Step(db, e), e.g, e.pool, e.attempt, g);
    }
  }

  /** No transaction adds to the budget except the registration of a new pool,
      and every lease takes one unit. */
  lemma {:induction false} StepBudget(db: Db, e: Event, g: Id)
    requires Inv(db)
    ensures Budget(Step(db, e), g) + One(Leases(db, e, g)) <= Budget(db, g) + One(Registers(db, e))
  {
    if e.TryAssign? {
      LeaseBudget(db, e, g);
    } else if Step(db, e) != db {
      if Ends(db, e) {
        EndingStepBudget(db, e, g);
      } else if e.RemovePool? {
        FewerOpenPools(db, Step(db, e), g);
      } else {
        QuietStepBudget(db, e, g);
      }
    }
  }

  lemma {:induction false} BudgetIsPositive(db: Db, g: Id)
    requires Counts(db)
    ensures Budget(db, g) >= 0
  {
  }

  /** A Generation is leased at most once per remaining Attempt and per pool. */
  lemma {:induction false} LeasesAreBounded(db: Db, events: seq<Event>, g: Id)
    requires Inv(db)
    ensures LeaseCount(db, events, g) <= Budget(db, g) + RegistrationCount(db, events)
    decreases |events|
  {
    if events == [] {
      BudgetIsPositive(db, g);
    } else {
      StepBudget(db, events[0], g);
      StepInv(db, events[0]);
      LeasesAreBounded(Step(db, events[0]), events[1..], g);
    }
  }

  // ------------------------------------------------------------------ returns

  ghost predicate HasLive(db: Db, g: Id) {
    exists a :: LiveFor(db, a, g)
  }

  /** The budget plus one while the Generation is being executed. */
  ghost function Potential(db: Db, g: Id): int {
    Budget(db, g) + One(HasLive(db, g))
  }

  lemma {:induction false} EndedHasNoLive(db: Db, after: Db, a: Id)
    requires Ended(db, after, a) && OneLiveAttempt(db)
    ensures HasLive(db, db.attempts[a].generation) && !HasLive(after, db.attempts[a].generation)
    ensures forall g: Id :: HasLive(after, g) ==> HasLive(db, g)
  {
    assert LiveFor(db, a, db.attempts[a].generation);
    forall g: Id | HasLive(after, g) ensures HasLive(db, g) && g != db.attempts[a].generation {
      var b :| LiveFor(after, b, g);
      EndedOthersAreElsewhere(db, after, a, b);
      assert LiveFor(db, b, g);
    }
  }

  lemma {:induction false} QuietHasLive(db: Db, e: Event, g: Id)
    requires References(db) && Claims(db) && !Ends(db, e) && !e.TryAssign?
    ensures HasLive(Step(db, e), g) ==> HasLive(db, g)
  {
    var after := Step(db, e);
    if HasLive(after, g) {
      var b :| LiveFor(after, b, g);
      assert LiveFor(db, b, g);
    }
  }

  lemma {:induction false} OthersReturnNothing(db: Db, e: Event, g: Id)
    ensures Returns(db, e, g) ==> Ends(db, e)
  {
  }

  lemma {:induction false} FailureLeavesAttempts(db: Db, e: Event, g: Id)
    requires e.RecordFailure? && Returns(db, e, g)
    ensures Used(Step(db, e), g) < MAX_ATTEMPTS
  {
  }

  lemma {:induction false} RejectionLeavesAttempts(db: Db, e: Event, g: Id)
    requires Counts(db) && e.RejectLease? && Returns(db, e, g)
    ensures Used(Step(db, e), g) < MAX_ATTEMPTS
  {
  }

  lemma {:induction false} OnlyFailuresReturn(db: Db, e: Event, g: Id)
    requires Ends(db, e) && Returns(db, e, g)
    ensures e.RecordFailure? || e.RejectLease?
  {
  }

  lemma {:induction false} EndedMovesOnlyItsOwn(db: Db, after: Db, a: Id, g: Id)
    requires Ended(db, after, a) && InState(db, g, Running) && InState(after, g, Queued)
    ensures db.attempts[a].generation == g
  {
  }

  /** Only the end of its own live Attempt takes a Generation back to the queue. */
  lemma {:induction false} ReturnsEndAnAttempt(db: Db, e: Event, g: Id)
    requires Inv(db) && Returns(db, e, g)
    ensures Ends(db, e) && Step(db, e) != db && Ended(db, Step(db, e), e.attempt)
    ensures db.attempts[e.attempt].generation == g
    ensures Used(Step(db, e), g) < MAX_ATTEMPTS
  {
    OthersReturnNothing(db, e, g);
    EndingStep(db, e);
    EndedMovesOnlyItsOwn(db, Step(db, e), e.attempt, g);
    OnlyFailuresReturn(db, e, g);
    if e.RecordFailure? {
      FailureLeavesAttempts(db, e, g);
    } else {
      RejectionLeavesAttempts(db, e, g);
    }
  }

  lemma {:induction false} BeganHasLive(db: Db, after: Db, h: Id, p: Id, a: Id, g: Id)
    requires Began(db, after, h, p, a)
    ensures g != h && HasLive(after, g) ==> HasLive(db, g)
  {
    if g != h && HasLive(after, g) {
      var b :| LiveFor(after, b, g);
      assert LiveFor(db, b, g);
    }
  }

  lemma {:induction false} StepPotential(db: Db, e: Event, g: Id)
    requires Inv(db)
    ensures Potential(Step(db, e), g) + One(Returns(db, e, g)) <= Potential(db, g) + One(Registers(db, e))
  {
    StepBudget(db, e, g);
    if Returns(db, e, g) {
      ReturnsEndAnAttempt(db, e, g);
      EndedHasNoLive(db, Step(db, e), e.attempt);
    } else if Step(db, e) != db {
      if Ends(db, e) {
        EndingStep(db, e);
        EndedHasNoLive(db, Step(db, e), e.attempt);
      } else if e.TryAssign? {
        AssignmentIsAtomic(db, e.g, e.pool, e.worker, e.attempt, e.delivered, e.commits);
        BeganHasLive(db, Step(db, e), e.g, e.pool, e.attempt, g);
      } else {
        QuietHasLive(db, e, g);
      }
    }
  }

  /** The last return still leaves an Attempt unused, hence the strict bound. */
  lemma {:induction false} ReturnsAreBounded(db: Db, events: seq<Event>, g: Id)
    requires Inv(db)
    ensures ReturnCount(db, events, g) > 0 ==>
      ReturnCount(db, events, g) <= Potential(db, g) - 1 + RegistrationCount(db, events)
    decreases |events|
  {
    if events != [] {
      var e := events[0];
      StepPotential(db, e, g);
      StepInv(db, e);
      ReturnsAreBounded(Step(db, e), events[1..], g);
      if Returns(db, e, g) {
        ReturnsEndAnAttempt(db, e, g);
        assert Potential(Step(db, e), g) >= 1;
      }
    }
  }

  /** A freshly submitted Generation goes back to the queue at most
      MAX_ATTEMPTS - 1 + |pools| times, each pool registered later adding one. */
  lemma {:induction false} RetriesEnd(db: Db, events: seq<Event>, g: Id)
    requires Inv(db) && InState(db, g, Queued) && Used(db, g) == 0
    ensures ReturnCount(db, events, g) <= MAX_ATTEMPTS - 1 + |db.pools.Keys| + RegistrationCount(db, events)
  {
    assert !HasLive(db, g);
    ReturnsAreBounded(db, events, g);
    SubsetSize(OpenPools(db, g), db.pools.Keys);
  }

  // -------------------------------------------------------- never leased again

  /** Excluded, or gone for good: pool ids are never reused. */
  ghost predicate Burned(db: Db, g: Id, p: Id) {
    Excluded(db, g, p) || (p in db.spentPools && p !in db.pools)
  }

  ghost predicate LiveUnfailed(db: Db) {
    forall a :: a in db.attempts && db.attempts[a].state.IsLive() ==> db.attempts[a].failure == None
  }

  lemma {:induction false} StepUnfailed(db: Db, e: Event)
    requires References(db) && Claims(db) && LiveUnfailed(db)
    ensures LiveUnfailed(Step(db, e))
  {
    var after := Step(db, e);
    if after != db {
      if Ends(db, e) {
        EndingStep(db, e);
      } else if e.TryAssign? {
        AssignmentIsAtomic(db, e.g, e.pool, e.worker, e.attempt, e.delivered, e.commits);
      }
    }
  }

  lemma {:induction false} EndedKeepsExcluded(db: Db, after: Db, a: Id, g: Id, p: Id)
    requires Ended(db, after, a) && LiveUnfailed(db) && Excluded(db, g, p)
    ensures Excluded(after, g, p)
  {
    if (g, p) !in db.rejections {
      var c :| c in db.attempts && RanOutOfMemory(db, c, g, p);
      assert RanOutOfMemory(after, c, g, p);
    }
  }

  lemma {:induction false} KeptKeepsExcluded(db: Db, after: Db, g: Id, p: Id)
    requires (g, p) in db.rejections ==> (g, p) in after.rejections
    requires forall c :: c in db.attempts && db.attempts[c].pool == p ==>
      && c in after.attempts && after.attempts[c].generation == db.attempts[c].generation
      && after.attempts[c].pool == p && after.attempts[c].failure == db.attempts[c].failure
    requires Excluded(db, g, p)
    ensures Excluded(after, g, p)
  {
    if (g, p) !in db.rejections {
      var c :| c in db.attempts && RanOutOfMemory(db, c, g, p);
      assert RanOutOfMemory(after, c, g, p);
    }
  }

  /** A transaction that ends no Attempt keeps the failures of a pool it leaves. */
  lemma {:induction false} OthersKeepFailures(db: Db, e: Event, p: Id)
    requires !Ends(db, e) && !e.TryAssign? && e != RemovePool(p)
    ensures forall c :: c in db.attempts && db.attempts[c].pool == p ==>
      && c in Step(db, e).attempts && Step(db, e).attempts[c].generation == db.attempts[c].generation
      && Step(db, e).attempts[c].pool == p && Step(db, e).attempts[c].failure == db.attempts[c].failure
  {
  }

  lemma {:induction false} OthersKeepRejections(db: Db, e: Event, g: Id, p: Id)
    requires !Ends(db, e) && !e.TryAssign? && e != RemovePool(p) && (g, p) in db.rejections
    ensures (g, p) in Step(db, e).rejections
  {
  }

  lemma {:induction false} StepKeepsExcluded(db: Db, e: Event, g: Id, p: Id)
    requires References(db) && LiveUnfailed(db) && Excluded(db, g, p) && e != RemovePool(p)
    ensures Excluded(Step(db, e), g, p)
  {
    var after := Step(db, e);
    if after != db {
      if Ends(db, e) {
        EndingStep(db, e);
        EndedKeepsExcluded(db, after, e.attempt, g, p);
      } else {
        if e.TryAssign? {
          AssignmentIsAtomic(db, e.g, e.pool, e.worker, e.attempt, e.delivered, e.commits);
        } else {
          OthersKeepFailures(db, e, p);
          if (g, p) in db.rejections {
            OthersKeepRejections(db, e, g, p);
          }
        }
        KeptKeepsExcluded(db, after, g, p);
      }
    }
  }

  lemma {:induction false} ExcludedIsKnown(db: Db, g: Id, p: Id)
    requires References(db) && Excluded(db, g, p)
    ensures p in db.pools && p in db.spentPools
  {
  }

  lemma {:induction false} SpentStaysSpent(db: Db, e: Event, p: Id)
    requires p in db.spentPools
    ensures p in Step(db, e).spentPools && (p in Step(db, e).pools ==> p in db.pools && e != RemovePool(p))
  {
  }

  /** Once burned, a pool stays burned for the Generation. */
  lemma {:induction false} StepBurned(db: Db, e: Event, g: Id, p: Id)
    requires References(db) && LiveUnfailed(db) && Burned(db, g, p)
    ensures Burned(Step(db, e), g, p)
  {
    if Excluded(db, g, p) {
      ExcludedIsKnown(db, g, p);
      if e != RemovePool(p) {
        StepKeepsExcluded(db, e, g, p);
      }
    }
    SpentStaysSpent(db, e, p);
  }

  lemma {:induction false} BurnedIsNotLeased(db: Db, g: Id, p: Id, w: Id, a: Id, delivered: bool, commits: bool)
    requires Burned(db, g, p)
    ensures Step(db, TryAssign(g, p, w, a, delivered, commits)) == db
  {
    AssignmentIsAtomic(db, g, p, w, a, delivered, commits);
  }

  /** Whatever happens in between, an assignment to a burned pool does nothing. */
  lemma {:induction false} NeverLeasedAgain(db: Db, events: seq<Event>, g: Id, p: Id, w: Id, a: Id,
                                            delivered: bool, commits: bool)
    requires Inv(db) && LiveUnfailed(db) && Burned(db, g, p)
    ensures var later := Run(db, events);
      Step(later, TryAssign(g, p, w, a, delivered, commits)) == later
    decreases |events|
  {
    if events == [] {
      BurnedIsNotLeased(db, g, p, w, a, delivered, commits);
    } else {
      StepInv(db, events[0]);
      StepUnfailed(db, events[0]);
      StepBurned(db, events[0], g, p);
      NeverLeasedAgain(Step(db, events[0]), events[1..], g, p, w, a, delivered, commits);
    }
  }

  /** A rejected lease and an out-of-memory failure burn their pool. */
  lemma {:induction false} RejectionAndExhaustionBurn(db: Db, e: Event)
    requires References(db) && Step(db, e) != db
    requires e.RejectLease? || (e.RecordFailure? && e.kind == OutOfMemory)
    ensures e.attempt in db.attempts
    ensures Burned(Step(db, e), db.attempts[e.attempt].generation, db.attempts[e.attempt].pool)
  {
    var (g, p) := (db.attempts[e.attempt].generation, db.attempts[e.attempt].pool);
    if e.RecordFailure? {
      assert RanOutOfMemory(Step(db, e), e.attempt, g, p);
    }
  }

  lemma {:induction false} RunIsSafe(db: Db, events: seq<Event>)
    requires Inv(db) && LiveUnfailed(db)
    ensures Inv(Run(db, events)) && LiveUnfailed(Run(db, events))
    decreases |events|
  {
    if events != [] {
      StepInv(db, events[0]);
      StepUnfailed(db, events[0]);
      RunIsSafe(Step(db, events[0]), events[1..]);
    }
  }

  /** Everything reachable from the empty tables is safe. */
  lemma {:induction false} ReachableIsSafe(events: seq<Event>)
    ensures Inv(Run(EMPTY, events)) && LiveUnfailed(Run(EMPTY, events))
  {
    EmptyInv();
    RunIsSafe(EMPTY, events);
  }
}
