/** Bounded overtaking: how many Generations a slot can run before one that is
    already overdue. */
module Overtaking {
  import opened Common
  import opened Lifecycle
  import opened Database
  import opened DatabaseSafety
  import opened Retry
  import Schedule

  /** A possibly stale reading of the queue: Generations are never deleted and
      their submission time never changes. */
  ghost predicate SnapshotOf(db: Db, cs: seq<Schedule.Candidate>) {
    && Schedule.DistinctIds(cs)
    && forall c :: c in cs ==> c.id in db.generations && db.generations[c.id].createdAt == c.createdAt
  }

  /** `h` is what `select_next` picks for pool `p` from a snapshot in which `g`
      waits, eligible and overdue. */
  ghost predicate Chosen(db: Db, x: Schedule.Context, cs: seq<Schedule.Candidate>, p: Id,
                         g: Schedule.Candidate, h: Id) {
    && x.capability.pool == p && x.freeSlots > 0 && SnapshotOf(db, cs)
    && g in cs && Schedule.Eligible(x, g) && Schedule.Overdue(x, g)
    && Schedule.SelectNext(x, cs).Some? && Schedule.SelectNext(x, cs).value.id == h
  }

  /** Every assignment to `p` is a choice of `select_next` past the waiting `g`;
      everything submitted is submitted at or after `since`. */
  ghost predicate Ordered(db: Db, e: Event, p: Id, g: Schedule.Candidate, since: int) {
    && (e.TryAssign? && e.pool == p ==> exists x, cs :: Chosen(db, x, cs, p, g, e.g))
    && (e.Submit? ==> e.createdAt >= since)
  }

  ghost predicate OrderedRun(db: Db, events: seq<Event>, p: Id, g: Schedule.Candidate, since: int)
    decreases |events|
  {
    events == [] || (Ordered(db, events[0], p, g, since) && OrderedRun(Step(db, events[0]), events[1..], p, g, since))
  }

  function OlderIds(db: Db, g: Schedule.Candidate): set<Id> {
    set h | h in db.generations &&
      (db.generations[h].createdAt < g.createdAt || (db.generations[h].createdAt == g.createdAt && h < g.id))
  }

  predicate Passes(db: Db, e: Event, p: Id, g: Schedule.Candidate) {
    e.TryAssign? && e.pool == p && e.g != g.id && Step(db, e) != db
  }

  /** Committed leases of the slot that went to some other Generation. */
  function PassCount(db: Db, events: seq<Event>, p: Id, g: Schedule.Candidate): nat
    decreases |events|
  {
    if events == [] then 0 else One(Passes(db, events[0], p, g)) + PassCount(Step(db, events[0]), events[1..], p, g)
  }

  ghost function TotalBudget(db: Db, ids: set<Id>): int
    decreases |ids|
  {
    if ids == {} then 0
    else
      var h :| h in ids;
      Budget(db, h) + TotalBudget(db, ids - {h})
  }

  lemma {:induction false} TotalIsPositive(db: Db, ids: set<Id>)
    requires Counts(db)
    ensures TotalBudget(db, ids) >= 0
    decreases |ids|
  {
    if ids != {} {
      var h :| h in ids && TotalBudget(db, ids) == Budget(db, h) + TotalBudget(db, ids - {h});
      BudgetIsPositive(db, h);
      TotalIsPositive(db, ids - {h});
    }
  }

  /** Both totals unfold along the same element. */
  lemma {:induction false} UnfoldTotals(db: Db, after: Db, ids: set<Id>) returns (h: Id)
    requires ids != {}
    ensures h in ids
    ensures TotalBudget(db, ids) == Budget(db, h) + TotalBudget(db, ids - {h})
    ensures TotalBudget(after, ids) == Budget(after, h) + TotalBudget(after, ids - {h})
  {
    h :| h in ids
      && TotalBudget(db, ids) == Budget(db, h) + TotalBudget(db, ids - {h})
      && TotalBudget(after, ids) == Budget(after, h) + TotalBudget(after, ids - {h});
  }

  lemma {:induction false} SumStep(total: int, rest: int, total': int, rest': int, b: int, b': int,
                                   lease: nat, leaseRest: nat, n: nat, added: nat)
    requires total == b + rest && total' == b' + rest' && n > 0
    requires b' + lease <= b + added && rest' + leaseRest <= rest + (n - 1) * added
    ensures total' + lease + leaseRest <= total + n * added
  {
    assert n * added == (n - 1) * added + added;
  }

  lemma {:induction false} StepTotal(db: Db, e: Event, ids: set<Id>)
    requires Inv(db)
    ensures TotalBudget(Step(db, e), ids) + One(e.TryAssign? && e.g in ids && Step(db, e) != db)
      <= TotalBudget(db, ids) + |ids| * One(Registers(db, e))
    decreases |ids|
  {
    if ids != {} {
      var after := Step(db, e);
      var h := UnfoldTotals(db, after, ids);
      StepBudget(db, e, h);
      StepTotal(db, e, ids - {h});
      LeaseOf(db, e, ids, h);
      SumStep(TotalBudget(db, ids), TotalBudget(db, ids - {h}), TotalBudget(after, ids), TotalBudget(after, ids - {h}),
              Budget(db, h), Budget(after, h), One(Leases(db, e, h)),
              One(e.TryAssign? && e.g in ids - {h} && after != db), |ids|, One(Registers(db, e)));
    }
  }

  lemma {:induction false} LeaseOf(db: Db, e: Event, ids: set<Id>, h: Id)
    requires h in ids
    ensures One(e.TryAssign? && e.g in ids && Step(db, e) != db)
      == One(Leases(db, e, h)) + One(e.TryAssign? && e.g in ids - {h} && Step(db, e) != db)
    ensures |ids - {h}| == |ids| - 1
  {
  }

  predicate SameTimes(db: Db, after: Db) {
    forall h :: h in db.generations ==>
      h in after.generations && after.generations[h].createdAt == db.generations[h].createdAt
  }

  lemma {:induction false} FailureKeepsTimes(db: Db, e: Event)
    requires e.RecordFailure?
    ensures Step(db, e).generations.Keys == db.generations.Keys && SameTimes(db, Step(db, e))
  {
  }

  lemma {:induction false} EndingKeepsTimes(db: Db, e: Event)
    requires Ends(db, e) && !e.RecordFailure?
    ensures Step(db, e).generations.Keys == db.generations.Keys && SameTimes(db, Step(db, e))
  {
  }

  lemma {:induction false} LeaseKeepsTimes(db: Db, e: Event)
    requires e.TryAssign?
    ensures Step(db, e).generations.Keys == db.generations.Keys && SameTimes(db, Step(db, e))
  {
    AssignmentIsAtomic(db, e.g, e.pool, e.worker, e.attempt, e.delivered, e.commits);
  }

  lemma {:induction false} OthersKeepTimes(db: Db, e: Event)
    requires !Ends(db, e) && !e.TryAssign?
    ensures SameTimes(db, Step(db, e))
    ensures !e.Submit? ==> Step(db, e).generations.Keys == db.generations.Keys
  {
  }

  lemma {:induction false} SubmissionTimesAreFixed(db: Db, e: Event)
    ensures SameTimes(db, Step(db, e))
    ensures !e.Submit? ==> Step(db, e).generations.Keys == db.generations.Keys
  {
    if e.RecordFailure? {
      FailureKeepsTimes(db, e);
    } else if Ends(db, e) {
      EndingKeepsTimes(db, e);
    } else if e.TryAssign? {
      LeaseKeepsTimes(db, e);
    } else {
      OthersKeepTimes(db, e);
    }
  }

  /** New submissions never join the older ones. */
  lemma {:induction false} OlderIdsAreFixed(db: Db, e: Event, g: Schedule.Candidate, since: int)
    requires since > g.createdAt && (e.Submit? ==> e.createdAt >= since)
    ensures OlderIds(Step(db, e), g) == OlderIds(db, g)
  {
    SubmissionTimesAreFixed(db, e);
  }

  lemma {:induction false} ChoiceIsOlder(db: Db, x: Schedule.Context, cs: seq<Schedule.Candidate>, p: Id,
                                         g: Schedule.Candidate, h: Id)
    requires Chosen(db, x, cs, p, g, h)
    ensures h == g.id || h in OlderIds(db, g)
  {
    Schedule.OverdueOnlyPassedByOlder(x, cs, g);
  }

  /** One event of an ordered run: a pass is the lease of an older Generation. */
  lemma {:induction false} StepPasses(db: Db, e: Event, p: Id, g: Schedule.Candidate, since: int)
    requires Inv(db) && since > g.createdAt && Ordered(db, e, p, g, since)
    ensures OlderIds(Step(db, e), g) == OlderIds(db, g)
    ensures TotalBudget(Step(db, e), OlderIds(db, g)) + One(Passes(db, e, p, g))
      <= TotalBudget(db, OlderIds(db, g)) + |OlderIds(db, g)| * One(Registers(db, e))
  {
    OlderIdsAreFixed(db, e, g, since);
    StepTotal(db, e, OlderIds(db, g));
    if Passes(db, e, p, g) {
      PassedByOlder(db, e, p, g, since);
    }
  }

  lemma {:induction false} PassedByOlder(db: Db, e: Event, p: Id, g: Schedule.Candidate, since: int)
    requires Ordered(db, e, p, g, since) && Passes(db, e, p, g)
    ensures e.g in OlderIds(db, g)
  {
    var x, cs :| Chosen(db, x, cs, p, g, e.g);
    ChoiceIsOlder(db, x, cs, p, g, e.g);
  }

  /** Whatever else happens, failed sends, retries, rejections and cancellations
      included, the slot leases other work at most as often as the Generations
      older than `g` have Attempts and pools left (plus one for each of them and
      each pool registered meanwhile). */
  lemma {:induction false} OvertakingIsBounded(db: Db, events: seq<Event>, p: Id, g: Schedule.Candidate, since: int)
    requires Inv(db) && since > g.createdAt && OrderedRun(db, events, p, g, since)
    ensures PassCount(db, events, p, g)
      <= TotalBudget(db, OlderIds(db, g)) + |OlderIds(db, g)| * RegistrationCount(db, events)
    decreases |events|
  {
    if events == [] {
      TotalIsPositive(db, OlderIds(db, g));
    } else {
      var (e, rest) := (events[0], events[1..]);
      StepPasses(db, e, p, g, since);
      StepInv(db, e);
      OvertakingIsBounded(Step(db, e), rest, p, g, since);
      BoundGoesOn(db, events, p, g, OlderIds(db, g));
    }
  }

  lemma {:induction false} BoundGoesOn(db: Db, events: seq<Event>, p: Id, g: Schedule.Candidate, older: set<Id>)
    requires events != []
    requires var (e, after) := (events[0], Step(db, events[0]));
      && TotalBudget(after, older) + One(Passes(db, e, p, g))
           <= TotalBudget(db, older) + |older| * One(Registers(db, e))
      && PassCount(after, events[1..], p, g)
           <= TotalBudget(after, older) + |older| * RegistrationCount(after, events[1..])
    ensures PassCount(db, events, p, g) <= TotalBudget(db, older) + |older| * RegistrationCount(db, events)
  {
    Distribute(|older|, One(Registers(db, events[0])), RegistrationCount(Step(db, events[0]), events[1..]));
  }

  lemma {:induction false} Distribute(a: nat, b: nat, c: nat)
    ensures a * (b + c) == a * b + a * c
  {
  }

  /** From the moment `g` is overdue under a positive queue age, `since` may be
      that very moment. */
  lemma {:induction false} OverdueIsNeverOvertaken(db: Db, events: seq<Event>, p: Id, g: Schedule.Candidate,
                                                   x: Schedule.Context)
    requires Inv(db) && x.maximumQueueAge > 0 && Schedule.Overdue(x, g)
    requires OrderedRun(db, events, p, g, x.now)
    ensures PassCount(db, events, p, g)
      <= TotalBudget(db, OlderIds(db, g)) + |OlderIds(db, g)| * RegistrationCount(db, events)
  {
    OvertakingIsBounded(db, events, p, g, x.now);
  }
}
