/** Which Attempts go with an active Generation: when a live one outlasts it, and
    when it is left without any. */
module ActiveAttempts {
  import opened Common
  import opened Lifecycle
  import opened Database
  import opened DatabaseSafety
  import opened Outcomes
  import opened Retry

  // ------------------------------------------------ live Attempts, over all runs

  ghost predicate ActiveOnly(db: Db) {
    References(db) && LiveIsActive(db)
  }

  /** At every moment of the run, live Attempts belong to active Generations. */
  ghost predicate AlwaysActiveOnly(db: Db, events: seq<Event>)
    decreases |events|
  {
    ActiveOnly(db) && (events == [] || AlwaysActiveOnly(Step(db, events[0]), events[1..]))
  }

  ghost predicate NeverStale(db: Db, events: seq<Event>)
    decreases |events|
  {
    events == [] || (!StaleAcknowledgement(db, events[0]) && NeverStale(Step(db, events[0]), events[1..]))
  }

  /** Over any run, no Attempt outlives the active states of its Generation exactly
      as long as no acknowledgement is stale. */
  lemma {:induction false} RunStaysActiveIff(db: Db, events: seq<Event>)
    requires Inv(db) && LiveIsActive(db)
    ensures AlwaysActiveOnly(db, events) <==> NeverStale(db, events)
    decreases |events|
  {
    if events != [] {
      var after := Step(db, events[0]);
      StepInv(db, events[0]);
      LiveStaysActiveIff(db, events[0]);
      if LiveIsActive(after) {
        RunStaysActiveIff(after, events[1..]);
      }
    }
  }

  lemma {:induction false} ReachableStaysActiveIff(events: seq<Event>)
    ensures AlwaysActiveOnly(EMPTY, events) <==> NeverStale(EMPTY, events)
  {
    EmptyInv();
    RunStaysActiveIff(EMPTY, events);
  }

  // ---------------------------------------------------------- reachable failings

  ghost predicate Reachable(db: Db) {
    exists events :: Run(EMPTY, events) == db
  }

  lemma {:induction false} RunAppend(db: Db, events: seq<Event>, e: Event)
    ensures Run(db, events + [e]) == Step(Run(db, events), e)
    decreases |events|
  {
    if events == [] {
      assert [e][1..] == [];
      assert [] + [e] == [e];
    } else {
      assert (events + [e])[1..] == events[1..] + [e];
      RunAppend(Step(db, events[0]), events[1..], e);
    }
  }

  lemma {:induction false} Reach(db: Db, e: Event, after: Db)
    requires Reachable(db) && Step(db, e) == after
    ensures Reachable(after)
  {
    var events :| Run(EMPTY, events) == db;
    RunAppend(EMPTY, events, e);
  }

  /** One Generation, one pool of one slot, some Attempts. */
  function Tables(state: GenerationState, count: nat, claimed: nat, attempts: map<Id, Attempt>): Db {
    Db(map[1 := Generation(state, count, 0)], attempts, map[1 := Pool(1, claimed)], {}, {1})
  }

  function First(state: AttemptState, failure: Option<FailureKind>): Attempt {
    Attempt(1, 1, 1, 1, state, failure)
  }

  lemma {:induction false} ReachQueued()
    ensures Reachable(Tables(Queued, 0, 0, map[]))
  {
    assert Run(EMPTY, []) == EMPTY;
    var submitted := EMPTY.(generations := map[1 := Generation(Queued, 0, 0)]);
    Reach(EMPTY, Submit(1, 0), submitted);
    Reach(submitted, ReportPool(1, 1), Tables(Queued, 0, 0, map[]));
  }

  lemma {:induction false} ReachLeased(count: nat, attempts: map<Id, Attempt>, a: Id)
    requires Reachable(Tables(Queued, count, 0, attempts)) && a !in attempts && count < MAX_ATTEMPTS
    requires forall b :: b in attempts ==> attempts[b].failure != Some(OutOfMemory)
    ensures Reachable(Tables(Running, count + 1, 1, attempts[a := Attempt(1, 1, 1, count + 1, Leased, None)]))
  {
    var db := Tables(Queued, count, 0, attempts);
    var claimed := db.(pools := map[1 := Pool(1, 1)]);
    assert db.pools[1 := Pool(1, 1)] == claimed.pools;
    assert ClaimSlot(db, 1) == Some(claimed);
    assert !Excluded(db, 1, 1) && !Excluded(claimed, 1, 1);
    Reach(db, TryAssign(1, 1, 1, a, true, true),
          Tables(Running, count + 1, 1, attempts[a := Attempt(1, 1, 1, count + 1, Leased, None)]));
  }

  lemma {:induction false} ReachRetry()
    ensures Reachable(Tables(Queued, 1, 0, map[1 := First(Broken, Some(BackendCrashed))]))
  {
    ReachQueued();
    ReachLeased(0, map[], 1);
    var leased := Tables(Running, 1, 1, map[1 := First(Leased, None)]);
    var attempts := map[1 := First(Broken, Some(BackendCrashed))];
    assert map[][1 := Attempt(1, 1, 1, 1, Leased, None)] == map[1 := First(Leased, None)];
    assert leased.attempts[1 := First(Broken, Some(BackendCrashed))] == attempts;
    Reach(leased, RecordFailure(1, BackendCrashed, Broken, true), Tables(Queued, 1, 0, attempts));
  }

  /** The first Attempt has failed, the second is running. */
  function Both(): map<Id, Attempt> {
    map[1 := First(Broken, Some(BackendCrashed))][2 := Attempt(1, 1, 1, 2, Leased, None)]
  }

  lemma {:induction false} ReachCancelling()
    ensures Reachable(Tables(Cancelling, 2, 1, Both()))
  {
    ReachRetry();
    ReachLeased(1, map[1 := First(Broken, Some(BackendCrashed))], 2);
    Reach(Tables(Running, 2, 1, Both()), RequestCancel(1), Tables(Cancelling, 2, 1, Both()));
  }

  lemma {:induction false} StaleStep()
    ensures var db := Tables(Cancelling, 2, 1, Both());
      StaleAcknowledgement(db, AcknowledgeCancel(1))
      && Step(db, AcknowledgeCancel(1)) == Tables(Cancelled, 2, 1, Both())
  {
    assert LiveFor(Tables(Cancelling, 2, 1, Both()), 2, 1);
  }

  /** A Generation is cancelled by the acknowledgement of its first, failed Attempt
      while its second one goes on running. */
  lemma {:induction false} StaleAcknowledgementHappens()
    ensures exists db, e ::
      Reachable(db) && StaleAcknowledgement(db, e) && Reachable(Step(db, e)) && !ActiveOnly(Step(db, e))
  {
    ReachCancelling();
    StaleStep();
    var db, after := Tables(Cancelling, 2, 1, Both()), Tables(Cancelled, 2, 1, Both());
    Reach(db, AcknowledgeCancel(1), after);
    assert 2 in after.attempts && after.attempts[2].state.IsLive();
  }

  // -------------------------------------- active Generations without an Attempt

  /** The pool each Generation was last leased to. */
  function Last(db: Db, events: seq<Event>, last: map<Id, Id>): map<Id, Id>
    decreases |events|
  {
    if events == [] then last
    else Last(Step(db, events[0]), events[1..], Next(db, events[0], last))
  }

  function Next(db: Db, e: Event, last: map<Id, Id>): map<Id, Id> {
    if e.TryAssign? && Step(db, e) != db then last[e.g := e.pool] else last
  }

  predicate IsActive(db: Db, g: Id) {
    g in db.generations && db.generations[g].state.IsActive()
  }

  /** A live Attempt runs on the pool its Generation was last leased to. */
  ghost predicate OnLast(db: Db, last: map<Id, Id>) {
    forall a, g :: LiveFor(db, a, g) ==> g in last && db.attempts[a].pool == last[g]
  }

  /** An active Generation was leased, and has its Attempt while that pool lasts. */
  ghost predicate Attached(db: Db, last: map<Id, Id>) {
    forall g :: IsActive(db, g) ==>
      g in last && last[g] in db.spentPools && (last[g] in db.pools ==> exists a :: LiveFor(db, a, g))
  }

  lemma {:induction false} BeganOnLast(db: Db, after: Db, g: Id, p: Id, a: Id, last: map<Id, Id>)
    requires Began(db, after, g, p, a) && References(db) && LiveIsNotQueued(db) && OnLast(db, last)
    ensures OnLast(after, last[g := p])
  {
    forall b, h | LiveFor(after, b, h) ensures h in last[g := p] && after.attempts[b].pool == last[g := p][h] {
      if b != a {
        assert LiveFor(db, b, h) && h != g;
      }
    }
  }

  lemma {:induction false} BeganAttached(db: Db, after: Db, g: Id, p: Id, a: Id, last: map<Id, Id>)
    requires Began(db, after, g, p, a) && References(db) && Attached(db, last)
    ensures Attached(after, last[g := p])
  {
    assert LiveFor(after, a, g);
    forall h | IsActive(after, h)
      ensures h in last[g := p] && last[g := p][h] in after.spentPools
      ensures last[g := p][h] in after.pools ==> exists b :: LiveFor(after, b, h)
    {
      if h != g {
        assert IsActive(db, h);
        if last[h] in after.pools {
          var b :| LiveFor(db, b, h);
          assert LiveFor(after, b, h);
        }
      }
    }
  }

  lemma {:induction false} EndedOnLast(db: Db, after: Db, a: Id, last: map<Id, Id>)
    requires Ended(db, after, a) && OneLiveAttempt(db) && OnLast(db, last)
    ensures OnLast(after, last)
  {
    forall b, h | LiveFor(after, b, h) ensures h in last && after.attempts[b].pool == last[h] {
      EndedOthersAreElsewhere(db, after, a, b);
      assert LiveFor(db, b, h);
    }
  }

  /** The end of its live Attempt takes a Generation out of the active states. */
  lemma {:induction false} EndingDeactivates(db: Db, e: Event)
    requires References(db) && LiveIsNotQueued(db) && Ends(db, e) && Step(db, e) != db
    ensures e.attempt in db.attempts && !IsActive(Step(db, e), db.attempts[e.attempt].generation)
  {
    if e.RecordFailure? {
      FailureDecides(db, e.attempt, e.kind, e.to, e.candidatesRemain);
    }
  }

  lemma {:induction false} EndedAttached(db: Db, after: Db, a: Id, last: map<Id, Id>)
    requires Ended(db, after, a) && Attached(db, last)
    requires !IsActive(after, db.attempts[a].generation)
    ensures Attached(after, last)
  {
    forall h | IsActive(after, h)
      ensures h in last && last[h] in after.spentPools
      ensures last[h] in after.pools ==> exists b :: LiveFor(after, b, h)
    {
      assert h != db.attempts[a].generation && IsActive(db, h);
      if last[h] in after.pools {
        var b :| LiveFor(db, b, h);
        assert LiveFor(after, b, h);
      }
    }
  }

  lemma {:induction false} QuietOnLast(db: Db, e: Event, last: map<Id, Id>)
    requires References(db) && !Ends(db, e) && !e.TryAssign? && OnLast(db, last)
    ensures OnLast(Step(db, e), last)
  {
    var after := Step(db, e);
    forall b, h | LiveFor(after, b, h) ensures h in last && after.attempts[b].pool == last[h] {
      assert LiveFor(db, b, h) && after.attempts[b].pool == db.attempts[b].pool;
    }
  }

  lemma {:induction false} QuietActive(db: Db, e: Event, g: Id)
    requires !Ends(db, e) && !e.TryAssign? && IsActive(Step(db, e), g)
    ensures IsActive(db, g)
  {
  }

  lemma {:induction false} QuietKeepsLive(db: Db, e: Event, a: Id, g: Id)
    requires !Ends(db, e) && !e.TryAssign? && LiveFor(db, a, g)
    requires e != RemovePool(db.attempts[a].pool)
    ensures LiveFor(Step(db, e), a, g)
  {
  }

  lemma {:induction false} QuietAttached(db: Db, e: Event, last: map<Id, Id>)
    requires References(db) && !Ends(db, e) && !e.TryAssign? && OnLast(db, last) && Attached(db, last)
    ensures Attached(Step(db, e), last)
  {
    var after := Step(db, e);
    forall h | IsActive(after, h)
      ensures h in last && last[h] in after.spentPools
      ensures last[h] in after.pools ==> exists b :: LiveFor(after, b, h)
    {
      QuietActive(db, e, h);
      SpentStaysSpent(db, e, last[h]);
      if last[h] in after.pools {
        var b :| LiveFor(db, b, h);
        QuietKeepsLive(db, e, b, h);
      }
    }
  }

  lemma {:induction false} StepAttached(db: Db, e: Event, last: map<Id, Id>)
    requires Inv(db) && OnLast(db, last) && Attached(db, last)
    ensures OnLast(Step(db, e), Next(db, e, last)) && Attached(Step(db, e), Next(db, e, last))
  {
    var after := Step(db, e);
    if after != db {
      if Ends(db, e) {
        EndingStep(db, e);
        EndingDeactivates(db, e);
        EndedOnLast(db, after, e.attempt, last);
        EndedAttached(db, after, e.attempt, last);
      } else if e.TryAssign? {
        AssignmentIsAtomic(db, e.g, e.pool, e.worker, e.attempt, e.delivered, e.commits);
        BeganOnLast(db, after, e.g, e.pool, e.attempt, last);
        BeganAttached(db, after, e.g, e.pool, e.attempt, last);
      } else {
        QuietOnLast(db, e, last);
        QuietAttached(db, e, last);
      }
    }
  }

  lemma {:induction false} RunAttached(db: Db, events: seq<Event>, last: map<Id, Id>)
    requires Inv(db) && OnLast(db, last) && Attached(db, last)
    ensures OnLast(Run(db, events), Last(db, events, last)) && Attached(Run(db, events), Last(db, events, last))
    ensures Inv(Run(db, events))
    decreases |events|
  {
    if events != [] {
      StepInv(db, events[0]);
      StepAttached(db, events[0], last);
      RunAttached(Step(db, events[0]), events[1..], Next(db, events[0], last));
    }
  }

  lemma {:induction false} AttachedMeans(db: Db, last: map<Id, Id>, g: Id)
    requires References(db) && OnLast(db, last) && Attached(db, last) && IsActive(db, g)
    ensures g in last && ((exists a :: LiveFor(db, a, g)) <==> last[g] in db.pools)
  {
    if a :| LiveFor(db, a, g) {
      assert db.attempts[a].pool in db.pools;
    }
  }

  lemma {:induction false} EmptyAttached()
    ensures OnLast(EMPTY, map[]) && Attached(EMPTY, map[])
  {
  }

  /** Over any run from the empty tables: an active Generation has a live Attempt
      exactly while the pool it was last leased to is still registered. */
  lemma {:induction false} ActiveHasAttemptIff(events: seq<Event>, g: Id)
    requires IsActive(Run(EMPTY, events), g)
    ensures var last := Last(EMPTY, events, map[]);
      g in last && ((exists a :: LiveFor(Run(EMPTY, events), a, g)) <==> last[g] in Run(EMPTY, events).pools)
  {
    EmptyInv();
    EmptyAttached();
    RunAttached(EMPTY, events, map[]);
    AttachedMeans(Run(EMPTY, events), Last(EMPTY, events, map[]), g);
  }

  /** Such a Generation without an Attempt is reachable. */
  lemma {:induction false} RemovedPoolStrands()
    ensures exists db :: Reachable(db) && IsActive(db, 1) && forall a :: !LiveFor(db, a, 1)
  {
    ReachQueued();
    ReachLeased(0, map[], 1);
    var db := Tables(Running, 1, 1, map[][1 := Attempt(1, 1, 1, 1, Leased, None)]);
    Reach(db, RemovePool(1), DropPool(db, 1));
    assert IsActive(DropPool(db, 1), 1);
  }
}
