/** A planning pass over the current tables is carried out in full: nothing that it
    planned for a pool is turned down by the transactions that follow. */
module FreshPass {
  import opened Common
  import opened Lists
  import opened Lifecycle
  import opened Database
  import opened DatabaseSafety
  import opened Retry
  import opened Transactions
  import opened PlannedOrder
  import Schedule
  import Planning

  // ------------------------------------------------ an Attempt left for the queued

  ghost predicate AttemptLeft(db: Db) {
    forall g :: g in db.generations && db.generations[g].state == Queued ==> db.generations[g].attemptCount < 3
  }

  /** A Generation that was queued before keeps its count as long as it is queued. */
  lemma {:induction false} QueuedKeepsCount(db: Db, e: Event, g: Id)
    requires Inv(db) && InState(db, g, Queued) && InState(Step(db, e), g, Queued)
    ensures Used(Step(db, e), g) == Used(db, g)
  {
    var after := Step(db, e);
    if after != db {
      if Ends(db, e) {
        EndingStep(db, e);
      } else if e.TryAssign? {
        AssignmentIsAtomic(db, e.g, e.pool, e.worker, e.attempt, e.delivered, e.commits);
      } else if !e.RemovePool? {
        QuietStep(db, e);
      }
    }
  }

  lemma {:induction false} NewStartsAtZero(db: Db, e: Event, g: Id)
    requires g !in db.generations && g in Step(db, e).generations
    ensures Used(Step(db, e), g) == 0
  {
  }

  lemma {:induction false} StepAttemptLeft(db: Db, e: Event)
    requires Inv(db) && AttemptLeft(db)
    ensures AttemptLeft(Step(db, e))
  {
    var after := Step(db, e);
    forall g | InState(after, g, Queued) ensures after.generations[g].attemptCount < 3 {
      if g !in db.generations {
        NewStartsAtZero(db, e, g);
      } else if db.generations[g].state == Queued {
        QueuedKeepsCount(db, e, g);
      } else {
        GenerationFollowsLifecycle(db, e, g);
        WaysToAState(db.generations[g].state);
        ReturnsEndAnAttempt(db, e, g);
      }
    }
  }

  /** After any run from the empty tables every queued Generation has an Attempt left. */
  lemma {:induction false} QueuedHasAttemptLeft(events: seq<Event>)
    ensures Inv(Run(EMPTY, events)) && AttemptLeft(Run(EMPTY, events))
  {
    EmptyInv();
    AttemptLeftRun(EMPTY, events);
  }

  lemma {:induction false} AttemptLeftRun(db: Db, events: seq<Event>)
    requires Inv(db) && AttemptLeft(db)
    ensures Inv(Run(db, events)) && AttemptLeft(Run(db, events))
    decreases |events|
  {
    if events != [] {
      StepInv(db, events[0]);
      StepAttemptLeft(db, events[0]);
      AttemptLeftRun(Step(db, events[0]), events[1..]);
    }
  }

  // ------------------------------------------------------------------- carrying out

  type Plan = seq<(Id, Id, Id)>
  type Outcomes = seq<(Id, bool, bool)>

  /** Everything planned for the pool can be committed, one after the other, and every
      lease will be delivered. */
  ghost predicate Ready(db: Db, p: Id, plan: Plan, outcomes: Outcomes) {
    && |plan| == |outcomes| && p in db.pools && db.pools[p].claimed + |plan| <= db.pools[p].total
    && (forall i :: 0 <= i < |plan| ==>
         && plan[i].1 == p && outcomes[i].1 && outcomes[i].2 && outcomes[i].0 !in db.attempts
         && InState(db, plan[i].0, Queued) && db.generations[plan[i].0].attemptCount < 3
         && !BarredFrom(db, plan[i].0, p))
    && (forall i, j :: 0 <= i < j < |plan| ==> plan[i].0 != plan[j].0 && outcomes[i].0 != outcomes[j].0)
  }

  /** The i-th assignment has been committed. */
  predicate Carried(db: Db, after: Db, p: Id, plan: Plan, outcomes: Outcomes, i: nat)
    requires i < |plan| == |outcomes|
  {
    var (g, w, a) := (plan[i].0, plan[i].2, outcomes[i].0);
    && g in db.generations && InState(after, g, Running)
    && a in after.attempts && after.attempts[a] == Attempt(g, p, w, db.generations[g].attemptCount + 1, Leased, None)
  }

  lemma {:induction false} BarredOnlyBefore(db: Db, after: Db, g: Id, p: Id, a: Id, h: Id)
    requires a !in db.attempts && after.rejections == db.rejections
    requires exists w, n :: after.attempts == db.attempts[a := Attempt(g, p, w, n, Leased, None)]
    ensures BarredFrom(after, h, p) ==> BarredFrom(db, h, p)
  {
    if BarredFrom(after, h, p) && (h, p) !in after.rejections {
      var b :| b in after.attempts && after.attempts[b].generation == h && after.attempts[b].pool == p
               && after.attempts[b].failure == Some(OutOfMemory);
      assert b in db.attempts && db.attempts[b] == after.attempts[b];
    }
  }

  /** The tables after the first assignment. */
  function AfterFirst(db: Db, p: Id, plan: Plan, outcomes: Outcomes): Db
    requires plan != [] && |plan| == |outcomes|
  {
    Step(db, TryAssign(plan[0].0, plan[0].1, plan[0].2, outcomes[0].0, outcomes[0].1, outcomes[0].2))
  }

  lemma {:induction false} FirstIsCarried(db: Db, p: Id, plan: Plan, outcomes: Outcomes)
    requires Ready(db, p, plan, outcomes) && plan != []
    ensures var after := AfterFirst(db, p, plan, outcomes);
      && Carried(db, after, p, plan, outcomes, 0)
      && after.pools == db.pools[p := Pool(db.pools[p].total, db.pools[p].claimed + 1)]
      && after.rejections == db.rejections
      && after.generations.Keys == db.generations.Keys
      && (forall h :: h in db.generations && h != plan[0].0 ==> after.generations[h] == db.generations[h])
      && after.attempts == db.attempts[outcomes[0].0 := after.attempts[outcomes[0].0]]
  {
    AssignmentCommits(db, plan[0].0, p, plan[0].2, outcomes[0].0);
  }

  lemma {:induction false} RestIsReady(db: Db, p: Id, plan: Plan, outcomes: Outcomes)
    requires Ready(db, p, plan, outcomes) && plan != []
    ensures Ready(AfterFirst(db, p, plan, outcomes), p, plan[1..], outcomes[1..])
  {
    var after := AfterFirst(db, p, plan, outcomes);
    FirstIsCarried(db, p, plan, outcomes);
    var a := outcomes[0].0;
    var x := after.attempts[a];
    assert after.attempts == db.attempts[a := Attempt(plan[0].0, p, x.worker, x.number, Leased, None)];
    var (rest, later) := (plan[1..], outcomes[1..]);
    forall i | 0 <= i < |rest|
      ensures InState(after, rest[i].0, Queued) && !BarredFrom(after, rest[i].0, p)
      ensures later[i].0 !in after.attempts
    {
      assert rest[i] == plan[i + 1] && later[i] == outcomes[i + 1];
      BarredOnlyBefore(db, after, plan[0].0, p, a, rest[i].0);
    }
  }

  lemma {:induction false} LaterKeepsFirst(db: Db, p: Id, plan: Plan, outcomes: Outcomes, g: Id, a: Id)
    requires Ready(db, p, plan, outcomes) && g in db.generations && a in db.attempts
    requires forall i :: 0 <= i < |plan| ==> plan[i].0 != g
    ensures var after := Run(db, PassEvents(plan, outcomes));
      && g in after.generations && after.generations[g] == db.generations[g]
      && a in after.attempts && after.attempts[a] == db.attempts[a]
    decreases |plan|
  {
    if plan != [] {
      FirstIsCarried(db, p, plan, outcomes);
      RestIsReady(db, p, plan, outcomes);
      assert PassEvents(plan, outcomes)[1..] == PassEvents(plan[1..], outcomes[1..]);
      LaterKeepsFirst(AfterFirst(db, p, plan, outcomes), p, plan[1..], outcomes[1..], g, a);
    }
  }

  /** The whole plan is committed. */
  lemma {:induction false} ReadyIsCarried(db: Db, p: Id, plan: Plan, outcomes: Outcomes)
    requires Ready(db, p, plan, outcomes)
    ensures var after := Run(db, PassEvents(plan, outcomes));
      && p in after.pools && after.pools[p].claimed == db.pools[p].claimed + |plan|
      && forall i :: 0 <= i < |plan| ==> Carried(db, after, p, plan, outcomes, i)
    decreases |plan|
  {
    if plan != [] {
      var first := AfterFirst(db, p, plan, outcomes);
      var after := Run(db, PassEvents(plan, outcomes));
      FirstIsCarried(db, p, plan, outcomes);
      RestIsReady(db, p, plan, outcomes);
      assert PassEvents(plan, outcomes)[1..] == PassEvents(plan[1..], outcomes[1..]);
      ReadyIsCarried(first, p, plan[1..], outcomes[1..]);
      LaterKeepsFirst(first, p, plan[1..], outcomes[1..], plan[0].0, outcomes[0].0);
      forall i | 0 <= i < |plan| ensures Carried(db, after, p, plan, outcomes, i) {
        if i > 0 {
          assert Carried(first, after, p, plan[1..], outcomes[1..], i - 1);
          assert first.generations[plan[i].0] == db.generations[plan[i].0];
        }
      }
    }
  }

  // --------------------------------------------------------------- from the planner

  /** The row, the candidates and the exclusions are as the tables have them. */
  ghost predicate Current(db: Db, row: Planning.PoolRow, cs: seq<Schedule.Candidate>, exclusions: Planning.Exclusions) {
    var p := row.capability.pool;
    && p in db.pools && row.freeSlots + db.pools[p].claimed == db.pools[p].total
    && Schedule.DistinctIds(cs)
    && (forall c :: c in cs ==> InState(db, c.id, Queued))
    && (forall c :: c in cs ==> (Planning.OpenTo(p, exclusions, c) <==> !Excluded(db, c.id, p)))
  }

  lemma {:induction false} BatchIdsDiffer(x: Schedule.Context, cs: seq<Schedule.Candidate>)
    requires Schedule.DistinctIds(cs)
    ensures Schedule.DistinctIds(Schedule.SelectBatch(x, cs))
  {
    var batch := Schedule.SelectBatch(x, cs);
    forall i, j | 0 <= i < j < |batch| ensures batch[i].id != batch[j].id {
      Schedule.BatchInColumns(x, cs, j, batch[j]);
      if i > 0 {
        Schedule.BatchInColumns(x, cs, i, batch[i]);
        assert Schedule.Outranks(batch[i], batch[j]);
        Schedule.SameIdIsSame(cs, batch[i], batch[j]);
      }
    }
  }

  lemma {:induction false} CurrentPlanIsReady(db: Db, row: Planning.PoolRow, cs: seq<Schedule.Candidate>,
                                              exclusions: Planning.Exclusions, policy: Planning.Policy,
                                              online: Id -> bool, outcomes: Outcomes)
    requires AttemptLeft(db) && Current(db, row, cs, exclusions)
    requires var plan := Planning.PlanPool(row, cs, exclusions, policy, online);
      && |outcomes| == |plan|
      && (forall i :: 0 <= i < |plan| ==> outcomes[i].1 && outcomes[i].2 && outcomes[i].0 !in db.attempts)
      && (forall i, j :: 0 <= i < j < |plan| ==> outcomes[i].0 != outcomes[j].0)
    ensures var plan := Planning.PlanPool(row, cs, exclusions, policy, online);
      Ready(db, row.capability.pool, Triples(plan), outcomes)
  {
    var (p, plan) := (row.capability.pool, Planning.PlanPool(row, cs, exclusions, policy, online));
    Planning.PlanPoolIsSound(row, cs, exclusions, policy, online);
    PlannedIdsDiffer(row, cs, exclusions, policy, online);
    forall i | 0 <= i < |plan| ensures !BarredFrom(db, plan[i].candidate.id, p) && InState(db, plan[i].candidate.id, Queued) {
      ExcludedIff(db, plan[i].candidate.id, p);
      assert plan[i].candidate in cs && Planning.OpenTo(p, exclusions, plan[i].candidate);
    }
  }

  lemma {:induction false} PlannedIdsDiffer(row: Planning.PoolRow, cs: seq<Schedule.Candidate>,
                                            exclusions: Planning.Exclusions, policy: Planning.Policy, online: Id -> bool)
    requires Schedule.DistinctIds(cs)
    ensures var plan := Planning.PlanPool(row, cs, exclusions, policy, online);
      forall i, j :: 0 <= i < j < |plan| ==> plan[i].candidate.id != plan[j].candidate.id
  {
    if row.freeSlots > 0 && online(row.worker) {
      var x := Planning.ContextOf(row, policy);
      var open := Filter(Planning.NotRejectedBy(row.capability.pool, exclusions), cs);
      Schedule.FilterDistinctIds(Planning.NotRejectedBy(row.capability.pool, exclusions), cs);
      BatchIdsDiffer(x, open);
      Planning.AssignMembers(row, Schedule.SelectBatch(x, open));
    }
  }

  /** After any run: what a pass over the current tables plans for a pool is carried out
      to the last assignment, if the leases are delivered: each candidate runs on that
      pool, with the next Attempt number and a slot of its own. */
  lemma {:induction false} FreshPlanIsCarriedOut(events: seq<Event>, row: Planning.PoolRow, cs: seq<Schedule.Candidate>,
                                                 exclusions: Planning.Exclusions, policy: Planning.Policy,
                                                 online: Id -> bool, outcomes: Outcomes)
    requires Current(Run(EMPTY, events), row, cs, exclusions)
    requires var plan := Planning.PlanPool(row, cs, exclusions, policy, online);
      && |outcomes| == |plan|
      && (forall i :: 0 <= i < |plan| ==>
           outcomes[i].1 && outcomes[i].2 && outcomes[i].0 !in Run(EMPTY, events).attempts)
      && (forall i, j :: 0 <= i < j < |plan| ==> outcomes[i].0 != outcomes[j].0)
    ensures var (db, p) := (Run(EMPTY, events), row.capability.pool);
      var plan := Triples(Planning.PlanPool(row, cs, exclusions, policy, online));
      var after := Run(db, PassEvents(plan, outcomes));
      && p in after.pools && after.pools[p].claimed == db.pools[p].claimed + |plan|
      && forall i :: 0 <= i < |plan| ==> Carried(db, after, p, plan, outcomes, i)
  {
    var db := Run(EMPTY, events);
    QueuedHasAttemptLeft(events);
    CurrentPlanIsReady(db, row, cs, exclusions, policy, online, outcomes);
    ReadyIsCarried(db, row.capability.pool, Triples(Planning.PlanPool(row, cs, exclusions, policy, online)), outcomes);
  }
}
