/** Runs of planning passes are ordered as the bound on overtaking asks: what a slot
    leases past a waiting Generation is what `select_next` chose. */
module PlannedOrder {
  import opened Common
  import opened Lists
  import opened Database
  import opened DatabaseSafety
  import opened Retry
  import opened Overtaking
  import Schedule
  import Planning

  /** One pass over a snapshot, with the outcome of each assignment, or any other
      transaction. */
  datatype Turn =
    | Pass(rows: seq<Planning.PoolRow>, cs: seq<Schedule.Candidate>, exclusions: Planning.Exclusions,
           policy: Planning.Policy, online: Id -> bool, outcomes: seq<(Id, bool, bool)>)
    | Other(event: Event)
  {
    function Planned(): seq<Planning.Assignment>
      requires Pass?
    {
      Planning.Plan(rows, cs, exclusions, policy, online)
    }

    predicate WellFormed() {
      Pass? ==> |outcomes| == |Planned()|
    }
  }

  function Triples(plan: seq<Planning.Assignment>): seq<(Id, Id, Id)> {
    seq(|plan|, i requires 0 <= i < |plan| => (plan[i].candidate.id, plan[i].pool, plan[i].worker))
  }

  function TurnEvents(t: Turn): seq<Event>
    requires t.WellFormed()
  {
    match t
    case Pass(_, _, _, _, _, outcomes) => PassEvents(Triples(t.Planned()), outcomes)
    case Other(e) => [e]
  }

  // ------------------------------------------------------------ single-slot pools

  /** `g` waits for the slot of this row: listed, eligible, overdue, not rejected. */
  predicate WaitsFor(row: Planning.PoolRow, t: Turn, g: Schedule.Candidate)
    requires t.Pass?
  {
    && g in t.cs && Planning.NotRejectedBy(row.capability.pool, t.exclusions)(g)
    && Schedule.Eligible(Planning.ContextOf(row, t.policy), g)
    && Schedule.Overdue(Planning.ContextOf(row, t.policy), g)
  }

  /** A pass whose snapshot was once true, over a pool `p` with at most one free
      slot for which `g` waits; other events neither assign nor submit before
      `since`. */
  ghost predicate FairTurn(db: Db, t: Turn, p: Id, g: Schedule.Candidate, since: int) {
    && t.WellFormed()
    && match t
       case Pass(rows, cs, _, _, _, _) =>
         && SnapshotOf(db, cs)
         && (forall r :: r in rows && r.capability.pool == p ==> r.freeSlots <= 1 && WaitsFor(r, t, g))
       case Other(e) => !e.TryAssign? && (e.Submit? ==> e.createdAt >= since)
  }

  ghost predicate FairTurns(db: Db, turns: seq<Turn>, p: Id, g: Schedule.Candidate, since: int)
    decreases |turns|
  {
    turns == [] ||
    (FairTurn(db, turns[0], p, g, since) && FairTurns(Run(db, TurnEvents(turns[0])), turns[1..], p, g, since))
  }

  ghost predicate AllWellFormed(turns: seq<Turn>) {
    forall i :: 0 <= i < |turns| ==> turns[i].WellFormed()
  }

  function AllEvents(turns: seq<Turn>): seq<Event>
    requires AllWellFormed(turns)
  {
    if turns == [] then [] else TurnEvents(turns[0]) + AllEvents(turns[1..])
  }

  /** A snapshot stays a possible reading of the queue however stale it gets. */
  lemma {:induction false} SnapshotStays(db: Db, events: seq<Event>, cs: seq<Schedule.Candidate>)
    requires SnapshotOf(db, cs)
    ensures SnapshotOf(Run(db, events), cs)
    decreases |events|
  {
    if events != [] {
      SubmissionTimesAreFixed(db, events[0]);
      SnapshotStays(Step(db, events[0]), events[1..], cs);
    }
  }

  /** A batch of one is the choice of `select_next`. */
  lemma {:induction false} SingleSlotBatch(x: Schedule.Context, cs: seq<Schedule.Candidate>)
    requires x.freeSlots == 1
    ensures Schedule.SelectBatch(x, cs) ==
      if Schedule.SelectNext(x, cs).Some? then [Schedule.SelectNext(x, cs).value] else []
  {
  }

  lemma {:induction false} OpenSnapshot(db: Db, cs: seq<Schedule.Candidate>, open: Schedule.Candidate -> bool)
    requires SnapshotOf(db, cs)
    ensures SnapshotOf(db, Filter(open, cs))
  {
    Schedule.FilterDistinctIds(open, cs);
  }

  /** What the pass plans for the slot is a choice past `g`. */
  lemma {:induction false} PlannedIsChosen(db: Db, t: Turn, row: Planning.PoolRow, p: Id, g: Schedule.Candidate,
                                           i: nat)
    requires t.Pass? && SnapshotOf(db, t.cs) && row.capability.pool == p && row.freeSlots <= 1 && WaitsFor(row, t, g)
    requires i < |Planning.PlanPool(row, t.cs, t.exclusions, t.policy, t.online)|
    ensures var a := Planning.PlanPool(row, t.cs, t.exclusions, t.policy, t.online)[i];
      exists x, cs :: Chosen(db, x, cs, p, g, a.candidate.id)
  {
    var x := Planning.ContextOf(row, t.policy);
    var open := Planning.NotRejectedBy(p, t.exclusions);
    var cs := Filter(open, t.cs);
    OpenSnapshot(db, t.cs, open);
    SingleSlotBatch(x, cs);
    Planning.AssignMembers(row, Schedule.SelectBatch(x, cs));
    var a := Planning.PlanPool(row, t.cs, t.exclusions, t.policy, t.online)[i];
    assert Chosen(db, x, cs, p, g, a.candidate.id);
  }

  /** Each assignment of a plan was planned for one of its rows. */
  lemma {:induction false} PlannedForRow(t: Turn, rows: seq<Planning.PoolRow>, i: nat)
    returns (row: Planning.PoolRow, k: nat)
    requires t.Pass? && i < |Planning.Plan(rows, t.cs, t.exclusions, t.policy, t.online)|
    requires Schedule.DistinctIds(t.cs)
    ensures var plan := Planning.PlanPool(row, t.cs, t.exclusions, t.policy, t.online);
      && row in rows && k < |plan|
      && plan[k] == Planning.Plan(rows, t.cs, t.exclusions, t.policy, t.online)[i]
      && plan[k].pool == row.capability.pool
    decreases |rows|
  {
    var n := |rows| - 1;
    var before := Planning.Plan(rows[..n], t.cs, t.exclusions, t.policy, t.online);
    if i < |before| {
      row, k := PlannedForRow(t, rows[..n], i);
    } else {
      row, k := rows[n], i - |before|;
      Planning.PlanPoolIsSound(row, t.cs, t.exclusions, t.policy, t.online);
    }
  }

  lemma {:induction false} AssignmentIsChosen(db: Db, t: Turn, p: Id, g: Schedule.Candidate, since: int, i: nat)
    requires t.Pass? && FairTurn(db, t, p, g, since) && i < |t.Planned()| && t.Planned()[i].pool == p
    ensures exists x, cs :: Chosen(db, x, cs, p, g, t.Planned()[i].candidate.id)
  {
    var row, k := PlannedForRow(t, t.rows, i);
    PlannedIsChosen(db, t, row, p, g, k);
  }

  // ------------------------------------------------------------------ whole runs

  lemma {:induction false} OrderedConcat(db: Db, a: seq<Event>, b: seq<Event>, p: Id, g: Schedule.Candidate, since: int)
    requires OrderedRun(db, a, p, g, since) && OrderedRun(Run(db, a), b, p, g, since)
    ensures OrderedRun(db, a + b, p, g, since) && Run(db, a + b) == Run(Run(db, a), b)
    decreases |a|
  {
    if a == [] {
      assert a + b == b;
    } else {
      assert (a + b)[1..] == a[1..] + b;
      OrderedConcat(Step(db, a[0]), a[1..], b, p, g, since);
    }
  }

  /** The events of the assignments from the i-th on. */
  lemma {:induction false} PassIsOrdered(db: Db, t: Turn, p: Id, g: Schedule.Candidate, since: int, i: nat)
    requires t.Pass? && FairTurn(db, t, p, g, since) && i <= |t.Planned()|
    ensures OrderedRun(db, PassEvents(Triples(t.Planned())[i..], t.outcomes[i..]), p, g, since)
    decreases |t.Planned()| - i
  {
    var (plan, outcomes) := (Triples(t.Planned()), t.outcomes);
    if i < |plan| {
      var events := PassEvents(plan[i..], outcomes[i..]);
      assert plan[i..][1..] == plan[i + 1..] && outcomes[i..][1..] == outcomes[i + 1..];
      assert events[1..] == PassEvents(plan[i + 1..], outcomes[i + 1..]);
      var e := events[0];
      if e.pool == p {
        AssignmentIsChosen(db, t, p, g, since, i);
      }
      SnapshotStays(db, [e], t.cs);
      assert [e][1..] == [] && Run(db, [e]) == Step(db, e);
      PassIsOrdered(Step(db, e), t, p, g, since, i + 1);
    }
  }

  lemma {:induction false} TurnIsOrdered(db: Db, t: Turn, p: Id, g: Schedule.Candidate, since: int)
    requires FairTurn(db, t, p, g, since)
    ensures OrderedRun(db, TurnEvents(t), p, g, since)
  {
    if t.Pass? {
      PassIsOrdered(db, t, p, g, since, 0);
      assert Triples(t.Planned())[0..] == Triples(t.Planned()) && t.outcomes[0..] == t.outcomes;
    } else {
      assert [t.event][1..] == [];
    }
  }

  lemma {:induction false} TurnsAreOrdered(db: Db, turns: seq<Turn>, p: Id, g: Schedule.Candidate, since: int)
    requires AllWellFormed(turns) && FairTurns(db, turns, p, g, since)
    ensures OrderedRun(db, AllEvents(turns), p, g, since)
    decreases |turns|
  {
    if turns != [] {
      var events := TurnEvents(turns[0]);
      TurnIsOrdered(db, turns[0], p, g, since);
      TurnsAreOrdered(Run(db, events), turns[1..], p, g, since);
      OrderedConcat(db, events, AllEvents(turns[1..]), p, g, since);
    }
  }

  /** Any sequence of passes, however stale their snapshots, and of other
      transactions: from the moment `g` is overdue for the single slot of `p`, the
      slot leases other work at most as often as the older Generations have
      Attempts and pools left. */
  lemma {:induction false} PassesOvertakeBoundedly(db: Db, turns: seq<Turn>, p: Id, g: Schedule.Candidate,
                                                   x: Schedule.Context)
    requires Inv(db) && x.maximumQueueAge > 0 && Schedule.Overdue(x, g)
    requires AllWellFormed(turns) && FairTurns(db, turns, p, g, x.now)
    ensures PassCount(db, AllEvents(turns), p, g)
      <= TotalBudget(db, OlderIds(db, g)) + |OlderIds(db, g)| * RegistrationCount(db, AllEvents(turns))
  {
    TurnsAreOrdered(db, turns, p, g, x.now);
    OverdueIsNeverOvertaken(db, AllEvents(turns), p, g, x);
  }
}
