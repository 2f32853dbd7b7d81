/** One planning pass over every pool of a snapshot (`plan_assignments`). */
module Planning {
  import opened Common
  import opened Lists
  import opened Schedule

  /** One pool of the snapshot: its capability, free slots, Worker and key. */
  datatype PoolRow = PoolRow(capability: SlotCapability, freeSlots: nat, worker: Id, poolKey: string)

  datatype Assignment = Assignment(worker: Id, pool: Id, poolKey: string, candidate: Candidate)

  datatype Policy = Policy(maximumQueueAge: nat, now: Timestamp)

  type Exclusions = map<Id, set<Id>>

  function NotRejectedBy(pool: Id, exclusions: Exclusions): Candidate -> bool {
    (c: Candidate) => !(c.id in exclusions && pool in exclusions[c.id])
  }

  function ContextOf(row: PoolRow, policy: Policy): Context {
    Context(row.capability, row.freeSlots, policy.maximumQueueAge, policy.now)
  }

  function Assign(row: PoolRow, batch: seq<Candidate>): seq<Assignment> {
    if batch == [] then []
    else Assign(row, batch[..|batch| - 1])
         + [Assignment(row.worker, row.capability.pool, row.poolKey, batch[|batch| - 1])]
  }

  /** What one pool gets: always filter by exclusions, then select. */
  function PlanPool(row: PoolRow, cs: seq<Candidate>, exclusions: Exclusions, policy: Policy,
                    online: Id -> bool): seq<Assignment> {
    if row.freeSlots == 0 || !online(row.worker) then []
    else Assign(row, SelectBatch(ContextOf(row, policy), Filter(NotRejectedBy(row.capability.pool, exclusions), cs)))
  }

  function PlanFor(cs: seq<Candidate>, exclusions: Exclusions, policy: Policy,
                   online: Id -> bool): PoolRow -> seq<Assignment> {
    (row: PoolRow) => PlanPool(row, cs, exclusions, policy, online)
  }

  function Plan(rows: seq<PoolRow>, cs: seq<Candidate>, exclusions: Exclusions, policy: Policy,
                online: Id -> bool): seq<Assignment> {
    FlatMap(PlanFor(cs, exclusions, policy, online), rows)
  }

  /** `candidates.iter().find(..)` by identity. */
  method FindById(cs: seq<Candidate>, id: Id) returns (c: Option<Candidate>)
    ensures c == None <==> forall d :: d in cs ==> d.id != id
    ensures c.Some? ==> c.value in cs && c.value.id == id
  {
    for i := 0 to |cs|
      invariant forall j :: 0 <= j < i ==> cs[j].id != id
    {
      if cs[i].id == id {
        return Some(cs[i]);
      }
    }
    return None;
  }

  /** `plan_assignments` as the source runs it, with the shortcut that skips the
      copy when no candidate is rejected by the pool. Ids are a primary key. */
  method PlanAssignments(rows: seq<PoolRow>, cs: seq<Candidate>, exclusions: Exclusions, policy: Policy,
                         online: Id -> bool) returns (assignments: seq<Assignment>)
    requires DistinctIds(cs)
    ensures assignments == Plan(rows, cs, exclusions, policy, online)
  {
    assignments := [];
    for r := 0 to |rows|
      invariant assignments == Plan(rows[..r], cs, exclusions, policy, online)
    {
      assert rows[..r + 1][..r] == rows[..r];
      var planned := PlanOne(rows[r], cs, exclusions, policy, online);
      assignments := assignments + planned;
    }
    assert rows[..|rows|] == rows;
  }

  method PlanOne(row: PoolRow, cs: seq<Candidate>, exclusions: Exclusions, policy: Policy,
                 online: Id -> bool) returns (assignments: seq<Assignment>)
    requires DistinctIds(cs)
    ensures assignments == PlanPool(row, cs, exclusions, policy, online)
  {
    assignments := [];
    if row.freeSlots == 0 || !online(row.worker) {
      return;
    }
    var context := ContextOf(row, policy);
    var pool := row.capability.pool;
    var open := NotRejectedBy(pool, exclusions);
    if exists c | c in cs :: !open(c) {
      var eligible := Filter(open, cs);
      FilterDistinctIds(open, cs);
      var batch := CollectBatch(context, eligible);
      BatchMembers(context, eligible);
      assignments := PushCanonical(row, cs, batch);
    } else {
      FilterAll(open, cs);
      var batch := CollectBatch(context, cs);
      assignments := PushAll(row, batch);
    }
  }

  method PushAll(row: PoolRow, batch: seq<Candidate>) returns (assignments: seq<Assignment>)
    ensures assignments == Assign(row, batch)
  {
    assignments := [];
    for i := 0 to |batch|
      invariant assignments == Assign(row, batch[..i])
    {
      assert batch[..i + 1][..i] == batch[..i];
      assignments := assignments + [Assignment(row.worker, row.capability.pool, row.poolKey, batch[i])];
    }
    assert batch[..|batch|] == batch;
  }

  /** Maps selected identities back to the snapshot. */
  method PushCanonical(row: PoolRow, cs: seq<Candidate>, batch: seq<Candidate>)
    returns (assignments: seq<Assignment>)
    requires DistinctIds(cs) && forall c :: c in batch ==> c in cs
    ensures assignments == Assign(row, batch)
  {
    assignments := [];
    for i := 0 to |batch|
      invariant assignments == Assign(row, batch[..i])
    {
      assert batch[..i + 1][..i] == batch[..i];
      assert batch[i] in batch;
      var found := FindById(cs, batch[i].id);
      if found.Some? {
        assignments := assignments + [Assignment(row.worker, row.capability.pool, row.poolKey, found.value)];
      }
    }
    assert batch[..|batch|] == batch;
  }

  // -------------------------------------------------------- what a pass promises

  lemma {:induction false} AssignMembers(row: PoolRow, batch: seq<Candidate>)
    ensures |Assign(row, batch)| == |batch|
    ensures forall i :: 0 <= i < |batch| ==>
      Assign(row, batch)[i] == Assignment(row.worker, row.capability.pool, row.poolKey, batch[i])
  {
    if batch != [] {
      AssignMembers(row, batch[..|batch| - 1]);
    }
  }

  /** A pool is never given more than its free slots, nothing it rejected, nothing
      it cannot run, and nothing at all while its Worker is offline. */
  lemma {:induction false} PlanPoolIsSound(row: PoolRow, cs: seq<Candidate>, exclusions: Exclusions,
                                           policy: Policy, online: Id -> bool)
    requires DistinctIds(cs)
    ensures var plan := PlanPool(row, cs, exclusions, policy, online);
      && |plan| <= row.freeSlots
      && (!online(row.worker) ==> plan == [])
      && (forall i :: 0 <= i < |plan| ==>
           && plan[i].candidate in cs
           && plan[i].pool == row.capability.pool && plan[i].worker == row.worker
           && NotRejectedBy(row.capability.pool, exclusions)(plan[i].candidate)
           && EligibleFor(ContextOf(row, policy))(plan[i].candidate))
  {
    if row.freeSlots > 0 && online(row.worker) {
      var x := ContextOf(row, policy);
      var open := Filter(NotRejectedBy(row.capability.pool, exclusions), cs);
      FilterDistinctIds(NotRejectedBy(row.capability.pool, exclusions), cs);
      BatchIsLeastCompanions(x, open);
      BatchMembers(x, open);
      AssignMembers(row, SelectBatch(x, open));
    }
  }

  function CandidatesOf(plan: seq<Assignment>): seq<Candidate> {
    seq(|plan|, i requires 0 <= i < |plan| => plan[i].candidate)
  }

  /** A candidate that this very pool has not rejected; what other pools rejected
      does not matter. */
  predicate OpenTo(pool: Id, exclusions: Exclusions, c: Candidate) {
    c.id in exclusions ==> pool !in exclusions[c.id]
  }

  /** What an online pool with free slots gets: its batch of exactly the candidates
      open to it, for its own capability and all its free slots. */
  lemma {:induction false} PlanPoolServes(row: PoolRow, cs: seq<Candidate>, exclusions: Exclusions, policy: Policy,
                                          online: Id -> bool, open: seq<Candidate>)
    requires DistinctIds(cs) && DistinctIds(open) && row.freeSlots > 0 && online(row.worker)
    requires forall c :: c in open <==> c in cs && OpenTo(row.capability.pool, exclusions, c)
    ensures var plan := PlanPool(row, cs, exclusions, policy, online);
      && CandidatesOf(plan)
           == SelectBatch(Context(row.capability, row.freeSlots, policy.maximumQueueAge, policy.now), open)
      && forall i :: 0 <= i < |plan| ==>
           plan[i].worker == row.worker && plan[i].pool == row.capability.pool && plan[i].poolKey == row.poolKey
  {
    var x := Context(row.capability, row.freeSlots, policy.maximumQueueAge, policy.now);
    var notRejected := NotRejectedBy(row.capability.pool, exclusions);
    var filtered := Filter(notRejected, cs);
    FilterDistinctIds(notRejected, cs);
    SameMembers(filtered, open);
    BatchIgnoresOrder(x, filtered, open);
    AssignedBatch(row, SelectBatch(x, open));
  }

  lemma {:induction false} AssignedBatch(row: PoolRow, batch: seq<Candidate>)
    ensures CandidatesOf(Assign(row, batch)) == batch
    ensures forall i :: 0 <= i < |batch| ==>
      var a := Assign(row, batch)[i];
      a.worker == row.worker && a.pool == row.capability.pool && a.poolKey == row.poolKey
  {
    AssignMembers(row, batch);
  }

  /** A pass serves its pools one after the other, each on its own. */
  lemma {:induction false} PlanServesEachRow(before: seq<PoolRow>, row: PoolRow, after: seq<PoolRow>,
                                             cs: seq<Candidate>, exclusions: Exclusions, policy: Policy,
                                             online: Id -> bool)
    ensures Plan(before + [row] + after, cs, exclusions, policy, online)
      == Plan(before, cs, exclusions, policy, online) + PlanPool(row, cs, exclusions, policy, online)
         + Plan(after, cs, exclusions, policy, online)
  {
    var f := PlanFor(cs, exclusions, policy, online);
    FlatMapConcat(f, before + [row], after);
    FlatMapConcat(f, before, [row]);
    assert [row][..0] == [];
    assert FlatMap(f, [row]) == f(row);
  }

  /** So a pool is left without work exactly if it is offline or full, or there is
      nothing open to it that it can run. */
  lemma {:induction false} PlanPoolIsIdleIff(row: PoolRow, cs: seq<Candidate>, exclusions: Exclusions, policy: Policy,
                                             online: Id -> bool)
    requires DistinctIds(cs)
    ensures PlanPool(row, cs, exclusions, policy, online) == [] <==>
      || row.freeSlots == 0 || !online(row.worker)
      || forall c :: c in cs && OpenTo(row.capability.pool, exclusions, c) ==> Admits(row.capability, c.requirement).Err?
  {
    if row.freeSlots > 0 && online(row.worker) {
      var x := ContextOf(row, policy);
      var open := Filter(NotRejectedBy(row.capability.pool, exclusions), cs);
      FilterDistinctIds(NotRejectedBy(row.capability.pool, exclusions), cs);
      PlanPoolServes(row, cs, exclusions, policy, online, open);
      ChoiceExistsIff(x, open);
      BatchIsLeastCompanions(x, open);
      assert |CandidatesOf(PlanPool(row, cs, exclusions, policy, online))| == |SelectBatch(x, open)|;
      if c :| c in cs && OpenTo(row.capability.pool, exclusions, c) && Admits(row.capability, c.requirement).Ok? {
        assert c in open && Eligible(x, c);
      }
    }
  }
}
