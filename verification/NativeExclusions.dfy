/** The bulk reading of excluded pools that a planning pass works on. */
module NativeExclusions {
  import opened Common
  import opened Database
  import opened Schedule
  import Planning

  /** The rows of the bulk query: exclusions of the Generations asked for. */
  ghost predicate IsQueryResult(db: Db, ids: set<Database.Id>, rows: seq<(Database.Id, Database.Id)>) {
    forall g: nat, p: nat :: (g, p) in rows <==> g in ids && Excluded(db, g, p)
  }

  /** `excluded_pools_for_generations`: fills a map of sets row by row. */
  method CollectExclusions(rows: seq<(Database.Id, Database.Id)>) returns (exclusions: Planning.Exclusions)
    ensures forall g: nat, p: nat :: (g in exclusions && p in exclusions[g]) <==> (g, p) in rows
  {
    exclusions := map[];
    for i := 0 to |rows|
      invariant forall g: nat, p: nat :: (g in exclusions && p in exclusions[g]) <==> (g, p) in rows[..i]
    {
      var (g, p) := rows[i];
      var pools := if g in exclusions then exclusions[g] else {};
      exclusions := exclusions[g := pools + {p}];
    }
    assert rows[..|rows|] == rows;
  }

  /** On a current snapshot nothing is planned that the transaction's own exclusion
      check would turn down; only a stale one can be. */
  lemma {:induction false} FreshPlanIsNotExcluded(db: Db, rows: seq<(Database.Id, Database.Id)>,
                                                  exclusions: Planning.Exclusions, row: Planning.PoolRow,
                                                  cs: seq<Candidate>, policy: Planning.Policy,
                                                  online: Schedule.Id -> bool)
    requires DistinctIds(cs)
    requires IsQueryResult(db, set c | c in cs :: c.id, rows)
    requires forall g: nat, p: nat :: (g in exclusions && p in exclusions[g]) <==> (g, p) in rows
    ensures var plan := Planning.PlanPool(row, cs, exclusions, policy, online);
      forall i :: 0 <= i < |plan| ==> !Excluded(db, plan[i].candidate.id, plan[i].pool)
  {
    var plan := Planning.PlanPool(row, cs, exclusions, policy, online);
    Planning.PlanPoolIsSound(row, cs, exclusions, policy, online);
    forall i | 0 <= i < |plan| ensures !Excluded(db, plan[i].candidate.id, plan[i].pool) {
      var (g, p) := (plan[i].candidate.id, plan[i].pool);
      assert plan[i].candidate in cs && g in set c | c in cs :: c.id;
      assert (g, p) !in rows;
    }
  }
}
