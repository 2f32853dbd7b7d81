/** Selection order of the scheduler: capability matching, the starvation guard,
    batches, and one planning pass over all pools. */
module Schedule {
  import opened Common
  import opened Lists

  type Id = nat
  type Version = nat
  type Timestamp = int
  type Priority = p: nat | p <= 9

  // -------------------------------------------------------------- capability

  datatype Modality = Image | Video

  datatype Shape = Shape(width: nat, height: nat, steps: Option<nat>, frames: Option<nat>)

  datatype ShapeLimits = ShapeLimits(
    maxImagePixels: Option<nat>, maxVideoPixels: Option<nat>, maxVideoFrames: Option<nat>, maxSteps: Option<nat>)

  datatype Requirement = Requirement(
    tenant: Id, modality: Modality, version: Version, loras: set<nat>, shape: Shape)

  /** `manifests` keeps of each advertised model only the modality of its family. */
  datatype SlotCapability = SlotCapability(
    tenant: Id, worker: Id, pool: Id, manifests: map<Version, Modality>, imageLoras: set<nat>,
    resident: Option<Version>, limits: ShapeLimits)

  datatype Incapable =
    | TenantMismatch | MissingModel | ModelModalityMismatch | MissingLora | InvalidShape
    | ImagePixelLimit | VideoPixelLimit | VideoFrameLimit | StepLimit

  predicate Exceeds(requested: nat, limit: Option<nat>) {
    limit.Some? && requested > limit.value
  }

  /** `u64::saturating_mul`. */
  function SaturatingMul(a: nat, b: nat): nat {
    Min(a * b, U64_LIMIT - 1)
  }

  function AdmitsShape(limits: ShapeLimits, r: Requirement): Result<(), Incapable> {
    var shape := r.shape;
    if shape.width == 0 || shape.height == 0 || shape.width % 32 != 0 || shape.height % 32 != 0
       || shape.steps == None || shape.steps == Some(0) then Err(InvalidShape)
    else
      var pixels := shape.width * shape.height;
      var byModality: Result<(), Incapable> :=
        match r.modality
        case Image =>
          if shape.frames.Some? then Err(InvalidShape)
          else if Exceeds(pixels, limits.maxImagePixels) then Err(ImagePixelLimit)
          else Ok(())
        case Video =>
          if shape.frames == None || shape.frames.value < 5 || (shape.frames.value - 5) % 17 != 0 then
            Err(InvalidShape)
          else if Exceeds(shape.frames.value, limits.maxVideoFrames) then Err(VideoFrameLimit)
          else if Exceeds(SaturatingMul(pixels, shape.frames.value), limits.maxVideoPixels) then
            Err(VideoPixelLimit)
          else Ok(());
      if byModality.Err? then byModality
      else if Exceeds(shape.steps.value, limits.maxSteps) then Err(StepLimit)
      else Ok(())
  }

  function Admits(c: SlotCapability, r: Requirement): Result<(), Incapable> {
    if c.tenant != r.tenant then Err(TenantMismatch)
    else if r.version !in c.manifests then Err(MissingModel)
    else if c.manifests[r.version] != r.modality then Err(ModelModalityMismatch)
    else if !(r.loras <= c.imageLoras) then Err(MissingLora)
    else AdmitsShape(c.limits, r)
  }

  function HoldsResidentModel(c: SlotCapability, r: Requirement): bool {
    c.resident == Some(r.version)
  }

  // --------------------------------------------------------------- selection

  datatype Candidate = Candidate(id: Id, createdAt: Timestamp, priority: Priority, requirement: Requirement)

  datatype Context = Context(capability: SlotCapability, freeSlots: nat, maximumQueueAge: nat, now: Timestamp)

  predicate Eligible(x: Context, c: Candidate) {
    Admits(x.capability, c.requirement).Ok?
  }

  /** Negative ages count as zero. */
  function Age(c: Candidate, now: Timestamp): nat {
    Max(0, now - c.createdAt)
  }

  predicate Overdue(x: Context, c: Candidate) {
    Age(c, x.now) >= x.maximumQueueAge
  }

  predicate Older(a: Candidate, b: Candidate) {
    a.createdAt < b.createdAt || (a.createdAt == b.createdAt && a.id < b.id)
  }

  /** Order of the companions of a batch. */
  predicate Prior(a: Candidate, b: Candidate) {
    a.priority > b.priority || (a.priority == b.priority && Older(a, b))
  }

  /** Order of work that is not overdue. */
  predicate Preferred(x: Context, a: Candidate, b: Candidate) {
    var ra, rb := HoldsResidentModel(x.capability, a.requirement), HoldsResidentModel(x.capability, b.requirement);
    (ra && !rb) || (ra == rb && Prior(a, b))
  }

  predicate DistinctIds(cs: seq<Candidate>) {
    forall i, j :: 0 <= i < j < |cs| ==> cs[i].id != cs[j].id
  }

  /** The orders and tests above as the closures the source passes along. */
  function EligibleFor(x: Context): Candidate -> bool {
    c => Eligible(x, c)
  }

  function OverdueFor(x: Context): Candidate -> bool {
    c => Overdue(x, c)
  }

  function ByAge(): (Candidate, Candidate) -> bool {
    (a, b) => Older(a, b)
  }

  function ByPriority(): (Candidate, Candidate) -> bool {
    (a, b) => Prior(a, b)
  }

  function ByPreference(x: Context): (Candidate, Candidate) -> bool {
    (a, b) => Preferred(x, a, b)
  }

  function SelectNext(x: Context, cs: seq<Candidate>): Option<Candidate> {
    if x.freeSlots == 0 then None
    else
      var eligible := Filter(EligibleFor(x), cs);
      var overdue := MinBy(ByAge(), Filter(OverdueFor(x), eligible));
      if overdue.Some? then overdue else MinBy(ByPreference(x), eligible)
  }

  lemma OrdersAreStrict(x: Context)
    ensures Strict(ByAge()) && Strict(ByPriority()) && Strict(ByPreference(x))
  {
  }

  lemma {:induction false} DistinctIdsComparable(x: Context, cs: seq<Candidate>)
    requires DistinctIds(cs)
    ensures Comparable(ByAge(), cs) && Comparable(ByPriority(), cs) && Comparable(ByPreference(x), cs)
  {
  }

  /** Both filtered lists of `SelectNext` can be ordered. */
  lemma {:induction false} SelectionOrders(x: Context, cs: seq<Candidate>)
    requires DistinctIds(cs)
    ensures Strict(ByAge()) && Strict(ByPreference(x))
    ensures Comparable(ByPreference(x), Filter(EligibleFor(x), cs))
    ensures Comparable(ByAge(), Filter(OverdueFor(x), Filter(EligibleFor(x), cs)))
  {
    OrdersAreStrict(x);
    DistinctIdsComparable(x, cs);
    FilterComparable(ByPreference(x), EligibleFor(x), cs);
    FilterComparable(ByAge(), EligibleFor(x), cs);
    FilterComparable(ByAge(), OverdueFor(x), Filter(EligibleFor(x), cs));
  }

  ghost predicate Waiting(x: Context, cs: seq<Candidate>, c: Candidate) {
    c in cs && EligibleFor(x)(c)
  }

  /** Among distinct candidates the choice is the eligible one that precedes all
      others: by age alone as soon as anything eligible is overdue. */
  ghost predicate IsChoice(x: Context, cs: seq<Candidate>, c: Candidate) {
    && Waiting(x, cs, c)
    && if exists d :: Waiting(x, cs, d) && OverdueFor(x)(d) then
         OverdueFor(x)(c) && forall d :: Waiting(x, cs, d) && OverdueFor(x)(d) && d != c ==> ByAge()(c, d)
       else
         forall d :: Waiting(x, cs, d) && d != c ==> ByPreference(x)(c, d)
  }

  lemma {:induction false} SelectNextIsChoice(x: Context, cs: seq<Candidate>)
    requires DistinctIds(cs)
    ensures SelectNext(x, cs) == None <==> x.freeSlots == 0 || forall c :: c in cs ==> !EligibleFor(x)(c)
    ensures SelectNext(x, cs).Some? ==> IsChoice(x, cs, SelectNext(x, cs).value)
  {
    var eligible := Filter(EligibleFor(x), cs);
    var overdue := Filter(OverdueFor(x), eligible);
    SelectionOrders(x, cs);
    if overdue != [] {
      MinByLeast(ByAge(), overdue);
      assert MinBy(ByAge(), overdue).value in overdue;
    } else if eligible != [] {
      assert forall d :: Waiting(x, cs, d) ==> d in eligible;
      assert forall d :: d in eligible && OverdueFor(x)(d) ==> d in overdue;
      MinByLeast(ByPreference(x), eligible);
    }
    if eligible != [] {
      assert eligible[0] in eligible;
    }
  }

  // -------------------------------------------------------- starvation guard

  /** An overdue Generation that is eligible for the slot is only ever passed by
      a strictly older one. */
  lemma {:induction false} OverdueOnlyPassedByOlder(x: Context, cs: seq<Candidate>, g: Candidate)
    requires DistinctIds(cs) && x.freeSlots > 0
    requires g in cs && Eligible(x, g) && Overdue(x, g)
    ensures SelectNext(x, cs).Some?
    ensures var c := SelectNext(x, cs).value;
      c == g || (Older(c, g) && Overdue(x, c))
  {
    SelectNextIsChoice(x, cs);
    assert Waiting(x, cs, g) && OverdueFor(x)(g);
  }

  /** Overdue stays overdue as time passes. */
  lemma {:induction false} OverdueIsStable(x: Context, later: Context, g: Candidate)
    requires Overdue(x, g) && x.now <= later.now && x.maximumQueueAge == later.maximumQueueAge
    ensures Overdue(later, g)
  {
  }

  /** A Generation submitted once `g` is overdue can never be the older one; with
      a zero queue age that fails (same instant, smaller id), so the guard is
      strict exactly when the configured age is positive. */
  lemma {:induction false} NewSubmissionsNeverOlderIff(x: Context)
    ensures (forall g: Candidate, n: Candidate ::
              Overdue(x, g) && n.createdAt >= x.now ==> !Older(n, g))
      <==> x.maximumQueueAge > 0
  {
    if x.maximumQueueAge == 0 {
      var r := Requirement(0, Image, 0, {}, Shape(32, 32, Some(1), None));
      var g, n := Candidate(1, x.now, 0, r), Candidate(0, x.now, 0, r);
      assert Overdue(x, g) && Older(n, g);
    }
  }

  // ----------------------------------------------------------------- batches

  function CompanionOf(x: Context, primary: Candidate): Candidate -> bool {
    (c: Candidate) => c.id != primary.id && c.requirement.version == primary.requirement.version && Eligible(x, c)
  }

  function Companions(x: Context, cs: seq<Candidate>, primary: Candidate): seq<Candidate> {
    Sort(ByPriority(), Filter(CompanionOf(x, primary), cs))
  }

  function SelectBatch(x: Context, cs: seq<Candidate>): seq<Candidate> {
    match SelectNext(x, cs)
    case None => []
    case Some(primary) =>
      var sorted := Companions(x, cs, primary);
      [primary] + sorted[..Min(|sorted|, x.freeSlots - 1)]
  }

  lemma {:induction false} CompanionOrders(x: Context, cs: seq<Candidate>, primary: Candidate)
    requires DistinctIds(cs)
    ensures Strict(ByPriority())
    ensures Comparable(ByPriority(), Filter(CompanionOf(x, primary), cs))
    ensures var sorted := Companions(x, cs, primary);
      && Ascending(ByPriority(), sorted)
      && multiset(sorted) == multiset(Filter(CompanionOf(x, primary), cs))
      && (forall c :: c in sorted <==> c in cs && CompanionOf(x, primary)(c))
  {
    var companions := Filter(CompanionOf(x, primary), cs);
    OrdersAreStrict(x);
    DistinctIdsComparable(x, cs);
    FilterComparable(ByPriority(), CompanionOf(x, primary), cs);
    SortAscending(ByPriority(), companions);
    var sorted := Companions(x, cs, primary);
    forall c ensures c in sorted <==> c in companions {
      assert c in multiset(sorted) <==> c in multiset(companions);
    }
  }

  /** How many candidates of the lead's version the slot could run. */
  function SameVersion(x: Context, lead: Candidate): Candidate -> bool {
    (c: Candidate) => c.requirement.version == lead.requirement.version && Eligible(x, c)
  }

  /** A batch leads with the choice of `select_next`; the rest is ascending by
      priority, then age, shares the lead's version, and nothing left out comes
      before anything taken; it is as long as the free slots allow. */
  ghost predicate IsBatch(x: Context, cs: seq<Candidate>, batch: seq<Candidate>) {
    && (batch == [] <==> SelectNext(x, cs) == None)
    && (batch != [] ==>
         && SelectNext(x, cs) == Some(batch[0])
         && Ascending(ByPriority(), batch[1..])
         && (forall c :: c in batch[1..] ==> c in cs && CompanionOf(x, batch[0])(c))
         && (forall c, d :: c in batch[1..] && d in cs && CompanionOf(x, batch[0])(d) && d !in batch[1..]
              ==> ByPriority()(c, d))
         && (|batch| < x.freeSlots ==>
              forall d :: d in cs && CompanionOf(x, batch[0])(d) ==> d in batch[1..])
         && |batch| <= x.freeSlots)
  }

  lemma {:induction false} BatchIsLeastCompanions(x: Context, cs: seq<Candidate>)
    requires DistinctIds(cs)
    ensures IsBatch(x, cs, SelectBatch(x, cs))
  {
    SelectNextIsChoice(x, cs);
    if SelectNext(x, cs).Some? {
      var primary := SelectNext(x, cs).value;
      var sorted := Companions(x, cs, primary);
      CompanionOrders(x, cs, primary);
      var taken := Min(|sorted|, x.freeSlots - 1);
      assert SelectBatch(x, cs)[1..] == sorted[..taken];
      AscendingPrefix(ByPriority(), sorted, taken);
      assert taken == |sorted| ==> sorted[..taken] == sorted;
    }
  }

  /** The least companions, as many as there is room for. */
  lemma {:induction false} LeastCompanions(x: Context, sorted: seq<Candidate>, tail: seq<Candidate>, room: nat)
    requires Strict(ByPriority()) && Ascending(ByPriority(), sorted) && Ascending(ByPriority(), tail)
    requires forall c :: c in tail ==> c in sorted
    requires forall c, d :: c in tail && d in sorted && d !in tail ==> ByPriority()(c, d)
    requires |tail| <= room && (|tail| < room ==> forall d :: d in sorted ==> d in tail)
    ensures tail == sorted[..Min(|sorted|, room)]
  {
    LeastIsPrefix(ByPriority(), tail, sorted);
    if |tail| < |sorted| && |tail| < room {
      AscendingMissing(ByPriority(), sorted, |tail|);
    }
  }

  /** Those properties leave only one batch. */
  lemma {:induction false} BatchIsUnique(x: Context, cs: seq<Candidate>, batch: seq<Candidate>)
    requires DistinctIds(cs) && IsBatch(x, cs, batch)
    ensures batch == SelectBatch(x, cs)
  {
    if batch != [] {
      TailIsLeast(x, cs, batch[0], batch[1..]);
      assert batch == [batch[0]] + batch[1..];
    }
  }

  lemma {:induction false} TailIsLeast(x: Context, cs: seq<Candidate>, primary: Candidate, tail: seq<Candidate>)
    requires DistinctIds(cs) && Ascending(ByPriority(), tail)
    requires forall c :: c in tail ==> c in cs && CompanionOf(x, primary)(c)
    requires forall c, d :: c in tail && d in cs && CompanionOf(x, primary)(d) && d !in tail ==> ByPriority()(c, d)
    requires |tail| + 1 < x.freeSlots ==> forall d :: d in cs && CompanionOf(x, primary)(d) ==> d in tail
    requires |tail| + 1 <= x.freeSlots
    ensures var sorted := Companions(x, cs, primary);
      tail == sorted[..Min(|sorted|, x.freeSlots - 1)]
  {
    CompanionOrders(x, cs, primary);
    LeastCompanions(x, Companions(x, cs, primary), tail, x.freeSlots - 1);
  }

  lemma {:induction false} AscendingMissing(less: (Candidate, Candidate) -> bool, s: seq<Candidate>, n: nat)
    requires Strict(less) && Ascending(less, s) && n < |s|
    ensures s[n] in s && s[n] !in s[..n]
  {
    forall i | 0 <= i < n ensures s[i] != s[n] {
      assert less(s[i], s[n]);
    }
  }

  /** `select_batch` as the source runs it: collect the companions, sort them in
      place, take as many as there are further slots. Ids are a primary key. */
  method CollectBatch(x: Context, cs: seq<Candidate>) returns (batch: seq<Candidate>)
    requires DistinctIds(cs)
    ensures IsBatch(x, cs, batch)
    ensures batch == SelectBatch(x, cs)
  {
    var next := SelectNext(x, cs);
    BatchIsLeastCompanions(x, cs);
    if next == None {
      return [];
    }
    var primary := next.value;
    batch := [primary];
    var companions: seq<Candidate> := [];
    for i := 0 to |cs|
      invariant companions == Filter(CompanionOf(x, primary), cs[..i])
    {
      assert cs[..i + 1][..i] == cs[..i];
      if cs[i].id != primary.id && cs[i].requirement.version == primary.requirement.version && Eligible(x, cs[i]) {
        companions := companions + [cs[i]];
      }
    }
    assert cs[..|cs|] == cs;
    CompanionOrders(x, cs, primary);
    var sorted := SortByInsertion(ByPriority(), companions);
    AscendingUnique(ByPriority(), sorted, Companions(x, cs, primary));
    batch := batch + sorted[..Min(|sorted|, x.freeSlots - 1)];
  }

  lemma {:induction false} CompanionCount(x: Context, cs: seq<Candidate>, primary: Candidate)
    requires DistinctIds(cs) && primary in cs && Eligible(x, primary)
    ensures 1 + |Companions(x, cs, primary)| == |Filter(SameVersion(x, primary), cs)|
  {
    CompanionOrders(x, cs, primary);
    SameMultisetSameLength(Companions(x, cs, primary), Filter(CompanionOf(x, primary), cs));
    var i :| 0 <= i < |cs| && cs[i] == primary;
    LeadAndCompanions(x, cs, i);
  }

  /** The length is the number of eligible candidates of the lead's version,
      capped by the free slots. */
  lemma {:induction false} BatchLength(x: Context, cs: seq<Candidate>)
    requires DistinctIds(cs) && SelectBatch(x, cs) != []
    ensures var batch := SelectBatch(x, cs);
      |batch| == Min(x.freeSlots, |Filter(SameVersion(x, batch[0]), cs)|)
  {
    BatchMembers(x, cs);
    CompanionCount(x, cs, SelectBatch(x, cs)[0]);
  }

  lemma {:induction false} LeadAndCompanions(x: Context, cs: seq<Candidate>, lead: nat)
    requires DistinctIds(cs) && lead < |cs| && Eligible(x, cs[lead])
    ensures |Filter(SameVersion(x, cs[lead]), cs)| == 1 + |Filter(CompanionOf(x, cs[lead]), cs)|
  {
    var same, companion := SameVersion(x, cs[lead]), CompanionOf(x, cs[lead]);
    var n := |cs| - 1;
    if lead == n {
      FilterAgree(same, companion, cs[..n]);
    } else {
      assert cs[..n][lead] == cs[lead];
      LeadAndCompanions(x, cs[..n], lead);
    }
  }

  lemma {:induction false} FilterAgree(p: Candidate -> bool, q: Candidate -> bool, cs: seq<Candidate>)
    requires forall c :: c in cs ==> p(c) == q(c)
    ensures Filter(p, cs) == Filter(q, cs)
  {
    if cs != [] {
      FilterAgree(p, q, cs[..|cs| - 1]);
      assert cs[|cs| - 1] in cs;
    }
  }

  /** The batch does not depend on the order in which candidates are listed. */
  lemma {:induction false} BatchIgnoresOrder(x: Context, a: seq<Candidate>, b: seq<Candidate>)
    requires DistinctIds(a) && DistinctIds(b) && multiset(a) == multiset(b)
    ensures SelectNext(x, a) == SelectNext(x, b)
    ensures SelectBatch(x, a) == SelectBatch(x, b)
  {
    NextIgnoresOrder(x, a, b);
    if SelectNext(x, a).Some? {
      var primary := SelectNext(x, a).value;
      CompanionOrders(x, a, primary);
      CompanionOrders(x, b, primary);
      FilterSameElements(CompanionOf(x, primary), a, b);
      SortSameElements(ByPriority(), Filter(CompanionOf(x, primary), a), Filter(CompanionOf(x, primary), b));
    }
  }

  lemma {:induction false} NextIgnoresOrder(x: Context, a: seq<Candidate>, b: seq<Candidate>)
    requires DistinctIds(a) && DistinctIds(b) && multiset(a) == multiset(b)
    ensures SelectNext(x, a) == SelectNext(x, b)
  {
    var ea, eb := Filter(EligibleFor(x), a), Filter(EligibleFor(x), b);
    SelectionOrders(x, a);
    SelectionOrders(x, b);
    FilterSameElements(EligibleFor(x), a, b);
    FilterSameElements(OverdueFor(x), ea, eb);
    MinBySameElements(ByAge(), Filter(OverdueFor(x), ea), Filter(OverdueFor(x), eb));
    MinBySameElements(ByPreference(x), ea, eb);
  }

  lemma {:induction false} FilterDistinctIds(keep: Candidate -> bool, cs: seq<Candidate>)
    requires DistinctIds(cs)
    ensures DistinctIds(Filter(keep, cs))
  {
    if cs != [] {
      var init := cs[..|cs| - 1];
      FilterDistinctIds(keep, init);
      forall c | c in Filter(keep, init) ensures c.id != cs[|cs| - 1].id {
        assert c in init;
      }
    }
  }

  lemma {:induction false} BatchMembers(x: Context, cs: seq<Candidate>)
    requires DistinctIds(cs)
    ensures forall c :: c in SelectBatch(x, cs) ==> c in cs && EligibleFor(x)(c)
  {
    BatchIsLeastCompanions(x, cs);
    SelectNextIsChoice(x, cs);
    var batch := SelectBatch(x, cs);
    forall c | c in batch ensures c in cs && EligibleFor(x)(c) {
      assert c == batch[0] || c in batch[1..];
    }
  }

  // ------------------------------------------------------- choices, column by column

  /** In a queue of one priority. */
  predicate SubmittedBefore(a: Candidate, b: Candidate) {
    a.createdAt < b.createdAt || (a.createdAt == b.createdAt && a.id < b.id)
  }

  /** Nine is the highest priority. */
  predicate Outranks(a: Candidate, b: Candidate) {
    b.priority < a.priority || (a.priority == b.priority && SubmittedBefore(a, b))
  }

  predicate Resident(x: Context, c: Candidate) {
    x.capability.resident == Some(c.requirement.version)
  }

  /** Having waited for the configured age or longer; a submission from the future
      has not waited at all. */
  predicate WaitedOut(x: Context, c: Candidate) {
    x.maximumQueueAge == 0 || x.now - c.createdAt >= x.maximumQueueAge
  }

  lemma {:induction false} OrdersInColumns(x: Context, a: Candidate, b: Candidate)
    ensures ByAge()(a, b) <==> SubmittedBefore(a, b)
    ensures ByPriority()(a, b) <==> Outranks(a, b)
    ensures ByPreference(x)(a, b) <==>
      (Resident(x, a) && !Resident(x, b)) || (Resident(x, a) == Resident(x, b) && Outranks(a, b))
    ensures OverdueFor(x)(a) <==> WaitedOut(x, a)
  {
  }

  /** Against the choice of `select_next`: once anything eligible has waited out, the
      choice has too and was submitted before all such; otherwise no other eligible
      candidate is of the resident model unless the choice is, none equally resident
      has a higher priority, and none of that priority was submitted before. */
  lemma {:induction false} ChoiceInColumns(x: Context, cs: seq<Candidate>, d: Candidate)
    requires DistinctIds(cs) && SelectNext(x, cs).Some? && d in cs && Eligible(x, d) && d != SelectNext(x, cs).value
    ensures var c := SelectNext(x, cs).value;
      && (WaitedOut(x, d) ==> WaitedOut(x, c) && SubmittedBefore(c, d))
      && ((forall e :: e in cs && Eligible(x, e) ==> !WaitedOut(x, e)) ==>
           && (Resident(x, d) ==> Resident(x, c))
           && (Resident(x, d) == Resident(x, c) ==>
                d.priority <= c.priority && (d.priority == c.priority ==> SubmittedBefore(c, d))))
  {
    var c := SelectNext(x, cs).value;
    SelectNextIsChoice(x, cs);
    OrdersInColumns(x, c, d);
    OrdersInColumns(x, d, c);
    assert Waiting(x, cs, d);
    if forall e :: e in cs && Eligible(x, e) ==> !WaitedOut(x, e) {
      forall e | Waiting(x, cs, e) ensures !OverdueFor(x)(e) {
        OrdersInColumns(x, e, e);
      }
    }
  }

  /** A choice is an eligible candidate, and there is one exactly if there is any and
      a slot is free. */
  lemma {:induction false} ChoiceExistsIff(x: Context, cs: seq<Candidate>)
    requires DistinctIds(cs)
    ensures SelectNext(x, cs).Some? <==> x.freeSlots > 0 && exists c :: c in cs && Eligible(x, c)
    ensures SelectNext(x, cs).Some? ==> SelectNext(x, cs).value in cs && Eligible(x, SelectNext(x, cs).value)
  {
    SelectNextIsChoice(x, cs);
    if c :| c in cs && Eligible(x, c) {
      assert EligibleFor(x)(c);
    }
  }

  /** In a batch each companion outranks the next, is another eligible candidate of
      the lead's model, and outranks every such candidate left out, of which there is
      one only if the slots are used up. */
  lemma {:induction false} BatchInColumns(x: Context, cs: seq<Candidate>, i: nat, d: Candidate)
    requires DistinctIds(cs) && 0 < i < |SelectBatch(x, cs)|
    ensures var batch := SelectBatch(x, cs);
      && SelectNext(x, cs) == Some(batch[0]) && |batch| <= x.freeSlots
      && batch[i] in cs && Eligible(x, batch[i]) && batch[i].id != batch[0].id
      && batch[i].requirement.version == batch[0].requirement.version
      && (forall j :: i < j < |batch| ==> Outranks(batch[i], batch[j]))
      && (d in cs && Eligible(x, d) && d.requirement.version == batch[0].requirement.version && d !in batch ==>
           Outranks(batch[i], d) && |batch| == x.freeSlots)
  {
    var batch := SelectBatch(x, cs);
    BatchIsLeastCompanions(x, cs);
    SelectNextIsChoice(x, cs);
    var tail := batch[1..];
    assert tail[i - 1] == batch[i] && batch == [batch[0]] + tail;
    forall j | i < j < |batch| ensures Outranks(batch[i], batch[j]) {
      assert tail[j - 1] == batch[j];
      OrdersInColumns(x, batch[i], batch[j]);
    }
    if d in cs && Eligible(x, d) && d.requirement.version == batch[0].requirement.version && d !in batch {
      SameIdIsSame(cs, d, batch[0]);
      assert CompanionOf(x, batch[0])(d) && d !in tail;
      OrdersInColumns(x, batch[i], d);
    }
  }

  /** A batch of one leaves a companion out only if there is no further slot. */
  lemma {:induction false} BatchIsFilled(x: Context, cs: seq<Candidate>, d: Candidate)
    requires DistinctIds(cs) && SelectBatch(x, cs) != []
    requires d in cs && Eligible(x, d) && d.requirement.version == SelectBatch(x, cs)[0].requirement.version
    ensures d !in SelectBatch(x, cs) ==> |SelectBatch(x, cs)| == x.freeSlots
  {
    var batch := SelectBatch(x, cs);
    BatchIsLeastCompanions(x, cs);
    SelectNextIsChoice(x, cs);
    SameIdIsSame(cs, d, batch[0]);
    assert batch == [batch[0]] + batch[1..];
  }

  lemma {:induction false} SameIdIsSame(cs: seq<Candidate>, a: Candidate, b: Candidate)
    requires DistinctIds(cs) && a in cs && b in cs
    ensures a.id == b.id ==> a == b
  {
    var i :| 0 <= i < |cs| && cs[i] == a;
    var j :| 0 <= j < |cs| && cs[j] == b;
  }

  /** Lists of distinct ids with the same members have them equally often. */
  lemma {:induction false} SameMembers(a: seq<Candidate>, b: seq<Candidate>)
    requires DistinctIds(a) && DistinctIds(b) && forall c :: c in a <==> c in b
    ensures multiset(a) == multiset(b)
  {
    forall c ensures multiset(a)[c] == multiset(b)[c] {
      MemberOnce(a, c);
      MemberOnce(b, c);
    }
  }

  lemma {:induction false} MemberOnce(cs: seq<Candidate>, c: Candidate)
    requires DistinctIds(cs)
    ensures multiset(cs)[c] == if c in cs then 1 else 0
  {
    if cs != [] {
      var init, last := cs[..|cs| - 1], cs[|cs| - 1];
      MemberOnce(init, c);
      assert cs == init + [last];
    }
  }
}
