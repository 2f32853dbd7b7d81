/** Crash safety of the Artifact store: whatever file steps were taken before a
    crash, a reconciling scan tells complete outputs from remains. */
module StoreSafety {
  import opened Common
  import opened Lists
  import opened Transfer
  import opened Store

  // ---------------------------------------------------------- one Artifact's id

  predicate Matches(sha: HashFn, manifest: Manifest, data: Bytes) {
    Verify(manifest, |data|, sha(data)).Ok?
  }

  predicate Intact(s: Slot, stored: Stored) {
    s.dir.Some? && s.dir.value.data.Some? && s.dir.value.manifest == Some(Whole(stored))
  }

  /** Data next to a whole manifest is the verified data. */
  predicate DataMatches(sha: HashFn, s: Slot) {
    s.dir.Some? && s.dir.value.manifest.Some? ==>
      && s.dir.value.part == None
      && (s.dir.value.manifest.value.Whole? && s.dir.value.data.Some? ==>
           Matches(sha, s.dir.value.manifest.value.stored.manifest, s.dir.value.data.value))
  }

  /** How far the directory can be in each phase, given that removals may race. */
  predicate PhaseShape(sha: HashFn, s: Slot) {
    s.publication.Some? ==>
      var p := s.publication.value;
      && s.published == None
      && match p.phase
         case Made => s.dir.Some? ==> s.dir.value == BARE
         case Copying => s.dir.Some? ==> s.dir.value.data == None && s.dir.value.manifest == None
         case Renamed =>
           && (!s.doomed ==> s.dir.Some? && s.dir.value.data.Some?)
           && (s.dir.Some? ==>
                && s.dir.value.part == None
                && (s.dir.value.manifest.Some? ==> s.dir.value.manifest.value.Torn?)
                && (s.dir.value.data.Some? ==> Matches(sha, p.manifest, s.dir.value.data.value)))
         case Written(stored) => !s.doomed ==> Intact(s, stored)
  }

  /** A returned publication stays intact until something removes it. */
  predicate PublishedStays(s: Slot) {
    s.published.Some? && !s.doomed ==> Intact(s, s.published.value)
  }

  predicate HasWholeManifest(s: Slot) {
    s.dir.Some? && s.dir.value.manifest.Some? && s.dir.value.manifest.value.Whole?
  }

  /** Only a removal takes the data from under a whole manifest. */
  predicate WholeHasData(s: Slot) {
    HasWholeManifest(s) && !s.doomed ==> s.dir.value.data.Some?
  }

  predicate RemovalIsMarked(s: Slot) {
    s.removing && !s.doomed ==> s.published == None && s.publication == None && !HasWholeManifest(s)
  }

  predicate SlotInv(sha: HashFn, s: Slot) {
    DataMatches(sha, s) && WholeHasData(s) && PhaseShape(sha, s) && PublishedStays(s) && RemovalIsMarked(s)
  }

  lemma {:induction false} PublishStepInv(sha: HashFn, s: Slot, e: FileStep)
    requires SlotInv(sha, s)
    ensures SlotInv(sha, PublishStep(sha, s, e))
  {
  }

  lemma {:induction false} RemoveStepInv(sha: HashFn, s: Slot, e: FileStep)
    requires SlotInv(sha, s)
    ensures SlotInv(sha, RemoveStep(s, e))
  {
  }

  lemma {:induction false} SlotStepInv(sha: HashFn, s: Slot, e: FileStep)
    requires SlotInv(sha, s)
    ensures SlotInv(sha, SlotStep(sha, s, e))
  {
    PublishStepInv(sha, s, e);
    RemoveStepInv(sha, s, e);
  }

  // ------------------------------------------------------------ the whole root

  type World = map<Id, Slot>

  datatype Event = At(id: Id, step: FileStep) | CrashAll

  function SlotOf(w: World, id: Id): Slot {
    if id in w then w[id] else UNUSED
  }

  /** File steps of any number of publications and removals interleave freely; a
      crash ends them all. */
  function Step(sha: HashFn, w: World, e: Event): World {
    match e
    case At(id, step) => w[id := SlotStep(sha, SlotOf(w, id), step)]
    case CrashAll => map id | id in w :: SlotStep(sha, w[id], Crash)
  }

  function Run(sha: HashFn, w: World, events: seq<Event>): World {
    if events == [] then w else Step(sha, Run(sha, w, events[..|events| - 1]), events[|events| - 1])
  }

  function DiskOf(w: World): Disk {
    map id | id in w && w[id].dir.Some? :: w[id].dir.value
  }

  ghost predicate Inv(sha: HashFn, w: World) {
    forall id :: id in w ==> SlotInv(sha, w[id])
  }

  lemma {:induction false} RunInv(sha: HashFn, events: seq<Event>)
    ensures Inv(sha, Run(sha, map[], events))
  {
    if events != [] {
      var before := Run(sha, map[], events[..|events| - 1]);
      var e := events[|events| - 1];
      RunInv(sha, events[..|events| - 1]);
      forall id | id in Step(sha, before, e) ensures SlotInv(sha, Step(sha, before, e)[id]) {
        if e.At? && e.id == id {
          SlotStepInv(sha, SlotOf(before, id), e.step);
        } else if e.CrashAll? {
          SlotStepInv(sha, before[id], Crash);
        }
      }
    }
  }

  // ------------------------------------------------------------ crash recovery

  /** After any run and a crash, every directory that a scan keeps holds exactly
      the data its manifest describes; nothing half-written is kept. */
  lemma {:induction false} KeptIsComplete(sha: HashFn, events: seq<Event>, faults: Id -> Fault, id: Id)
    requires id in Reconciled(DiskOf(Run(sha, map[], events)), faults)
    ensures var d := Reconciled(DiskOf(Run(sha, map[], events)), faults)[id];
      && d.part == None && d.data.Some?
      && Classify(d, faults(id)).Available?
      && Matches(sha, Classify(d, faults(id)).manifest, d.data.value)
      && |d.data.value| == Classify(d, faults(id)).manifest.size
  {
    RunInv(sha, events);
  }

  /** Every output whose `publish` returned Ok and that nothing had begun to
      remove survives the scan with its own manifest, exactly when the scan can
      see it: a transient read error makes the scan delete a good output. */
  lemma {:induction false} PublishedSurvivesIff(sha: HashFn, events: seq<Event>, faults: Id -> Fault, id: Id)
    requires var w := Run(sha, map[], events);
      id in w && w[id].published.Some? && !w[id].doomed
    ensures var disk := DiskOf(Run(sha, map[], events));
      && id in disk
      && (id in Reconciled(disk, faults) <==> faults(id) == NO_FAULT)
      && (faults(id) == NO_FAULT ==>
           Classify(disk[id], NO_FAULT) == Available(Run(sha, map[], events)[id].published.value.manifest))
  {
    RunInv(sha, events);
    var w := Run(sha, map[], events);
    assert SlotInv(sha, w[id]);
  }

  /** A second scan finds everything available and changes nothing. */
  lemma {:induction false} ReconcileIsIdempotent(disk: Disk, entries: seq<Id>, faults: Id -> Fault)
    requires forall id :: id in entries ==> id in Reconciled(disk, faults)
    ensures Reconciled(Reconciled(disk, faults), faults) == Reconciled(disk, faults)
    ensures ReportOf(Reconciled(disk, faults), entries, faults) == Report(entries, [], [])
  {
    var kept := Reconciled(disk, faults);
    FilterAll(IsAvailable(kept, faults), entries);
    FilterNone(HasStatus(kept, faults, false), entries);
    FilterNone(HasStatus(kept, faults, true), entries);
  }

  lemma {:induction false} FilterNone(p: Id -> bool, s: seq<Id>)
    requires forall c :: c in s ==> !p(c)
    ensures Filter(p, s) == []
  {
    if s != [] {
      FilterNone(p, s[..|s| - 1]);
      assert s[|s| - 1] in s;
    }
  }

  /** A scan cut short has removed some files of some directories it would
      remove, and nothing else. */
  ghost predicate CutShort(disk: Disk, faults: Id -> Fault, left: Disk) {
    && left.Keys <= disk.Keys
    && (forall id :: id in disk && IsAvailable(disk, faults)(id) ==> id in left && left[id] == disk[id])
    && (forall id :: id in left ==> Weaker(left[id], disk[id]))
  }

  predicate Weaker(left: Directory, d: Directory) {
    && (left.part == d.part || left.part == None)
    && (left.data == d.data || left.data == None)
    && (left.manifest == d.manifest || left.manifest == None)
  }

  /** Crashing inside the scan and scanning again ends where one complete scan
      would have. */
  lemma {:induction false} ReconcileSurvivesCrash(disk: Disk, faults: Id -> Fault, left: Disk)
    requires CutShort(disk, faults, left)
    ensures Reconciled(left, faults) == Reconciled(disk, faults)
  {
    forall id | id in left ensures IsAvailable(left, faults)(id) <==> IsAvailable(disk, faults)(id) {
      assert Weaker(left[id], disk[id]);
    }
  }

  // ----------------------------------------------------- a scan, step by step

  /** Steps a reconciling scan takes on a directory it sees with `fault`. */
  predicate ScanStep(e: FileStep, fault: Fault) {
    e == BeginDiscard(fault) || e.Unlink? || e.Rmdir? || e.StopRemoval? || e.Crash?
  }

  predicate ScanEvent(e: Event, faults: Id -> Fault) {
    e.At? ==> ScanStep(e.step, faults(e.id))
  }

  predicate ScanOnly(events: seq<Event>, faults: Id -> Fault) {
    forall i :: 0 <= i < |events| ==> ScanEvent(events[i], faults)
  }

  /** Nothing is being written or removed, as after a crash. */
  predicate Idle(s: Slot) {
    s.publication == None && !s.removing
  }

  ghost predicate AllIdle(w: World) {
    forall id :: id in w ==> Idle(w[id])
  }

  lemma {:induction false} CrashIdles(sha: HashFn, w: World)
    ensures AllIdle(Step(sha, w, CrashAll)) && DiskOf(Step(sha, w, CrashAll)) == DiskOf(w)
  {
  }

  /** How far a scan may have taken one directory since `start`. */
  predicate Scanned(start: Slot, s: Slot, fault: Fault) {
    && s.publication == None
    && if start.dir == None then s.dir == None && !s.removing
       else if Classify(start.dir.value, fault).Available? then s.dir == start.dir && !s.removing
       else s.dir.Some? ==> Weaker(s.dir.value, start.dir.value)
  }

  lemma {:induction false} ScanStepInv(sha: HashFn, start: Slot, s: Slot, e: FileStep, fault: Fault)
    requires Scanned(start, s, fault) && ScanStep(e, fault)
    ensures Scanned(start, SlotStep(sha, s, e), fault)
  {
  }

  lemma {:induction false} ScanRunInv(sha: HashFn, w: World, events: seq<Event>, faults: Id -> Fault)
    requires AllIdle(w) && ScanOnly(events, faults)
    ensures w.Keys <= Run(sha, w, events).Keys
    ensures forall id :: id in Run(sha, w, events) ==> Scanned(SlotOf(w, id), Run(sha, w, events)[id], faults(id))
  {
    if events != [] {
      var init, e := events[..|events| - 1], events[|events| - 1];
      ScanRunInv(sha, w, init, faults);
      var before, after := Run(sha, w, init), Run(sha, w, events);
      forall id | id in after ensures Scanned(SlotOf(w, id), after[id], faults(id)) {
        if e.At? && e.id == id {
          assert ScanEvent(e, faults);
          ScanStepInv(sha, SlotOf(w, id), SlotOf(before, id), e.step, faults(id));
        } else if e.CrashAll? {
          ScanStepInv(sha, SlotOf(w, id), before[id], Crash, faults(id));
        }
      }
    }
  }

  /** A scan interrupted after any of its file steps has only cut directories it
      would remove. */
  lemma {:induction false} ScanCutsShort(sha: HashFn, w: World, events: seq<Event>, faults: Id -> Fault)
    requires AllIdle(w) && ScanOnly(events, faults)
    ensures CutShort(DiskOf(w), faults, DiskOf(Run(sha, w, events)))
  {
    ScanRunInv(sha, w, events, faults);
    var (disk, left) := (DiskOf(w), DiskOf(Run(sha, w, events)));
    forall id | id in left ensures id in disk && Weaker(left[id], disk[id]) {
      assert Scanned(SlotOf(w, id), Run(sha, w, events)[id], faults(id));
    }
    forall id | id in disk && IsAvailable(disk, faults)(id) ensures id in left && left[id] == disk[id] {
      assert Scanned(SlotOf(w, id), Run(sha, w, events)[id], faults(id));
    }
  }

  /** After any history and a crash, any number of scans that crash part-way leave
      to the next complete scan exactly what the first would have kept. */
  lemma {:induction false} CrashedScansChangeNothing(sha: HashFn, history: seq<Event>, scan: seq<Event>,
                                                     faults: Id -> Fault)
    requires ScanOnly(scan, faults)
    ensures var w := Step(sha, Run(sha, map[], history), CrashAll);
      Reconciled(DiskOf(Run(sha, w, scan)), faults) == Reconciled(DiskOf(w), faults)
  {
    var w := Step(sha, Run(sha, map[], history), CrashAll);
    CrashIdles(sha, Run(sha, map[], history));
    ScanCutsShort(sha, w, scan, faults);
    ReconcileSurvivesCrash(DiskOf(w), faults, DiskOf(Run(sha, w, scan)));
  }

  /** The three lists partition a listing of the root. */
  lemma {:induction false} ReportPartitions(disk: Disk, entries: seq<Id>, faults: Id -> Fault, id: Id)
    requires forall e :: e in entries ==> e in disk
    ensures var report := ReportOf(disk, entries, faults);
      && (id in entries <==> id in report.available || id in report.incomplete || id in report.lost)
      && !(id in report.available && id in report.incomplete)
      && !(id in report.available && id in report.lost)
      && !(id in report.incomplete && id in report.lost)
      && (id in report.available ==> id in Reconciled(disk, faults))
      && (id in report.incomplete || id in report.lost ==> id !in Reconciled(disk, faults))
  {
  }

  /** A scan reports an output lost only after a removal had begun: publishing
      never leaves a manifest without its data. */
  lemma {:induction false} LostWasBeingRemoved(sha: HashFn, events: seq<Event>, id: Id)
    requires var disk := DiskOf(Run(sha, map[], events));
      id in disk && Classify(disk[id], NO_FAULT) == Gone
    ensures Run(sha, map[], events)[id].doomed
  {
    RunInv(sha, events);
  }
}
