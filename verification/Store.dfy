/** The Worker's crash-recoverable Artifact store: one directory per Artifact,
    written file by file, reconciled at startup. */
module Store {
  import opened Common
  import opened Lists
  import opened Transfer

  type Id = nat

  datatype Stored = Stored(attempt: nat, manifest: Manifest, completedAt: int)

  /** A manifest file either parses or does not; no proper prefix of one does. */
  datatype ManifestFile = Torn | Whole(stored: Stored)

  /** `data.part`, `data` and `manifest.json`. */
  datatype Directory = Directory(part: Option<Bytes>, data: Option<Bytes>, manifest: Option<ManifestFile>)

  const BARE: Directory := Directory(None, None, None)

  // ------------------------------------------------------------ reconciliation

  /** What a scan may fail to see of an existing directory. */
  datatype Fault = Fault(dataHidden: bool, manifestUnreadable: bool)

  const NO_FAULT: Fault := Fault(false, false)

  datatype Status = Available(manifest: Manifest) | Gone | Incomplete

  function ReadManifest(d: Directory, fault: Fault): Option<Stored> {
    if d.manifest.Some? && d.manifest.value.Whole? && !fault.manifestUnreadable then Some(d.manifest.value.stored)
    else None
  }

  function Classify(d: Directory, fault: Fault): Status {
    var stored := ReadManifest(d, fault);
    if stored == None then Incomplete
    else if d.data.Some? && !fault.dataHidden then Available(stored.value.manifest)
    else Gone
  }

  type Disk = map<Id, Directory>

  function HasStatus(disk: Disk, faults: Id -> Fault, lost: bool): Id -> bool {
    (id: Id) => id in disk && Classify(disk[id], faults(id)) == (if lost then Gone else Incomplete)
  }

  function IsAvailable(disk: Disk, faults: Id -> Fault): Id -> bool {
    (id: Id) => id in disk && Classify(disk[id], faults(id)).Available?
  }

  /** What a complete scan leaves. */
  function Reconciled(disk: Disk, faults: Id -> Fault): Disk {
    map id | id in disk && IsAvailable(disk, faults)(id) :: disk[id]
  }

  datatype Report = Report(available: seq<Id>, incomplete: seq<Id>, lost: seq<Id>)

  function ReportOf(disk: Disk, entries: seq<Id>, faults: Id -> Fault): Report {
    Report(Filter(IsAvailable(disk, faults), entries),
           Filter(HasStatus(disk, faults, false), entries),
           Filter(HasStatus(disk, faults, true), entries))
  }

  // --------------------------------------------------------------- file steps

  datatype Phase = Made | Copying | Renamed | Written(stored: Stored)

  datatype Publication = Publication(attempt: nat, manifest: Manifest, phase: Phase)

  /** Everything that concerns one Artifact id. `published` is set once `publish`
      has returned Ok; `doomed` once a delete, an expiry or a faulty scan has
      started to remove it. */
  datatype Slot = Slot(
    dir: Option<Directory>, publication: Option<Publication>, published: Option<Stored>,
    removing: bool, doomed: bool)

  const UNUSED: Slot := Slot(None, None, None, false, false)

  datatype File = Part | Data | ManifestJson

  datatype FileStep =
    | Mkdir(attempt: nat, manifest: Manifest)
    | CreatePart
    | WritePart(bytes: Bytes)
    | RenamePart
    | TearManifest
    | WriteManifest(completedAt: int)
    | ReturnOk
    | ReturnErr
    | BeginRemove
    | BeginDiscard(fault: Fault)
    | Unlink(file: File)
    | Rmdir
    | StopRemoval
    | Crash

  predicate InPhase(s: Slot, phase: Phase) {
    s.dir.Some? && s.publication.Some? && s.publication.value.phase == phase
  }

  function Advance(s: Slot, dir: Directory, phase: Phase): Slot
    requires s.publication.Some?
  {
    s.(dir := Some(dir), publication := Some(s.publication.value.(phase := phase)))
  }

  function Unlinked(d: Directory, file: File): Directory {
    match file
    case Part => d.(part := None)
    case Data => d.(data := None)
    case ManifestJson => d.(manifest := None)
  }

  /** One file operation of `publish`; a step whose file is missing does nothing. */
  function PublishStep(sha: HashFn, s: Slot, e: FileStep): Slot {
    match e
    case Mkdir(attempt, manifest) =>
      if s == UNUSED then s.(dir := Some(BARE), publication := Some(Publication(attempt, manifest, Made))) else s
    case CreatePart => if InPhase(s, Made) then Advance(s, s.dir.value.(part := Some([])), Copying) else s
    case WritePart(bytes) =>
      if InPhase(s, Copying) && s.dir.value.part.Some? then
        Advance(s, s.dir.value.(part := Some(s.dir.value.part.value + bytes)), Copying)
      else s
    case RenamePart =>
      if InPhase(s, Copying) && s.dir.value.part.Some?
         && Verify(s.publication.value.manifest, |s.dir.value.part.value|, sha(s.dir.value.part.value)).Ok?
      then Advance(s, s.dir.value.(part := None, data := s.dir.value.part), Renamed)
      else s
    case TearManifest =>
      if InPhase(s, Renamed) then Advance(s, s.dir.value.(manifest := Some(Torn)), Renamed) else s
    case WriteManifest(completedAt) =>
      if InPhase(s, Renamed) then
        var stored := Stored(s.publication.value.attempt, s.publication.value.manifest, completedAt);
        Advance(s, s.dir.value.(manifest := Some(Whole(stored))), Written(stored))
      else s
    case ReturnOk =>
      if s.publication.Some? && s.publication.value.phase.Written? then
        s.(published := Some(s.publication.value.phase.stored), publication := None)
      else s
    case _ => s
  }

  /** `remove_dir_all` unlinks in any order; a scan only starts where it finds the
      directory not available. */
  function RemoveStep(s: Slot, e: FileStep): Slot {
    match e
    case BeginRemove => if s.dir.Some? then s.(removing := true, doomed := true) else s
    case BeginDiscard(fault) =>
      if s.dir.Some? && s.publication == None && !Classify(s.dir.value, fault).Available? then
        s.(removing := true, doomed := s.doomed || Classify(s.dir.value, NO_FAULT).Available?)
      else s
    case Unlink(file) => if s.removing && s.dir.Some? then s.(dir := Some(Unlinked(s.dir.value, file))) else s
    case Rmdir => if s.removing && s.dir == Some(BARE) then s.(dir := None) else s
    case StopRemoval => s.(removing := false)
    case _ => s
  }

  function SlotStep(sha: HashFn, s: Slot, e: FileStep): Slot {
    match e
    case ReturnErr => s.(publication := None)
    case Crash => s.(publication := None, removing := false)
    case _ =>
      if e.BeginRemove? || e.BeginDiscard? || e.Unlink? || e.Rmdir? || e.StopRemoval? then RemoveStep(s, e)
      else PublishStep(sha, s, e)
  }

  function SlotRun(sha: HashFn, s: Slot, steps: seq<FileStep>): Slot {
    if steps == [] then s else SlotStep(sha, SlotRun(sha, s, steps[..|steps| - 1]), steps[|steps| - 1])
  }

  lemma {:induction false} SlotRunAppend(sha: HashFn, s: Slot, steps: seq<FileStep>, e: FileStep)
    ensures SlotRun(sha, s, steps + [e]) == SlotStep(sha, SlotRun(sha, s, steps), e)
  {
    assert (steps + [e])[..|steps|] == steps;
  }

  // -------------------------------------------------------------- the store

  datatype OpenError = Missing | PastEnd

  class LocalArtifactStore {
    const sha: HashFn
    var disk: Disk

    constructor (sha: HashFn)
      ensures this.sha == sha && disk == map[]
    {
      this.sha := sha;
      disk := map[];
    }

    /** The copy loop of `publish`, in buffers of whatever size the reads return. */
    method CopyIn(id: Id, attempt: nat, source: Bytes, manifest: Manifest)
      returns (part: Bytes, ghost trace: seq<FileStep>)
      requires id !in disk
      modifies this`disk
      ensures part == source && disk == old(disk)[id := Directory(Some(part), None, None)]
      ensures SlotRun(sha, UNUSED, trace) == Copied(attempt, manifest, part)
    {
      disk := disk[id := BARE];
      part := [];
      disk := disk[id := Directory(Some(part), None, None)];
      trace := [Mkdir(attempt, manifest), CreatePart];
      CopyBegins(sha, attempt, manifest);
      var total := 0;
      while total < |source|
        modifies this`disk
        invariant total <= |source| && part == source[..total]
        invariant disk == old(disk)[id := Directory(Some(part), None, None)]
        invariant SlotRun(sha, UNUSED, trace) == Copied(attempt, manifest, part)
      {
        var n: nat :| 1 <= n <= CHUNK_BYTES && total + n <= |source|;
        var buf := source[total..total + n];
        CopyGoesOn(sha, trace, attempt, manifest, part, buf);
        trace := trace + [WritePart(buf)];
        part := part + buf;
        disk := disk[id := Directory(Some(part), None, None)];
        total := total + n;
      }
      assert source[..|source|] == source;
    }

    /** `publish`: copies, verifies the copy, renames it and writes the manifest.
        `trace` is the run of file steps this makes of the Artifact's slot. */
    method Publish(id: Id, attempt: nat, source: Bytes, manifest: Manifest, now: int)
      returns (r: Result<Id, Mismatch>, ghost trace: seq<FileStep>)
      requires id !in disk
      modifies this`disk
      ensures r.Ok? <==> Verify(manifest, |source|, sha(source)).Ok?
      ensures r.Ok? ==> r.value == id
      ensures r.Ok? ==>
        disk == old(disk)[id := Directory(None, Some(source), Some(Whole(Stored(attempt, manifest, now))))]
      ensures r.Err? ==> r.error == Verify(manifest, |source|, sha(source)).error
      ensures r.Err? ==> disk == old(disk)[id := Directory(Some(source), None, None)]
      ensures SlotRun(sha, UNUSED, trace).dir == Some(disk[id])
      ensures SlotRun(sha, UNUSED, trace).published ==
        if r.Ok? then Some(Stored(attempt, manifest, now)) else None
    {
      var part;
      part, trace := CopyIn(id, attempt, source, manifest);
      var verified := Verify(manifest, |part|, sha(part));
      if verified.Err? {
        SlotRunAppend(sha, UNUSED, trace, ReturnErr);
        return Err(verified.error), trace + [ReturnErr];
      }
      disk := disk[id := Directory(None, Some(part), None)];
      var stored := Stored(attempt, manifest, now);
      disk := disk[id := Directory(None, Some(part), Some(Whole(stored)))];
      PublishEnds(sha, trace, attempt, manifest, part, now);
      return Ok(id), trace + [RenamePart] + [WriteManifest(now)] + [ReturnOk];
    }

    /** `open_for_read`: the bytes and manifest a reader will serve from `offset`. */
    method OpenForRead(id: Id, offset: nat) returns (r: Result<(Bytes, Manifest), OpenError>)
      ensures r == Err(PastEnd) <==>
        (id in disk && ReadManifest(disk[id], NO_FAULT).Some?
         && offset > ReadManifest(disk[id], NO_FAULT).value.manifest.size)
      ensures r.Ok? ==>
        (id in disk && disk[id].data == Some(r.value.0)
         && Classify(disk[id], NO_FAULT) == Available(r.value.1) && offset <= r.value.1.size)
      ensures id in disk && Classify(disk[id], NO_FAULT).Available? ==>
        (r.Ok? <==> offset <= Classify(disk[id], NO_FAULT).manifest.size)
    {
      if id !in disk {
        return Err(Missing);
      }
      var stored := ReadManifest(disk[id], NO_FAULT);
      if stored == None {
        return Err(Missing);
      }
      if offset > stored.value.manifest.size {
        return Err(PastEnd);
      }
      if disk[id].data == None {
        return Err(Missing);
      }
      return Ok((disk[id].data.value, stored.value.manifest));
    }

    /** `delete`: idempotent. */
    method Delete(id: Id)
      modifies this`disk
      ensures disk == old(disk) - {id}
    {
      if id in disk {
        disk := disk - {id};
      }
    }

    /** One directory of the expiry sweep. */
    method ExpireOne(id: Id, now: int, ttl: nat) returns (gone: bool)
      requires id in disk
      modifies this`disk
      ensures gone == Expired(old(disk)[id], now, ttl)
      ensures disk == if gone then old(disk) - {id} else old(disk)
    {
      var stored := ReadManifest(disk[id], NO_FAULT);
      gone := stored.Some? && stored.value.completedAt + ttl <= now;
      if gone {
        disk := disk - {id};
      }
    }

    /** `expire`: removes exactly the directories with a readable manifest whose
        age has reached `ttl`. */
    method Expire(entries: seq<Id>, now: int, ttl: nat) returns (removed: seq<Id>)
      requires Distinct(entries) && forall id :: id in entries <==> id in disk
      modifies this`disk
      ensures removed == Filter(Unclaimed(old(disk), now, ttl), entries)
      ensures disk == map id | id in old(disk) && !Expired(old(disk)[id], now, ttl) :: old(disk)[id]
    {
      removed := [];
      ghost var start := disk;
      SweepBegins(start, entries, now, ttl);
      for i := 0 to |entries|
        modifies this`disk
        invariant removed == Filter(Unclaimed(start, now, ttl), entries[..i])
        invariant disk == Unswept(start, entries[..i], now, ttl)
      {
        SweepNext(start, entries, now, ttl, i);
        var gone := ExpireOne(entries[i], now, ttl);
        removed := if gone then removed + [entries[i]] else removed;
      }
      SweepEnds(start, entries, now, ttl);
    }

    /** One directory of the scan. */
    method ScanOne(id: Id, fault: Fault) returns (status: Status)
      requires id in disk
      modifies this`disk
      ensures status == Classify(old(disk)[id], fault)
      ensures disk == if status.Available? then old(disk) else old(disk) - {id}
    {
      status := Classify(disk[id], fault);
      if !status.Available? {
        disk := disk - {id};
      }
    }

    /** `reconcile_on_startup` over one complete listing of the root. */
    method ReconcileOnStartup(entries: seq<Id>, faults: Id -> Fault) returns (report: Report)
      requires Distinct(entries) && forall id :: id in entries <==> id in disk
      modifies this`disk
      ensures disk == Reconciled(old(disk), faults)
      ensures report == ReportOf(old(disk), entries, faults)
    {
      report := Report([], [], []);
      ghost var start := disk;
      ScanBegins(start, entries, faults);
      for i := 0 to |entries|
        modifies this`disk
        invariant report == ReportOf(start, entries[..i], faults)
        invariant disk == KeptSoFar(start, entries[..i], faults)
      {
        ScanNext(start, entries, faults, i);
        var status := ScanOne(entries[i], faults(entries[i]));
        report := Noted(report, entries[i], status);
      }
      ScanEnds(start, entries, faults);
    }
  }

  predicate Expired(d: Directory, now: int, ttl: nat) {
    ReadManifest(d, NO_FAULT).Some? && ReadManifest(d, NO_FAULT).value.completedAt + ttl <= now
  }

  function Unclaimed(disk: Disk, now: int, ttl: nat): Id -> bool {
    (id: Id) => id in disk && Expired(disk[id], now, ttl)
  }

  /** The disk after the sweep has passed `swept`. */
  function Unswept(disk: Disk, swept: seq<Id>, now: int, ttl: nat): Disk {
    map id | id in disk && (id in swept ==> !Expired(disk[id], now, ttl)) :: disk[id]
  }

  lemma {:induction false} SweepBegins(disk: Disk, entries: seq<Id>, now: int, ttl: nat)
    ensures Unswept(disk, entries[..0], now, ttl) == disk
  {
  }

  lemma {:induction false} SweepNext(disk: Disk, entries: seq<Id>, now: int, ttl: nat, i: nat)
    requires i < |entries| && Distinct(entries) && entries[i] in disk
    ensures var (id, left) := (entries[i], Unswept(disk, entries[..i], now, ttl));
      && id in left && left[id] == disk[id]
      && Unswept(disk, entries[..i + 1], now, ttl) == (if Expired(disk[id], now, ttl) then left - {id} else left)
      && Filter(Unclaimed(disk, now, ttl), entries[..i + 1]) ==
           Filter(Unclaimed(disk, now, ttl), entries[..i]) + (if Expired(disk[id], now, ttl) then [id] else [])
  {
    assert entries[..i + 1][..i] == entries[..i];
    assert entries[i] !in entries[..i];
  }

  lemma {:induction false} SweepEnds(disk: Disk, entries: seq<Id>, now: int, ttl: nat)
    requires forall id :: id in disk ==> id in entries
    ensures entries[..|entries|] == entries
    ensures Unswept(disk, entries, now, ttl) == map id | id in disk && !Expired(disk[id], now, ttl) :: disk[id]
  {
  }

  lemma {:induction false} ScanBegins(disk: Disk, entries: seq<Id>, faults: Id -> Fault)
    ensures KeptSoFar(disk, entries[..0], faults) == disk
    ensures ReportOf(disk, entries[..0], faults) == Report([], [], [])
  {
  }

  lemma {:induction false} ScanEnds(disk: Disk, entries: seq<Id>, faults: Id -> Fault)
    requires forall id :: id in disk ==> id in entries
    ensures entries[..|entries|] == entries
    ensures KeptSoFar(disk, entries, faults) == Reconciled(disk, faults)
  {
  }

  function Noted(report: Report, id: Id, status: Status): Report {
    match status
    case Available(_) => report.(available := report.available + [id])
    case Gone => report.(lost := report.lost + [id])
    case Incomplete => report.(incomplete := report.incomplete + [id])
  }

  /** The disk after the scan has passed `scanned`. */
  function KeptSoFar(disk: Disk, scanned: seq<Id>, faults: Id -> Fault): Disk {
    map id | id in disk && (id in scanned ==> IsAvailable(disk, faults)(id)) :: disk[id]
  }

  lemma {:induction false} ScanNext(disk: Disk, entries: seq<Id>, faults: Id -> Fault, i: nat)
    requires i < |entries| && Distinct(entries) && entries[i] in disk
    ensures var (id, kept) := (entries[i], KeptSoFar(disk, entries[..i], faults));
      && id in kept && kept[id] == disk[id]
      && var status := Classify(disk[id], faults(id));
      && KeptSoFar(disk, entries[..i + 1], faults) == (if status.Available? then kept else kept - {id})
      && ReportOf(disk, entries[..i + 1], faults) == Noted(ReportOf(disk, entries[..i], faults), id, status)
  {
    assert entries[..i + 1][..i] == entries[..i];
    assert entries[i] !in entries[..i];
  }

  /** The slot once `part` has been copied. */
  function Copied(attempt: nat, manifest: Manifest, part: Bytes): Slot {
    Slot(Some(Directory(Some(part), None, None)), Some(Publication(attempt, manifest, Copying)), None, false, false)
  }

  lemma {:induction false} CopyBegins(sha: HashFn, attempt: nat, manifest: Manifest)
    ensures SlotRun(sha, UNUSED, [Mkdir(attempt, manifest), CreatePart]) == Copied(attempt, manifest, [])
  {
    SlotRunAppend(sha, UNUSED, [], Mkdir(attempt, manifest));
    assert [] + [Mkdir(attempt, manifest)] == [Mkdir(attempt, manifest)];
    SlotRunAppend(sha, UNUSED, [Mkdir(attempt, manifest)], CreatePart);
  }

  lemma {:induction false} CopyGoesOn(sha: HashFn, trace: seq<FileStep>, attempt: nat, manifest: Manifest,
                                      part: Bytes, buf: Bytes)
    requires SlotRun(sha, UNUSED, trace) == Copied(attempt, manifest, part)
    ensures SlotRun(sha, UNUSED, trace + [WritePart(buf)]) == Copied(attempt, manifest, part + buf)
  {
    SlotRunAppend(sha, UNUSED, trace, WritePart(buf));
  }

  lemma {:induction false} PublishEnds(sha: HashFn, trace: seq<FileStep>, attempt: nat, manifest: Manifest,
                                       part: Bytes, now: int)
    requires SlotRun(sha, UNUSED, trace) == Copied(attempt, manifest, part)
    requires Verify(manifest, |part|, sha(part)).Ok?
    ensures var stored := Stored(attempt, manifest, now);
      SlotRun(sha, UNUSED, trace + [RenamePart] + [WriteManifest(now)] + [ReturnOk]) ==
        Slot(Some(Directory(None, Some(part), Some(Whole(stored)))), None, Some(stored), false, false)
  {
    SlotRunAppend(sha, UNUSED, trace, RenamePart);
    SlotRunAppend(sha, UNUSED, trace + [RenamePart], WriteManifest(now));
    SlotRunAppend(sha, UNUSED, trace + [RenamePart] + [WriteManifest(now)], ReturnOk);
  }
}
