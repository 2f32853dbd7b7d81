/** The one job slot of the inference child: a permit, the registered job, its
    cancellation, and the events of one execution. */
module Infer {
  import opened Common

  /** Job ids come from the caller; `run` tells executions apart that reuse one. */
  type JobId = nat
  type RunId = nat

  // --------------------------------------------------------------- the job slot

  datatype ActiveJob = ActiveJob(id: JobId, cancelled: bool)

  /** How far the holder of the permit is. Between the first check and native code
      lies a window, `Entering`. The guard's `drop` clears the active job before its
      permit field is dropped. */
  datatype Stage = Acquired | Registered | Entering | Generating | Returned | Concluded | Cleared

  datatype Holder = Holder(run: RunId, id: JobId, stage: Stage)

  /** What the two cancellation checks of a run saw. */
  datatype Verdict = Stopped | Suppressed | Open

  /** `native` is the run inside native code; `retriers` the cancellations that
      keep knocking; `knocked` the runs native cancellation has reached. */
  datatype Slot = Slot(
    holder: Option<Holder>, active: Option<ActiveJob>, native: Option<RunId>,
    retriers: set<JobId>, knocked: set<RunId>, verdicts: map<RunId, Verdict>)

  const EMPTY: Slot := Slot(None, None, None, {}, {}, map[])

  datatype Step =
    | Acquire(run: RunId, id: JobId)
    | Register
    | Reject
    | CheckBefore
    | StartNative
    | NativeReturns
    | CheckAfter
    | ClearActive
    | DropPermit
    | Cancel(id: JobId)
    | Retry(id: JobId)

  predicate AtStage(s: Slot, stage: Stage) {
    s.holder.Some? && s.holder.value.stage == stage
  }

  function MoveTo(s: Slot, stage: Stage): Slot
    requires s.holder.Some?
  {
    s.(holder := Some(s.holder.value.(stage := stage)))
  }

  function Conclude(s: Slot, v: Verdict): Slot
    requires s.holder.Some?
  {
    MoveTo(s, Concluded).(verdicts := s.verdicts[s.holder.value.run := v])
  }

  predicate IsCancelled(s: Slot, id: JobId) {
    s.active == Some(ActiveJob(id, true))
  }

  /** `cancel_current`: reaches whatever runs natively at that moment. */
  function Knock(s: Slot): Slot {
    s.(knocked := s.knocked + (if s.native.Some? then {s.native.value} else {}))
  }

  function Next(s: Slot, e: Step): Slot {
    match e
    case Acquire(run, id) => if s.holder == None then s.(holder := Some(Holder(run, id, Acquired))) else s
    case Register =>
      if !AtStage(s, Acquired) then s
      else if s.active.Some? then s.(holder := None)
      else MoveTo(s, Registered).(active := Some(ActiveJob(s.holder.value.id, false)))
    case Reject => if AtStage(s, Registered) then MoveTo(s, Concluded) else s
    case CheckBefore =>
      if !AtStage(s, Registered) then s
      else if IsCancelled(s, s.holder.value.id) then Conclude(s, Stopped)
      else MoveTo(s, Entering)
    case StartNative =>
      if AtStage(s, Entering) then MoveTo(s, Generating).(native := Some(s.holder.value.run)) else s
    case NativeReturns => if AtStage(s, Generating) then MoveTo(s, Returned).(native := None) else s
    case CheckAfter =>
      if AtStage(s, Returned) then Conclude(s, if IsCancelled(s, s.holder.value.id) then Suppressed else Open) else s
    case ClearActive =>
      if !AtStage(s, Concluded) then s
      else
        var own := s.active.Some? && s.active.value.id == s.holder.value.id;
        MoveTo(s, Cleared).(active := if own then None else s.active)
    case DropPermit => if AtStage(s, Cleared) then s.(holder := None) else s
    case Cancel(id) =>
      if s.active.Some? && s.active.value.id == id then
        Knock(s.(active := Some(ActiveJob(id, true)),
                 retriers := if s.active.value.cancelled then s.retriers else s.retriers + {id}))
      else s
    case Retry(id) =>
      if id !in s.retriers then s
      else if IsCancelled(s, id) then Knock(s)
      else s.(retriers := s.retriers - {id})
  }

  function Run(s: Slot, steps: seq<Step>): Slot
    decreases |steps|
  {
    if steps == [] then s else Run(Next(s, steps[0]), steps[1..])
  }

  /** An active job holds the permit, from registration until the guard's drop,
      native code only ever runs the active job, and a cancellation keeps knocking
      as long as its job is active. */
  predicate Inv(s: Slot) {
    && (s.active.Some? <==> s.holder.Some? && s.holder.value.stage != Acquired && s.holder.value.stage != Cleared)
    && (s.active.Some? ==> s.holder.value.id == s.active.value.id)
    && s.native == (if AtStage(s, Generating) then Some(s.holder.value.run) else None)
    && (s.active.Some? && s.active.value.cancelled ==> s.active.value.id in s.retriers)
  }

  lemma {:induction false} NextInv(s: Slot, e: Step)
    requires Inv(s)
    ensures Inv(Next(s, e))
  {
  }

  lemma {:induction false} RunInv(s: Slot, steps: seq<Step>)
    requires Inv(s)
    ensures Inv(Run(s, steps))
    decreases |steps|
  {
    if steps != [] {
      NextInv(s, steps[0]);
      RunInv(Next(s, steps[0]), steps[1..]);
    }
  }

  /** After a successful acquisition registration cannot find another job. */
  lemma {:induction false} RegistrationSucceeds(steps: seq<Step>)
    requires AtStage(Run(EMPTY, steps), Acquired)
    ensures AtStage(Next(Run(EMPTY, steps), Register), Registered)
  {
    RunInv(EMPTY, steps);
  }

  /** Native cancellation only ever reaches the run of a job that is active and
      marked as cancelled, by a request or a retry that names it. */
  lemma {:induction false} KnocksOnlyMarkedJobs(steps: seq<Step>, e: Step, run: RunId)
    requires var s := Run(EMPTY, steps);
      run in Next(s, e).knocked && run !in s.knocked
    ensures var s := Run(EMPTY, steps);
      && (e.Cancel? || e.Retry?)
      && IsCancelled(Next(s, e), e.id)
      && s.holder.Some? && s.holder.value == Holder(run, e.id, Generating)
  {
    RunInv(EMPTY, steps);
  }

  /** A cancellation that fell into the window before native code reaches the job by
      its next retry, whatever happened since. */
  lemma {:induction false} RetryCoversWindow(steps: seq<Step>, id: JobId)
    requires AtStage(Run(EMPTY, steps), Generating) && IsCancelled(Run(EMPTY, steps), id)
    ensures var s := Run(EMPTY, steps);
      id in s.retriers && s.holder.value.run in Next(s, Retry(id)).knocked
  {
    RunInv(EMPTY, steps);
  }

  // ---------------------------------------------------------- one run's tenure

  /** Run ids are never handed out twice. */
  predicate NotAcquired(steps: seq<Step>, run: RunId) {
    forall i :: 0 <= i < |steps| ==> !(steps[i].Acquire? && steps[i].run == run)
  }

  /** The run is registered and its guard not yet dropped. */
  predicate Tenured(s: Slot, run: RunId) {
    s.holder.Some? && s.holder.value.run == run && s.active.Some?
  }

  /** The run has ended, or was never begun. */
  predicate Past(s: Slot, run: RunId) {
    s.holder.Some? && s.holder.value.run == run ==> s.holder.value.stage == Cleared
  }

  lemma {:induction false} PastStays(s: Slot, steps: seq<Step>, run: RunId)
    requires Inv(s) && Past(s, run) && NotAcquired(steps, run)
    ensures Past(Run(s, steps), run)
    decreases |steps|
  {
    if steps != [] {
      NextInv(s, steps[0]);
      assert Past(Next(s, steps[0]), run);
      PastStays(Next(s, steps[0]), steps[1..], run);
    }
  }

  lemma {:induction false} TenureGoesOn(s: Slot, e: Step, rest: seq<Step>, run: RunId)
    requires Inv(s) && Tenured(s, run) && NotAcquired(rest, run) && Tenured(Run(Next(s, e), rest), run)
    ensures Tenured(Next(s, e), run) && Next(s, e).active.value.id == s.active.value.id
  {
    NextInv(s, e);
    RunInv(Next(s, e), rest);
    if Past(Next(s, e), run) {
      PastStays(Next(s, e), rest, run);
    }
  }

  lemma {:induction false} MarkStays(s: Slot, steps: seq<Step>, run: RunId)
    requires Inv(s) && Tenured(s, run) && s.active.value.cancelled && NotAcquired(steps, run)
    requires Tenured(Run(s, steps), run)
    ensures Run(s, steps).active.value.cancelled
    decreases |steps|
  {
    if steps != [] {
      NextInv(s, steps[0]);
      TenureGoesOn(s, steps[0], steps[1..], run);
      MarkStays(Next(s, steps[0]), steps[1..], run);
    }
  }

  /** While a job is active it is marked exactly if a cancel naming its id came
      since: late cancels and leftover retries of earlier jobs do not count, unless
      the id is the same. */
  lemma {:induction false} MarkedIffNamed(s: Slot, steps: seq<Step>, run: RunId)
    requires Inv(s) && Tenured(s, run) && !s.active.value.cancelled && NotAcquired(steps, run)
    requires Tenured(Run(s, steps), run)
    ensures Run(s, steps).active.value.cancelled <==> Cancel(s.active.value.id) in steps
    decreases |steps|
  {
    if steps != [] {
      var (e, rest) := (steps[0], steps[1..]);
      var after := Next(s, e);
      NextInv(s, e);
      TenureGoesOn(s, e, rest, run);
      assert steps == [e] + rest;
      if e == Cancel(s.active.value.id) {
        MarkStays(after, rest, run);
      } else {
        MarkedIffNamed(after, rest, run);
      }
    }
  }

  /** A job that no cancel names is never reached by native cancellation, during its
      tenure or later, whatever retries are left over, even some for the same id. */
  lemma {:induction false} UnnamedIsNeverKnocked(s: Slot, steps: seq<Step>, run: RunId, id: JobId)
    requires Inv(s) && run !in s.knocked && NotAcquired(steps, run) && Cancel(id) !in steps
    requires Past(s, run) || (s.holder.value.id == id && !IsCancelled(s, id))
    ensures run !in Run(s, steps).knocked
    decreases |steps|
  {
    if steps != [] {
      NextInv(s, steps[0]);
      assert steps == [steps[0]] + steps[1..];
      UnnamedIsNeverKnocked(Next(s, steps[0]), steps[1..], run, id);
    }
  }

  /** The marked job of a run whose terminal check is still to come; afterwards, a
      verdict that saw the mark. */
  predicate WillSee(s: Slot, run: RunId) {
    && (run in s.verdicts ==> s.verdicts[run] != Open)
    && (!Past(s, run) && s.holder.value.stage != Concluded ==> Tenured(s, run) && s.active.value.cancelled)
  }

  lemma {:induction false} WillSeeStays(s: Slot, steps: seq<Step>, run: RunId)
    requires Inv(s) && WillSee(s, run) && NotAcquired(steps, run)
    ensures WillSee(Run(s, steps), run)
    decreases |steps|
  {
    if steps != [] {
      NextInv(s, steps[0]);
      assert WillSee(Next(s, steps[0]), run);
      WillSeeStays(Next(s, steps[0]), steps[1..], run);
    }
  }

  /** A cancel that names the active job before its terminal check is seen by a
      check: the run cannot conclude as open. */
  lemma {:induction false} CancelIsSeen(before: seq<Step>, id: JobId, after: seq<Step>, run: RunId)
    requires var s := Run(EMPTY, before);
      Tenured(s, run) && s.active.value.id == id && s.holder.value.stage != Concluded && run !in s.verdicts
    requires NotAcquired(after, run)
    ensures var t := Run(Next(Run(EMPTY, before), Cancel(id)), after);
      run in t.verdicts ==> t.verdicts[run] != Open
  {
    RunInv(EMPTY, before);
    NextInv(Run(EMPTY, before), Cancel(id));
    WillSeeStays(Next(Run(EMPTY, before), Cancel(id)), after, run);
  }

  /** `/release` reads the active job, then the free permit: when both reads
      succeed nothing is active or running at the second one, whatever happened
      in between. */
  lemma {:induction false} ReleaseIsTruthful(before: seq<Step>, between: seq<Step>)
    requires Run(EMPTY, before).active == None
    requires Run(Run(EMPTY, before), between).holder == None
    ensures var s := Run(Run(EMPTY, before), between);
      s.active == None && s.native == None
  {
    RunInv(EMPTY, before);
    RunInv(Run(EMPTY, before), between);
  }

  class JobSlot {
    var active: Option<ActiveJob>

    constructor ()
      ensures active == None
    {
      active := None;
    }

    /** `mark_job_cancelled`: `None` when another job, or none, is active. */
    method MarkCancelled(id: JobId) returns (newly: Option<bool>)
      modifies this
      ensures newly.Some? <==> old(active).Some? && old(active).value.id == id
      ensures newly.Some? ==> newly.value == !old(active).value.cancelled && active == Some(ActiveJob(id, true))
      ensures newly == None ==> active == old(active)
    {
      if active == None || active.value.id != id {
        return None;
      }
      newly := Some(!active.value.cancelled);
      active := Some(active.value.(cancelled := true));
    }

    /** `register_active_job` after the permit has been acquired. */
    method Register(id: JobId) returns (ok: bool)
      modifies this
      ensures ok <==> old(active) == None
      ensures active == if ok then Some(ActiveJob(id, false)) else old(active)
    {
      if active.Some? {
        return false;
      }
      active := Some(ActiveJob(id, false));
      return true;
    }

    /** `ActiveJobGuard::drop`. */
    method DropGuard(id: JobId)
      modifies this
      ensures active == if old(active).Some? && old(active).value.id == id then None else old(active)
    {
      if active.Some? && active.value.id == id {
        active := None;
      }
    }
  }

  // ------------------------------------------------------- events of one execution

  datatype Output = Output(name: string, valid: bool)

  datatype NativeError = InvalidRequest | OutOfMemory | Interrupted | NativeRuntime | BadResponse

  datatype Event =
    | Progress(index: nat)
    | Produced(output: Output)
    | Complete
    | Cancelled
    | Failed(kind: string)
  {
    predicate IsTerminal() {
      Complete? || Cancelled? || Failed?
    }
  }

  /** One execution: the two cancellation checks, whether each progress report is a
      finite number, and what native generation returns. */
  datatype Execution = Execution(
    cancelledBefore: bool, progress: seq<bool>, result: Result<seq<Output>, NativeError>, cancelledAfter: bool)

  function ErrorEvent(e: NativeError): Event {
    match e
    case InvalidRequest => Failed("invalid_input")
    case OutOfMemory => Failed("out_of_memory")
    case Interrupted => Cancelled
    case NativeRuntime => Failed("backend_crashed")
    case BadResponse => Failed("backend_crashed")
  }

  function ProgressEvents(progress: seq<bool>): (r: seq<Event>)
    ensures forall e :: e in r ==> e.Progress?
  {
    if progress == [] then []
    else
      var n := |progress| - 1;
      ProgressEvents(progress[..n]) + (if progress[n] then [Progress(n)] else [])
  }

  /** Outputs up to the first one that fails validation. */
  function OutputEvents(outputs: seq<Output>): seq<Event> {
    if outputs == [] then [Complete]
    else if !outputs[0].valid then [Failed("internal")]
    else [Produced(outputs[0])] + OutputEvents(outputs[1..])
  }

  /** Everything the execution would send to a receiver that never goes away. */
  function Intended(x: Execution): seq<Event> {
    if x.cancelledBefore then [Cancelled]
    else
      ProgressEvents(x.progress) +
      (if x.cancelledAfter then [Cancelled]
       else match x.result
         case Ok(outputs) => OutputEvents(outputs)
         case Err(e) => [ErrorEvent(e)])
  }

  /** What a receiver that takes `room` events and then closes gets. */
  function Delivered(events: seq<Event>, room: nat): seq<Event> {
    events[..Min(room, |events|)]
  }

  /** The sending end of the event channel: once closed it stays closed. */
  class Channel {
    const room: nat
    var sent: seq<Event>

    constructor (room: nat)
      ensures this.room == room && sent == []
    {
      this.room := room;
      sent := [];
    }

    method Send(e: Event) returns (ok: bool)
      requires |sent| <= room
      modifies this
      ensures ok <==> |old(sent)| < room
      ensures sent == if ok then old(sent) + [e] else old(sent)
    {
      ok := |sent| < room;
      if ok {
        sent := sent + [e];
      }
    }
  }

  /** Sending `e` after `events` delivers a prefix of both together. */
  lemma {:induction false} DeliverOne(events: seq<Event>, e: Event, room: nat)
    ensures Delivered(events + [e], room) ==
      if |Delivered(events, room)| < room then Delivered(events, room) + [e] else Delivered(events, room)
  {
  }

  lemma {:induction false} DeliverPastRoom(events: seq<Event>, more: seq<Event>, room: nat)
    requires room <= |events|
    ensures Delivered(events + more, room) == Delivered(events, room)
  {
  }

  method SendProgress(channel: Channel, progress: seq<bool>)
    requires channel.sent == []
    modifies channel
    ensures channel.sent == Delivered(ProgressEvents(progress), channel.room)
  {
    for i := 0 to |progress|
      invariant channel.sent == Delivered(ProgressEvents(progress[..i]), channel.room)
    {
      assert progress[..i + 1][..i] == progress[..i];
      if progress[i] {
        DeliverOne(ProgressEvents(progress[..i]), Progress(i), channel.room);
        var _ := channel.Send(Progress(i));
      }
    }
    assert progress[..|progress|] == progress;
  }

  /** The output loop: stops at the first invalid output or failed send. `before`
      is what was meant to be sent so far. */
  method SendOutputs(channel: Channel, outputs: seq<Output>, ghost before: seq<Event>)
    requires channel.sent == Delivered(before, channel.room)
    modifies channel
    ensures channel.sent == Delivered(before + OutputEvents(outputs), channel.room)
  {
    ghost var meant := before;
    var failed := false;
    var i := 0;
    while i < |outputs| && !failed
      invariant i <= |outputs|
      invariant channel.sent == Delivered(meant, channel.room)
      invariant !failed ==> meant + OutputEvents(outputs[i..]) == before + OutputEvents(outputs)
      invariant failed ==>
        || meant + [Failed("internal")] == before + OutputEvents(outputs)
        || (channel.room <= |meant| && exists more :: meant + more == before + OutputEvents(outputs))
      decreases |outputs| - i, !failed
    {
      var rest := outputs[i + 1..];
      assert outputs[i..][1..] == rest;
      if !outputs[i].valid {
        failed := true;
      } else {
        ghost var e := Produced(outputs[i]);
        assert meant + OutputEvents(outputs[i..]) == (meant + [e]) + OutputEvents(rest);
        DeliverOne(meant, e, channel.room);
        var ok := channel.Send(Produced(outputs[i]));
        if ok {
          meant := meant + [e];
          i := i + 1;
        } else {
          failed := true;
        }
      }
    }
    if failed {
      ghost var all := before + OutputEvents(outputs);
      DeliverOne(meant, Failed("internal"), channel.room);
      if channel.room <= |meant| {
        ghost var more :| meant + more == all || meant + [Failed("internal")] == all;
        if meant + more == all {
          DeliverPastRoom(meant, more, channel.room);
        }
      }
      var _ := channel.Send(Failed("internal"));
    } else {
      assert outputs[i..] == [];
      DeliverOne(meant, Complete, channel.room);
      var _ := channel.Send(Complete);
    }
  }

  /** `execute_blocking`: whatever the receiver does, it gets a prefix of the
      intended events. */
  method ExecuteBlocking(x: Execution, channel: Channel)
    requires channel.sent == []
    modifies channel
    ensures channel.sent == Delivered(Intended(x), channel.room)
  {
    if x.cancelledBefore {
      DeliverOne([], Cancelled, channel.room);
      assert [] + [Cancelled] == Intended(x);
      var _ := channel.Send(Cancelled);
      return;
    }
    SendProgress(channel, x.progress);
    ghost var before := ProgressEvents(x.progress);
    if !x.cancelledAfter && x.result.Ok? {
      SendOutputs(channel, x.result.value, before);
    } else {
      var terminal := if x.cancelledAfter then Cancelled else ErrorEvent(x.result.error);
      DeliverOne(before, terminal, channel.room);
      var _ := channel.Send(terminal);
    }
  }

  // ------------------------------------------------------------- what it promises

  /** Ends with a terminal event and has no other. */
  ghost predicate EndsOnce(events: seq<Event>) {
    && events != [] && events[|events| - 1].IsTerminal()
    && forall i :: 0 <= i < |events| - 1 ==> !events[i].IsTerminal()
  }

  lemma {:induction false} OutputEventsEndOnce(outputs: seq<Output>)
    ensures EndsOnce(OutputEvents(outputs))
    ensures forall e :: e in OutputEvents(outputs) && e.Produced? ==> e.output.valid && e.output in outputs
  {
    if outputs != [] && outputs[0].valid {
      OutputEventsEndOnce(outputs[1..]);
    }
  }

  lemma {:induction false} IntendedEndsOnce(x: Execution)
    ensures EndsOnce(Intended(x))
  {
    if x.result.Ok? {
      OutputEventsEndOnce(x.result.value);
    }
    var before := ProgressEvents(x.progress);
    assert forall i :: 0 <= i < |before| ==> before[i] in before;
  }

  /** Exactly one terminal event, as the last one, whenever the terminal send
      succeeds; none at all when it does not. */
  lemma {:induction false} TerminalIffRoom(x: Execution, room: nat)
    ensures room >= |Intended(x)| ==> Delivered(Intended(x), room) == Intended(x) && EndsOnce(Intended(x))
    ensures room < |Intended(x)| ==> forall e :: e in Delivered(Intended(x), room) ==> !e.IsTerminal()
  {
    IntendedEndsOnce(x);
  }

  /** The flags of an execution are what its run's checks saw. */
  predicate Follows(x: Execution, v: Verdict) {
    && (x.cancelledBefore <==> v == Stopped)
    && (v != Stopped ==> (x.cancelledAfter <==> v == Suppressed))
  }

  /** An execution one of whose checks saw a cancellation emits no output and, with
      room, reports it, even when generation succeeded. */
  lemma {:induction false} CancelledEmitsNoOutput(x: Execution, room: nat)
    requires x.cancelledBefore || x.cancelledAfter
    ensures forall e :: e in Delivered(Intended(x), room) ==> !e.Produced?
    ensures room >= |Intended(x)| ==> Delivered(Intended(x), room)[|Intended(x)| - 1] == Cancelled
  {
    forall e | e in Delivered(Intended(x), room) ensures !e.Produced? {
      assert e in Intended(x);
    }
  }

  /** So a job cancelled by name at any moment before its terminal check emits no
      output. */
  lemma {:induction false} CancelSuppressesOutput(before: seq<Step>, id: JobId, after: seq<Step>, run: RunId,
                                                  x: Execution, room: nat)
    requires var s := Run(EMPTY, before);
      Tenured(s, run) && s.active.value.id == id && s.holder.value.stage != Concluded && run !in s.verdicts
    requires NotAcquired(after, run)
    requires var t := Run(Next(Run(EMPTY, before), Cancel(id)), after);
      run in t.verdicts && Follows(x, t.verdicts[run])
    ensures forall e :: e in Delivered(Intended(x), room) ==> !e.Produced?
  {
    CancelIsSeen(before, id, after, run);
    CancelledEmitsNoOutput(x, room);
  }

  /** `Complete` is reported exactly when generation succeeded uncancelled with
      every output valid, and then every output was delivered in order before. */
  lemma {:induction false} CompleteIff(x: Execution, room: nat)
    ensures Complete in Delivered(Intended(x), room) <==>
      && room >= |Intended(x)| && !x.cancelledBefore && !x.cancelledAfter && x.result.Ok?
      && (forall o :: o in x.result.value ==> o.valid)
  {
    IntendedEndsOnce(x);
    if !x.cancelledBefore && !x.cancelledAfter && x.result.Ok? {
      OutputsComplete(x.result.value);
      OutputEventsEndOnce(x.result.value);
    }
  }

  lemma {:induction false} OutputsComplete(outputs: seq<Output>)
    ensures Complete in OutputEvents(outputs) <==> forall o :: o in outputs ==> o.valid
    ensures (forall o :: o in outputs ==> o.valid) ==>
      |OutputEvents(outputs)| == |outputs| + 1
      && forall i :: 0 <= i < |outputs| ==> OutputEvents(outputs)[i] == Produced(outputs[i])
  {
    if outputs != [] {
      OutputsComplete(outputs[1..]);
      assert outputs == [outputs[0]] + outputs[1..];
    }
  }

  // -------------------------------------------------------------- in plain events

  predicate CancelledSometime(x: Execution) {
    x.cancelledBefore || x.cancelledAfter || x.result == Err(Interrupted)
  }

  predicate HasInvalid(x: Execution) {
    x.result.Ok? && exists i :: 0 <= i < |x.result.value| && !x.result.value[i].valid
  }

  /** How an execution ends, and under which kind a failure is reported. */
  lemma {:induction false} EndsAsIff(x: Execution)
    ensures var last := Intended(x)[|Intended(x)| - 1];
      && (last == Cancelled <==> CancelledSometime(x))
      && (last == Failed("invalid_input") <==> !CancelledSometime(x) && x.result == Err(InvalidRequest))
      && (last == Failed("out_of_memory") <==> !CancelledSometime(x) && x.result == Err(OutOfMemory))
      && (last == Failed("backend_crashed") <==>
           !CancelledSometime(x) && x.result in {Err(NativeRuntime), Err(BadResponse)})
      && (last == Failed("internal") <==> !CancelledSometime(x) && HasInvalid(x))
      && (last == Complete <==> !CancelledSometime(x) && x.result.Ok? && !HasInvalid(x))
  {
    if !x.cancelledBefore && !x.cancelledAfter && x.result.Ok? {
      OutputsEndAs(x.result.value);
    }
    KindsDiffer();
  }

  lemma {:induction false} KindsDiffer()
    ensures "invalid_input" != "out_of_memory" && "invalid_input" != "backend_crashed" && "invalid_input" != "internal"
    ensures "out_of_memory" != "backend_crashed" && "out_of_memory" != "internal" && "backend_crashed" != "internal"
  {
    assert "invalid_input"[0] == 'i' && "invalid_input"[2] == 'v' && "internal"[0] == 'i' && "internal"[2] == 't';
    assert "out_of_memory"[0] == 'o' && "backend_crashed"[0] == 'b';
  }

  lemma {:induction false} OutputsEndAs(outputs: seq<Output>)
    ensures var events := OutputEvents(outputs);
      events[|events| - 1] ==
        if exists i :: 0 <= i < |outputs| && !outputs[i].valid then Failed("internal") else Complete
  {
    if outputs != [] {
      OutputsEndAs(outputs[1..]);
      assert forall i :: 0 <= i < |outputs| - 1 ==> outputs[1..][i] == outputs[i + 1];
      if outputs[0].valid {
        if i :| 0 <= i < |outputs| && !outputs[i].valid {
          assert !outputs[1..][i - 1].valid;
        }
      }
    }
  }

  /** Outputs are emitted in order up to the first that is not valid. */
  lemma {:induction false} OutputsUntilInvalid(before: seq<Output>, rest: seq<Output>)
    requires forall i :: 0 <= i < |before| ==> before[i].valid
    requires rest == [] || !rest[0].valid
    ensures var events := OutputEvents(before + rest);
      && |events| == |before| + 1
      && (forall i :: 0 <= i < |before| ==> events[i] == Produced(before[i]))
      && events[|before|] == if rest == [] then Complete else Failed("internal")
  {
    if before == [] {
      assert before + rest == rest;
    } else {
      assert (before + rest)[1..] == before[1..] + rest;
      OutputsUntilInvalid(before[1..], rest);
    }
  }

  /** Progress is reported for exactly the finite fractions, in order. */
  lemma {:induction false} ProgressIsFinite(progress: seq<bool>, k: nat)
    ensures Event.Progress(k) in ProgressEvents(progress) <==> k < |progress| && progress[k]
    ensures ProgressInOrder(ProgressEvents(progress), |progress|)
  {
    if progress != [] {
      var n := |progress| - 1;
      ProgressIsFinite(progress[..n], k);
      assert k < n ==> progress[..n][k] == progress[k];
    }
  }

  ghost predicate ProgressInOrder(events: seq<Event>, bound: nat) {
    && (forall i :: 0 <= i < |events| ==> events[i].Progress? && events[i].index < bound)
    && (forall i, j :: 0 <= i < j < |events| ==> events[i].index < events[j].index)
  }

  // ------------------------------------------------------------ jobs undisturbed

  /** Cancelled before its first check, or not past it: the run is not in native code
      and will not get there. */
  predicate KeptOut(s: Slot, run: RunId) {
    && s.native != Some(run)
    && (Past(s, run) || s.holder.value.stage == Concluded || (AtStage(s, Registered) && IsCancelled(s, s.holder.value.id)))
  }

  lemma {:induction false} KeptOutStays(s: Slot, steps: seq<Step>, run: RunId)
    requires Inv(s) && KeptOut(s, run) && NotAcquired(steps, run)
    ensures Run(s, steps).native != Some(run)
    decreases |steps|
  {
    if steps != [] {
      NextInv(s, steps[0]);
      assert KeptOut(Next(s, steps[0]), run);
      KeptOutStays(Next(s, steps[0]), steps[1..], run);
    }
  }

  /** A job cancelled by name before its first check never enters native code. */
  lemma {:induction false} EarlyCancelPreventsStart(before: seq<Step>, id: JobId, after: seq<Step>, run: RunId)
    requires AtStage(Run(EMPTY, before), Registered) && Run(EMPTY, before).holder.value == Holder(run, id, Registered)
    requires NotAcquired(after, run)
    ensures Run(Next(Run(EMPTY, before), Cancel(id)), after).native != Some(run)
  {
    RunInv(EMPTY, before);
    NextInv(Run(EMPTY, before), Cancel(id));
    KeptOutStays(Next(Run(EMPTY, before), Cancel(id)), after, run);
  }

  /** From the permit to native code and from there to the end, nothing intervening. */
  function Starting(run: RunId, id: JobId): seq<Step> {
    [Acquire(run, id), Register] + [CheckBefore, StartNative]
  }

  function Ending(): seq<Step> {
    [NativeReturns, CheckAfter] + [ClearActive, DropPermit]
  }

  lemma {:induction false} RunTwo(s: Slot, a: Step, b: Step)
    ensures Run(s, [a, b]) == Next(Next(s, a), b)
  {
    assert [a, b][1..] == [b] && [b][1..] == [];
    assert Run(Next(s, a), [b]) == Run(Next(Next(s, a), b), []);
  }

  lemma {:induction false} RunConcat(s: Slot, a: seq<Step>, b: seq<Step>)
    ensures Run(s, a + b) == Run(Run(s, a), b)
    decreases |a|
  {
    if a == [] {
      assert a + b == b;
    } else {
      assert (a + b)[1..] == a[1..] + b;
      RunConcat(Next(s, a[0]), a[1..], b);
    }
  }

  /** After any run: a job that finds the permit free gets to native code, and one that
      does not changes nothing by trying. */
  lemma {:induction false} FreePermitStarts(steps: seq<Step>, run: RunId, id: JobId)
    ensures var s := Run(EMPTY, steps);
      if s.holder == None then
        var t := Run(s, Starting(run, id));
        t.native == Some(run) && t.holder == Some(Holder(run, id, Generating)) && t.active == Some(ActiveJob(id, false))
      else Next(s, Acquire(run, id)) == s
  {
    var s := Run(EMPTY, steps);
    RunInv(EMPTY, steps);
    if s.holder == None {
      RunConcat(s, [Acquire(run, id), Register], [CheckBefore, StartNative]);
      RunTwo(s, Acquire(run, id), Register);
      RunTwo(Run(s, [Acquire(run, id), Register]), CheckBefore, StartNative);
    }
  }

  /** After any run: once native code returns, the job concludes as its mark says, and
      permit and slot are free again. */
  lemma {:induction false} GeneratingEnds(steps: seq<Step>)
    requires AtStage(Run(EMPTY, steps), Generating)
    ensures var s := Run(EMPTY, steps);
      var t := Run(s, Ending());
      && s.active.Some? && t.holder == None && t.active == None && t.native == None
      && t.verdicts == s.verdicts[s.holder.value.run := if s.active.value.cancelled then Suppressed else Open]
  {
    var s := Run(EMPTY, steps);
    RunInv(EMPTY, steps);
    RunConcat(s, [NativeReturns, CheckAfter], [ClearActive, DropPermit]);
    RunTwo(s, NativeReturns, CheckAfter);
    RunTwo(Run(s, [NativeReturns, CheckAfter]), ClearActive, DropPermit);
  }

  /** A cancel that names the generating job reaches native code at once, marks the job
      and starts to retry; repeated it only reaches native code again. */
  lemma {:induction false} CancelReachesNative(steps: seq<Step>, id: JobId)
    requires AtStage(Run(EMPTY, steps), Generating) && Run(EMPTY, steps).holder.value.id == id
    ensures var s := Run(EMPTY, steps);
      Next(s, Cancel(id)) == s.(active := Some(ActiveJob(id, true)), retriers := s.retriers + {id},
                                knocked := s.knocked + {s.holder.value.run})
  {
    RunInv(EMPTY, steps);
    var s := Run(EMPTY, steps);
    assert s.active.value.cancelled ==> s.retriers + {id} == s.retriers;
  }

  /** A cancel that names no active job, and a retry whose job is over, change nothing
      but that the retry ends. */
  lemma {:induction false} IdleCancelChangesNothing(s: Slot, id: JobId)
    ensures s.active == None || s.active.value.id != id ==> Next(s, Cancel(id)) == s
    ensures !IsCancelled(s, id) ==> Next(s, Retry(id)) == s.(retriers := s.retriers - {id})
  {
  }

  /** After any run: a job whose request is not valid, or which is found cancelled,
      gives the permit back without native code. */
  lemma {:induction false} RefusedJobEnds(steps: seq<Step>)
    requires AtStage(Run(EMPTY, steps), Registered)
    ensures var s := Run(EMPTY, steps);
      var rejected := Run(Next(s, Reject), [ClearActive, DropPermit]);
      && rejected.holder == None && rejected.active == None && rejected.native == None
      && rejected.verdicts == s.verdicts
      && (s.active.Some? && s.active.value.cancelled ==>
           var stopped := Run(Next(s, CheckBefore), [ClearActive, DropPermit]);
           && stopped.holder == None && stopped.active == None && stopped.native == None
           && stopped.verdicts == s.verdicts[s.holder.value.run := Stopped])
  {
    RunInv(EMPTY, steps);
    var s := Run(EMPTY, steps);
    RunTwo(Next(s, Reject), ClearActive, DropPermit);
    RunTwo(Next(s, CheckBefore), ClearActive, DropPermit);
  }
}
