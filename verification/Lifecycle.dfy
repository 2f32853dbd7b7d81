/** The three lifecycle relations and the retry policy. */
module Lifecycle {
  import opened Common

  const MAX_ATTEMPTS: nat := 3

  datatype GenerationState = Queued | Running | Cancelling | Succeeded | Failed | Cancelled | Expired {
    predicate IsTerminal() {
      Succeeded? || Failed? || Cancelled? || Expired?
    }

    predicate IsActive() {
      Running? || Cancelling?
    }

    predicate CanBecome(to: GenerationState) {
      match this
      case Queued => to in {Running, Cancelled, Failed, Expired}
      case Running => to in {Queued, Cancelling, Succeeded, Failed, Cancelled, Expired}
      case Cancelling => to in {Cancelled, Succeeded, Failed}
      case _ => false
    }
  }

  datatype AttemptState = Leased | Executing | Done | Broken | Stopped | LeaseLapsed {
    predicate IsLive() {
      Leased? || Executing?
    }

    predicate CanBecome(to: AttemptState) {
      match this
      case Leased => to in {Executing, Done, Broken, Stopped, LeaseLapsed}
      case Executing => to in {Done, Broken, Stopped, LeaseLapsed}
      case _ => false
    }
  }

  datatype ArtifactState = Pending | Available | Delivering | Consumed | Discarded | Lost {
    predicate IsTerminal() {
      Consumed? || Discarded? || Lost?
    }

    predicate CanBecome(to: ArtifactState) {
      match this
      case Pending => to in {Available, Discarded, Lost}
      case Available => to in {Delivering, Discarded, Lost}
      case Delivering => to in {Consumed, Discarded, Lost}
      case _ => false
    }
  }

  function GenerationRank(s: GenerationState): nat {
    match s
    case Queued => 0
    case Running => 1
    case Cancelling => 2
    case _ => 3
  }

  /** The lifecycle of a Generation moves forward except on the one edge that
      re-queues it, and ends exactly in the terminal states. */
  lemma OneBackwardEdge(s: GenerationState, to: GenerationState)
    ensures s.CanBecome(to) && !(s == Running && to == Queued) ==> GenerationRank(s) < GenerationRank(to)
    ensures s.IsTerminal() <==> forall to :: !s.CanBecome(to)
  {
    assert Queued.CanBecome(Running) && Running.CanBecome(Failed) && Cancelling.CanBecome(Failed);
  }

  function ArtifactRank(s: ArtifactState): nat {
    match s
    case Pending => 0
    case Available => 1
    case Delivering => 2
    case _ => 3
  }

  /** Artifacts only move forward, so each ends at most once; in particular
      nothing leads back from a delivery to a downloadable Artifact. */
  lemma ArtifactsOnlyMoveForward(s: ArtifactState, to: ArtifactState)
    ensures s.CanBecome(to) ==> ArtifactRank(s) < ArtifactRank(to)
    ensures s.IsTerminal() <==> forall to :: !s.CanBecome(to)
  {
    assert Pending.CanBecome(Lost) && Available.CanBecome(Lost) && Delivering.CanBecome(Lost);
  }

  /** What leads to each state of a Generation: only running work succeeds, and
      whatever has not ended can fail or be cancelled. */
  lemma WaysToAState(s: GenerationState)
    ensures s.CanBecome(Queued) <==> s == Running
    ensures s.CanBecome(Running) <==> s == Queued
    ensures s.CanBecome(Cancelling) <==> s == Running
    ensures s.CanBecome(Succeeded) <==> s == Running || s == Cancelling
    ensures s.CanBecome(Expired) <==> s == Queued || s == Running
    ensures s.CanBecome(Failed) <==> s == Queued || s == Running || s == Cancelling
    ensures s.CanBecome(Cancelled) <==> s == Queued || s == Running || s == Cancelling
  {
  }

  /** An Attempt starts once, and ends once in any of four ways. */
  lemma WaysOfAnAttempt(s: AttemptState, to: AttemptState)
    ensures s.CanBecome(to) <==> (s == Leased && to == Executing) || (s.IsLive() && !to.IsLive())
    ensures s.IsLive() <==> s == Leased || s == Executing
  {
  }

  /** An Artifact is offered, delivered and consumed in that order, and can be given
      up or lost until then. */
  lemma WaysOfAnArtifact(s: ArtifactState, to: ArtifactState)
    ensures s.CanBecome(to) <==>
      || (s == Pending && to == Available) || (s == Available && to == Delivering)
      || (s == Delivering && to == Consumed)
      || (s in {Pending, Available, Delivering} && to in {Discarded, Lost})
  {
  }

  // ------------------------------------------------------------------ failures

  datatype FailureKind =
    | InvalidInput | UnsupportedCapability | ModelUnavailable | OutOfMemory | BackendCrashed
    | ExecutionTimedOut | CancelledByUser | TransferFailed | Internal | WorkerLost | LeaseExpired

  predicate IsRetryable(k: FailureKind) {
    k.OutOfMemory? || k.BackendCrashed? || k.TransferFailed? || k.WorkerLost? || k.LeaseExpired?
  }

  predicate InvalidatesSlotCapability(k: FailureKind) {
    k.OutOfMemory?
  }

  datatype RetryDecision = Requeue | GiveUp

  function RetryDecisionFor(k: FailureKind, attemptsUsed: nat, candidatesRemain: bool): RetryDecision {
    if !IsRetryable(k) then GiveUp
    else if attemptsUsed >= MAX_ATTEMPTS then GiveUp
    else if InvalidatesSlotCapability(k) && !candidatesRemain then GiveUp
    else Requeue
  }
}
