/** One Worker-local download on Remote (`stream_worker_local`): a one-shot HTTP
    body fed by a Worker stream that may break and resume, under one retry
    budget, with the last bounded chunk held back until the digest of the whole
    stream has been checked.

    Everything outside the code is an adversary: it chooses the outcome of each
    control-channel send, each event taken from the delivery channel (whoever
    pushed it), whether the HTTP client still listens, and whether the offset
    could be persisted. A run is any finite sequence of such inputs. */
module Delivery {
  import opened Common
  import opened Transfer

  const MAX_RESUME_ATTEMPTS: nat := 5

  datatype SendOutcome = SendDelivered | SendBackpressured | SendOffline

  /** What `rx.recv()` racing the silence timeout can produce. */
  datatype Event = Push(event: DeliveryEvent) | Closed | TimedOut

  datatype Input =
    | SendResult(outcome: SendOutcome)
    | Taken(event: Event, clientOpen: bool, persistOk: bool)

  /** How the Artifact is left when the download is over. */
  datatype End = Consumed | Lost | Expired

  datatype Phase = Requesting | Draining | Ended(end: End)

  /** The download being served. */
  datatype Config = Config(sha: HashFn, size: nat, digest: Digest, start: nat)

  datatype State = State(
    phase: Phase,
    offset: nat,            // next byte expected from the Worker
    attempts: nat,          // consumed part of the resume budget
    hashed: Bytes,          // fed to the whole-stream hasher
    pending: Option<Bytes>, // the chunk held back
    sent: Bytes,            // accepted by the HTTP body
    dropped: Bytes,         // offered to a client that had gone
    persisted: nat,         // committed_offset of the Artifact row
    requests: nat           // DeliverRequest sends so far
  )

  function Initial(c: Config): State {
    State(Requesting, c.start, 0, [], None, [], [], c.start, 0)
  }

  function Exhausted(attempts: nat): bool {
    attempts >= MAX_RESUME_ATTEMPTS
  }

  function Retry(s: State, giveUp: End): State {
    if Exhausted(s.attempts + 1) then s.(attempts := s.attempts + 1, phase := Ended(giveUp))
    else s.(attempts := s.attempts + 1, phase := Requesting)
  }

  function StepSend(s: State, outcome: SendOutcome): State {
    var s := s.(requests := s.requests + 1);
    match outcome
    case SendDelivered => s.(phase := Draining)
    case SendOffline => s.(phase := Ended(Lost))
    case SendBackpressured => Retry(s, Expired)
  }

  /** A chunk is put on the HTTP body and the row's offset moved up. */
  function Relay(s: State, bytes: Bytes, clientOpen: bool, persistOk: bool): State {
    if !clientOpen then s.(dropped := bytes, phase := Ended(Expired))
    else
      var s := s.(sent := s.sent + bytes);
      if !persistOk then s.(phase := Ended(Lost)) else s.(persisted := s.offset)
  }

  function StepData(c: Config, s: State, bytes: Bytes, clientOpen: bool, persistOk: bool): State {
    var next := s.offset + |bytes|;
    if next >= U64_LIMIT || |bytes| > CHUNK_BYTES || next > c.size then s.(phase := Ended(Lost))
    else if bytes == [] then s
    else
      var s := s.(hashed := s.hashed + bytes, offset := next);
      if next == c.size then s.(pending := Some(bytes))
      else Relay(s, bytes, clientOpen, persistOk)
  }

  function StepComplete(c: Config, s: State, clientOpen: bool, persistOk: bool): State {
    if s.offset != c.size || c.sha(s.hashed) != c.digest then s.(phase := Ended(Lost))
    else if c.size == 0 && !clientOpen then s.(phase := Ended(Expired))
    else match s.pending
      case None => s.(phase := Ended(Consumed))
      case Some(bytes) =>
        var s := Relay(s.(pending := None), bytes, clientOpen, persistOk);
        if s.phase.Ended? then s else s.(phase := Ended(Consumed))
  }

  function StepEvent(c: Config, s: State, e: Event, clientOpen: bool, persistOk: bool): State {
    match e
    case Push(Data(bytes)) => StepData(c, s, bytes, clientOpen, persistOk)
    case Push(Complete) => StepComplete(c, s, clientOpen, persistOk)
    case Push(Failed) => Retry(s, Lost)
    case Push(Rejected) => s.(phase := Ended(Lost))
    case Closed => Retry(s, Lost)
    case TimedOut => s.(phase := Ended(Lost))
  }

  /** An input of the wrong kind for the phase is not observed at all. */
  function Step(c: Config, s: State, i: Input): State {
    match i
    case SendResult(outcome) => if s.phase.Requesting? then StepSend(s, outcome) else s
    case Taken(e, clientOpen, persistOk) =>
      if s.phase.Draining? then StepEvent(c, s, e, clientOpen, persistOk) else s
  }

  function Run(c: Config, s: State, script: seq<Input>): State
    decreases |script|
  {
    if script == [] then s else Run(c, Step(c, s, script[0]), script[1..])
  }

  lemma {:induction false} RunEnded(c: Config, s: State, script: seq<Input>)
    requires s.phase.Ended?
    ensures Run(c, s, script) == s
    decreases |script|
  {
    if script != [] {
      RunEnded(c, s, script[1..]);
    }
  }

  lemma {:induction false} RunConcat(c: Config, s: State, a: seq<Input>, b: seq<Input>)
    ensures Run(c, s, a + b) == Run(c, Run(c, s, a), b)
    decreases |a|
  {
    if a == [] {
      assert a + b == b;
    } else {
      assert (a + b)[1..] == a[1..] + b;
      RunConcat(c, Step(c, s, a[0]), a[1..], b);
    }
  }

  // ------------------------------------------------------------ the code itself

  /** The handler of one download. `script` is what the environment still has
      in store; when it is empty the handler is suspended at an await. */
  class DeliveryStream {
    const c: Config
    var script: seq<Input>
    var phase: Phase
    var offset: nat
    var attempts: nat
    var hasher: Bytes
    var pending: Option<Bytes>
    var requests: nat
    var body: Bytes      // HTTP body
    var refused: Bytes
    var committed: nat   // committed_offset

    function View(): State
      reads this
    {
      State(phase, offset, attempts, hasher, pending, body, refused, committed, requests)
    }

    /** Where the run ends up if the environment plays the rest of its script. */
    ghost function Outcome(): State
      reads this
    {
      Run(c, View(), script)
    }

    constructor (c: Config, script: seq<Input>)
      ensures this.c == c && this.script == script && View() == Initial(c)
    {
      this.c, this.script := c, script;
      phase, offset, attempts, hasher, pending := Requesting, c.start, 0, [], None;
      requests, body, refused, committed := 0, [], [], c.start;
    }

    method TakeInput() returns (i: Option<Input>)
      modifies this`script
      ensures i == None ==> old(script) == [] && script == []
      ensures i.Some? ==> old(script) != [] && i.value == old(script)[0] && script == old(script)[1..]
    {
      if script == [] {
        return None;
      }
      i := Some(script[0]);
      script := script[1..];
    }

    /** Sends until the request is delivered or the stream has to stop. */
    method RequestWorkerDelivery()
      requires phase.Requesting?
      modifies this
      ensures Outcome() == old(Outcome()) && |script| <= |old(script)|
      ensures phase.Requesting? ==> script == []
      ensures phase.Draining? ==> |script| < |old(script)|
    {
      while phase.Requesting?
        invariant Outcome() == old(Outcome()) && |script| <= |old(script)|
        invariant phase.Draining? ==> |script| < |old(script)|
        decreases |script|
      {
        var i := TakeInput();
        if i == None {
          return;
        }
        if i.value.Taken? {
          continue;
        }
        requests := requests + 1;
        match i.value.outcome {
          case SendDelivered =>
            phase := Draining;
          case SendOffline =>
            phase := Ended(Lost);
          case SendBackpressured =>
            attempts := attempts + 1;
            if Exhausted(attempts) {
              phase := Ended(Expired);
            }
        }
      }
    }

    method PersistDeliveryOffset(persistOk: bool) returns (ok: bool)
      modifies this`committed
      ensures ok == persistOk
      ensures committed == if persistOk then offset else old(committed)
    {
      if persistOk {
        committed := offset;
      }
      ok := persistOk;
    }

    method OnData(bytes: Bytes, clientOpen: bool, persistOk: bool)
      requires phase.Draining?
      modifies this`phase, this`offset, this`hasher, this`pending, this`body, this`refused, this`committed
      ensures View() == StepData(c, old(View()), bytes, clientOpen, persistOk)
    {
      var next := offset + |bytes|;
      if next >= U64_LIMIT {
        phase := Ended(Lost);
        return;
      }
      if |bytes| > CHUNK_BYTES || next > c.size {
        phase := Ended(Lost);
        return;
      }
      if bytes == [] {
        return;
      }
      hasher := hasher + bytes;
      offset := next;
      if offset == c.size {
        pending := Some(bytes);
        return;
      }
      if !clientOpen {
        refused := bytes;
        phase := Ended(Expired);
        return;
      }
      body := body + bytes;
      var ok := PersistDeliveryOffset(persistOk);
      if !ok {
        phase := Ended(Lost);
      }
    }

    method OnComplete(clientOpen: bool, persistOk: bool)
      requires phase.Draining?
      modifies this`phase, this`pending, this`body, this`refused, this`committed
      ensures View() == StepComplete(c, old(View()), clientOpen, persistOk)
    {
      if offset != c.size || c.sha(hasher) != c.digest {
        phase := Ended(Lost);
        return;
      }
      if c.size == 0 && !clientOpen {
        phase := Ended(Expired);
        return;
      }
      if pending.Some? {
        var bytes := pending.value;
        pending := None;
        if !clientOpen {
          refused := bytes;
          phase := Ended(Expired);
          return;
        }
        body := body + bytes;
        var ok := PersistDeliveryOffset(persistOk);
        if !ok {
          phase := Ended(Lost);
          return;
        }
      }
      phase := Ended(Consumed);
    }

    /** Relays chunks until the transfer ends or a fresh request is needed. */
    method DrainWorkerChunks()
      requires phase.Draining?
      modifies this
      ensures Outcome() == old(Outcome()) && |script| <= |old(script)|
      ensures phase.Draining? ==> script == []
    {
      while phase.Draining?
        invariant Outcome() == old(Outcome()) && |script| <= |old(script)|
        decreases |script|
      {
        var i := TakeInput();
        if i == None {
          return;
        }
        if i.value.SendResult? {
          continue;
        }
        match i.value.event {
          case TimedOut =>
            phase := Ended(Lost);
          case Push(Data(bytes)) =>
            OnData(bytes, i.value.clientOpen, i.value.persistOk);
          case Push(Complete) =>
            OnComplete(i.value.clientOpen, i.value.persistOk);
          case Push(Rejected) =>
            phase := Ended(Lost);
          case Push(Failed) =>
            attempts := attempts + 1;
            phase := if Exhausted(attempts) then Ended(Lost) else Requesting;
          case Closed =>
            attempts := attempts + 1;
            phase := if Exhausted(attempts) then Ended(Lost) else Requesting;
        }
      }
    }

    /** The whole download: its state is that of the run over all its inputs. */
    method StreamWorkerLocal()
      requires View() == Initial(c)
      modifies this
      ensures View() == Run(c, Initial(c), old(script))
      ensures phase.Ended? || script == []
    {
      while true
        invariant phase.Requesting?
        invariant Outcome() == old(Outcome())
        decreases |script|
      {
        RequestWorkerDelivery();
        if phase.Draining? {
          DrainWorkerChunks();
        }
        if phase.Ended? {
          RunEnded(c, View(), script);
          return;
        }
        if script == [] {
          return;
        }
      }
    }
  }
}
