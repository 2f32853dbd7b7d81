/** What every run of a Worker-local download keeps, and what it promises the
    HTTP client. */
module DeliverySafety {
  import opened Common
  import opened Transfer
  import opened Delivery

  ghost predicate ValidConfig(c: Config) {
    c.start <= c.size < U64_LIMIT
  }

  function Held(s: State): Bytes {
    match s.pending
    case None => []
    case Some(bytes) => bytes
  }

  /** The hashed bytes are what the client accepted, then what it refused, then
      what is held back; the offset counts them; the budget counts the sends. */
  ghost predicate Consistent(c: Config, s: State) {
    && s.hashed == s.sent + s.dropped + Held(s)
    && s.offset == c.start + |s.hashed| <= c.size
    && s.requests <= MAX_RESUME_ATTEMPTS
    && c.start <= s.persisted <= c.start + |s.sent|
  }

  /** More is known while the download is still going on. */
  ghost predicate Ongoing(c: Config, s: State) {
    && s.dropped == []
    && s.attempts < MAX_RESUME_ATTEMPTS
    && s.requests == s.attempts + (if s.phase.Draining? then 1 else 0)
    && s.persisted == c.start + |s.sent|
    && (s.pending.Some? <==> s.offset == c.size && s.offset > c.start)
    && (s.pending.Some? ==> s.pending.value != [])
  }

  /** The whole body can only be with the client after the check of the whole
      stream, and the Artifact is only consumed after that. */
  ghost predicate Checked(c: Config, s: State) {
    && (s.phase == Ended(Consumed) ==>
         s.pending == None && s.dropped == [] && s.offset == c.size == s.persisted)
    && (s.phase == Ended(Consumed) || (c.start < c.size && c.start + |s.sent| == c.size) ==>
         s.phase.Ended? && s.hashed == s.sent && c.sha(s.sent) == c.digest)
    && (c.start < c.size && c.start + |s.sent| == c.size ==>
         && s.phase in {Ended(Consumed), Ended(Lost)}
         && (s.phase == Ended(Consumed) <==> s.persisted == c.size))
  }

  ghost predicate Inv(c: Config, s: State) {
    Consistent(c, s) && (!s.phase.Ended? ==> Ongoing(c, s)) && Checked(c, s)
  }

  lemma {:induction false} InitialInv(c: Config)
    requires ValidConfig(c)
    ensures Inv(c, Initial(c))
  {
  }

  lemma {:induction false} StepDataInv(c: Config, s: State, bytes: Bytes, clientOpen: bool, persistOk: bool)
    requires ValidConfig(c) && Inv(c, s) && s.phase.Draining?
    ensures Inv(c, StepData(c, s, bytes, clientOpen, persistOk))
  {
    assert s.pending.Some? ==> s.offset == c.size;
    if s.offset + |bytes| <= c.size && bytes != [] {
      assert s.hashed == s.sent;
    }
  }

  lemma {:induction false} StepCompleteInv(c: Config, s: State, clientOpen: bool, persistOk: bool)
    requires ValidConfig(c) && Inv(c, s) && s.phase.Draining?
    ensures Inv(c, StepComplete(c, s, clientOpen, persistOk))
  {
    assert s.sent + s.dropped + Held(s) == s.sent + Held(s);
  }

  lemma {:induction false} RetryInv(c: Config, s: State, giveUp: End)
    requires Consistent(c, s) && Ongoing(c, s) && Checked(c, s) && giveUp != Consumed
    requires s.requests == s.attempts + 1
    ensures Inv(c, Retry(s, giveUp))
  {
  }

  lemma {:induction false} StepSendInv(c: Config, s: State, outcome: SendOutcome)
    requires ValidConfig(c) && Inv(c, s) && s.phase.Requesting?
    ensures Inv(c, StepSend(s, outcome))
  {
  }

  lemma {:induction false} StepInv(c: Config, s: State, i: Input)
    requires ValidConfig(c) && Inv(c, s)
    ensures Inv(c, Step(c, s, i))
  {
    match i {
      case SendResult(outcome) =>
        if s.phase.Requesting? {
          StepSendInv(c, s, outcome);
        }
      case Taken(event, clientOpen, persistOk) =>
        if s.phase.Draining? {
          match event {
            case Push(Data(bytes)) => StepDataInv(c, s, bytes, clientOpen, persistOk);
            case Push(Complete) => StepCompleteInv(c, s, clientOpen, persistOk);
            case Push(Failed) => RetryInv(c, s, Lost);
            case Closed => RetryInv(c, s, Lost);
            case Push(Rejected) =>
            case TimedOut =>
          }
        }
    }
  }

  lemma {:induction false} RunInv(c: Config, s: State, script: seq<Input>)
    requires ValidConfig(c) && Inv(c, s)
    ensures Inv(c, Run(c, s, script))
    decreases |script|
  {
    if script != [] {
      StepInv(c, s, script[0]);
      RunInv(c, Step(c, s, script[0]), script[1..]);
    }
  }

  // ------------------------------------------------------------------ promises

  /** Over every run: hashed bytes = bytes the body took, then at most one chunk
      the client refused, then the held-back chunk; and the offset counts them. */
  lemma {:induction false} HashedIsSentThenHeld(c: Config, script: seq<Input>)
    requires ValidConfig(c)
    ensures var s := Run(c, Initial(c), script);
      && s.hashed == s.sent + s.dropped + Held(s)
      && s.offset == c.start + |s.hashed|
      && (!s.phase.Ended? ==> s.hashed == s.sent + Held(s))
  {
    InitialInv(c);
    RunInv(c, Initial(c), script);
  }

  /** A non-empty Artifact downloaded from the start: the client holds all its
      bytes only after length and digest of the whole stream were checked; the
      Artifact is then consumed, unless storing the final offset failed. */
  lemma {:induction false} CompleteBodyIsVerified(c: Config, script: seq<Input>)
    requires ValidConfig(c) && c.start == 0 < c.size
    ensures var s := Run(c, Initial(c), script);
      |s.sent| == c.size ==>
        && c.sha(s.sent) == c.digest
        && s.phase in {Ended(Consumed), Ended(Lost)}
        && (s.phase == Ended(Consumed) <==> s.persisted == c.size)
  {
    InitialInv(c);
    RunInv(c, Initial(c), script);
  }

  /** Consumed means delivered in full and verified, from the start offset on. */
  lemma {:induction false} ConsumedIsVerified(c: Config, script: seq<Input>)
    requires ValidConfig(c)
    ensures var s := Run(c, Initial(c), script);
      s.phase == Ended(Consumed) ==>
        && c.start + |s.sent| == c.size == s.persisted
        && c.sha(s.sent) == c.digest
  {
    InitialInv(c);
    RunInv(c, Initial(c), script);
  }

  /** With no second preimage at hand, a complete body is the published content. */
  lemma {:induction false} CompleteBodyIsContent(c: Config, content: Bytes, script: seq<Input>)
    requires ValidConfig(c) && c.start == 0 && content != []
    requires c.size == |content| && c.digest == c.sha(content)
    requires forall other: Bytes :: |other| == |content| && c.sha(other) == c.sha(content) ==> other == content
    ensures var s := Run(c, Initial(c), script);
      |s.sent| == c.size ==> s.sent == content
  {
    CompleteBodyIsVerified(c, script);
  }

  /** A verified, fully sent body can still leave the Artifact lost. */
  lemma {:induction false} LostAfterCompleteBody(c: Config, bytes: Bytes)
    requires c.start == 0 < |bytes| == c.size <= CHUNK_BYTES && c.digest == c.sha(bytes)
    ensures var s := Run(c, Initial(c),
        [SendResult(SendDelivered), Taken(Push(Data(bytes)), true, true), Taken(Push(Complete), true, false)]);
      s.phase == Ended(Lost) && s.sent == bytes && s.persisted == 0
  {
    var i0, i1, i2 := SendResult(SendDelivered), Taken(Push(Data(bytes)), true, true),
                      Taken(Push(Complete), true, false);
    var s0 := Initial(c);
    var s1 := Step(c, s0, i0);
    var s2 := Step(c, s1, i1);
    assert [] + bytes == bytes;
    var s3 := Step(c, s2, i2);
    assert [i0, i1, i2][1..] == [i1, i2] && [i1, i2][1..] == [i2] && [i2][1..] == [];
    assert Run(c, s3, []) == s3 && Run(c, s2, [i2]) == s3 && Run(c, s1, [i1, i2]) == s3;
  }

  /** At most MAX_RESUME_ATTEMPTS requests are ever sent, whatever their outcome. */
  lemma {:induction false} RequestBudget(c: Config, script: seq<Input>)
    requires ValidConfig(c)
    ensures Run(c, Initial(c), script).requests <= MAX_RESUME_ATTEMPTS
  {
    InitialInv(c);
    RunInv(c, Initial(c), script);
  }

  // -------------------------------------------------- resuming against the RPC

  /** What `validate_delivery_start` compares. */
  datatype Row = Row(delivering: bool, manifest: Manifest, committedOffset: nat, token: Option<string>)

  datatype Start = Start(manifest: Manifest, offset: nat, token: string)

  datatype StartError = NotDelivering | ManifestDiffers | PastEnd | OffsetDiffers | TokenDiffers

  function ValidateDeliveryStart(row: Row, start: Start): Result<Manifest, StartError> {
    if !row.delivering then Err(NotDelivering)
    else if row.manifest != start.manifest then Err(ManifestDiffers)
    else if start.offset > row.manifest.size then Err(PastEnd)
    else if row.committedOffset != start.offset then Err(OffsetDiffers)
    else if row.token != Some(start.token) then Err(TokenDiffers)
    else Ok(start.manifest)
  }

  /** Every request asks for the persisted offset plus what is held back, so the
      Worker's answer to it is accepted exactly when nothing is held back. */
  lemma {:induction false} ResumeAcceptedIff(c: Config, script: seq<Input>, token: string)
    requires ValidConfig(c)
    ensures var s := Run(c, Initial(c), script);
      s.phase.Requesting? ==>
        && s.offset == s.persisted + |Held(s)|
        && var m := Manifest(c.size, c.digest);
           var verdict := ValidateDeliveryStart(Row(true, m, s.persisted, Some(token)), Start(m, s.offset, token));
           (verdict.Ok? <==> s.pending == None)
  {
    InitialInv(c);
    RunInv(c, Initial(c), script);
  }

  /** The refusal can be met: a Worker that delivers every byte and then reports a
      failure is asked again with the final chunk still held back. */
  lemma {:induction false} HeldResumeIsRefused(c: Config, bytes: Bytes, token: string)
    requires ValidConfig(c) && c.start == 0 && bytes != [] && |bytes| == c.size <= CHUNK_BYTES
    ensures var s := Run(c, Initial(c),
        [SendResult(SendDelivered), Taken(Push(Data(bytes)), true, true), Taken(Push(Failed), true, true)]);
      var m := Manifest(c.size, c.digest);
      && s.phase.Requesting? && s.pending == Some(bytes)
      && ValidateDeliveryStart(Row(true, m, s.persisted, Some(token)), Start(m, s.offset, token)) == Err(OffsetDiffers)
  {
    var i0, i1, i2 := SendResult(SendDelivered), Taken(Push(Data(bytes)), true, true),
                      Taken(Push(Failed), true, true);
    var s1 := Step(c, Initial(c), i0);
    var s2 := Step(c, s1, i1);
    var s3 := Step(c, s2, i2);
    assert [] + bytes == bytes;
    assert [i0, i1, i2][1..] == [i1, i2] && [i1, i2][1..] == [i2] && [i2][1..] == [];
    assert Run(c, s3, []) == s3 && Run(c, s2, [i2]) == s3 && Run(c, s1, [i1, i2]) == s3;
  }

  // ------------------------------------------------------- an honest Worker

  /** What the client side does with one chunk. */
  datatype Luck = Luck(clientOpen: bool, persistOk: bool)

  /** One round against a Worker that serves `ArtifactReader` chunks: the control
      sends, then the RPC, of which only the first `cut` chunks get through
      before the stream is `broken` or simply ends; then silence. */
  datatype Round = Round(sends: seq<SendOutcome>, cut: nat, broken: bool, luck: nat -> Luck)

  ghost predicate Lucky(luck: nat -> Luck) {
    forall k :: luck(k) == Luck(true, true)
  }

  function Sends(outcomes: seq<SendOutcome>): seq<Input> {
    if outcomes == [] then [] else [SendResult(outcomes[0])] + Sends(outcomes[1..])
  }

  function Deliveries(events: seq<DeliveryEvent>, luck: nat -> Luck, k: nat): seq<Input> {
    if events == [] then []
    else [Taken(Push(events[0]), luck(k).clientOpen, luck(k).persistOk)]
         + Deliveries(events[1..], luck, k + 1)
  }

  /** The messages that reach the RPC of a round started at `offset`. */
  function Inbox(content: Bytes, offset: nat, r: Round): seq<Inbound>
    requires offset <= |content|
  {
    var chunks := ChunksFrom(content, offset);
    if r.cut < |chunks| then Wrap(chunks[..r.cut]) + (if r.broken then [Broken] else [])
    else Wrap(chunks)
  }

  /** The downloader takes every push of an honest round. */
  function AlwaysAttached(): nat -> bool {
    (k: nat) => true
  }

  /** The RPC only runs if its start message is accepted. */
  function HonestPushes(c: Config, content: Bytes, s: State, r: Round): seq<DeliveryEvent>
    requires s.offset <= |content|
  {
    if s.offset != s.persisted then []
    else DeliverRpc(c.sha, Manifest(c.size, c.digest), s.offset, Inbox(content, s.offset, r), AlwaysAttached())
  }

  function HonestRound(c: Config, content: Bytes, s: State, r: Round): State
    requires s.offset <= |content|
  {
    var s' := Run(c, s, Sends(r.sends));
    if !s'.phase.Draining? then s'
    else Run(c, s', Deliveries(HonestPushes(c, content, s, r), r.luck, 0) + [Taken(TimedOut, true, true)])
  }

  /** Nothing held back, and what was sent is a prefix of the content. */
  ghost predicate OnTrack(c: Config, content: Bytes, s: State)
    requires c.start <= |content|
  {
    && c.start <= s.offset <= |content|
    && (!s.phase.Ended? ==>
         && s.pending == None && s.offset == s.persisted && s.dropped == []
         && (s.offset < |content| || s.offset == c.start)
         && s.hashed == s.sent == content[c.start..s.offset])
    && s.sent <= content[c.start..]
  }

  ghost predicate HonestConfig(c: Config, content: Bytes) {
    ValidConfig(c) && c.size == |content| && c.digest == c.sha(content)
  }

  lemma {:induction false} SendsStayOnTrack(c: Config, content: Bytes, s: State, outcomes: seq<SendOutcome>)
    requires HonestConfig(c, content) && OnTrack(c, content, s) && !s.phase.Draining?
    ensures var s' := Run(c, s, Sends(outcomes));
      && OnTrack(c, content, s') && s'.offset == s.offset
      && (s'.phase.Draining? ==> !s.phase.Ended?)
    decreases |outcomes|
  {
    if outcomes != [] {
      var i := SendResult(outcomes[0]);
      var s' := Step(c, s, i);
      RunFirst(c, s, i, Sends(outcomes[1..]));
      if s'.phase.Draining? {
        SendsIgnored(c, s', outcomes[1..]);
      } else {
        SendsStayOnTrack(c, content, s', outcomes[1..]);
      }
    }
  }

  lemma {:induction false} SendsIgnored(c: Config, s: State, outcomes: seq<SendOutcome>)
    requires s.phase.Draining?
    ensures Run(c, s, Sends(outcomes)) == s
    decreases |outcomes|
  {
    if outcomes != [] {
      assert Sends(outcomes)[1..] == Sends(outcomes[1..]);
      SendsIgnored(c, s, outcomes[1..]);
    }
  }

  /** The chunks after the first are those of the next position. */
  lemma {:induction false} LaterChunks(content: Bytes, offset: nat, cut: nat)
    requires offset <= |content| && 0 < cut <= |ChunksFrom(content, offset)| && |ChunksFrom(content, offset)| > 1
    ensures var chunks := ChunksFrom(content, offset);
      && offset + CHUNK_BYTES <= |content|
      && |ChunksFrom(content, offset + CHUNK_BYTES)| == |chunks| - 1
      && chunks[..cut][1..] == ChunksFrom(content, offset + CHUNK_BYTES)[..cut - 1]
  {
  }

  lemma {:induction false} HonestChunkGoesOn(sha: HashFn, m: Manifest, content: Bytes, next: nat, fed: Bytes,
                                             rest: seq<Inbound>, k: nat)
    requires next <= |content| == m.size < U64_LIMIT && |ChunksFrom(content, next)| > 1
    ensures var chunk := ChunksFrom(content, next)[0];
      Receive(sha, m, next, fed, [ChunkMsg(chunk)] + rest, AlwaysAttached(), k)
        == Prepend([Data(chunk.data)],
                   Receive(sha, m, next + CHUNK_BYTES, fed + chunk.data, rest, AlwaysAttached(), k + 1))
  {
    var chunk := ChunksFrom(content, next)[0];
    assert |chunk.data| == CHUNK_BYTES && next + CHUNK_BYTES <= m.size;
    assert ([ChunkMsg(chunk)] + rest)[1..] == rest;
  }

  /** The RPC's pushes when the stream stops short of its last chunk: `rest` is
      what follows the chunks, nothing or a transport error. */
  lemma {:induction false} CutPushes(sha: HashFn, m: Manifest, content: Bytes, next: nat, fed: Bytes,
                                     cut: nat, rest: seq<Inbound>, k: nat)
    requires next <= |content| == m.size < U64_LIMIT
    requires cut < |ChunksFrom(content, next)|
    requires rest == [] || rest == [Broken]
    ensures var chunks := ChunksFrom(content, next)[..cut];
      var r := Receive(sha, m, next, fed, Wrap(chunks) + rest, AlwaysAttached(), k);
      r.outcome.Err? && r.pushes == Datas(chunks) + (if rest == [] then [Failed] else [])
    decreases cut
  {
    var chunks := ChunksFrom(content, next);
    var prefix := chunks[..cut];
    if cut == 0 {
      assert Wrap(prefix) + rest == rest;
    } else {
      var tail := Wrap(prefix[1..]) + rest;
      assert Wrap(prefix) + rest == [ChunkMsg(chunks[0])] + tail;
      HonestChunkGoesOn(sha, m, content, next, fed, tail, k);
      LaterChunks(content, next, cut);
      CutPushes(sha, m, content, next + CHUNK_BYTES, fed + chunks[0].data, cut - 1, rest, k + 1);
    }
  }

  lemma {:induction false} RunFirst(c: Config, s: State, i: Input, rest: seq<Input>)
    ensures Run(c, s, [i] + rest) == Run(c, Step(c, s, i), rest)
  {
    assert ([i] + rest)[1..] == rest;
  }

  /** Draining goes on after some honest chunks: on track, unless the last chunk
      was among them, which is then held back. */
  ghost predicate StillDraining(c: Config, content: Bytes, s: State, short: bool)
    requires c.start <= |content|
  {
    s.phase.Draining? &&
    if short then OnTrack(c, content, s)
    else s.sent + Held(s) == s.hashed == content[c.start..]
  }

  ghost predicate EndedWithPrefix(c: Config, content: Bytes, s: State)
    requires c.start <= |content|
  {
    s.phase.Ended? && c.start <= s.offset <= |content| && s.sent <= content[c.start..]
  }

  /** What draining some honest chunks leaves behind. */
  ghost predicate Drained(c: Config, content: Bytes, s: State, short: bool, lucky: bool)
    requires c.start <= |content|
  {
    && (EndedWithPrefix(c, content, s) || StillDraining(c, content, s, short))
    && (lucky ==> s.phase.Draining?)
  }

  lemma {:induction false} TakeChunk(c: Config, content: Bytes, s: State, luck: Luck)
    requires HonestConfig(c, content) && OnTrack(c, content, s) && s.phase.Draining?
    ensures var chunks := ChunksFrom(content, s.offset);
      var s' := StepData(c, s, chunks[0].data, luck.clientOpen, luck.persistOk);
      && Drained(c, content, s', |chunks| > 1, luck == Luck(true, true))
      && (s'.phase.Draining? && |chunks| > 1 ==> s'.offset == s.offset + CHUNK_BYTES)
  {
    var bytes := ChunksFrom(content, s.offset)[0].data;
    var end := s.offset + |bytes|;
    assert bytes == content[s.offset..end];
    assert content[c.start..s.offset] + bytes == content[c.start..end];
    assert content[c.start..end] <= content[c.start..];
  }

  lemma {:induction false} RunData(c: Config, s: State, chunks: seq<Chunk>, luck: nat -> Luck, k: nat)
    requires s.phase.Draining? && chunks != []
    ensures Run(c, s, Deliveries(Datas(chunks), luck, k))
      == Run(c, StepData(c, s, chunks[0].data, luck(k).clientOpen, luck(k).persistOk),
             Deliveries(Datas(chunks[1..]), luck, k + 1))
  {
    var i := Taken(Push(Data(chunks[0].data)), luck(k).clientOpen, luck(k).persistOk);
    var rest := Deliveries(Datas(chunks[1..]), luck, k + 1);
    assert Datas(chunks)[1..] == Datas(chunks[1..]);
    assert Deliveries(Datas(chunks), luck, k) == [i] + rest;
    RunFirst(c, s, i, rest);
  }

  /** Draining the first `cut` chunks of an honest RPC: only the very last chunk
      is ever held back. */
  lemma {:induction false} DrainChunks(c: Config, content: Bytes, s: State, cut: nat, luck: nat -> Luck, k: nat)
    requires HonestConfig(c, content) && OnTrack(c, content, s) && s.phase.Draining?
    requires cut <= |ChunksFrom(content, s.offset)|
    ensures var chunks := ChunksFrom(content, s.offset);
      Drained(c, content, Run(c, s, Deliveries(Datas(chunks[..cut]), luck, k)), cut < |chunks|, Lucky(luck))
    decreases cut, 1
  {
    if cut > 0 {
      var chunks := ChunksFrom(content, s.offset);
      var s1 := StepData(c, s, chunks[0].data, luck(k).clientOpen, luck(k).persistOk);
      RunData(c, s, chunks[..cut], luck, k);
      TakeChunk(c, content, s, luck(k));
      DrainTail(c, content, s.offset, s1, cut, luck, k);
    }
  }

  /** After the first of `cut` chunks. */
  lemma {:induction false} DrainTail(c: Config, content: Bytes, offset: nat, s: State, cut: nat,
                                     luck: nat -> Luck, k: nat)
    requires HonestConfig(c, content) && offset <= |content| && 0 < cut <= |ChunksFrom(content, offset)|
    requires Drained(c, content, s, |ChunksFrom(content, offset)| > 1, luck(k) == Luck(true, true))
    requires s.phase.Draining? && |ChunksFrom(content, offset)| > 1 ==> s.offset == offset + CHUNK_BYTES
    ensures var chunks := ChunksFrom(content, offset);
      Drained(c, content, Run(c, s, Deliveries(Datas(chunks[..cut][1..]), luck, k + 1)),
              cut < |chunks|, Lucky(luck))
    decreases cut, 0
  {
    var chunks := ChunksFrom(content, offset);
    if s.phase.Ended? {
      RunEnded(c, s, Deliveries(Datas(chunks[..cut][1..]), luck, k + 1));
    } else if |chunks| == 1 {
      assert chunks[..cut][1..] == [];
    } else {
      LaterChunks(content, offset, cut);
      DrainChunks(c, content, s, cut - 1, luck, k + 1);
    }
  }

  lemma {:induction false} DeliveriesConcat(a: seq<DeliveryEvent>, b: seq<DeliveryEvent>, luck: nat -> Luck, k: nat)
    ensures Deliveries(a + b, luck, k) == Deliveries(a, luck, k) + Deliveries(b, luck, k + |a|)
    decreases |a|
  {
    if a == [] {
      assert a + b == b;
    } else {
      assert (a + b)[1..] == a[1..] + b;
      DeliveriesConcat(a[1..], b, luck, k + 1);
    }
  }

  /** What the RPC pushes after the chunks that got through. */
  function RoundEnd(c: Config, content: Bytes, offset: nat, r: Round): seq<DeliveryEvent>
    requires offset <= |content|
  {
    if r.cut < |ChunksFrom(content, offset)| then (if r.broken then [] else [Failed])
    else if ValidateReceipt(Manifest(c.size, c.digest), offset, |content|, c.sha(content[offset..])).Accepted?
    then [Complete] else [Rejected]
  }

  lemma {:induction false} RoundPushes(c: Config, content: Bytes, s: State, r: Round)
    requires HonestConfig(c, content) && s.offset == s.persisted <= |content|
    ensures var chunks := ChunksFrom(content, s.offset);
      HonestPushes(c, content, s, r)
        == Datas(chunks[..Min(r.cut, |chunks|)]) + RoundEnd(c, content, s.offset, r)
  {
    var chunks := ChunksFrom(content, s.offset);
    var m := Manifest(c.size, c.digest);
    if r.cut < |chunks| {
      CutPushes(c.sha, m, content, s.offset, [], r.cut, if r.broken then [Broken] else [], 0);
    } else {
      assert chunks[..|chunks|] == chunks;
      ReceiveReference(c.sha, m, content, s.offset, [], AlwaysAttached(), 0);
      assert [] + content[s.offset..] == content[s.offset..];
    }
  }

  lemma {:induction false} TimeoutEnds(c: Config, s: State)
    ensures Run(c, s, [Taken(TimedOut, true, true)])
      == if s.phase.Draining? then s.(phase := Ended(Lost)) else s
  {
    var i := Taken(TimedOut, true, true);
    assert [i] == [i] + [];
    RunFirst(c, s, i, []);
  }

  lemma {:induction false} CompleteEnds(c: Config, content: Bytes, s: State, luck: Luck)
    requires HonestConfig(c, content) && StillDraining(c, content, s, false)
    requires c.start <= s.offset <= |content|
    ensures EndedWithPrefix(c, content, StepComplete(c, s, luck.clientOpen, luck.persistOk))
  {
    if s.pending == None {
      assert s.sent + [] == s.sent;
    }
  }

  lemma {:induction false} FinishRound(c: Config, content: Bytes, s: State, end: seq<DeliveryEvent>,
                                       luck: nat -> Luck, k: nat, short: bool)
    requires HonestConfig(c, content) && c.start <= s.offset <= |content|
    requires EndedWithPrefix(c, content, s) || StillDraining(c, content, s, short)
    requires end in if short then [[], [Failed]] else [[Complete], [Rejected]]
    ensures var s' := Run(c, s, Deliveries(end, luck, k) + [Taken(TimedOut, true, true)]);
      OnTrack(c, content, s') && !s'.phase.Draining?
  {
    var timeout := [Taken(TimedOut, true, true)];
    var script := Deliveries(end, luck, k) + timeout;
    if s.phase.Ended? {
      RunEnded(c, s, script);
    } else if end == [] {
      assert script == timeout;
      TimeoutEnds(c, s);
    } else {
      var i := Taken(Push(end[0]), luck(k).clientOpen, luck(k).persistOk);
      assert end[1..] == [];
      assert Deliveries(end, luck, k) == [i] + Deliveries(end[1..], luck, k + 1);
      assert script == [i] + timeout;
      RunFirst(c, s, i, timeout);
      TimeoutEnds(c, Step(c, s, i));
      if end == [Complete] {
        CompleteEnds(c, content, s, luck(k));
      } else if end == [Rejected] {
        assert s.sent <= content[c.start..];
      }
    }
  }

  lemma {:induction false} OffsetNeverPasses(c: Config, s: State, script: seq<Input>)
    requires c.start <= s.offset <= c.size
    ensures c.start <= Run(c, s, script).offset <= c.size
    decreases |script|
  {
    if script != [] {
      OffsetNeverPasses(c, Step(c, s, script[0]), script[1..]);
    }
  }

  /** A round is drained in two parts: the chunks, then what follows them. */
  lemma {:induction false} RoundInParts(c: Config, content: Bytes, s: State, d: State, r: Round)
    requires HonestConfig(c, content) && s.offset == s.persisted <= |content|
    ensures var chunks := ChunksFrom(content, s.offset);
      var got, end := Datas(chunks[..Min(r.cut, |chunks|)]), RoundEnd(c, content, s.offset, r);
      var timeout := [Taken(TimedOut, true, true)];
      Run(c, d, Deliveries(HonestPushes(c, content, s, r), r.luck, 0) + timeout)
        == Run(c, Run(c, d, Deliveries(got, r.luck, 0)), Deliveries(end, r.luck, |got|) + timeout)
  {
    var chunks := ChunksFrom(content, s.offset);
    var got, end := Datas(chunks[..Min(r.cut, |chunks|)]), RoundEnd(c, content, s.offset, r);
    var timeout := [Taken(TimedOut, true, true)];
    var first, last := Deliveries(got, r.luck, 0), Deliveries(end, r.luck, |got|);
    RoundPushes(c, content, s, r);
    DeliveriesConcat(got, end, r.luck, 0);
    assert (first + last) + timeout == first + (last + timeout);
    RunConcat(c, d, first, last + timeout);
  }

  /** An honest round either ends the download or leaves it on track, where the
      next request is accepted again. */
  lemma {:induction false} HonestRoundOnTrack(c: Config, content: Bytes, s: State, r: Round)
    requires HonestConfig(c, content) && OnTrack(c, content, s) && !s.phase.Draining?
    ensures var s' := HonestRound(c, content, s, r);
      OnTrack(c, content, s') && !s'.phase.Draining?
  {
    var d := Run(c, s, Sends(r.sends));
    SendsStayOnTrack(c, content, s, r.sends);
    if d.phase.Draining? {
      var chunks := ChunksFrom(content, s.offset);
      var got, end := Datas(chunks[..Min(r.cut, |chunks|)]), RoundEnd(c, content, s.offset, r);
      var first := Deliveries(got, r.luck, 0);
      RoundInParts(c, content, s, d, r);
      DrainChunks(c, content, d, Min(r.cut, |chunks|), r.luck, 0);
      OffsetNeverPasses(c, d, first);
      FinishRound(c, content, Run(c, d, first), end, r.luck, |got|, r.cut < |chunks|);
    }
  }

  function HonestRun(c: Config, content: Bytes, s: State, rounds: seq<Round>): State
    decreases |rounds|
  {
    if rounds == [] || s.offset > |content| then s
    else HonestRun(c, content, HonestRound(c, content, s, rounds[0]), rounds[1..])
  }

  lemma {:induction false} HonestRunOnTrack(c: Config, content: Bytes, s: State, rounds: seq<Round>)
    requires HonestConfig(c, content) && OnTrack(c, content, s) && !s.phase.Draining?
    ensures var s' := HonestRun(c, content, s, rounds);
      OnTrack(c, content, s') && !s'.phase.Draining?
    decreases |rounds|
  {
    if rounds != [] {
      HonestRoundOnTrack(c, content, s, rounds[0]);
      HonestRunOnTrack(c, content, HonestRound(c, content, s, rounds[0]), rounds[1..]);
    }
  }

  lemma {:induction false} HonestRunInv(c: Config, content: Bytes, s: State, rounds: seq<Round>)
    requires ValidConfig(c) && Inv(c, s)
    ensures Inv(c, HonestRun(c, content, s, rounds))
    decreases |rounds|
  {
    if rounds != [] && s.offset <= |content| {
      var r := rounds[0];
      var d := Run(c, s, Sends(r.sends));
      RunInv(c, s, Sends(r.sends));
      RunInv(c, d, Deliveries(HonestPushes(c, content, s, r), r.luck, 0) + [Taken(TimedOut, true, true)]);
      HonestRunInv(c, content, HonestRound(c, content, s, r), rounds[1..]);
    }
  }

  /** Against a Worker serving reader chunks, over any number of broken rounds:
      whenever Remote asks again nothing is held back, so the Worker's start
      message is accepted; and a consumed download is the content asked for. */
  lemma {:induction false} HonestResumesAreAccepted(c: Config, content: Bytes, rounds: seq<Round>, token: string)
    requires HonestConfig(c, content)
    ensures var s := HonestRun(c, content, Initial(c), rounds);
      var m := Manifest(c.size, c.digest);
      && (s.phase.Requesting? ==>
           && s.pending == None
           && ValidateDeliveryStart(Row(true, m, s.persisted, Some(token)), Start(m, s.offset, token)) == Ok(m))
      && s.sent <= content[c.start..]
      && (s.phase == Ended(Consumed) ==> s.sent == content[c.start..])
  {
    InitialInv(c);
    HonestRunInv(c, content, Initial(c), rounds);
    HonestRunOnTrack(c, content, Initial(c), rounds);
  }

  /** The final chunk, held back while draining, goes out when the RPC completes. */
  lemma {:induction false} CompleteConsumes(c: Config, content: Bytes, s: State, luck: nat -> Luck, k: nat)
    requires HonestConfig(c, content) && c.start == 0 && Lucky(luck) && Inv(c, s)
    requires StillDraining(c, content, s, false)
    ensures var s' := Run(c, s, Deliveries([Complete], luck, k) + [Taken(TimedOut, true, true)]);
      s'.phase == Ended(Consumed) && s'.sent == content
  {
    var timeout := [Taken(TimedOut, true, true)];
    var complete := Taken(Push(Complete), true, true);
    assert luck(k) == Luck(true, true);
    assert Deliveries([Complete], luck, k) == [complete] by { assert [Complete][1..] == []; }
    RunFirst(c, s, complete, timeout);
    assert content[0..] == content;
    RunEnded(c, Step(c, s, complete), timeout);
  }

  lemma {:induction false} FirstSend(c: Config)
    requires ValidConfig(c)
    ensures var d := Initial(c).(phase := Draining, requests := 1);
      Run(c, Initial(c), Sends([SendDelivered])) == d && Inv(c, d)
  {
    var i := SendResult(SendDelivered);
    assert Sends([SendDelivered]) == [i] + [] by { assert [SendDelivered][1..] == []; }
    RunFirst(c, Initial(c), i, []);
    InitialInv(c);
    StepInv(c, Initial(c), i);
  }

  /** One undisturbed round is enough: a download from zero is then consumed, and
      the body is the published content. */
  lemma {:induction false} LuckyRoundConsumes(c: Config, content: Bytes, r: Round)
    requires HonestConfig(c, content) && c.start == 0
    requires r.sends == [SendDelivered] && Lucky(r.luck)
    requires r.cut >= |ChunksFrom(content, 0)|
    ensures var s := HonestRound(c, content, Initial(c), r);
      s.phase == Ended(Consumed) && s.sent == content
  {
    var s := Initial(c);
    var d := s.(phase := Draining, requests := 1);
    FirstSend(c);
    RoundInParts(c, content, s, d, r);
    var chunks := ChunksFrom(content, 0);
    var first := Deliveries(Datas(chunks[..|chunks|]), r.luck, 0);
    assert content[0..] == content;
    DrainChunks(c, content, d, |chunks|, r.luck, 0);
    RunInv(c, d, first);
    CompleteConsumes(c, content, Run(c, d, first), r.luck, |Datas(chunks[..|chunks|])|);
  }
}
