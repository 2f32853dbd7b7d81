/** What one delivery RPC accepts and how it ends, for every stream of messages a
    Worker can send. */
module DeliveryVerdicts {
  import opened Common
  import opened Transfer
  import opened DeliverySafety

  /** The chunk follows on at `at`, is bounded, and stays inside the Artifact. */
  predicate Fits(m: Manifest, at: nat, chunk: Chunk) {
    chunk.offset == at && |chunk.data| <= 1048576 && at + |chunk.data| <= m.size
  }

  /** All bytes of the chunks among some messages. */
  function Payload(inbox: seq<Inbound>): Bytes {
    if inbox == [] then []
    else
      var (init, last) := (inbox[..|inbox| - 1], inbox[|inbox| - 1]);
      Payload(init) + (if last.ChunkMsg? then last.chunk.data else [])
  }

  function Pushed(inbox: seq<Inbound>): seq<DeliveryEvent> {
    if inbox == [] then []
    else
      var (init, last) := (inbox[..|inbox| - 1], inbox[|inbox| - 1]);
      Pushed(init) + (if last.ChunkMsg? then [Data(last.chunk.data)] else [])
  }

  /** The i-th message is a chunk that fits behind the ones before it. */
  predicate FitsAt(m: Manifest, start: nat, inbox: seq<Inbound>, i: nat)
    requires i < |inbox|
  {
    inbox[i].ChunkMsg? && Fits(m, start + |Payload(inbox[..i])|, inbox[i].chunk)
  }

  /** It is taken by the downloader and not the last one. */
  predicate GoesOnAt(m: Manifest, start: nat, inbox: seq<Inbound>, attached: nat -> bool, i: nat)
    requires i < |inbox|
  {
    FitsAt(m, start, inbox, i) && attached(i) && !inbox[i].chunk.last
  }

  /** Why a stream is read no further. */
  datatype Stop = RanOut | TransportBroke | NoChunk | Misfit | Detached | LastTaken

  /** The first `n` messages were chunks taken and not last, and the next one, or the
      end of the stream, stops it. */
  ghost predicate StopsAt(m: Manifest, start: nat, inbox: seq<Inbound>, attached: nat -> bool, n: nat, stop: Stop) {
    && n <= |inbox|
    && (forall i :: 0 <= i < n ==> GoesOnAt(m, start, inbox, attached, i))
    && (stop == RanOut <==> n == |inbox|)
    && (n < |inbox| ==>
         match stop
         case RanOut => false
         case TransportBroke => inbox[n].Broken?
         case NoChunk => inbox[n].OtherMsg?
         case Misfit => inbox[n].ChunkMsg? && !FitsAt(m, start, inbox, n)
         case Detached => FitsAt(m, start, inbox, n) && !attached(n)
         case LastTaken => FitsAt(m, start, inbox, n) && attached(n) && inbox[n].chunk.last)
  }

  /** Every stream stops somewhere. */
  lemma {:induction false} AlwaysStops(m: Manifest, start: nat, inbox: seq<Inbound>, attached: nat -> bool)
    returns (n: nat, stop: Stop)
    ensures StopsAt(m, start, inbox, attached, n, stop)
  {
    n := 0;
    while n < |inbox| && GoesOnAt(m, start, inbox, attached, n)
      invariant n <= |inbox|
      invariant forall i :: 0 <= i < n ==> GoesOnAt(m, start, inbox, attached, i)
    {
      n := n + 1;
    }
    stop := if n == |inbox| then RanOut
            else if inbox[n].Broken? then TransportBroke
            else if inbox[n].OtherMsg? then NoChunk
            else if !FitsAt(m, start, inbox, n) then Misfit
            else if !attached(n) then Detached
            else LastTaken;
  }

  /** And only there. */
  lemma {:induction false} StopsOnce(m: Manifest, start: nat, inbox: seq<Inbound>, attached: nat -> bool,
                                     n: nat, stop: Stop, n': nat, stop': Stop)
    requires StopsAt(m, start, inbox, attached, n, stop) && StopsAt(m, start, inbox, attached, n', stop')
    ensures n == n' && stop == stop'
  {
    assert n < |inbox| ==> !GoesOnAt(m, start, inbox, attached, n);
    assert n' < |inbox| ==> !GoesOnAt(m, start, inbox, attached, n');
  }

  /** The receiver at the i-th message. */
  function ReceiveFrom(sha: HashFn, m: Manifest, start: nat, inbox: seq<Inbound>, attached: nat -> bool, i: nat): Received
    requires i <= |inbox|
  {
    var before := Payload(inbox[..i]);
    Prepend(Pushed(inbox[..i]), Receive(sha, m, start + |before|, before, inbox[i..], attached, i))
  }

  lemma {:induction false} OneMore(inbox: seq<Inbound>, i: nat)
    requires i < |inbox| && inbox[i].ChunkMsg?
    ensures Payload(inbox[..i + 1]) == Payload(inbox[..i]) + inbox[i].chunk.data
    ensures Pushed(inbox[..i + 1]) == Pushed(inbox[..i]) + [Data(inbox[i].chunk.data)]
  {
    assert inbox[..i + 1][..i] == inbox[..i];
  }

  lemma {:induction false} ReceiveStep(sha: HashFn, m: Manifest, start: nat, inbox: seq<Inbound>,
                                       attached: nat -> bool, i: nat)
    requires m.size < U64_LIMIT && i < |inbox| && GoesOnAt(m, start, inbox, attached, i)
    ensures ReceiveFrom(sha, m, start, inbox, attached, i) == ReceiveFrom(sha, m, start, inbox, attached, i + 1)
  {
    var before := Payload(inbox[..i]);
    OneMore(inbox, i);
    ReceiveGoesOn(sha, m, start + |before|, before, inbox, attached, i, Pushed(inbox[..i]));
  }

  lemma {:induction false} ReceiveFar(sha: HashFn, m: Manifest, start: nat, inbox: seq<Inbound>,
                                      attached: nat -> bool, n: nat)
    requires m.size < U64_LIMIT && n <= |inbox|
    requires forall i :: 0 <= i < n ==> GoesOnAt(m, start, inbox, attached, i)
    ensures ReceiveFrom(sha, m, start, inbox, attached, 0) == ReceiveFrom(sha, m, start, inbox, attached, n)
  {
    if n > 0 {
      ReceiveFar(sha, m, start, inbox, attached, n - 1);
      ReceiveStep(sha, m, start, inbox, attached, n - 1);
    }
  }

  lemma {:induction false} ReceiveStart(sha: HashFn, m: Manifest, start: nat, inbox: seq<Inbound>, attached: nat -> bool)
    ensures ReceiveFrom(sha, m, start, inbox, attached, 0) == Receive(sha, m, start, [], inbox, attached, 0)
  {
    assert inbox[..0] == [] && inbox[0..] == inbox;
    var r := Receive(sha, m, start, [], inbox, attached, 0);
    assert [] + r.pushes == r.pushes;
  }

  /** What the receiver makes of the message that stops it. */
  lemma {:induction false} ReceiveEnds(sha: HashFn, m: Manifest, next: nat, fed: Bytes, inbox: seq<Inbound>,
                                       attached: nat -> bool, k: nat)
    requires m.size < U64_LIMIT && inbox != []
    ensures var r := Receive(sha, m, next, fed, inbox, attached, k);
      && (inbox[0].Broken? ==> r == Received([], Err(TransportError)))
      && (inbox[0].OtherMsg? ==> r == Received([], Err(NotAChunk)))
      && (inbox[0].ChunkMsg? ==>
           var chunk := inbox[0].chunk;
           && (!Fits(m, next, chunk) ==> r == Received([Rejected], Err(BadChunk)))
           && (Fits(m, next, chunk) && !attached(k) ==>
                r == Received([Data(chunk.data)], Ok(NoDownloader(next + |chunk.data|))))
           && (Fits(m, next, chunk) && attached(k) && chunk.last ==>
                r == Received([Data(chunk.data)], Ok(Delivered(next + |chunk.data|, sha(fed + chunk.data))))))
  {
  }

  lemma {:induction false} ReceiveStops(sha: HashFn, m: Manifest, start: nat, inbox: seq<Inbound>,
                                        attached: nat -> bool, n: nat, stop: Stop)
    requires m.size < U64_LIMIT && StopsAt(m, start, inbox, attached, n, stop)
    ensures Receive(sha, m, start, [], inbox, attached, 0) ==
      var pushed := Pushed(inbox[..n]);
      match stop
      case RanOut => Received(pushed + [Failed], Err(MissingLast))
      case TransportBroke => Received(pushed, Err(TransportError))
      case NoChunk => Received(pushed, Err(NotAChunk))
      case Misfit => Received(pushed + [Rejected], Err(BadChunk))
      case Detached =>
        Received(pushed + [Data(inbox[n].chunk.data)], Ok(NoDownloader(start + |Payload(inbox[..n + 1])|)))
      case LastTaken =>
        var bytes := Payload(inbox[..n + 1]);
        Received(pushed + [Data(inbox[n].chunk.data)], Ok(Delivered(start + |bytes|, sha(bytes))))
  {
    ReceiveStart(sha, m, start, inbox, attached);
    ReceiveFar(sha, m, start, inbox, attached, n);
    if n < |inbox| {
      var before := Payload(inbox[..n]);
      ReceiveEnds(sha, m, start + |before|, before, inbox[n..], attached, n);
      if inbox[n].ChunkMsg? {
        OneMore(inbox, n);
      }
    }
  }

  /** How a delivery ends once its last chunk was taken. */
  function Verdict(sha: HashFn, m: Manifest, start: nat, bytes: Bytes): DeliveryEvent {
    if start + |bytes| != m.size then Failed
    else if start == 0 && sha(bytes) != m.digest then Rejected
    else Complete
  }

  /** Everything one RPC pushes, for every stream: the chunks taken, then the verdict. */
  lemma {:induction false} RpcPushes(sha: HashFn, m: Manifest, start: nat, inbox: seq<Inbound>,
                                     attached: nat -> bool, n: nat, stop: Stop)
    requires m.size < U64_LIMIT && StopsAt(m, start, inbox, attached, n, stop)
    ensures DeliverRpc(sha, m, start, inbox, attached) == Pushed(inbox[..n]) +
      (match stop
       case RanOut => [Failed]
       case TransportBroke => []
       case NoChunk => []
       case Misfit => [Rejected]
       case Detached => [Data(inbox[n].chunk.data)]
       case LastTaken => [Data(inbox[n].chunk.data), Verdict(sha, m, start, Payload(inbox[..n + 1]))])
  {
    ReceiveStops(sha, m, start, inbox, attached, n, stop);
  }

  ghost predicate EndsIn(pushes: seq<DeliveryEvent>, e: DeliveryEvent) {
    pushes != [] && pushes[|pushes| - 1] == e
  }

  lemma {:induction false} PushedIsData(inbox: seq<Inbound>)
    ensures forall i :: 0 <= i < |Pushed(inbox)| ==> Pushed(inbox)[i].Data?
  {
    if inbox != [] {
      PushedIsData(inbox[..|inbox| - 1]);
    }
  }

  /** For every stream: the download is told that it is complete, rejected or failed
      exactly on these grounds. */
  lemma {:induction false} RpcVerdictIff(sha: HashFn, m: Manifest, start: nat, inbox: seq<Inbound>,
                                         attached: nat -> bool)
    requires m.size < U64_LIMIT
    ensures EndsIn(DeliverRpc(sha, m, start, inbox, attached), Complete) <==>
      exists n :: StopsAt(m, start, inbox, attached, n, LastTaken)
        && start + |Payload(inbox[..n + 1])| == m.size && (start == 0 ==> sha(Payload(inbox[..n + 1])) == m.digest)
    ensures EndsIn(DeliverRpc(sha, m, start, inbox, attached), Rejected) <==>
      exists n :: StopsAt(m, start, inbox, attached, n, Misfit)
        || (StopsAt(m, start, inbox, attached, n, LastTaken)
            && start == 0 && |Payload(inbox[..n + 1])| == m.size && sha(Payload(inbox[..n + 1])) != m.digest)
    ensures EndsIn(DeliverRpc(sha, m, start, inbox, attached), Failed) <==>
      exists n :: StopsAt(m, start, inbox, attached, n, RanOut)
        || (StopsAt(m, start, inbox, attached, n, LastTaken) && start + |Payload(inbox[..n + 1])| != m.size)
  {
    var n, stop := AlwaysStops(m, start, inbox, attached);
    RpcPushes(sha, m, start, inbox, attached, n, stop);
    PushedIsData(inbox[..n]);
    forall n': nat, stop' | StopsAt(m, start, inbox, attached, n', stop') ensures n' == n && stop' == stop {
      StopsOnce(m, start, inbox, attached, n, stop, n', stop');
    }
  }

  /** A start is accepted exactly for an Artifact that is being delivered, with its
      manifest, its token, and the offset the table has committed. */
  lemma {:induction false} StartAcceptedIff(row: Row, start: Start)
    ensures ValidateDeliveryStart(row, start).Ok? <==>
      && row.delivering && start.manifest == row.manifest && row.token == Some(start.token)
      && start.offset == row.committedOffset && start.offset <= row.manifest.size
    ensures ValidateDeliveryStart(row, start).Ok? ==> ValidateDeliveryStart(row, start).value == row.manifest
  {
  }
}
