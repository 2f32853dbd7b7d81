/** How a Worker-local download goes on, resumes and ends: every run decided by
    what was observed in it, one budget of five setbacks included. */
module DeliveryEnds {
  import opened Common
  import opened Transfer
  import opened Delivery
  import opened DeliverySafety

  /** What one observation means: nothing final, a setback that is forgiven four
      times and ends the download the fifth time, or the end at once. */
  datatype Meaning = Harmless | Setback(fifth: End) | Final(end: End)

  /** Of what was observed while the control channel was asked to send. */
  function SendMeaning(outcome: SendOutcome): Meaning {
    match outcome
    case SendDelivered => Harmless
    case SendBackpressured => Setback(Expired)
    case SendOffline => Final(Lost)
  }

  /** Of a chunk, `room` bytes being expected before it. */
  function ChunkMeaning(length: nat, room: int, clientOpen: bool, persistOk: bool): Meaning {
    if length > 1048576 || length > room then Final(Lost)
    else if length == 0 || length == room then Harmless
    else if !clientOpen then Final(Expired)
    else if !persistOk then Final(Lost)
    else Harmless
  }

  /** Of the end of the content: the checks, then one last send and commit, unless
      the bytes from the start offset on are none; an empty Artifact is sent as one
      empty piece. */
  function CompleteMeaning(c: Config, s: State, clientOpen: bool, persistOk: bool): Meaning {
    var intact := s.offset == c.size && c.sha(s.hashed) == c.digest;
    var sends := c.size == 0 || c.start < c.size;
    Final(if !intact then Lost
          else if sends && !clientOpen then Expired
          else if c.start < c.size && !persistOk then Lost
          else Consumed)
  }

  /** An input that the phase does not look at means nothing. */
  function MeaningOf(c: Config, s: State, i: Input): Meaning {
    match (s.phase, i)
    case (Requesting, SendResult(outcome)) => SendMeaning(outcome)
    case (Draining, Taken(Push(Data(bytes)), clientOpen, persistOk)) =>
      ChunkMeaning(|bytes|, c.size - s.offset, clientOpen, persistOk)
    case (Draining, Taken(Push(Complete), clientOpen, persistOk)) => CompleteMeaning(c, s, clientOpen, persistOk)
    case (Draining, Taken(Push(Failed), _, _)) => Setback(Lost)
    case (Draining, Taken(Closed, _, _)) => Setback(Lost)
    case (Draining, Taken(Push(Rejected), _, _)) => Final(Lost)
    case (Draining, Taken(TimedOut, _, _)) => Final(Lost)
    case _ => Harmless
  }

  /** The state before the k-th input of a run. */
  function Before(c: Config, script: seq<Input>, k: nat): State
    requires k <= |script|
  {
    Run(c, Initial(c), script[..k])
  }

  function MeaningAt(c: Config, script: seq<Input>, k: nat): Meaning
    requires k < |script|
  {
    MeaningOf(c, Before(c, script, k), script[k])
  }

  function Setbacks(c: Config, script: seq<Input>): nat {
    if script == [] then 0
    else
      var n := |script| - 1;
      Setbacks(c, script[..n]) + (if MeaningAt(c, script, n).Setback? then 1 else 0)
  }

  predicate NothingFinal(c: Config, script: seq<Input>) {
    forall k :: 0 <= k < |script| ==> !MeaningAt(c, script, k).Final?
  }

  // ------------------------------------------------------------------ one input

  lemma {:induction false} ChunkMeans(c: Config, s: State, bytes: Bytes, clientOpen: bool, persistOk: bool)
    requires ValidConfig(c) && Inv(c, s) && s.phase.Draining?
    ensures var (m, after) := (ChunkMeaning(|bytes|, c.size - s.offset, clientOpen, persistOk),
                               StepData(c, s, bytes, clientOpen, persistOk));
      && (m == Harmless ==> after.phase == s.phase)
      && (m.Final? ==> after.phase == Ended(m.end))
      && after.attempts == s.attempts
  {
  }

  lemma {:induction false} CompleteMeans(c: Config, s: State, clientOpen: bool, persistOk: bool)
    requires ValidConfig(c) && Inv(c, s) && s.phase.Draining?
    ensures var after := StepComplete(c, s, clientOpen, persistOk);
      after.phase == Ended(CompleteMeaning(c, s, clientOpen, persistOk).end) && after.attempts == s.attempts
  {
  }

  /** A harmless input leaves a download going; a setback counts, and is followed by
      a fresh request or is the fifth; a final input ends it as it says. */
  lemma {:induction false} InputMeans(c: Config, s: State, i: Input)
    requires ValidConfig(c) && Inv(c, s)
    ensures var (m, after) := (MeaningOf(c, s, i), Step(c, s, i));
      && (m == Harmless ==> (after.phase.Ended? <==> s.phase.Ended?) && after.attempts == s.attempts)
      && (m.Setback? ==>
           && after == s.(phase := if s.attempts < 4 then Requesting else Ended(m.fifth), attempts := s.attempts + 1,
                          requests := s.requests + (if s.phase.Requesting? then 1 else 0)))
      && (m.Final? ==> after.phase == Ended(m.end) && after.attempts == s.attempts)
  {
    if s.phase.Draining? && i.Taken? && i.event.Push? {
      if i.event.event.Data? {
        ChunkMeans(c, s, i.event.event.bytes, i.clientOpen, i.persistOk);
      } else if i.event.event.Complete? {
        CompleteMeans(c, s, i.clientOpen, i.persistOk);
      }
    }
  }

  lemma {:induction false} OneMore(c: Config, script: seq<Input>)
    requires ValidConfig(c) && script != []
    ensures var n := |script| - 1;
      && Inv(c, Before(c, script, n)) && Before(c, script, n) == Run(c, Initial(c), script[..n])
      && Run(c, Initial(c), script) == Step(c, Before(c, script, n), script[n])
  {
    var n := |script| - 1;
    assert script == script[..n] + [script[n]];
    RunConcat(c, Initial(c), script[..n], [script[n]]);
    assert [script[n]][1..] == [];
    InitialInv(c);
    RunInv(c, Initial(c), script[..n]);
  }

  lemma {:induction false} BeforeInit(c: Config, script: seq<Input>)
    requires script != []
    ensures var init := script[..|script| - 1];
      (forall k :: 0 <= k < |init| ==> MeaningAt(c, script, k) == MeaningAt(c, init, k))
  {
    var init := script[..|script| - 1];
    forall k | 0 <= k < |init| ensures MeaningAt(c, script, k) == MeaningAt(c, init, k) {
      assert script[..k] == init[..k] && script[k] == init[k];
    }
  }

  // ------------------------------------------------------------------- whole runs

  /** Over every run: the attempts used are the setbacks met, and the download is
      still going on exactly if nothing final was observed and there were fewer than
      five of them. */
  lemma {:induction false} GoesOnIff(c: Config, script: seq<Input>)
    requires ValidConfig(c)
    ensures var s := Run(c, Initial(c), script);
      && s.attempts == Setbacks(c, script)
      && (!s.phase.Ended? <==> Setbacks(c, script) < 5 && NothingFinal(c, script))
  {
    if script != [] {
      var n := |script| - 1;
      OneMore(c, script);
      GoesOnIff(c, script[..n]);
      InputMeans(c, Before(c, script, n), script[n]);
      BeforeInit(c, script);
      FinalOrNot(c, script);
    }
  }

  lemma {:induction false} FinalOrNot(c: Config, script: seq<Input>)
    requires script != []
    ensures var n := |script| - 1;
      NothingFinal(c, script) <==> NothingFinal(c, script[..n]) && !MeaningAt(c, script, n).Final?
  {
    BeforeInit(c, script);
    var n := |script| - 1;
    if NothingFinal(c, script) {
      forall k | 0 <= k < n ensures !MeaningAt(c, script[..n], k).Final? {
        assert MeaningAt(c, script, k) == MeaningAt(c, script[..n], k);
      }
    }
  }

  /** Over every run: a download ends as lost, expired or consumed exactly with the
      first final input of that kind, or with the fifth setback of that kind. */
  lemma {:induction false} EndsAsIff(c: Config, script: seq<Input>, i: Input, end: End)
    requires ValidConfig(c) && !Run(c, Initial(c), script).phase.Ended?
    ensures var m := MeaningOf(c, Run(c, Initial(c), script), i);
      Run(c, Initial(c), script + [i]).phase == Ended(end) <==>
        m == Final(end) || (m == Setback(end) && Setbacks(c, script) == 4)
  {
    OneMore(c, script + [i]);
    assert (script + [i])[..|script|] == script;
    GoesOnIff(c, script);
    InputMeans(c, Run(c, Initial(c), script), i);
  }

  /** A delivered request is waited for. */
  lemma {:induction false} DeliveredRequestDrains(c: Config, script: seq<Input>)
    requires ValidConfig(c) && Run(c, Initial(c), script).phase.Requesting?
    ensures var s := Run(c, Initial(c), script);
      Run(c, Initial(c), script + [SendResult(SendDelivered)]) == s.(phase := Draining, requests := s.requests + 1)
  {
    OneMore(c, script + [SendResult(SendDelivered)]);
    assert (script + [SendResult(SendDelivered)])[..|script|] == script;
  }

  /** A stream that breaks, or whose Worker reports a failure, is asked for again:
      everything sent, hashed, held back and persisted so far stays as it is. */
  lemma {:induction false} BrokenStreamIsResumed(c: Config, script: seq<Input>, i: Input)
    requires ValidConfig(c) && i.Taken? && (i.event == Closed || i.event == Push(Failed))
    requires Run(c, Initial(c), script).phase.Draining? && Setbacks(c, script) < 4
    ensures var s := Run(c, Initial(c), script);
      Run(c, Initial(c), script + [i]) == s.(phase := Requesting, attempts := s.attempts + 1)
  {
    OneMore(c, script + [i]);
    assert (script + [i])[..|script|] == script;
    GoesOnIff(c, script);
    InputMeans(c, Run(c, Initial(c), script), i);
  }

  /** A chunk taken while the download goes on is hashed and counted; it is sent and
      persisted at once, or held back if it is the last. */
  lemma {:induction false} ChunkIsSentOrHeld(c: Config, script: seq<Input>, bytes: Bytes, clientOpen: bool, persistOk: bool)
    requires ValidConfig(c) && Run(c, Initial(c), script).phase.Draining?
    ensures var (s, after) := (Run(c, Initial(c), script),
                               Run(c, Initial(c), script + [Taken(Push(Data(bytes)), clientOpen, persistOk)]));
      after.phase.Draining? ==>
        && after.hashed == s.hashed + bytes && after.offset == s.offset + |bytes|
        && (after.offset < c.size ==>
             after.sent == s.sent + bytes && after.pending == None && after.persisted == s.persisted + |bytes|)
        && (after.offset == c.size && bytes != [] ==>
             after.sent == s.sent && after.pending == Some(bytes) && after.persisted == s.persisted)
  {
    var i := Taken(Push(Data(bytes)), clientOpen, persistOk);
    OneMore(c, script + [i]);
    assert (script + [i])[..|script|] == script;
    StepInv(c, Run(c, Initial(c), script), i);
    var s := Run(c, Initial(c), script);
    assert bytes == [] ==> s.hashed + bytes == s.hashed && s.sent + bytes == s.sent;
  }
}
