/** The arithmetic of the WebM writer: packet planning, end trimming, the two-track
    merge and the Opus header. Rounding is of exact rationals. */
module WebM {
  import opened Common
  import opened Lists

  const OPUS_SAMPLE_RATE: nat := 48000
  const OPUS_CHANNELS: nat := 2
  const OPUS_FRAME_SAMPLES: nat := 960
  const OPUS_FRAME_DURATION_NS: nat := 20_000_000
  const SECOND_NS: nat := 1_000_000_000

  /** Bound of the `int` frame count. */
  const INT_MAX: nat := 0x7fff_ffff

  /** Bound of what `llround` can return. */
  const INT64_MAX: nat := 0x7fff_ffff_ffff_ffff

  // ------------------------------------------------------------------ rounding

  /** Half away from zero, of a non-negative quotient. */
  function Rounded(n: nat, d: nat): nat
    requires d > 0
  {
    (2 * n + d) / (2 * d)
  }

  lemma {:induction false} DivideBounds(n: nat, d: nat)
    requires d > 0
    ensures d * (n / d) <= n < d * (n / d) + d
  {
  }

  lemma {:induction false} QuotientIs(n: nat, d: nat, q: nat)
    requires d > 0 && d * q <= n < d * q + d
    ensures n / d == q
  {
    DivideBounds(n, d);
    var r := n / d;
    if r < q {
      MultiplyMonotone(d, r + 1, q);
    } else if r > q {
      MultiplyMonotone(d, q + 1, r);
    }
  }

  lemma {:induction false} MultiplyMonotone(d: nat, a: nat, b: nat)
    requires a <= b
    ensures d * a <= d * b
  {
  }

  lemma {:induction false} QuotientBelow(n: nat, d: nat, k: nat)
    requires d > 0 && n < d * k
    ensures n / d < k
  {
    DivideBounds(n, d);
    if n / d >= k {
      MultiplyMonotone(d, k, n / d);
    }
  }

  /** Within half of the divisor, and only that close. */
  lemma {:induction false} RoundedIs(n: nat, d: nat, q: nat)
    requires d > 0
    ensures Rounded(n, d) == q <==> 2 * d * q - d <= 2 * n < 2 * d * q + d
  {
    DivideBounds(2 * n + d, 2 * d);
    if 2 * d * q - d <= 2 * n < 2 * d * q + d {
      QuotientIs(2 * n + d, 2 * d, q);
    }
  }

  /** `rounded_sample_count`: fails below one and above the 64-bit range. */
  function RoundedSampleCount(frames: nat, rate: nat, denominator: nat): Option<nat>
    requires denominator > 0
  {
    if frames * rate < denominator || 2 * frames * rate > (2 * U64_LIMIT - 3) * denominator then None
    else Some(Rounded(frames * rate, denominator))
  }

  /** `rounded_video_timestamp_ns`. */
  function RoundedVideoTimestamp(index: nat, fps: nat): Option<nat>
    requires fps > 0
  {
    if 2 * index * SECOND_NS > (2 * U64_LIMIT - 3) * fps then None
    else Some(Rounded(index * SECOND_NS, fps))
  }

  function VideoTimestamp(index: nat, fps: nat): nat
    requires fps > 0
  {
    Rounded(index * SECOND_NS, fps)
  }

  function AudioTimestamp(index: nat): nat {
    index * OPUS_FRAME_DURATION_NS
  }

  lemma {:induction false} RoundedAtMost(n: nat, d: nat, limit: nat)
    requires d > 0 && n <= limit
    ensures Rounded(n, d) <= limit
  {
    assert 2 * d * n >= 2 * n;
    assert 2 * d * (n + 1) == 2 * d * n + 2 * d;
    QuotientBelow(2 * n + d, 2 * d, n + 1);
  }

  /** For any frame a caller can name, the timestamp is in range, also for the
      signed result of `llround`. */
  lemma {:induction false} VideoTimestampInRange(index: nat, fps: nat)
    requires index <= INT_MAX && fps > 0
    ensures RoundedVideoTimestamp(index, fps) == Some(VideoTimestamp(index, fps))
    ensures VideoTimestamp(index, fps) <= INT64_MAX
  {
    RoundedAtMost(index * SECOND_NS, fps, INT64_MAX);
    assert 2 * index * SECOND_NS <= 2 * U64_LIMIT - 3;
    assert (2 * U64_LIMIT - 3) * 1 <= (2 * U64_LIMIT - 3) * fps;
  }

  /** Frames are more than a nanosecond apart. */
  lemma {:induction false} VideoTimestampsIncrease(i: nat, j: nat, fps: nat)
    requires 0 < fps <= 240 && i < j
    ensures VideoTimestamp(i, fps) < VideoTimestamp(j, fps)
  {
    var (a, b, d) := (2 * (i * SECOND_NS) + fps, 2 * (j * SECOND_NS) + fps, 2 * fps);
    assert i * SECOND_NS + SECOND_NS <= j * SECOND_NS;
    DivideBounds(b, d);
    QuotientBelow(a, d, b / d);
  }

  // ------------------------------------------------------------ packet planning

  datatype Plan = Plan(outputSamples: nat, packetCount: nat)

  datatype PlanError = BadVideo | BadAudio | DurationLimits | DurationsDiffer | ResamplerLimits | PacketLimits

  function CeilDiv(n: nat, d: nat): nat
    requires d > 0
  {
    (n + d - 1) / d
  }

  function Distance(a: nat, b: nat): nat {
    if a > b then a - b else b - a
  }

  /** The checks and counts of `write_webm` before any packet is made. The sample
      data, the resampler and the encoder are foreign; `lookahead` is what the
      encoder reports. */
  function PlanAudio(frameCount: int, fps: int, sampleCount: nat, sampleRate: nat, lookahead: nat)
    : Result<Plan, PlanError>
  {
    if frameCount <= 0 || fps <= 0 || fps > 240 then Err(BadVideo)
    else if sampleCount == 0 || sampleRate == 0 then Err(BadAudio)
    else
      var duration := RoundedSampleCount(frameCount, SECOND_NS, fps);
      var output := RoundedSampleCount(frameCount, OPUS_SAMPLE_RATE, fps);
      var natural := RoundedSampleCount(sampleCount, OPUS_SAMPLE_RATE, sampleRate);
      if duration == None || output == None || natural == None then Err(DurationLimits)
      else if Distance(natural.value, output.value) > CeilDiv(OPUS_SAMPLE_RATE, fps) then Err(DurationsDiffer)
      else if sampleRate < 8000 || sampleRate > 192000
              || sampleCount > INT64_MAX || output.value > INT64_MAX
              || sampleCount > (U64_LIMIT - 1) / OPUS_CHANNELS
              || output.value > (U64_LIMIT - 1) / (4 * OPUS_CHANNELS) then Err(ResamplerLimits)
      else if output.value > U64_LIMIT - 1 - lookahead then Err(PacketLimits)
      else
        var packets := ((output.value + lookahead + OPUS_FRAME_SAMPLES - 1) % U64_LIMIT) / OPUS_FRAME_SAMPLES;
        if packets == 0 || packets > (U64_LIMIT - 1) / OPUS_FRAME_SAMPLES then Err(PacketLimits)
        else Ok(Plan(output.value, packets))
  }

  lemma {:induction false} OutputSamplesBound(frameCount: nat, fps: nat)
    requires 0 < frameCount <= INT_MAX && fps > 0
    ensures Rounded(frameCount * OPUS_SAMPLE_RATE, fps) <= INT_MAX * OPUS_SAMPLE_RATE
  {
    RoundedAtMost(frameCount * OPUS_SAMPLE_RATE, fps, INT_MAX * OPUS_SAMPLE_RATE);
  }

  lemma {:induction false} CeilDivIs(n: nat, d: nat)
    requires d > 0
    ensures n <= d * CeilDiv(n, d) < n + d
  {
    DivideBounds(n + d - 1, d);
  }

  /** The packets hold the pre-skip, every output sample and a tail of at most
      959 samples of padding, none of it lost to wrap-around. */
  lemma {:induction false} PacketsFitExactly(frameCount: int, fps: int, sampleCount: nat, sampleRate: nat,
                                             lookahead: nat)
    requires frameCount <= INT_MAX && lookahead <= 0xffff
    requires PlanAudio(frameCount, fps, sampleCount, sampleRate, lookahead).Ok?
    ensures var plan := PlanAudio(frameCount, fps, sampleCount, sampleRate, lookahead).value;
      && plan.outputSamples == Rounded(frameCount * OPUS_SAMPLE_RATE, fps)
      && plan.packetCount == CeilDiv(plan.outputSamples + lookahead, OPUS_FRAME_SAMPLES)
      && 0 <= plan.packetCount * OPUS_FRAME_SAMPLES - plan.outputSamples - lookahead <= 959
      && plan.packetCount * OPUS_FRAME_SAMPLES < U64_LIMIT
      && plan.packetCount * OPUS_FRAME_DURATION_NS < U64_LIMIT
  {
    var plan := PlanAudio(frameCount, fps, sampleCount, sampleRate, lookahead).value;
    OutputSamplesBound(frameCount, fps);
    PacketArithmetic(plan.outputSamples, lookahead);
  }

  lemma {:induction false} PacketArithmetic(output: nat, lookahead: nat)
    requires output <= INT_MAX * OPUS_SAMPLE_RATE && lookahead <= 0xffff
    ensures (output + lookahead + OPUS_FRAME_SAMPLES - 1) % U64_LIMIT == output + lookahead + OPUS_FRAME_SAMPLES - 1
    ensures var packets := CeilDiv(output + lookahead, OPUS_FRAME_SAMPLES);
      && 0 <= packets * OPUS_FRAME_SAMPLES - output - lookahead <= 959
      && packets * OPUS_FRAME_SAMPLES < U64_LIMIT
      && packets * OPUS_FRAME_DURATION_NS < U64_LIMIT
  {
    CeilDivIs(output + lookahead, OPUS_FRAME_SAMPLES);
  }

  lemma {:induction false} VideoCountsInRange(frameCount: nat, rate: nat, fps: nat)
    requires 0 < frameCount <= INT_MAX && 0 < fps <= 240 && 240 <= rate <= SECOND_NS
    ensures RoundedSampleCount(frameCount, rate, fps) == Some(Rounded(frameCount * rate, fps))
  {
    MultiplyMonotone(frameCount, 240, rate);
    MultiplyMonotone(frameCount, rate, SECOND_NS);
    assert frameCount * rate >= fps && 2 * frameCount * rate <= 2 * U64_LIMIT - 3;
    MultiplyMonotone(2 * U64_LIMIT - 3, 1, fps);
  }

  /** At up to 192 kHz the source has at most about four times as many samples. */
  lemma {:induction false} SourceSamplesBound(sampleCount: nat, sampleRate: nat, natural: nat)
    requires 0 < sampleRate <= 192000 && Rounded(sampleCount * OPUS_SAMPLE_RATE, sampleRate) == natural
    ensures sampleCount <= 4 * natural + 2
  {
    RoundedIs(sampleCount * OPUS_SAMPLE_RATE, sampleRate, natural);
    assert 2 * sampleRate * natural + sampleRate == sampleRate * (2 * natural + 1);
    MultiplyMonotone(2 * natural + 1, sampleRate, 192000);
  }

  /** Audio of a usable rate that is within one video frame of the video. */
  predicate Matching(frameCount: nat, fps: nat, sampleCount: nat, sampleRate: nat)
    requires fps > 0
  {
    && sampleCount > 0 && 8000 <= sampleRate <= 192000
    && var natural := RoundedSampleCount(sampleCount, OPUS_SAMPLE_RATE, sampleRate);
    && natural.Some?
    && Distance(natural.value, Rounded(frameCount * OPUS_SAMPLE_RATE, fps)) <= CeilDiv(OPUS_SAMPLE_RATE, fps)
  }

  /** For counts a caller can pass, planning succeeds exactly for matching audio:
      none of the range checks after that one can fail. */
  lemma {:induction false} PlanSucceedsIff(frameCount: int, fps: int, sampleCount: nat, sampleRate: nat,
                                           lookahead: nat)
    requires frameCount <= INT_MAX && lookahead <= 0xffff
    ensures PlanAudio(frameCount, fps, sampleCount, sampleRate, lookahead).Ok? <==>
      frameCount > 0 && 0 < fps <= 240 && Matching(frameCount, fps, sampleCount, sampleRate)
  {
    if frameCount > 0 && 0 < fps <= 240 {
      VideoCountsInRange(frameCount, SECOND_NS, fps);
      VideoCountsInRange(frameCount, OPUS_SAMPLE_RATE, fps);
      OutputSamplesBound(frameCount, fps);
      var output := Rounded(frameCount * OPUS_SAMPLE_RATE, fps);
      PacketArithmetic(output, lookahead);
      CeilDivIs(OPUS_SAMPLE_RATE, fps);
      ToleranceBound(fps);
      if Matching(frameCount, fps, sampleCount, sampleRate) {
        var natural := RoundedSampleCount(sampleCount, OPUS_SAMPLE_RATE, sampleRate).value;
        SourceSamplesBound(sampleCount, sampleRate, natural);
        PacketsPositive(output, lookahead, frameCount, fps);
      }
    }
  }

  lemma {:induction false} ToleranceBound(fps: nat)
    requires fps > 0
    ensures CeilDiv(OPUS_SAMPLE_RATE, fps) <= OPUS_SAMPLE_RATE
  {
    MultiplyMonotone(OPUS_SAMPLE_RATE + 1, 1, fps);
    QuotientBelow(OPUS_SAMPLE_RATE + fps - 1, fps, OPUS_SAMPLE_RATE + 1);
  }

  lemma {:induction false} PacketsPositive(output: nat, lookahead: nat, frameCount: nat, fps: nat)
    requires 0 < frameCount && 0 < fps <= 240 && output == Rounded(frameCount * OPUS_SAMPLE_RATE, fps)
    ensures CeilDiv(output + lookahead, OPUS_FRAME_SAMPLES) > 0
  {
    RoundedIs(frameCount * OPUS_SAMPLE_RATE, fps, output);
    CeilDivIs(output + lookahead, OPUS_FRAME_SAMPLES);
  }

  // ------------------------------------------------------------------- trimming

  /** Samples to nanoseconds, as written for CodecDelay and DiscardPadding. */
  function SamplesToNs(samples: nat): nat {
    (samples * SECOND_NS + OPUS_SAMPLE_RATE / 2) / OPUS_SAMPLE_RATE
  }

  function NsToSamples(ns: nat): nat {
    Rounded(ns * OPUS_SAMPLE_RATE, SECOND_NS)
  }

  /** A reader that rounds the nanoseconds back gets the exact sample count. */
  lemma {:induction false} TrimRoundTrip(samples: nat)
    ensures NsToSamples(SamplesToNs(samples)) == samples
  {
    DivideBounds(samples * SECOND_NS + OPUS_SAMPLE_RATE / 2, OPUS_SAMPLE_RATE);
    RoundedIs(SamplesToNs(samples) * OPUS_SAMPLE_RATE, SECOND_NS, samples);
  }

  /** For a pre-skip or a padding the 64-bit product does not wrap. */
  lemma {:induction false} TrimInRange(samples: nat)
    requires samples <= 0xffff
    ensures samples * SECOND_NS + OPUS_SAMPLE_RATE / 2 < U64_LIMIT && SamplesToNs(samples) <= INT64_MAX
  {
  }

  // ----------------------------------------------------------------- packet data

  /** The interleaved input of one packet: silence after the audio's end. */
  function PacketSamples(audio: seq<real>, index: nat): (r: seq<real>)
    ensures |r| == OPUS_FRAME_SAMPLES * OPUS_CHANNELS
  {
    var start := index * (OPUS_FRAME_SAMPLES * OPUS_CHANNELS);
    seq(OPUS_FRAME_SAMPLES * OPUS_CHANNELS, i requires 0 <= i =>
      if start + i < |audio| then audio[start + i] else 0.0)
  }

  /** The input loop of `encode_and_add_opus`. */
  method FillPacket(audio: seq<real>, outputSamples: nat, index: nat) returns (input: array<real>)
    requires |audio| == outputSamples * OPUS_CHANNELS
    ensures fresh(input) && input[..] == PacketSamples(audio, index)
  {
    input := new real[OPUS_FRAME_SAMPLES * OPUS_CHANNELS](_ => 0.0);
    var offset := index * OPUS_FRAME_SAMPLES;
    for i := 0 to OPUS_FRAME_SAMPLES
      invariant input.Length == OPUS_FRAME_SAMPLES * OPUS_CHANNELS
      invariant forall j :: 0 <= j < 2 * i ==> input[j] == PacketSamples(audio, index)[j]
    {
      var sample := offset + i;
      var left := if sample < outputSamples then audio[sample * OPUS_CHANNELS] else 0.0;
      var right := if sample < outputSamples then audio[sample * OPUS_CHANNELS + 1] else 0.0;
      input[i * OPUS_CHANNELS] := left;
      input[i * OPUS_CHANNELS + 1] := right;
    }
  }

  function AllPackets(audio: seq<real>, count: nat): (r: seq<real>)
    ensures |r| == count * (OPUS_FRAME_SAMPLES * OPUS_CHANNELS)
  {
    if count == 0 then [] else AllPackets(audio, count - 1) + PacketSamples(audio, count - 1)
  }

  /** Together the packets carry the audio, each sample once and in place, and then
      nothing but silence. */
  lemma {:induction false} PacketsCarryAudio(audio: seq<real>, count: nat, j: nat)
    requires j < count * (OPUS_FRAME_SAMPLES * OPUS_CHANNELS)
    ensures AllPackets(audio, count)[j] == if j < |audio| then audio[j] else 0.0
  {
    if j < (count - 1) * (OPUS_FRAME_SAMPLES * OPUS_CHANNELS) {
      PacketsCarryAudio(audio, count - 1, j);
    }
  }

  // ------------------------------------------------------------------ the merge

  datatype Emission = Video(index: nat, timestamp: nat) | Audio(index: nat, timestamp: nat)

  /** By time; at the same time video first. */
  function ByTime(): (Emission, Emission) -> bool {
    (a: Emission, b: Emission) => a.timestamp < b.timestamp || (a.timestamp == b.timestamp && a.Video? && b.Audio?)
  }

  function Videos(count: nat, fps: nat): seq<Emission>
    requires fps > 0
  {
    if count == 0 then [] else Videos(count - 1, fps) + [Video(count - 1, VideoTimestamp(count - 1, fps))]
  }

  function Audios(count: nat): seq<Emission> {
    if count == 0 then [] else Audios(count - 1) + [Audio(count - 1, AudioTimestamp(count - 1))]
  }

  /** Everything emitted so far comes before `e`. */
  ghost predicate AllBefore(out: seq<Emission>, e: Emission) {
    forall i :: 0 <= i < |out| ==> ByTime()(out[i], e)
  }

  lemma {:induction false} AppendKeepsOrder(out: seq<Emission>, e: Emission)
    requires Ascending(ByTime(), out) && AllBefore(out, e)
    ensures Ascending(ByTime(), out + [e])
  {
  }

  lemma {:induction false} AppendStaysBefore(out: seq<Emission>, e: Emission, f: Emission)
    requires AllBefore(out, f) && ByTime()(e, f)
    ensures AllBefore(out + [e], f)
  {
  }

  lemma {:induction false} LaterStill(out: seq<Emission>, e: Emission, f: Emission)
    requires AllBefore(out, e) && e.timestamp < f.timestamp
    ensures AllBefore(out + [e], f)
  {
  }

  /** `out` is the merge of the first `v` frames and the first `a` packets. */
  ghost predicate MergedTo(out: seq<Emission>, v: nat, a: nat, fps: nat)
    requires fps > 0
  {
    && Ascending(ByTime(), out)
    && multiset(out) == multiset(Videos(v, fps)) + multiset(Audios(a))
  }

  /** What is still to come is later than all of `out`. */
  ghost predicate AheadOf(out: seq<Emission>, v: nat, a: nat, frameCount: nat, packetCount: nat, fps: nat)
    requires fps > 0
  {
    && (v < frameCount ==> AllBefore(out, Video(v, VideoTimestamp(v, fps))))
    && (a < packetCount ==> AllBefore(out, Audio(a, AudioTimestamp(a))))
  }

  lemma {:induction false} EmitVideo(out: seq<Emission>, v: nat, a: nat, frameCount: nat, packetCount: nat, fps: nat)
    requires 0 < fps <= 240 && MergedTo(out, v, a, fps) && AheadOf(out, v, a, frameCount, packetCount, fps)
    requires v < frameCount && (a < packetCount ==> VideoTimestamp(v, fps) <= AudioTimestamp(a))
    ensures MergedTo(out + [Video(v, VideoTimestamp(v, fps))], v + 1, a, fps)
    ensures AheadOf(out + [Video(v, VideoTimestamp(v, fps))], v + 1, a, frameCount, packetCount, fps)
  {
    var e := Video(v, VideoTimestamp(v, fps));
    AppendKeepsOrder(out, e);
    VideoTimestampsIncrease(v, v + 1, fps);
    LaterStill(out, e, Video(v + 1, VideoTimestamp(v + 1, fps)));
    if a < packetCount {
      AppendStaysBefore(out, e, Audio(a, AudioTimestamp(a)));
    }
  }

  lemma {:induction false} EmitAudio(out: seq<Emission>, v: nat, a: nat, frameCount: nat, packetCount: nat, fps: nat)
    requires 0 < fps <= 240 && MergedTo(out, v, a, fps) && AheadOf(out, v, a, frameCount, packetCount, fps)
    requires a < packetCount && (v < frameCount ==> AudioTimestamp(a) < VideoTimestamp(v, fps))
    ensures MergedTo(out + [Audio(a, AudioTimestamp(a))], v, a + 1, fps)
    ensures AheadOf(out + [Audio(a, AudioTimestamp(a))], v, a + 1, frameCount, packetCount, fps)
  {
    var e := Audio(a, AudioTimestamp(a));
    AppendKeepsOrder(out, e);
    LaterStill(out, e, Audio(a + 1, AudioTimestamp(a + 1)));
    if v < frameCount {
      AppendStaysBefore(out, e, Video(v, VideoTimestamp(v, fps)));
    }
  }

  /** Whether the next thing to write is a frame. */
  predicate VideoIsNext(v: nat, a: nat, frameCount: nat, packetCount: nat, fps: nat)
    requires fps > 0
  {
    v < frameCount && (a >= packetCount || VideoTimestamp(v, fps) <= AudioTimestamp(a))
  }

  /** One decision of the loop; the timestamps are 64-bit, an exhausted video track
      counts as the largest one. `None` is the out-of-range error. */
  method NextEmission(v: nat, a: nat, frameCount: nat, packetCount: nat, fps: nat) returns (e: Option<Emission>)
    requires (v < frameCount || a < packetCount) && frameCount <= INT_MAX && 0 < fps <= 240
    requires a <= packetCount && packetCount * OPUS_FRAME_DURATION_NS < U64_LIMIT
    ensures e == Some(if VideoIsNext(v, a, frameCount, packetCount, fps) then Video(v, VideoTimestamp(v, fps))
                      else Audio(a, AudioTimestamp(a)))
  {
    var videoTimestamp := U64_LIMIT - 1;
    if v < frameCount {
      var rounded := RoundedVideoTimestamp(v, fps);
      VideoTimestampInRange(v, fps);
      if rounded == None {
        return None;
      }
      videoTimestamp := rounded.value;
    }
    var audioTimestamp := AudioTimestamp(a) % U64_LIMIT;
    if v < frameCount && (a >= packetCount || videoTimestamp <= audioTimestamp) {
      return Some(Video(v, videoTimestamp));
    }
    return Some(Audio(a, audioTimestamp));
  }

  /** The merge so far, with everything still to come later than it. */
  ghost predicate Progress(out: seq<Emission>, v: nat, a: nat, frameCount: nat, packetCount: nat, fps: nat)
    requires fps > 0
  {
    && v <= frameCount && a <= packetCount && MergedTo(out, v, a, fps)
    && AheadOf(out, v, a, frameCount, packetCount, fps)
  }

  lemma {:induction false} EmitNext(out: seq<Emission>, v: nat, a: nat, frameCount: nat, packetCount: nat, fps: nat,
                                    e: Emission)
    requires 0 < fps <= 240 && Progress(out, v, a, frameCount, packetCount, fps)
    requires v < frameCount || a < packetCount
    requires e == if VideoIsNext(v, a, frameCount, packetCount, fps) then Video(v, VideoTimestamp(v, fps))
                  else Audio(a, AudioTimestamp(a))
    ensures Progress(out + [e], if e.Video? then v + 1 else v, if e.Video? then a else a + 1,
                     frameCount, packetCount, fps)
  {
    if e.Video? {
      EmitVideo(out, v, a, frameCount, packetCount, fps);
    } else {
      EmitAudio(out, v, a, frameCount, packetCount, fps);
    }
  }

  /** One round of the loop. */
  method EmitOne(emitted: seq<Emission>, v: nat, a: nat, frameCount: nat, packetCount: nat, fps: nat)
    returns (ok: bool, after: seq<Emission>, v': nat, a': nat)
    requires frameCount <= INT_MAX && 0 < fps <= 240 && packetCount * OPUS_FRAME_DURATION_NS < U64_LIMIT
    requires Progress(emitted, v, a, frameCount, packetCount, fps) && (v < frameCount || a < packetCount)
    ensures ok && Progress(after, v', a', frameCount, packetCount, fps) && v' + a' == v + a + 1
  {
    var e := NextEmission(v, a, frameCount, packetCount, fps);
    if e == None {
      return false, emitted, v, a;
    }
    EmitNext(emitted, v, a, frameCount, packetCount, fps, e.value);
    after := emitted + [e.value];
    v' := if e.value.Video? then v + 1 else v;
    a' := if e.value.Video? then a else a + 1;
    ok := true;
  }

  /** The merge loop of `write_webm`: every frame and packet once, in the order of
      `ByTime`. The error cannot happen for counts a caller can pass. */
  method MergeTracks(frameCount: nat, fps: nat, packetCount: nat)
    returns (out: Option<seq<Emission>>)
    requires 0 < frameCount <= INT_MAX && 0 < fps <= 240
    requires packetCount * OPUS_FRAME_DURATION_NS < U64_LIMIT
    ensures out.Some? && MergedTo(out.value, frameCount, packetCount, fps)
  {
    var emitted: seq<Emission> := [];
    var v: nat, a: nat := 0, 0;
    while v < frameCount || a < packetCount
      invariant Progress(emitted, v, a, frameCount, packetCount, fps)
      decreases frameCount + packetCount - v - a
    {
      var ok;
      ok, emitted, v, a := EmitOne(emitted, v, a, frameCount, packetCount, fps);
      if !ok {
        return None;
      }
    }
    return Some(emitted);
  }

  /** There is only one such order, so the merge is determined by the counts. */
  lemma {:induction false} MergeIsUnique(a: seq<Emission>, b: seq<Emission>)
    requires Ascending(ByTime(), a) && Ascending(ByTime(), b) && multiset(a) == multiset(b)
    ensures a == b
  {
    assert Strict(ByTime());
    AscendingUnique(ByTime(), a, b);
  }

  /** Each track keeps its own order inside the merged one. */
  lemma {:induction false} TracksStayInOrder(out: seq<Emission>, frameCount: nat, fps: nat, packetCount: nat,
                                             i: nat, j: nat)
    requires 0 < fps <= 240 && i < j < |out| && MergedTo(out, frameCount, packetCount, fps)
    ensures out[i].Video? && out[j].Video? ==> out[i].index < out[j].index < frameCount
    ensures out[i].Audio? && out[j].Audio? ==> out[i].index < out[j].index < packetCount
    ensures out[i].timestamp <= out[j].timestamp
    ensures out[i].timestamp == out[j].timestamp ==> out[i].Video? && out[j].Audio?
  {
    EmissionIs(out, frameCount, fps, packetCount, out[i]);
    EmissionIs(out, frameCount, fps, packetCount, out[j]);
    assert ByTime()(out[i], out[j]);
    if out[i].Video? && out[j].Video? && out[j].index < out[i].index {
      VideoTimestampsIncrease(out[j].index, out[i].index, fps);
    }
  }

  lemma {:induction false} EmissionIs(out: seq<Emission>, frameCount: nat, fps: nat, packetCount: nat, e: Emission)
    requires fps > 0 && e in out
    requires multiset(out) == multiset(Videos(frameCount, fps)) + multiset(Audios(packetCount))
    ensures e.Video? ==> e.index < frameCount && e.timestamp == VideoTimestamp(e.index, fps)
    ensures e.Audio? ==> e.index < packetCount && e.timestamp == AudioTimestamp(e.index)
  {
    assert e in multiset(out);
    VideosAre(frameCount, fps);
    AudiosAre(packetCount);
  }

  lemma {:induction false} VideosAre(count: nat, fps: nat)
    requires fps > 0
    ensures forall e :: e in Videos(count, fps) ==>
      e.Video? && e.index < count && e.timestamp == VideoTimestamp(e.index, fps)
  {
    if count > 0 {
      VideosAre(count - 1, fps);
    }
  }

  lemma {:induction false} AudiosAre(count: nat)
    ensures forall e :: e in Audios(count) ==>
      e.Audio? && e.index < count && e.timestamp == AudioTimestamp(e.index)
  {
    if count > 0 {
      AudiosAre(count - 1);
    }
  }

  // -------------------------------------------------------------- codec private

  function LittleEndian(bytes: Bytes): nat {
    if bytes == [] then 0 else bytes[0] + 256 * LittleEndian(bytes[1..])
  }

  /** "OpusHead", then version, channels, pre-skip, input rate, gain and mapping
      family. */
  function OpusHead(lookahead: nat): Bytes {
    [79, 112, 117, 115, 72, 101, 97, 100,
     1, OPUS_CHANNELS as byte,
     (lookahead % 256) as byte, (lookahead / 256 % 256) as byte,
     (OPUS_SAMPLE_RATE % 256) as byte, (OPUS_SAMPLE_RATE / 256 % 256) as byte,
     (OPUS_SAMPLE_RATE / 65536 % 256) as byte, (OPUS_SAMPLE_RATE / 16777216 % 256) as byte,
     0, 0, 0]
  }

  /** The identification header of section 5.1 of RFC 7845: the 16-bit little-endian
      pre-skip is the lookahead, the 32-bit rate 48000, the gain and the mapping
      family zero. The pre-skip is exact for exactly the values that the encoder
      configuration lets through. */
  lemma {:induction false} OpusHeadFields(lookahead: nat)
    ensures var head := OpusHead(lookahead);
      && |head| == 19 && head[8] == 1 && head[9] == 2
      && (LittleEndian(head[10..12]) == lookahead <==> lookahead <= 0xffff)
      && LittleEndian(head[12..16]) == 48000
      && LittleEndian(head[16..18]) == 0 && head[18] == 0
  {
    var head := OpusHead(lookahead);
    LittleEndian2(head[10..12]);
    LittleEndian4(head[12..16]);
    LittleEndian2(head[16..18]);
  }

  lemma {:induction false} LittleEndian2(b: Bytes)
    requires |b| == 2
    ensures LittleEndian(b) == b[0] as int + 256 * b[1] as int
  {
    assert b[1..][1..] == [];
    assert LittleEndian(b[1..]) == b[1] as int + 256 * LittleEndian([]);
  }

  lemma {:induction false} LittleEndian4(b: Bytes)
    requires |b| == 4
    ensures LittleEndian(b) == b[0] as int + 256 * b[1] as int + 65536 * b[2] as int + 16777216 * b[3] as int
  {
    LittleEndian2(b[2..]);
    assert b[1..][1..] == b[2..];
  }

  // ---------------------------------------------------------- in numbers alone

  /** `q` is the whole number nearest to n / d, the upper one of two. */
  predicate Nearest(q: nat, n: nat, d: nat) {
    2 * d * q - d <= 2 * n < 2 * d * q + d
  }

  /** A frame is shown at the nanosecond nearest to its place at that rate. */
  lemma {:induction false} FrameIsOnTime(index: nat, fps: nat)
    requires fps > 0
    ensures Nearest(VideoTimestamp(index, fps), index * 1_000_000_000, fps)
  {
    RoundedIs(index * SECOND_NS, fps, VideoTimestamp(index, fps));
  }

  /** A packet is played exactly when the stereo samples of the packets before it have
      been, at 48 kHz. */
  lemma {:induction false} PacketIsOnTime(audio: seq<real>, index: nat)
    ensures AudioTimestamp(index) * 48000 == |AllPackets(audio, index)| / 2 * 1_000_000_000
    ensures |PacketSamples(audio, index)| == 2 * 960
  {
    assert |AllPackets(audio, index)| == 2 * (960 * index);
  }

  /** `f` is the length of one video frame in samples, rounded up. */
  predicate FrameLength(f: nat, fps: nat) {
    48000 <= f * fps < 48000 + fps
  }

  lemma {:induction false} CeilDivIff(n: nat, d: nat, q: nat)
    requires d > 0
    ensures n <= q * d < n + d <==> q == CeilDiv(n, d)
  {
    CeilDivIs(n, d);
    var c := CeilDiv(n, d);
    if n <= q * d < n + d {
      if q < c {
        MultiplyMonotone(d, q + 1, c);
      } else if c < q {
        MultiplyMonotone(d, c + 1, q);
      }
    }
  }

  /** The audio has at least one sample at 48 kHz, and its nearest length there and
      that of the video differ by at most one frame. */
  ghost predicate WithinAFrame(frameCount: nat, fps: nat, sampleCount: nat, sampleRate: nat) {
    && sampleRate <= sampleCount * 48000
    && exists natural: nat, output: nat, f: nat ::
         && Nearest(natural, sampleCount * 48000, sampleRate) && Nearest(output, frameCount * 48000, fps)
         && FrameLength(f, fps) && natural <= output + f && output <= natural + f
  }

  lemma {:induction false} NaturalLength(sampleCount: nat, sampleRate: nat, natural: nat)
    requires sampleRate > 0 && natural <= INT_MAX * OPUS_SAMPLE_RATE + OPUS_SAMPLE_RATE
    ensures RoundedSampleCount(sampleCount, OPUS_SAMPLE_RATE, sampleRate) == Some(natural) <==>
      sampleRate <= sampleCount * 48000 && Nearest(natural, sampleCount * 48000, sampleRate)
  {
    RoundedIs(sampleCount * OPUS_SAMPLE_RATE, sampleRate, natural);
    if Nearest(natural, sampleCount * 48000, sampleRate) {
      assert 2 * sampleRate * natural + sampleRate == (2 * natural + 1) * sampleRate;
      MultiplyMonotone(sampleRate, 2 * natural + 1, 2 * U64_LIMIT - 3);
    }
  }

  lemma {:induction false} MatchingIff(frameCount: nat, fps: nat, sampleCount: nat, sampleRate: nat)
    requires 0 < frameCount <= INT_MAX && 0 < fps <= 240 && sampleCount > 0 && 8000 <= sampleRate <= 192000
    ensures Matching(frameCount, fps, sampleCount, sampleRate) <==> WithinAFrame(frameCount, fps, sampleCount, sampleRate)
  {
    var output := Rounded(frameCount * OPUS_SAMPLE_RATE, fps);
    var f := CeilDiv(OPUS_SAMPLE_RATE, fps);
    OutputSamplesBound(frameCount, fps);
    ToleranceBound(fps);
    RoundedIs(frameCount * OPUS_SAMPLE_RATE, fps, output);
    CeilDivIff(OPUS_SAMPLE_RATE, fps, f);
    if Matching(frameCount, fps, sampleCount, sampleRate) {
      var natural := RoundedSampleCount(sampleCount, OPUS_SAMPLE_RATE, sampleRate).value;
      NaturalLength(sampleCount, sampleRate, natural);
      assert Nearest(natural, sampleCount * 48000, sampleRate) && Nearest(output, frameCount * 48000, fps)
        && FrameLength(f, fps) && natural <= output + f && output <= natural + f;
    } else if WithinAFrame(frameCount, fps, sampleCount, sampleRate) {
      var natural: nat, o: nat, g: nat :|
        && Nearest(natural, sampleCount * 48000, sampleRate) && Nearest(o, frameCount * 48000, fps)
        && FrameLength(g, fps) && natural <= o + g && o <= natural + g;
      RoundedIs(frameCount * OPUS_SAMPLE_RATE, fps, o);
      CeilDivIff(OPUS_SAMPLE_RATE, fps, g);
      NaturalLength(sampleCount, sampleRate, natural);
    }
  }

  /** In numbers: what can be written is stereo sound of 8 to 192 kHz, at most one
      frame longer or shorter than a video of 1 to 240 frames a second. */
  lemma {:induction false} PlanSucceedsInNumbers(frameCount: int, fps: int, sampleCount: nat, sampleRate: nat,
                                                 lookahead: nat)
    requires frameCount <= INT_MAX && lookahead <= 0xffff
    ensures PlanAudio(frameCount, fps, sampleCount, sampleRate, lookahead).Ok? <==>
      && frameCount > 0 && 0 < fps <= 240 && sampleCount > 0 && 8000 <= sampleRate <= 192000
      && WithinAFrame(frameCount, fps, sampleCount, sampleRate)
  {
    PlanSucceedsIff(frameCount, fps, sampleCount, sampleRate, lookahead);
    if frameCount > 0 && 0 < fps <= 240 && sampleCount > 0 && 8000 <= sampleRate <= 192000 {
      MatchingIff(frameCount, fps, sampleCount, sampleRate);
    }
  }

  // --------------------------------------------------------------- what is played

  /** Nanoseconds discarded behind a packet: the padding, on the last one. */
  function DiscardAfter(index: nat, plan: Plan, lookahead: nat): nat {
    var padding := plan.packetCount * OPUS_FRAME_SAMPLES - plan.outputSamples - lookahead;
    if index + 1 == plan.packetCount && padding > 0 then SamplesToNs(padding) else 0
  }

  /** Samples that a player keeps of the first `count` packets. */
  function Kept(count: nat, plan: Plan, lookahead: nat): int {
    if count == 0 then 0
    else Kept(count - 1, plan, lookahead) + OPUS_FRAME_SAMPLES - NsToSamples(DiscardAfter(count - 1, plan, lookahead))
  }

  lemma {:induction false} KeptWhole(count: nat, plan: Plan, lookahead: nat)
    requires count < plan.packetCount
    ensures Kept(count, plan, lookahead) == count * OPUS_FRAME_SAMPLES
  {
    if count > 0 {
      KeptWhole(count - 1, plan, lookahead);
      TrimRoundTrip(0);
    }
  }

  /** A player that skips the codec delay and drops the discarded padding plays exactly
      the samples of the video's length. */
  lemma {:induction false} PlaysExactly(frameCount: int, fps: int, sampleCount: nat, sampleRate: nat, lookahead: nat)
    requires frameCount <= INT_MAX && lookahead <= 0xffff
    requires PlanAudio(frameCount, fps, sampleCount, sampleRate, lookahead).Ok?
    ensures var plan := PlanAudio(frameCount, fps, sampleCount, sampleRate, lookahead).value;
      Kept(plan.packetCount, plan, lookahead) - NsToSamples(SamplesToNs(lookahead)) == plan.outputSamples
  {
    var plan := PlanAudio(frameCount, fps, sampleCount, sampleRate, lookahead).value;
    PacketsFitExactly(frameCount, fps, sampleCount, sampleRate, lookahead);
    TrimRoundTrip(lookahead);
    TrimRoundTrip(plan.packetCount * OPUS_FRAME_SAMPLES - plan.outputSamples - lookahead);
    TrimRoundTrip(0);
    KeptWhole(plan.packetCount - 1, plan, lookahead);
  }
}
