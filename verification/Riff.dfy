/** The bounded walk over the RIFF container of an encoded frame, down to the VP8
    keyframe (section 2.3 of RFC 9649, section 9.1 of RFC 6386). */
module Riff {
  import opened Common

  const RIFF: Bytes := [0x52, 0x49, 0x46, 0x46]
  const WEBP: Bytes := [0x57, 0x45, 0x42, 0x50]
  const VP8: Bytes := [0x56, 0x50, 0x38, 0x20]

  // ------------------------------------------------------------------ integers

  /** The little-endian 32-bit value at `at`. */
  function U32At(bytes: Bytes, at: nat): (r: nat)
    requires at + 4 <= |bytes|
    ensures r < 0x1_0000_0000
  {
    bytes[at] + 0x100 * bytes[at + 1] as int + 0x1_0000 * bytes[at + 2] as int + 0x100_0000 * bytes[at + 3] as int
  }

  /** The field that holds `n`. */
  function U32(n: nat): (r: Bytes)
    requires n < 0x1_0000_0000
    ensures |r| == 4 && U32At(r, 0) == n
  {
    var (b0, r1) := (n % 256, n / 256);
    var (b1, r2) := (r1 % 256, r1 / 256);
    [b0, b1, r2 % 256, r2 / 256]
  }

  lemma {:induction false} SliceAt(bytes: Bytes, at: nat)
    requires at + 4 <= |bytes|
    ensures var four := bytes[at..at + 4];
      four[0] == bytes[at] && four[1] == bytes[at + 1] && four[2] == bytes[at + 2] && four[3] == bytes[at + 3]
  {
  }

  lemma {:induction false} U32AtShift(bytes: Bytes, at: nat, field: Bytes)
    requires |field| == 4 && at + 4 <= |bytes| && bytes[at..at + 4] == field
    ensures U32At(bytes, at) == U32At(field, 0)
  {
    SliceAt(bytes, at);
  }

  /** `memcmp` of four bytes. */
  predicate TagAt(bytes: Bytes, at: nat, tag: Bytes)
    requires at + 4 <= |bytes| && |tag| == 4
  {
    bytes[at] == tag[0] && bytes[at + 1] == tag[1] && bytes[at + 2] == tag[2] && bytes[at + 3] == tag[3]
  }

  // -------------------------------------------------------------------- the walk

  /** `Missing` is a well-formed end without the chunk. */
  datatype Walk = Found(payload: nat, size: nat) | Malformed | Missing

  /** What the header at one chunk boundary decides. */
  datatype Hop = Stop(walk: Walk) | Go(next: nat)

  function HopAt(bytes: Bytes, offset: nat, end: nat): (h: Hop)
    requires offset + 8 <= end <= |bytes|
    ensures h.Go? ==> offset + 8 <= h.next <= end
    ensures h.Stop? && h.walk.Found? ==> h.walk.payload == offset + 8 && h.walk.payload + h.walk.size <= end
  {
    var size := U32At(bytes, offset + 4);
    var payload := offset + 8;
    if size > end - payload then Stop(Malformed)
    else if TagAt(bytes, offset, VP8) then Stop(Found(payload, size))
    else if payload + size + size % 2 > end then Stop(Malformed)
    else Go(payload + size + size % 2)
  }

  /** The decisions at every offset of one buffer. */
  function HopsOf(bytes: Bytes, end: nat): nat -> Hop {
    (offset: nat) => if offset + 8 <= end <= |bytes| then HopAt(bytes, offset, end) else Stop(Missing)
  }

  /** Hopping from boundary to boundary until a decision stops the walk. */
  function WalkBy(hop: nat -> Hop, offset: nat, end: nat): Walk
    decreases end - offset
  {
    if offset + 8 > end then Missing
    else if hop(offset).Stop? then hop(offset).walk
    else if hop(offset).next <= offset then Malformed
    else WalkBy(hop, hop(offset).next, end)
  }

  /** The walk from a chunk boundary, as a definition to prove the loop against. */
  function WalkFrom(bytes: Bytes, offset: nat, end: nat): Walk {
    WalkBy(HopsOf(bytes, end), offset, end)
  }

  lemma {:induction false} WalkInBounds(bytes: Bytes, offset: nat, end: nat)
    requires end <= |bytes|
    ensures var r := WalkFrom(bytes, offset, end);
      r.Found? ==> offset + 8 <= r.payload && r.payload + r.size <= end
    decreases end - offset
  {
    if offset + 8 <= end && HopAt(bytes, offset, end).Go? {
      WalkInBounds(bytes, HopAt(bytes, offset, end).next, end);
    }
  }

  /** The loop of `encode_and_add_vp8`; every index into `bytes` is checked. */
  method WalkChunks(bytes: Bytes, end: nat) returns (r: Walk)
    requires 12 <= end <= |bytes|
    ensures r == WalkFrom(bytes, 12, end)
  {
    var offset := 12;
    while offset + 8 <= end
      invariant 12 <= offset <= end
      invariant WalkFrom(bytes, offset, end) == WalkFrom(bytes, 12, end)
      decreases end - offset
    {
      var size := U32At(bytes, offset + 4);
      var payload := offset + 8;
      if size > end - payload {
        return Malformed;
      }
      if TagAt(bytes, offset, VP8) {
        return Found(payload, size);
      }
      var next := payload + size + size % 2;
      if next > end {
        return Malformed;
      }
      offset := next;
    }
    return Missing;
  }

  // ------------------------------------------------------------ chunk serialising

  /** A chunk as it lies in the file: `sizeField` holds the payload's length, `pad`
      is the byte after an odd payload. */
  datatype Chunk = Chunk(id: Bytes, sizeField: Bytes, payload: Bytes, pad: Bytes)

  predicate WellFormed(c: Chunk) {
    |c.id| == 4 && |c.sizeField| == 4 && U32At(c.sizeField, 0) == |c.payload| && |c.pad| == |c.payload| % 2
  }

  function Header(c: Chunk): Bytes {
    c.id + c.sizeField
  }

  function Serialised(c: Chunk): Bytes {
    Header(c) + c.payload + c.pad
  }

  predicate AllWellFormed(cs: seq<Chunk>) {
    forall i :: 0 <= i < |cs| ==> WellFormed(cs[i])
  }

  function Body(cs: seq<Chunk>): Bytes {
    if cs == [] then [] else Serialised(cs[0]) + Body(cs[1..])
  }

  predicate NoVp8(cs: seq<Chunk>) {
    forall i :: 0 <= i < |cs| ==> cs[i].id != VP8
  }

  /** The bytes from `at` on start with `part`. */
  predicate StartsAt(bytes: Bytes, at: nat, part: Bytes) {
    at + |part| <= |bytes| && bytes[at..at + |part|] == part
  }

  /** A concatenation starts where both parts start one after the other. */
  lemma {:induction false} StartsAtSplit(bytes: Bytes, at: nat, a: Bytes, b: Bytes)
    ensures StartsAt(bytes, at, a + b) <==> StartsAt(bytes, at, a) && StartsAt(bytes, at + |a|, b)
  {
    if StartsAt(bytes, at, a + b) {
      assert bytes[at..at + |a|] == (a + b)[..|a|];
      assert bytes[at + |a|..at + |a| + |b|] == (a + b)[|a|..];
    }
    if StartsAt(bytes, at, a) && StartsAt(bytes, at + |a|, b) {
      assert bytes[at..at + |a + b|] == a + b;
    }
  }

  /** A serialised chunk is read back as its id and size. */
  lemma {:induction false} ReadsHeader(bytes: Bytes, at: nat, c: Chunk)
    requires WellFormed(c) && StartsAt(bytes, at, Header(c))
    ensures TagAt(bytes, at, c.id) && U32At(bytes, at + 4) == |c.payload|
  {
    StartsAtSplit(bytes, at, c.id, c.sizeField);
    SliceAt(bytes, at);
    U32AtShift(bytes, at + 4, c.sizeField);
  }

  lemma {:induction false} ReadsChunk(bytes: Bytes, at: nat, c: Chunk, rest: Bytes)
    requires StartsAt(bytes, at, Serialised(c) + rest)
    ensures StartsAt(bytes, at, Header(c)) && StartsAt(bytes, at + |Header(c)|, c.payload)
    ensures StartsAt(bytes, at + |Serialised(c)|, rest)
  {
    StartsAtSplit(bytes, at, Serialised(c), rest);
    StartsAtSplit(bytes, at, Header(c) + c.payload, c.pad);
    StartsAtSplit(bytes, at, Header(c), c.payload);
  }

  lemma {:induction false} HopsOverOne(bytes: Bytes, at: nat, end: nat, c: Chunk)
    requires WellFormed(c) && c.id != VP8 && StartsAt(bytes, at, Header(c))
    requires at + |Serialised(c)| <= end <= |bytes|
    ensures HopsOf(bytes, end)(at) == Go(at + |Serialised(c)|)
  {
    ReadsHeader(bytes, at, c);
  }

  /** The walk hops exactly over these chunks. */
  predicate HopsOver(hop: nat -> Hop, at: nat, cs: seq<Chunk>)
    decreases |cs|
  {
    cs == [] || (hop(at) == Go(at + |Serialised(cs[0])|) && HopsOver(hop, at + |Serialised(cs[0])|, cs[1..]))
  }

  lemma {:induction false} FirstAndRest(cs: seq<Chunk>)
    requires cs != [] && AllWellFormed(cs) && NoVp8(cs)
    ensures WellFormed(cs[0]) && cs[0].id != VP8 && AllWellFormed(cs[1..]) && NoVp8(cs[1..])
    ensures Body(cs) == Serialised(cs[0]) + Body(cs[1..])
  {
  }

  /** Chunks other than VP8 lie at `at`, inside the declared end. */
  function LieIn(bytes: Bytes, end: nat): (nat, seq<Chunk>) -> bool {
    (at: nat, cs: seq<Chunk>) =>
      AllWellFormed(cs) && NoVp8(cs) && StartsAt(bytes, at, Body(cs)) && at + |Body(cs)| <= end <= |bytes|
  }

  lemma {:induction false} FirstLiesIn(bytes: Bytes, end: nat, at: nat, cs: seq<Chunk>)
    requires LieIn(bytes, end)(at, cs) && cs != []
    ensures HopsOf(bytes, end)(at) == Go(at + |Serialised(cs[0])|)
    ensures LieIn(bytes, end)(at + |Serialised(cs[0])|, cs[1..])
  {
    var (c, rest) := (cs[0], Body(cs[1..]));
    FirstAndRest(cs);
    ReadsChunk(bytes, at, c, rest);
    HopsOverOne(bytes, at, end, c);
  }

  /** If the first of any chunks is hopped over and the rest lie behind it, all are. */
  lemma {:induction false} HopsOverAll(hop: nat -> Hop, lie: (nat, seq<Chunk>) -> bool, at: nat, cs: seq<Chunk>)
    requires forall a: nat, s: seq<Chunk> :: lie(a, s) && s != [] ==>
      hop(a) == Go(a + |Serialised(s[0])|) && lie(a + |Serialised(s[0])|, s[1..])
    requires lie(at, cs)
    ensures HopsOver(hop, at, cs)
    decreases |cs|
  {
    if cs != [] {
      HopsOverAll(hop, lie, at + |Serialised(cs[0])|, cs[1..]);
    }
  }

  lemma {:induction false} HopsOverBody(bytes: Bytes, at: nat, end: nat, cs: seq<Chunk>)
    requires end <= |bytes| && AllWellFormed(cs) && NoVp8(cs)
    requires StartsAt(bytes, at, Body(cs)) && at + |Body(cs)| <= end
    ensures HopsOver(HopsOf(bytes, end), at, cs)
  {
    var (hop, lie) := (HopsOf(bytes, end), LieIn(bytes, end));
    forall a: nat, s: seq<Chunk> | lie(a, s) && s != []
      ensures hop(a) == Go(a + |Serialised(s[0])|) && lie(a + |Serialised(s[0])|, s[1..])
    {
      FirstLiesIn(bytes, end, a, s);
    }
    HopsOverAll(hop, lie, at, cs);
  }

  lemma {:induction false} WalkFollowsHops(hop: nat -> Hop, at: nat, end: nat, cs: seq<Chunk>)
    requires AllWellFormed(cs) && HopsOver(hop, at, cs) && at + |Body(cs)| <= end
    ensures WalkBy(hop, at, end) == WalkBy(hop, at + |Body(cs)|, end)
    decreases |cs|
  {
    if cs != [] {
      WalkFollowsHops(hop, at + |Serialised(cs[0])|, end, cs[1..]);
    }
  }

  /** Chunks other than VP8 are skipped, whatever their payloads look like. */
  lemma {:induction false} WalkSkips(bytes: Bytes, at: nat, end: nat, cs: seq<Chunk>)
    requires end <= |bytes| && AllWellFormed(cs) && NoVp8(cs)
    requires StartsAt(bytes, at, Body(cs)) && at + |Body(cs)| <= end
    ensures WalkFrom(bytes, at, end) == WalkFrom(bytes, at + |Body(cs)|, end)
  {
    HopsOverBody(bytes, at, end, cs);
    WalkFollowsHops(HopsOf(bytes, end), at, end, cs);
  }

  lemma {:induction false} WalkStopsAt(bytes: Bytes, at: nat, end: nat, vp8: Chunk)
    requires WellFormed(vp8) && vp8.id == VP8 && StartsAt(bytes, at, Header(vp8) + vp8.payload)
    requires at + 8 + |vp8.payload| <= end <= |bytes|
    ensures WalkFrom(bytes, at, end) == Found(at + 8, |vp8.payload|)
    ensures bytes[at + 8..at + 8 + |vp8.payload|] == vp8.payload
  {
    StartsAtSplit(bytes, at, Header(vp8), vp8.payload);
    ReadsHeader(bytes, at, vp8);
  }

  /** The first VP8 chunk after any others is the one returned, with exactly its
      payload; its padding need not be there. */
  lemma {:induction false} WalkFindsFirst(bytes: Bytes, end: nat, at: nat, before: seq<Chunk>, vp8: Chunk)
    requires end <= |bytes| && AllWellFormed(before) && NoVp8(before) && WellFormed(vp8) && vp8.id == VP8
    requires StartsAt(bytes, at, Body(before))
    requires StartsAt(bytes, at + |Body(before)|, Header(vp8) + vp8.payload)
    requires at + |Body(before)| + 8 + |vp8.payload| <= end
    ensures var payload := at + |Body(before)| + 8;
      WalkFrom(bytes, at, end) == Found(payload, |vp8.payload|)
      && bytes[payload..payload + |vp8.payload|] == vp8.payload
  {
    WalkSkips(bytes, at, end, before);
    WalkEndsAt(bytes, end, at, at + |Body(before)|, vp8);
  }

  lemma {:induction false} WalkEndsAt(bytes: Bytes, end: nat, at: nat, next: nat, vp8: Chunk)
    requires end <= |bytes| && WellFormed(vp8) && vp8.id == VP8
    requires WalkFrom(bytes, at, end) == WalkFrom(bytes, next, end)
    requires StartsAt(bytes, next, Header(vp8) + vp8.payload) && next + 8 + |vp8.payload| <= end
    ensures WalkFrom(bytes, at, end) == Found(next + 8, |vp8.payload|)
    ensures bytes[next + 8..next + 8 + |vp8.payload|] == vp8.payload
  {
    WalkStopsAt(bytes, next, end, vp8);
  }

  /** The payload and size found lie behind the chunks `before` and a VP8 header
      that gives the size. */
  predicate Behind(bytes: Bytes, at: nat, before: seq<Chunk>, payload: nat, size: nat)
    requires AllWellFormed(before)
  {
    && StartsAt(bytes, at, Body(before)) && at + |Body(before)| + 8 == payload <= |bytes|
    && TagAt(bytes, payload - 8, VP8) && U32At(bytes, payload - 4) == size
  }

  lemma {:induction false} BehindOneMore(bytes: Bytes, at: nat, c: Chunk, rest: seq<Chunk>, payload: nat, size: nat)
    requires WellFormed(c) && StartsAt(bytes, at, Serialised(c)) && AllWellFormed(rest)
    requires Behind(bytes, at + |Serialised(c)|, rest, payload, size)
    ensures AllWellFormed([c] + rest) && Behind(bytes, at, [c] + rest, payload, size)
  {
    assert ([c] + rest)[1..] == rest;
    StartsAtSplit(bytes, at, Serialised(c), Body(rest));
  }

  /** Conversely, whatever the walk returns lies behind a list of other chunks and
      a VP8 header that gives its size, inside the declared end. */
  lemma {:induction false} WalkFoundMeans(bytes: Bytes, at: nat, end: nat) returns (before: seq<Chunk>)
    requires at <= end <= |bytes| && WalkFrom(bytes, at, end).Found?
    ensures AllWellFormed(before) && NoVp8(before)
    ensures var r := WalkFrom(bytes, at, end);
      Behind(bytes, at, before, r.payload, r.size) && r.payload + r.size <= end
    decreases end - at
  {
    if HopAt(bytes, at, end).Stop? {
      before := [];
      StopFoundMeans(bytes, at, end);
    } else {
      var c := ChunkHopped(bytes, at, end);
      var rest := WalkFoundMeans(bytes, at + |Serialised(c)|, end);
      var r := WalkFrom(bytes, at, end);
      BehindOneMore(bytes, at, c, rest, r.payload, r.size);
      before := [c] + rest;
    }
  }

  lemma {:induction false} StopFoundMeans(bytes: Bytes, at: nat, end: nat)
    requires at + 8 <= end <= |bytes| && HopAt(bytes, at, end).Stop? && HopAt(bytes, at, end).walk.Found?
    ensures WalkFrom(bytes, at, end) == HopAt(bytes, at, end).walk
    ensures var r := WalkFrom(bytes, at, end);
      Behind(bytes, at, [], r.payload, r.size) && r.payload + r.size <= end
  {
  }

  /** The chunk that the walk hops over. */
  lemma {:induction false} ChunkHopped(bytes: Bytes, at: nat, end: nat) returns (c: Chunk)
    requires at + 8 <= end <= |bytes| && HopAt(bytes, at, end).Go?
    ensures WellFormed(c) && c.id != VP8 && StartsAt(bytes, at, Serialised(c))
    ensures at + |Serialised(c)| <= end && WalkFrom(bytes, at, end) == WalkFrom(bytes, at + |Serialised(c)|, end)
  {
    c := ChunkAt(bytes, at, end);
    SliceAt(bytes, at);
  }

  /** Any header whose payload and padding fit is the serialisation of a chunk. */
  lemma {:induction false} ChunkAt(bytes: Bytes, at: nat, end: nat) returns (c: Chunk)
    requires at + 8 <= end <= |bytes|
    requires at + 8 + U32At(bytes, at + 4) + U32At(bytes, at + 4) % 2 <= end
    ensures WellFormed(c) && |c.payload| == U32At(bytes, at + 4) && TagAt(bytes, at, c.id)
    ensures StartsAt(bytes, at, Serialised(c))
  {
    var size := U32At(bytes, at + 4);
    var (payload, pad) := (at + 8, at + 8 + size);
    c := Chunk(bytes[at..at + 4], bytes[at + 4..payload], bytes[payload..pad], bytes[pad..pad + size % 2]);
    U32AtShift(bytes, at + 4, c.sizeField);
    StartsAtSplit(bytes, at, c.id, c.sizeField);
    StartsAtSplit(bytes, at, Header(c), c.payload);
    StartsAtSplit(bytes, at, Header(c) + c.payload, c.pad);
  }

  // --------------------------------------------------------------- whole buffer

  /** End of the container as its header declares it. */
  function RiffEnd(bytes: Bytes): nat
    requires |bytes| >= 12
  {
    8 + U32At(bytes, 4)
  }

  predicate ValidWebp(bytes: Bytes) {
    |bytes| >= 12 && TagAt(bytes, 0, RIFF) && TagAt(bytes, 8, WEBP) && 12 <= RiffEnd(bytes) <= |bytes|
  }

  function Located(bytes: Bytes): (r: Walk)
    ensures r.Found? ==> 20 <= r.payload && r.payload + r.size <= |bytes|
  {
    if ValidWebp(bytes) then (WalkInBounds(bytes, 12, RiffEnd(bytes)); WalkFrom(bytes, 12, RiffEnd(bytes)))
    else Malformed
  }

  datatype FrameError = NotAKeyframe | WrongDimensions

  /** 14 bits of size in front of two bits of scale. */
  function Dimension(low: byte, high: byte): nat {
    low + 256 * (high as int % 64)
  }

  predicate IsKeyframe(data: Bytes) {
    |data| >= 10 && data[0] % 2 == 0 && data[3] == 0x9d && data[4] == 0x01 && data[5] == 0x2a
  }

  /** The file holds a keyframe of that size. */
  predicate Accepted(bytes: Bytes, width: nat, height: nat) {
    && Located(bytes).Found?
    && var data := bytes[Located(bytes).payload..Located(bytes).payload + Located(bytes).size];
    IsKeyframe(data) && Dimension(data[6], data[7]) == width && Dimension(data[8], data[9]) == height
  }

  /** The payload handed to the muxer, or the reason there is none. */
  method ExtractFrame(bytes: Bytes, width: nat, height: nat) returns (r: Result<Bytes, FrameError>)
    ensures r.Ok? <==> Accepted(bytes, width, height)
    ensures r.Ok? ==> r.value == bytes[Located(bytes).payload..Located(bytes).payload + Located(bytes).size]
    ensures r == Err(WrongDimensions) ==> Located(bytes).Found?
  {
    if |bytes| < 12 || !TagAt(bytes, 0, RIFF) || !TagAt(bytes, 8, WEBP) {
      return Err(NotAKeyframe);
    }
    var end := 8 + U32At(bytes, 4);
    if end > |bytes| || end < 12 {
      return Err(NotAKeyframe);
    }
    var walk := WalkChunks(bytes, end);
    WalkInBounds(bytes, 12, end);
    if !walk.Found? {
      return Err(NotAKeyframe);
    }
    var data := bytes[walk.payload..walk.payload + walk.size];
    if |data| < 10 || data[0] % 2 != 0 || data[3] != 0x9d || data[4] != 0x01 || data[5] != 0x2a {
      return Err(NotAKeyframe);
    }
    if Dimension(data[6], data[7]) != width || Dimension(data[8], data[9]) != height {
      return Err(WrongDimensions);
    }
    return Ok(data);
  }

  function File(cs: seq<Chunk>): Bytes
    requires 4 + |Body(cs)| < 0x1_0000_0000
  {
    RIFF + U32(4 + |Body(cs)|) + WEBP + Body(cs)
  }

  lemma {:induction false} FileIsValid(cs: seq<Chunk>, trailing: Bytes)
    requires 4 + |Body(cs)| < 0x1_0000_0000
    ensures var bytes := File(cs) + trailing;
      ValidWebp(bytes) && RiffEnd(bytes) == 12 + |Body(cs)| && StartsAt(bytes, 12, Body(cs))
  {
    var bytes := File(cs) + trailing;
    assert bytes[4..8] == U32(4 + |Body(cs)|);
    U32AtShift(bytes, 4, U32(4 + |Body(cs)|));
    assert bytes[12..12 + |Body(cs)|] == Body(cs);
  }

  lemma {:induction false} BodyAppend(a: seq<Chunk>, b: seq<Chunk>)
    ensures Body(a + b) == Body(a) + Body(b)
  {
    if a == [] {
      assert a + b == b;
    } else {
      assert (a + b)[1..] == a[1..] + b;
      BodyAppend(a[1..], b);
    }
  }

  lemma {:induction false} BodyAround(bytes: Bytes, at: nat, before: seq<Chunk>, vp8: Chunk, others: seq<Chunk>)
    requires StartsAt(bytes, at, Body(before + ([vp8] + others)))
    ensures StartsAt(bytes, at, Body(before))
    ensures StartsAt(bytes, at + |Body(before)|, Header(vp8) + vp8.payload)
    ensures |Body(before)| + |Header(vp8)| + |vp8.payload| <= |Body(before + ([vp8] + others))|
  {
    BodyAppend(before, [vp8] + others);
    StartsAtSplit(bytes, at, Body(before), Body([vp8] + others));
    BodyBegins(bytes, at + |Body(before)|, vp8, others);
  }

  lemma {:induction false} BodyBegins(bytes: Bytes, at: nat, c: Chunk, others: seq<Chunk>)
    requires StartsAt(bytes, at, Body([c] + others))
    ensures StartsAt(bytes, at, Header(c) + c.payload)
    ensures |Header(c)| + |c.payload| <= |Body([c] + others)|
  {
    assert ([c] + others)[1..] == others;
    ReadsChunk(bytes, at, c, Body(others));
    StartsAtSplit(bytes, at, Header(c), c.payload);
  }

  /** Round trip: for any file serialised from a chunk list, the walk returns
      exactly the payload of its first VP8 chunk, trailing bytes or not. */
  lemma {:induction false} FileRoundTrip(before: seq<Chunk>, vp8: Chunk, others: seq<Chunk>, trailing: Bytes)
    requires AllWellFormed(before) && NoVp8(before) && WellFormed(vp8) && vp8.id == VP8
    requires 4 + |Body(before + ([vp8] + others))| < 0x1_0000_0000
    ensures var bytes := File(before + ([vp8] + others)) + trailing;
      Located(bytes).Found?
      && bytes[Located(bytes).payload..Located(bytes).payload + Located(bytes).size] == vp8.payload
  {
    var cs := before + ([vp8] + others);
    var bytes := File(cs) + trailing;
    FileIsValid(cs, trailing);
    BodyAround(bytes, 12, before, vp8, others);
    WalkFindsFirst(bytes, RiffEnd(bytes), 12, before, vp8);
  }

  /** A file without a VP8 chunk is rejected. */
  lemma {:induction false} FileWithoutVp8(cs: seq<Chunk>, trailing: Bytes)
    requires AllWellFormed(cs) && NoVp8(cs) && 4 + |Body(cs)| < 0x1_0000_0000
    ensures Located(File(cs) + trailing) == Missing
  {
    FileIsValid(cs, trailing);
    WalkSkips(File(cs) + trailing, 12, 12 + |Body(cs)|, cs);
  }

  // ---------------------------------------------------------------- frame headers

  /** Two little-endian bytes of 14 bits of size under two bits of scale. */
  function SizeField(size: nat, scale: nat): (r: Bytes)
    requires size < 16384 && scale < 4
    ensures |r| == 2
  {
    var n := size + 16384 * scale;
    [n % 256, n / 256]
  }

  /** The frame tag, whose lowest bit is zero for a keyframe; the start code; width and
      height (section 9.1 of RFC 6386). */
  function FrameHeader(tag: Bytes, width: nat, widthScale: nat, height: nat, heightScale: nat): (r: Bytes)
    requires |tag| == 3 && width < 16384 && height < 16384 && widthScale < 4 && heightScale < 4
    ensures |r| == 10
  {
    tag + [0x9d, 0x01, 0x2a] + SizeField(width, widthScale) + SizeField(height, heightScale)
  }

  lemma {:induction false} SizeReadsBack(size: nat, scale: nat)
    requires size < 16384 && scale < 4
    ensures Dimension(SizeField(size, scale)[0], SizeField(size, scale)[1]) == size
  {
    var n := size + 16384 * scale;
    var (low, high) := (n % 256, n / 256);
    assert size == 256 * (size / 256) + size % 256;
    assert high == size / 256 + 64 * scale && size / 256 < 64;
  }

  lemma {:induction false} SizeIsWritten(low: byte, high: byte)
    ensures Dimension(low, high) < 16384 && high as int / 64 < 4
    ensures SizeField(Dimension(low, high), high as int / 64) == [low, high]
  {
  }

  /** A frame is of the size that its header was written for, and a keyframe exactly if
      its tag says so. */
  lemma {:induction false} HeaderReadsBack(tag: Bytes, w: nat, ws: nat, h: nat, hs: nat, rest: Bytes)
    requires |tag| == 3 && w < 16384 && h < 16384 && ws < 4 && hs < 4
    ensures var data := FrameHeader(tag, w, ws, h, hs) + rest;
      && (IsKeyframe(data) <==> tag[0] as int % 2 == 0)
      && Dimension(data[6], data[7]) == w && Dimension(data[8], data[9]) == h
  {
    SizeReadsBack(w, ws);
    SizeReadsBack(h, hs);
    var data := FrameHeader(tag, w, ws, h, hs) + rest;
    assert data[6] == SizeField(w, ws)[0] && data[7] == SizeField(w, ws)[1];
    assert data[8] == SizeField(h, hs)[0] && data[9] == SizeField(h, hs)[1];
  }

  /** Whatever counts as a keyframe starts with the header of one of that size. */
  lemma {:induction false} KeyframeHasHeader(data: Bytes)
    requires IsKeyframe(data)
    ensures data[0] as int % 2 == 0
    ensures data[..10] == FrameHeader(data[..3], Dimension(data[6], data[7]), data[7] as int / 64,
                                      Dimension(data[8], data[9]), data[9] as int / 64)
  {
    SizeIsWritten(data[6], data[7]);
    SizeIsWritten(data[8], data[9]);
  }

  /** From file to frame: a file whose first VP8 chunk starts with such a header is
      accepted exactly for the size in it, and exactly if it is a keyframe. */
  lemma {:induction false} FrameAcceptedIff(before: seq<Chunk>, vp8: Chunk, others: seq<Chunk>, trailing: Bytes,
                                            tag: Bytes, w: nat, ws: nat, h: nat, hs: nat, rest: Bytes,
                                            width: nat, height: nat)
    requires AllWellFormed(before) && NoVp8(before) && WellFormed(vp8) && vp8.id == VP8
    requires 4 + |Body(before + ([vp8] + others))| < 0x1_0000_0000
    requires |tag| == 3 && w < 16384 && h < 16384 && ws < 4 && hs < 4
    requires vp8.payload == FrameHeader(tag, w, ws, h, hs) + rest
    ensures Accepted(File(before + ([vp8] + others)) + trailing, width, height) <==>
      tag[0] as int % 2 == 0 && width == w && height == h
  {
    FileRoundTrip(before, vp8, others, trailing);
    HeaderReadsBack(tag, w, ws, h, hs, rest);
  }

  /** The four-letter codes. */
  lemma {:induction false} TagsAreLetters()
    ensures forall i :: 0 <= i < 4 ==>
      RIFF[i] == "RIFF"[i] as int && WEBP[i] == "WEBP"[i] as int && VP8[i] == "VP8 "[i] as int
  {
  }

  /** Whatever is accepted lies in a RIFF file of kind WEBP, inside the size that this
      declares, which is all there. */
  lemma {:induction false} AcceptedMeans(bytes: Bytes, width: nat, height: nat)
    requires Accepted(bytes, width, height)
    ensures bytes[..4] == [0x52, 0x49, 0x46, 0x46] && bytes[8..12] == [0x57, 0x45, 0x42, 0x50]
    ensures 8 + U32At(bytes, 4) <= |bytes|
    ensures Located(bytes).payload + Located(bytes).size <= 8 + U32At(bytes, 4)
    ensures width < 16384 && height < 16384
  {
    WalkInBounds(bytes, 12, RiffEnd(bytes));
    var data := bytes[Located(bytes).payload..Located(bytes).payload + Located(bytes).size];
    SizeIsWritten(data[6], data[7]);
    SizeIsWritten(data[8], data[9]);
  }
}
