/** Chunked Artifact transfer between Worker and Remote.

    Two producers (`ArtifactReader::next_chunk` on the Worker and
    `stream_remote_local` on Remote) and two consumers (`receive_delivery_chunks`
    on Remote and `fetch_remote_local_input` on the Worker) are written apart
    from each other in the source. `ChunksFrom` is the reference both sides are
    proved against. */
module Transfer {
  import opened Common

  /** `TRANSFER_CHUNK_BYTES`. */
  const CHUNK_BYTES: nat := 1024 * 1024

  /** Size and digest of an Artifact; kind and MIME type play no part here. */
  datatype Manifest = Manifest(size: nat, digest: Digest)

  datatype Mismatch = SizeMismatch | DigestMismatch

  datatype Chunk = Chunk(offset: nat, data: Bytes, last: bool)

  function Verify(m: Manifest, received: nat, digest: Digest): Result<(), Mismatch> {
    if received != m.size then Err(SizeMismatch)
    else if digest != m.digest then Err(DigestMismatch)
    else Ok(())
  }

  // ---------------------------------------------------------------- reference

  /** The bytes of `content` from `offset` on, cut into bounded chunks. */
  function ChunksFrom(content: Bytes, offset: nat): (chunks: seq<Chunk>)
    requires offset <= |content|
    decreases |content| - offset
  {
    if |content| - offset <= CHUNK_BYTES then
      [Chunk(offset, content[offset..], true)]
    else
      [Chunk(offset, content[offset..offset + CHUNK_BYTES], false)]
      + ChunksFrom(content, offset + CHUNK_BYTES)
  }

  function Concat(chunks: seq<Chunk>): Bytes {
    if chunks == [] then [] else chunks[0].data + Concat(chunks[1..])
  }

  /** How many chunks `remaining` bytes need: never zero, so that an empty
      remainder still completes the protocol. */
  function ChunkCount(remaining: nat): nat {
    Max(1, (remaining + CHUNK_BYTES - 1) / CHUNK_BYTES)
  }

  /** Chunks that follow one another from `offset`, each bounded, only the final
      one marked last. */
  ghost predicate Contiguous(chunks: seq<Chunk>, offset: nat) {
    chunks != [] &&
    chunks[0].offset == offset &&
    |chunks[0].data| <= CHUNK_BYTES &&
    if |chunks| == 1 then chunks[0].last
    else !chunks[0].last && Contiguous(chunks[1..], offset + |chunks[0].data|)
  }

  /** Only the final chunk of a list is marked last. */
  ghost predicate LastOnlyAtEnd(chunks: seq<Chunk>) {
    chunks != [] && forall i :: 0 <= i < |chunks| - 1 ==> !chunks[i].last
  }

  lemma {:induction false} ContiguousEndsOnce(chunks: seq<Chunk>, offset: nat)
    requires Contiguous(chunks, offset)
    ensures LastOnlyAtEnd(chunks) && chunks[|chunks| - 1].last
  {
    if |chunks| > 1 {
      ContiguousEndsOnce(chunks[1..], offset + |chunks[0].data|);
      forall i | 0 <= i < |chunks| - 1 ensures !chunks[i].last {
        if i > 0 {
          assert chunks[i] == chunks[1..][i - 1];
        }
      }
    }
  }

  lemma {:induction false} ChunksFromShape(content: Bytes, offset: nat)
    requires offset <= |content|
    ensures Concat(ChunksFrom(content, offset)) == content[offset..]
    ensures Contiguous(ChunksFrom(content, offset), offset)
    decreases |content| - offset
  {
    var chunks := ChunksFrom(content, offset);
    if |content| - offset > CHUNK_BYTES {
      ChunksFromShape(content, offset + CHUNK_BYTES);
      assert chunks[1..] == ChunksFrom(content, offset + CHUNK_BYTES);
      assert content[offset..] == content[offset..offset + CHUNK_BYTES] + content[offset + CHUNK_BYTES..];
    } else {
      assert chunks[1..] == [];
    }
  }

  lemma {:induction false} ChunksFromCount(content: Bytes, offset: nat)
    requires offset <= |content|
    ensures |ChunksFrom(content, offset)| == ChunkCount(|content| - offset)
    decreases |content| - offset
  {
    if |content| - offset > CHUNK_BYTES {
      ChunksFromCount(content, offset + CHUNK_BYTES);
    }
  }

  /** `ArtifactManifest::chunk_count`. */
  function DeclaredChunkCount(size: nat): nat {
    (size + CHUNK_BYTES - 1) / CHUNK_BYTES
  }

  /** The declared count is the number of chunks a whole transfer produces except
      for the empty Artifact, whose transfer still takes one chunk. */
  lemma {:induction false} DeclaredCountAgreesIff(content: Bytes)
    ensures DeclaredChunkCount(|content|) == |ChunksFrom(content, 0)| <==> content != []
  {
    ChunksFromCount(content, 0);
  }

  /** A later chunk of the reference is one of the reference a buffer further on. */
  lemma {:induction false} LaterChunk(content: Bytes, offset: nat, k: nat)
    requires offset <= |content| && 0 < k < |ChunksFrom(content, offset)|
    ensures offset + CHUNK_BYTES <= |content|
    ensures var (chunks, later) := (ChunksFrom(content, offset), ChunksFrom(content, offset + CHUNK_BYTES));
      |later| == |chunks| - 1 && later[k - 1] == chunks[k] && later[k - 1..] == chunks[k..]
  {
    var chunks := ChunksFrom(content, offset);
    assert chunks[1..] == ChunksFrom(content, offset + CHUNK_BYTES);
    assert chunks[k..] == chunks[1..][k - 1..];
  }

  /** Any chunk of the reference sits where it says it sits. */
  lemma {:induction false} ChunksFromAt(content: Bytes, offset: nat, k: nat)
    requires offset <= |content| && k < |ChunksFrom(content, offset)|
    ensures var chunks := ChunksFrom(content, offset);
      && chunks[k].offset == offset + k * CHUNK_BYTES <= |content|
      && (chunks[k].last <==> k == |chunks| - 1)
      && chunks[k..] == ChunksFrom(content, offset + k * CHUNK_BYTES)
      && chunks[k].data == content[chunks[k].offset..Min(|content|, chunks[k].offset + CHUNK_BYTES)]
      && (!chunks[k].last ==> chunks[k].offset + CHUNK_BYTES < |content|)
    decreases |content| - offset
  {
    var chunks := ChunksFrom(content, offset);
    if k > 0 {
      LaterChunk(content, offset, k);
      ChunksFromAt(content, offset + CHUNK_BYTES, k - 1);
    } else {
      assert chunks[0..] == chunks;
      if chunks[0].last {
        assert content[offset..] == content[offset..|content|];
      }
    }
  }

  // ---------------------------------------------------------------- producers

  /** One full buffer further, or to the end of the file. */
  function PositionStep(length: nat, position: nat): nat {
    Max(position, Min(position + CHUNK_BYTES, length))
  }

  /** A resumable reader over one stored file. `file` is the data on disk;
      nothing forces its length to be the manifest's. */
  class ArtifactReader {
    const sha: HashFn
    const file: Bytes
    const manifest: Manifest
    const startedAtZero: bool
    var position: nat
    var hasher: Bytes  // what the digest has been fed
    var done: bool

    constructor (sha: HashFn, file: Bytes, manifest: Manifest, offset: nat)
      requires offset <= manifest.size
      ensures this.sha == sha && this.file == file && this.manifest == manifest
      ensures startedAtZero == (offset == 0) && position == offset && hasher == [] && !done
    {
      this.sha, this.file, this.manifest := sha, file, manifest;
      startedAtZero, position, hasher, done := offset == 0, offset, [], false;
    }

    /** What one full buffer read from `position` yields. */
    ghost function Window(): Bytes
      reads this
    {
      file[Min(position, |file|)..Min(position + CHUNK_BYTES, |file|)]
    }

    /** One operating-system read: any non-empty amount up to `limit`, or
        nothing exactly at end of file. */
    method Read(cursor: nat, limit: nat) returns (bytes: Bytes)
      requires limit > 0
      ensures bytes == [] <==> cursor >= |file|
      ensures |bytes| <= limit
      ensures cursor < |file| ==> cursor + |bytes| <= |file| && bytes == file[cursor..cursor + |bytes|]
    {
      if cursor >= |file| {
        return [];
      }
      var n: nat :| 1 <= n <= limit && cursor + n <= |file|;
      bytes := file[cursor..cursor + n];
    }

    method NextChunk() returns (r: Result<Option<Chunk>, Mismatch>)
      modifies this`position, this`hasher, this`done
      ensures old(done) ==> r == Ok(None) && unchanged(this)
      ensures !old(done) ==>
        && position == old(position) + |old(Window())| == PositionStep(|file|, old(position))
        && hasher == (if startedAtZero then old(hasher) + old(Window()) else old(hasher))
        && (r.Err? <==> startedAtZero && position >= manifest.size
                        && Verify(manifest, position, sha(hasher)).Err?)
        && (r.Err? ==> r.error == Verify(manifest, position, sha(hasher)).error && !done)
        && (r.Ok? ==>
             && r.value == Some(Chunk(old(position), old(Window()), position >= manifest.size))
             && done == (position >= manifest.size))
    {
      if done {
        return Ok(None);
      }
      var buf: Bytes := [];
      while |buf| < CHUNK_BYTES
        modifies {}
        invariant |buf| <= CHUNK_BYTES
        invariant buf == file[Min(position, |file|)..Min(position + |buf|, |file|)]
        decreases CHUNK_BYTES - |buf|
      {
        var bytes := Read(position + |buf|, CHUNK_BYTES - |buf|);
        if bytes == [] {
          break;
        }
        assert position + |buf| < |file|;
        buf := buf + bytes;
      }
      assert buf == Window();
      var offset := position;
      position := position + |buf|;
      var last := position >= manifest.size;
      if startedAtZero {
        hasher := hasher + buf;
        if last {
          match Verify(manifest, position, sha(hasher)) {
            case Err(mismatch) => return Err(mismatch);
            case Ok(_) =>
          }
        }
      }
      if last {
        done := true;
      }
      if buf == [] && offset == manifest.size {
        return Ok(Some(Chunk(offset, buf, true)));
      }
      return Ok(Some(Chunk(offset, buf, last)));
    }
  }

  datatype ReadError = OffsetPastEnd | Corrupt(mismatch: Mismatch)

  /** The Worker's side of one delivery: opens the Artifact at `offset` and reads
      chunks until the last one. The data file has the length its manifest
      declares, which `publish` establishes.

      The chunk list is exactly the reference, unless the offset is past the end
      or the read started at zero and the bytes lost their declared digest. */
  method ReadAll(sha: HashFn, file: Bytes, manifest: Manifest, offset: nat)
    returns (r: Result<seq<Chunk>, ReadError>)
    requires manifest.size == |file|
    ensures r == Err(OffsetPastEnd) <==> offset > manifest.size
    ensures r == Err(Corrupt(DigestMismatch)) <==> offset == 0 && sha(file) != manifest.digest
    ensures r.Err? ==> r.error in {OffsetPastEnd, Corrupt(DigestMismatch)}
    ensures r.Ok? ==> offset <= |file| && r.value == ChunksFrom(file, offset)
  {
    if offset > manifest.size {
      return Err(OffsetPastEnd);
    }
    var reader := new ArtifactReader(sha, file, manifest, offset);
    var chunks: seq<Chunk> := [];
    while true
      invariant fresh(reader) && !reader.done
      invariant reader.sha == sha && reader.file == file && reader.manifest == manifest
      invariant reader.startedAtZero == (offset == 0)
      invariant offset <= reader.position <= |file|
      invariant reader.position == offset || reader.position < |file|
      invariant reader.startedAtZero ==> reader.hasher == file[..reader.position]
      invariant chunks + ChunksFrom(file, reader.position) == ChunksFrom(file, offset)
      decreases |file| - reader.position
    {
      ghost var before := reader.position;
      var next := reader.NextChunk();
      if reader.startedAtZero {
        assert file[..before] + file[before..reader.position] == file[..reader.position];
        assert file[..|file|] == file;
      }
      match next {
        case Err(mismatch) => return Err(Corrupt(mismatch));
        case Ok(None) => return Ok(chunks);
        case Ok(Some(chunk)) =>
          chunks := chunks + [chunk];
          if chunk.last {
            assert file[before..|file|] == file[before..];
            return Ok(chunks);
          }
      }
    }
    assert false;
  }

  /** Reader position after `k` calls on a file of `length` bytes. */
  function PositionAfter(length: nat, offset: nat, k: nat): nat {
    if k == 0 then offset else PositionStep(length, PositionAfter(length, offset, k - 1))
  }

  lemma {:induction false} PositionAfterBounds(length: nat, offset: nat, k: nat)
    ensures offset <= PositionAfter(length, offset, k) <= Max(offset, length)
    ensures offset <= length ==>
      PositionAfter(length, offset, k) == Min(length, offset + k * CHUNK_BYTES)
    ensures offset >= length ==> PositionAfter(length, offset, k) == offset
  {
    if k > 0 {
      PositionAfterBounds(length, offset, k - 1);
    }
  }

  /** Some of the first `calls` calls reaches the declared end. */
  ghost predicate EndsWithin(length: nat, size: nat, offset: nat, calls: nat) {
    exists k :: 1 <= k <= calls && PositionAfter(length, offset, k) >= size
  }

  /** Reads at most `calls` chunks and tells whether the reader came to an end, by a
      last chunk or by a digest error. */
  method ReadAtMost(sha: HashFn, file: Bytes, manifest: Manifest, offset: nat, calls: nat) returns (ended: bool)
    requires offset <= manifest.size
    ensures ended <==> EndsWithin(|file|, manifest.size, offset, calls)
  {
    var reader := new ArtifactReader(sha, file, manifest, offset);
    for i := 0 to calls
      invariant fresh(reader) && !reader.done
      invariant reader.file == file && reader.manifest == manifest
      invariant reader.position == PositionAfter(|file|, offset, i)
      invariant forall k :: 1 <= k <= i ==> PositionAfter(|file|, offset, k) < manifest.size
    {
      var next := reader.NextChunk();
      assert reader.position == PositionAfter(|file|, offset, i + 1);
      if next.Err? || reader.done {
        return true;
      }
    }
    return false;
  }

  /** Without the length agreement a reader may never end: some number of calls ends
      it exactly when the file is at least as long as declared, or the read starts
      at the declared end. */
  lemma {:induction false} ReaderFinishesIffLongEnough(length: nat, size: nat, offset: nat)
    requires offset <= size
    ensures (exists calls :: EndsWithin(length, size, offset, calls)) <==> size <= length || offset == size
  {
    if size <= length || offset == size {
      var k := size + 1;
      PositionAfterBounds(length, offset, k);
      assert offset + k * CHUNK_BYTES >= size;
      assert 1 <= k <= k && PositionAfter(length, offset, k) >= size;
      assert EndsWithin(length, size, offset, k);
    } else {
      forall calls: nat ensures !EndsWithin(length, size, offset, calls) {
        forall k | 1 <= k <= calls ensures PositionAfter(length, offset, k) < size {
          PositionAfterBounds(length, offset, k);
        }
      }
    }
  }

  /** How many bytes the next message carries and whether it ends the transfer. */
  function NextChunkSpan(total: nat, offset: nat): (nat, bool) {
    var remaining := Max(0, total - offset);
    var len := Min(remaining, CHUNK_BYTES);
    (len, len == remaining)
  }

  /** PostgreSQL `substring` takes one-based `int4` positions. */
  const INT4_MAX: nat := 0x7fff_ffff

  /** Offset of the last chunk of a transfer of `[start, total)`. */
  function LastOffset(start: nat, total: nat): (last: nat)
    ensures start <= last && (start <= total ==> last <= total)
    decreases total - start
  {
    if total - start <= CHUNK_BYTES then start else LastOffset(start + CHUNK_BYTES, total)
  }

  /** Remote's input stream over the `stored` bytes of an Artifact declared to be
      `total` long. `alive(k)` says whether the lease check of the k-th read still
      passes. The messages sent so far are returned also when the stream fails. */
  method StreamRemoteLocal(stored: Bytes, start: nat, total: nat, alive: nat -> bool)
    returns (chunks: seq<Chunk>, ok: bool)
    requires start <= total
    ensures |stored| == total ==> chunks <= ChunksFrom(stored, start)
    ensures |stored| == total && ok ==> chunks == ChunksFrom(stored, start)
    ensures |stored| == total && (forall k :: alive(k)) ==>
      (ok <==> LastOffset(start, total) + 1 <= INT4_MAX)
    ensures |stored| < total && start < total ==> !ok
  {
    chunks, ok := [], false;
    var cursor := Some(start);
    ghost var position := start;
    while cursor.Some?
      invariant cursor.Some? ==> cursor.value == position && start <= position <= total
      invariant cursor.Some? && start < total ==> position < total
      invariant cursor.Some? ==> LastOffset(position, total) == LastOffset(start, total)
      invariant cursor.Some? && |stored| == total ==>
        chunks + ChunksFrom(stored, position) == ChunksFrom(stored, start)
      invariant cursor == None ==> LastOffset(start, total) + 1 <= INT4_MAX
      invariant cursor == None ==> |stored| >= total || start == total
      invariant cursor == None && |stored| == total ==> chunks == ChunksFrom(stored, start)
      decreases if cursor.Some? then 1 + total - cursor.value else 0
    {
      var offset := cursor.value;
      var (len, last) := NextChunkSpan(total, offset);
      if offset + 1 > INT4_MAX {
        return chunks, false;
      }
      if !alive(|chunks|) {
        return chunks, false;
      }
      var data := stored[Min(offset, |stored|)..Min(offset + len, |stored|)];
      if |data| != len {
        return chunks, false;
      }
      if |stored| == total && last {
        assert stored[offset..offset + len] == stored[offset..];
      }
      chunks := chunks + [Chunk(offset, data, last)];
      cursor := if last then None else Some(offset + len);
      position := offset + len;
    }
    ok := true;
  }

  lemma {:induction false} LastOffsetClosed(start: nat, total: nat)
    requires start <= total
    ensures LastOffset(start, total) == start + (ChunkCount(total - start) - 1) * CHUNK_BYTES
    decreases total - start
  {
    if total - start > CHUNK_BYTES {
      LastOffsetClosed(start + CHUNK_BYTES, total);
    }
  }

  /** The input transfer from zero can be served exactly up to two GiB. */
  lemma {:induction false} RemoteLocalServableIff(total: nat)
    ensures LastOffset(0, total) + 1 <= INT4_MAX <==> total <= 2048 * CHUNK_BYTES
  {
    LastOffsetClosed(0, total);
  }

  // ---------------------------------------------------------------- consumers

  /** What the delivery RPC pushes to the subscribed downloader. */
  datatype DeliveryEvent = Data(bytes: Bytes) | Complete | Failed | Rejected

  /** One message of an inbound stream. */
  datatype Inbound = ChunkMsg(chunk: Chunk) | OtherMsg | Broken

  datatype ReceiveError = NotAChunk | TransportError | BadChunk | MissingLast

  datatype Receipt = Delivered(committed: nat, digest: Digest) | NoDownloader(committedSoFar: nat)

  datatype Received = Received(pushes: seq<DeliveryEvent>, outcome: Result<Receipt, ReceiveError>)

  /** Offset after a chunk; gaps, overlaps and `u64` overflow are errors. */
  function NextDeliveryOffset(expected: nat, chunk: Chunk): Option<nat> {
    if chunk.offset != expected then None
    else if expected + |chunk.data| >= U64_LIMIT then None
    else Some(expected + |chunk.data|)
  }

  predicate Acceptable(m: Manifest, next: nat, chunk: Chunk) {
    var following := NextDeliveryOffset(next, chunk);
    following.Some? && |chunk.data| <= CHUNK_BYTES && following.value <= m.size
  }

  /** The receiver's decision, message by message. `attached(k)` says whether a
      downloader still takes the k-th push; `fed` is what has been hashed. */
  function Receive(sha: HashFn, m: Manifest, next: nat, fed: Bytes, inbox: seq<Inbound>,
                   attached: nat -> bool, k: nat): (r: Received)
    decreases |inbox|
  {
    if inbox == [] then Received([Failed], Err(MissingLast))
    else match inbox[0]
      case Broken => Received([], Err(TransportError))
      case OtherMsg => Received([], Err(NotAChunk))
      case ChunkMsg(chunk) =>
        if !Acceptable(m, next, chunk) then Received([Rejected], Err(BadChunk))
        else
          var following := next + |chunk.data|;
          var fed' := fed + chunk.data;
          if !attached(k) then Received([Data(chunk.data)], Ok(NoDownloader(following)))
          else if chunk.last then Received([Data(chunk.data)], Ok(Delivered(following, sha(fed'))))
          else
            var rest := Receive(sha, m, following, fed', inbox[1..], attached, k + 1);
            Received([Data(chunk.data)] + rest.pushes, rest.outcome)
  }

  function Prepend(pushes: seq<DeliveryEvent>, r: Received): Received {
    Received(pushes + r.pushes, r.outcome)
  }

  /** An accepted chunk that is not the last is pushed, then the rest decides. */
  lemma {:induction false} ReceiveGoesOn(sha: HashFn, m: Manifest, next: nat, fed: Bytes, inbox: seq<Inbound>,
                                         attached: nat -> bool, i: nat, pushes: seq<DeliveryEvent>)
    requires i < |inbox| && inbox[i].ChunkMsg? && !inbox[i].chunk.last && attached(i)
    requires Acceptable(m, next, inbox[i].chunk)
    ensures var chunk := inbox[i].chunk;
      Prepend(pushes, Receive(sha, m, next, fed, inbox[i..], attached, i))
      == Prepend(pushes + [Data(chunk.data)],
                 Receive(sha, m, next + |chunk.data|, fed + chunk.data, inbox[i + 1..], attached, i + 1))
  {
    assert inbox[i..][1..] == inbox[i + 1..];
    var chunk := inbox[i].chunk;
    var rest := Receive(sha, m, next + |chunk.data|, fed + chunk.data, inbox[i + 1..], attached, i + 1);
    assert pushes + ([Data(chunk.data)] + rest.pushes) == pushes + [Data(chunk.data)] + rest.pushes;
  }

  method ReceiveDeliveryChunks(sha: HashFn, m: Manifest, start: nat, inbox: seq<Inbound>,
                               attached: nat -> bool) returns (r: Received)
    ensures r == Receive(sha, m, start, [], inbox, attached, 0)
  {
    var hasher: Bytes := [];
    var nextOffset := start;
    var sawLast := false;
    var pushes: seq<DeliveryEvent> := [];
    var i := 0;
    ghost var whole := Receive(sha, m, start, [], inbox, attached, 0);
    assert inbox[0..] == inbox && Prepend([], whole) == whole;
    while i < |inbox|
      invariant 0 <= i <= |inbox| && !sawLast
      invariant whole == Prepend(pushes, Receive(sha, m, nextOffset, hasher, inbox[i..], attached, i))
    {
      var item := inbox[i];
      match item {
        case Broken => return Received(pushes, Err(TransportError));
        case OtherMsg => return Received(pushes, Err(NotAChunk));
        case ChunkMsg(chunk) =>
          var following := NextDeliveryOffset(nextOffset, chunk);
          if following == None || |chunk.data| > CHUNK_BYTES || following.value > m.size {
            return Received(pushes + [Rejected], Err(BadChunk));
          }
          if attached(i) && !chunk.last {
            ReceiveGoesOn(sha, m, nextOffset, hasher, inbox, attached, i, pushes);
          }
          hasher := hasher + chunk.data;
          nextOffset := following.value;
          pushes := pushes + [Data(chunk.data)];
          if !attached(i) {
            return Received(pushes, Ok(NoDownloader(nextOffset)));
          }
          if chunk.last {
            sawLast := true;
            break;
          }
      }
      i := i + 1;
    }
    if !sawLast {
      return Received(pushes + [Failed], Err(MissingLast));
    }
    return Received(pushes, Ok(Delivered(nextOffset, sha(hasher))));
  }

  function Wrap(chunks: seq<Chunk>): (inbox: seq<Inbound>)
    ensures |inbox| == |chunks|
  {
    if chunks == [] then [] else [ChunkMsg(chunks[0])] + Wrap(chunks[1..])
  }

  lemma {:induction false} WrapStep(chunks: seq<Chunk>, rest: seq<Inbound>)
    requires chunks != []
    ensures var inbox := Wrap(chunks) + rest;
      inbox[0] == ChunkMsg(chunks[0]) && inbox[1..] == Wrap(chunks[1..]) + rest
  {
  }

  /** What a consumer looks at: the chunks up to the first one marked last, cut off
      where another message, an error or the end comes first. */
  function Leading(inbox: seq<Inbound>): seq<Chunk> {
    if inbox == [] || !inbox[0].ChunkMsg? then []
    else if inbox[0].chunk.last then [inbox[0].chunk]
    else [inbox[0].chunk] + Leading(inbox[1..])
  }

  lemma {:induction false} LeadingWrap(chunks: seq<Chunk>, rest: seq<Inbound>)
    requires LastOnlyAtEnd(chunks) && chunks[|chunks| - 1].last
    ensures Leading(Wrap(chunks) + rest) == chunks
  {
    WrapStep(chunks, rest);
    if |chunks| > 1 {
      assert !chunks[0].last;
      LeadingWrap(chunks[1..], rest);
    } else {
      assert chunks == [chunks[0]];
    }
  }

  function Datas(chunks: seq<Chunk>): seq<DeliveryEvent> {
    if chunks == [] then [] else [Data(chunks[0].data)] + Datas(chunks[1..])
  }

  ghost predicate Listening(attached: nat -> bool, from: nat, count: nat) {
    forall k :: from <= k < from + count ==> attached(k)
  }

  lemma {:induction false} LeadingTail(inbox: seq<Inbound>)
    requires Leading(inbox) != []
    ensures inbox != [] && inbox[0] == ChunkMsg(Leading(inbox)[0])
    ensures Leading(inbox)[1..] == if Leading(inbox)[0].last then [] else Leading(inbox[1..])
  {
  }

  lemma {:induction false} ConcatFirst(chunks: seq<Chunk>)
    requires chunks != []
    ensures Concat(chunks) == chunks[0].data + Concat(chunks[1..])
  {
  }

  /** For every inbox: receiving succeeds exactly when its leading chunks are a
      contiguous, bounded list that ends with a last one and fits the manifest, and
      every push was taken; the receipt then carries their end offset and the
      digest of their bytes. */
  lemma {:induction false} ReceiveDeliversIff(sha: HashFn, m: Manifest, next: nat, fed: Bytes,
                                              inbox: seq<Inbound>, attached: nat -> bool, k: nat)
    requires m.size < U64_LIMIT
    ensures var r := Receive(sha, m, next, fed, inbox, attached, k);
      (r.outcome.Ok? && r.outcome.value.Delivered?) <==>
        && Contiguous(Leading(inbox), next)
        && next + |Concat(Leading(inbox))| <= m.size
        && Listening(attached, k, |Leading(inbox)|)
    ensures var r := Receive(sha, m, next, fed, inbox, attached, k);
      r.outcome.Ok? && r.outcome.value.Delivered? ==>
        && r.outcome.value.committed == next + |Concat(Leading(inbox))|
        && r.outcome.value.digest == sha(fed + Concat(Leading(inbox)))
        && r.pushes == Datas(Leading(inbox))
    decreases |inbox|
  {
    var chunks := Leading(inbox);
    if chunks != [] {
      var (chunk, tail) := (chunks[0], chunks[1..]);
      LeadingTail(inbox);
      ConcatFirst(chunks);
      ListeningTail(attached, k, |chunks|);
      if chunk.last {
        assert tail == [] && chunks == [chunk];
        assert Concat(chunks) == chunk.data && Datas(chunks) == [Data(chunk.data)];
      } else if Acceptable(m, next, chunk) && attached(k) {
        ReceiveDeliversIff(sha, m, next + |chunk.data|, fed + chunk.data, inbox[1..], attached, k + 1);
        assert fed + chunk.data + Concat(tail) == fed + Concat(chunks);
      }
    }
  }

  lemma {:induction false} ListeningTail(attached: nat -> bool, k: nat, count: nat)
    requires count > 0
    ensures Listening(attached, k, count) <==> attached(k) && Listening(attached, k + 1, count - 1)
  {
  }

  datatype Validation = Accepted | Retryable | RejectedForGood

  function ValidateReceipt(m: Manifest, start: nat, committed: nat, digest: Digest): Validation {
    if start == 0 then
      match Verify(m, committed, digest)
      case Ok(_) => Accepted
      case Err(DigestMismatch) => RejectedForGood
      case Err(SizeMismatch) => Retryable
    else if committed != m.size then Retryable
    else Accepted
  }

  /** Everything one delivery RPC pushes, verdict included. */
  function DeliverRpc(sha: HashFn, m: Manifest, start: nat, inbox: seq<Inbound>,
                      attached: nat -> bool): seq<DeliveryEvent> {
    var r := Receive(sha, m, start, [], inbox, attached, 0);
    if r.outcome.Ok? && r.outcome.value.Delivered? then
      match ValidateReceipt(m, start, r.outcome.value.committed, r.outcome.value.digest)
      case Accepted => r.pushes + [Complete]
      case Retryable => r.pushes + [Failed]
      case RejectedForGood => r.pushes + [Rejected]
    else r.pushes
  }

  lemma {:induction false} ReceiveReference(sha: HashFn, m: Manifest, content: Bytes, next: nat, fed: Bytes,
                         attached: nat -> bool, k: nat)
    requires next <= |content| == m.size < U64_LIMIT
    requires Listening(attached, k, |ChunksFrom(content, next)|)
    ensures Receive(sha, m, next, fed, Wrap(ChunksFrom(content, next)), attached, k)
      == Received(Datas(ChunksFrom(content, next)),
                  Ok(Delivered(|content|, sha(fed + content[next..]))))
  {
    var chunks := ChunksFrom(content, next);
    ChunksFromShape(content, next);
    ContiguousEndsOnce(chunks, next);
    LeadingWrap(chunks, []);
    assert Wrap(chunks) + [] == Wrap(chunks);
    ReceiveDeliversIff(sha, m, next, fed, Wrap(chunks), attached, k);
  }

  /** Worker to Remote, any start offset: the chunks the Worker's reader produces
      are all accepted, reach the downloader in order, and the RPC completes. */
  lemma {:induction false} DeliveryRoundTrip(sha: HashFn, content: Bytes, start: nat, attached: nat -> bool)
    requires start <= |content| < U64_LIMIT && forall k :: attached(k)
    ensures var m := Manifest(|content|, sha(content));
      var chunks := ChunksFrom(content, start);
      && Receive(sha, m, start, [], Wrap(chunks), attached, 0)
           == Received(Datas(chunks), Ok(Delivered(|content|, sha(content[start..]))))
      && DeliverRpc(sha, m, start, Wrap(chunks), attached) == Datas(chunks) + [Complete]
      && Concat(chunks) == content[start..]
      && |chunks| == ChunkCount(|content| - start)
  {
    ReceiveReference(sha, Manifest(|content|, sha(content)), content, start, [], attached, 0);
    ChunksFromShape(content, start);
    ChunksFromCount(content, start);
    assert [] + content[start..] == content[start..];
    assert start == 0 ==> content[start..] == content;
  }

  // -- Worker side of the input transfer

  datatype FetchError = FetchFailed

  datatype Fetched = Fetched(total: nat, file: Bytes)

  /** `fetch_remote_local_input` from offset `expected` on: the total it reports
      and the bytes it appends to the staged file. No manifest bound applies
      here, the caller verifies. */
  function Fetch(expected: nat, inbox: seq<Inbound>): Result<Fetched, FetchError>
    decreases |inbox|
  {
    if inbox == [] then Err(FetchFailed)
    else match inbox[0]
      case Broken => Err(FetchFailed)
      case OtherMsg => Err(FetchFailed)
      case ChunkMsg(chunk) =>
        if chunk.offset != expected || |chunk.data| > CHUNK_BYTES then Err(FetchFailed)
        else if expected + |chunk.data| >= U64_LIMIT then Err(FetchFailed)
        else if chunk.last then Ok(Fetched(expected + |chunk.data|, chunk.data))
        else match Fetch(expected + |chunk.data|, inbox[1..])
          case Err(e) => Err(e)
          case Ok(rest) => Ok(Fetched(rest.total, chunk.data + rest.file))
  }

  method FetchRemoteLocalInput(inbox: seq<Inbound>) returns (r: Result<Fetched, FetchError>)
    ensures r == Fetch(0, inbox)
    ensures r.Ok? ==> r.value.total == |r.value.file|
  {
    var expected, file, sawLast := 0, [], false;
    var i := 0;
    ghost var whole := Fetch(0, inbox);
    assert inbox[0..] == inbox && (whole.Ok? ==> [] + whole.value.file == whole.value.file);
    while i < |inbox|
      invariant 0 <= i <= |inbox| && !sawLast
      invariant expected == |file|
      invariant var rest := Fetch(expected, inbox[i..]);
        && (rest.Err? ==> whole == rest)
        && (rest.Ok? ==> whole == Ok(Fetched(rest.value.total, file + rest.value.file)))
    {
      assert inbox[i..][1..] == inbox[i + 1..];
      match inbox[i] {
        case Broken => return Err(FetchFailed);
        case OtherMsg => return Err(FetchFailed);
        case ChunkMsg(chunk) =>
          if sawLast || chunk.offset != expected || |chunk.data| > CHUNK_BYTES {
            return Err(FetchFailed);
          }
          if expected + |chunk.data| >= U64_LIMIT {
            return Err(FetchFailed);
          }
          expected := expected + |chunk.data|;
          ghost var rest := Fetch(expected, inbox[i + 1..]);
          assert rest.Ok? ==> file + (chunk.data + rest.value.file) == file + chunk.data + rest.value.file;
          file := file + chunk.data;
          sawLast := chunk.last;
          if sawLast {
            break;
          }
      }
      i := i + 1;
    }
    if !sawLast {
      return Err(FetchFailed);
    }
    return Ok(Fetched(expected, file));
  }

  /** For every inbox: fetching succeeds exactly when its leading chunks are a
      contiguous bounded list ending with a last one, within 64-bit offsets; the
      staged file is then the concatenation of their bytes. */
  lemma {:induction false} FetchIff(expected: nat, inbox: seq<Inbound>)
    ensures Fetch(expected, inbox).Ok? <==>
      Contiguous(Leading(inbox), expected) && expected + |Concat(Leading(inbox))| < U64_LIMIT
    ensures Fetch(expected, inbox).Ok? ==>
      Fetch(expected, inbox).value == Fetched(expected + |Concat(Leading(inbox))|, Concat(Leading(inbox)))
    decreases |inbox|
  {
    var chunks := Leading(inbox);
    if chunks != [] {
      LeadingTail(inbox);
      ConcatFirst(chunks);
      if chunks[0].last {
        assert chunks[1..] == [] && Concat(chunks) == chunks[0].data;
      } else {
        FetchIff(expected + |chunks[0].data|, inbox[1..]);
      }
    }
  }

  /** Remote to Worker, from zero: the staged input is the stored content and
      passes its manifest. */
  lemma {:induction false} InputRoundTrip(sha: HashFn, content: Bytes)
    requires |content| < U64_LIMIT
    ensures Fetch(0, Wrap(ChunksFrom(content, 0))) == Ok(Fetched(|content|, content))
    ensures Verify(Manifest(|content|, sha(content)), |content|, sha(content)) == Ok(())
  {
    var chunks := ChunksFrom(content, 0);
    ChunksFromShape(content, 0);
    ContiguousEndsOnce(chunks, 0);
    LeadingWrap(chunks, []);
    assert Wrap(chunks) + [] == Wrap(chunks);
    FetchIff(0, Wrap(chunks));
  }
}
