/** Content identity of model material: the framed directory digest, and the hash
    cache that must agree with rehashing. */
module Models {
  import opened Common

  /** `HASH_CHUNK_BYTES`. */
  const HASH_CHUNK_BYTES: nat := 1024 * 1024

  // ------------------------------------------------------- big-endian integers

  function Pow256(k: nat): nat {
    if k == 0 then 1 else 256 * Pow256(k - 1)
  }

  function BigEndian(n: nat, k: nat): (bytes: Bytes)
    ensures |bytes| == k
  {
    if k == 0 then [] else BigEndian(n / 256, k - 1) + [n % 256]
  }

  function FromBigEndian(bytes: Bytes): nat {
    if bytes == [] then 0 else 256 * FromBigEndian(bytes[..|bytes| - 1]) + bytes[|bytes| - 1]
  }

  lemma {:induction false} BigEndianRoundTrip(n: nat, k: nat)
    requires n < Pow256(k)
    ensures FromBigEndian(BigEndian(n, k)) == n
  {
    if k > 0 {
      BigEndianRoundTrip(n / 256, k - 1);
      assert BigEndian(n, k)[..k - 1] == BigEndian(n / 256, k - 1);
    }
  }

  lemma {:induction false} EightBytes()
    ensures Pow256(8) == U64_LIMIT
  {
    assert Pow256(2) == 0x1_0000;
    assert Pow256(4) == 0x1_0000_0000;
    assert Pow256(6) == 0x1_0000_0000_0000;
  }

  function U64Bytes(n: nat): Bytes {
    BigEndian(n, 8)
  }

  lemma {:induction false} U64RoundTrip(n: nat)
    requires n < U64_LIMIT
    ensures FromBigEndian(U64Bytes(n)) == n
  {
    EightBytes();
    BigEndianRoundTrip(n, 8);
  }

  // ---------------------------------------------------------- directory digest

  /** A regular file below the model directory; `name` is the UTF-8 of its
      relative path. */
  datatype ModelFile = ModelFile(name: Bytes, content: Bytes)

  /** What the length fields can hold. */
  predicate Representable(f: ModelFile) {
    |f.name| < U64_LIMIT && |f.content| < U64_LIMIT
  }

  predicate AllRepresentable(files: seq<ModelFile>) {
    forall f :: f in files ==> Representable(f)
  }

  /** "gpq-model-directory-v1" and a zero byte. */
  const TAG: Bytes := [103, 112, 113, 45, 109, 111, 100, 101, 108, 45, 100, 105, 114, 101, 99, 116, 111, 114, 121,
                       45, 118, 49, 0]

  /** A length-prefixed field. */
  function Field(bytes: Bytes): Bytes {
    U64Bytes(|bytes|) + bytes
  }

  function Frame(f: ModelFile): Bytes {
    Field(f.name) + Field(f.content)
  }

  lemma {:induction false} Associate(a: Bytes, b: Bytes, c: Bytes)
    ensures (a + b) + c == a + (b + c)
  {
  }

  function Frames(files: seq<ModelFile>): Bytes {
    if files == [] then [] else Frame(files[0]) + Frames(files[1..])
  }

  /** The whole byte stream the hasher is fed. */
  function Preimage(files: seq<ModelFile>): Bytes {
    TAG + Frames(files)
  }

  /** Reads one length-prefixed field off the front. */
  function TakeField(bytes: Bytes): (r: Option<(Bytes, Bytes)>)
    ensures r.Some? ==> |r.value.1| < |bytes|
  {
    if |bytes| < 8 then None
    else
      var n := FromBigEndian(bytes[..8]);
      if |bytes| - 8 < n then None else Some((bytes[8..8 + n], bytes[8 + n..]))
  }

  function Unframe(bytes: Bytes): Option<seq<ModelFile>>
    decreases |bytes|
  {
    if bytes == [] then Some([])
    else
      var name := TakeField(bytes);
      if name == None then None
      else
        var content := TakeField(name.value.1);
        if content == None then None
        else
          var rest := Unframe(content.value.1);
          if rest == None then None else Some([ModelFile(name.value.0, content.value.0)] + rest.value)
  }

  lemma {:induction false} TakeFieldOf(field: Bytes, rest: Bytes)
    requires |field| < U64_LIMIT
    ensures TakeField(Field(field) + rest) == Some((field, rest))
  {
    U64RoundTrip(|field|);
    var bytes := Field(field) + rest;
    assert bytes[..8] == U64Bytes(|field|);
    assert bytes[8..8 + |field|] == field;
    assert bytes[8 + |field|..] == rest;
  }

  /** Reading back the frames yields the files. */
  lemma {:induction false} UnframeFrames(files: seq<ModelFile>)
    requires AllRepresentable(files)
    ensures Unframe(Frames(files)) == Some(files)
  {
    if files != [] {
      var f, rest := files[0], Frames(files[1..]);
      assert Representable(f);
      UnframeFrames(files[1..]);
      TakeFieldOf(f.name, Field(f.content) + rest);
      TakeFieldOf(f.content, rest);
      Associate(Field(f.name), Field(f.content), rest);
      assert [f] + files[1..] == files;
    }
  }

  /** Equal preimages mean equal directories: same paths, same contents, in the
      same order. */
  lemma {:induction false} PreimageIsInjective(a: seq<ModelFile>, b: seq<ModelFile>)
    requires AllRepresentable(a) && AllRepresentable(b) && Preimage(a) == Preimage(b)
    ensures a == b
  {
    assert Frames(a) == Preimage(a)[|TAG|..] && Frames(b) == Preimage(b)[|TAG|..];
    UnframeFrames(a);
    UnframeFrames(b);
  }

  lemma {:induction false} FromBigEndianBound(bytes: Bytes)
    ensures FromBigEndian(bytes) < Pow256(|bytes|)
    ensures BigEndian(FromBigEndian(bytes), |bytes|) == bytes
  {
    if bytes != [] {
      var init, last := bytes[..|bytes| - 1], bytes[|bytes| - 1];
      FromBigEndianBound(init);
      var n := FromBigEndian(bytes);
      assert n == 256 * FromBigEndian(init) + last;
      assert n / 256 == FromBigEndian(init) && n % 256 == last;
      assert bytes == init + [last];
    }
  }

  /** A field taken off the front is there as written. */
  lemma {:induction false} TakenField(bytes: Bytes)
    requires TakeField(bytes).Some?
    ensures var (field, rest) := TakeField(bytes).value;
      |field| < U64_LIMIT && bytes == Field(field) + rest
  {
    var n := FromBigEndian(bytes[..8]);
    FromBigEndianBound(bytes[..8]);
    EightBytes();
    var (field, rest) := TakeField(bytes).value;
    assert |field| == n && U64Bytes(n) == bytes[..8];
    assert bytes == bytes[..8] + bytes[8..8 + n] + bytes[8 + n..];
  }

  /** Conversely, whatever reads as frames is the framing of the files read. */
  lemma {:induction false} FramesUnframe(bytes: Bytes)
    requires Unframe(bytes).Some?
    ensures AllRepresentable(Unframe(bytes).value) && Frames(Unframe(bytes).value) == bytes
    decreases |bytes|
  {
    if bytes != [] {
      TakenField(bytes);
      var (name, tail) := TakeField(bytes).value;
      TakenField(tail);
      var (content, rest) := TakeField(tail).value;
      FramesUnframe(rest);
      var files := Unframe(bytes).value;
      assert files[0] == ModelFile(name, content) && files[1..] == Unframe(rest).value;
      Associate(Field(name), Field(content), rest);
    }
  }

  // ------------------------------------------------- sizes that have gone stale

  /** The stream when the declared sizes come from earlier metadata than the
      contents. */
  function RacedFrames(files: seq<ModelFile>, sizes: seq<nat>): Bytes
    requires |sizes| == |files|
  {
    if files == [] then []
    else Field(files[0].name) + (U64Bytes(sizes[0]) + files[0].content) + RacedFrames(files[1..], sizes[1..])
  }

  predicate AllU64(sizes: seq<nat>) {
    forall i :: 0 <= i < |sizes| ==> sizes[i] < U64_LIMIT
  }

  ghost predicate SizesMatch(files: seq<ModelFile>, sizes: seq<nat>)
    requires |sizes| == |files|
  {
    forall i :: 0 <= i < |files| ==> sizes[i] == |files[i].content|
  }

  lemma {:induction false} SizesMatchTail(files: seq<ModelFile>, sizes: seq<nat>)
    requires |sizes| == |files| && files != []
    ensures SizesMatch(files, sizes) <==> sizes[0] == |files[0].content| && SizesMatch(files[1..], sizes[1..])
  {
    if sizes[0] == |files[0].content| && SizesMatch(files[1..], sizes[1..]) {
      forall i | 0 <= i < |files| ensures sizes[i] == |files[i].content| {
        if i > 0 {
          assert sizes[i] == sizes[1..][i - 1] && files[i] == files[1..][i - 1];
        }
      }
    } else if SizesMatch(files, sizes) {
      forall i | 0 <= i < |files| - 1 ensures sizes[1..][i] == |files[1..][i].content| {
        assert sizes[1..][i] == sizes[i + 1];
      }
    }
  }

  lemma {:induction false} SameFront(a: Bytes, b: Bytes, x: Bytes, y: Bytes)
    requires |a| == |b|
    ensures a + x == b + y <==> a == b && x == y
  {
    if a + x == b + y {
      assert a == (a + x)[..|a|] && b == (b + y)[..|b|];
      assert x == (a + x)[|a|..] && y == (b + y)[|b|..];
    }
  }

  lemma {:induction false} SameSizeField(a: nat, b: nat)
    requires a < U64_LIMIT && b < U64_LIMIT
    ensures U64Bytes(a) == U64Bytes(b) <==> a == b
  {
    U64RoundTrip(a);
    U64RoundTrip(b);
  }

  /** The framing is that of the contents read exactly when every declared size is
      still true. */
  lemma {:induction false} RacedFramesAgreeIff(files: seq<ModelFile>, sizes: seq<nat>)
    requires |sizes| == |files| && AllRepresentable(files) && AllU64(sizes)
    ensures RacedFrames(files, sizes) == Frames(files) <==> SizesMatch(files, sizes)
    ensures |RacedFrames(files, sizes)| == |Frames(files)|
  {
    if files != [] {
      var (f, n) := (files[0], sizes[0]);
      assert f in files;
      assert forall g :: g in files[1..] ==> g in files;
      RacedFramesAgreeIff(files[1..], sizes[1..]);
      SizesMatchTail(files, sizes);
      SameSizeField(n, |f.content|);
      var (raced, framed) := (U64Bytes(n) + f.content, Field(f.content));
      SameFront(U64Bytes(n), U64Bytes(|f.content|), f.content, f.content);
      SameFront(Field(f.name) + raced, Field(f.name) + framed, RacedFrames(files[1..], sizes[1..]), Frames(files[1..]));
      SameFront(Field(f.name), Field(f.name), raced, framed);
    }
  }

  /** A raced stream reads as some directory exactly when it is the digest input of
      that directory; and it reads as the one whose contents were hashed exactly
      when every declared size is still true. */
  lemma {:induction false} RacedStreamReadsAs(files: seq<ModelFile>, sizes: seq<nat>, other: seq<ModelFile>)
    requires |sizes| == |files| && AllRepresentable(files) && AllU64(sizes)
    requires AllRepresentable(other)
    ensures TAG + RacedFrames(files, sizes) == Preimage(other) <==> Unframe(RacedFrames(files, sizes)) == Some(other)
    ensures Unframe(RacedFrames(files, sizes)) == Some(files) <==> SizesMatch(files, sizes)
  {
    var raced := RacedFrames(files, sizes);
    SameFront(TAG, TAG, raced, Frames(other));
    UnframeFrames(other);
    UnframeFrames(files);
    RacedFramesAgreeIff(files, sizes);
    if Unframe(raced).Some? {
      FramesUnframe(raced);
    }
  }

  /** So a stale size can make the stream that of another directory: an empty file
      that has grown to the frame of another one by the time it is read. */
  lemma {:induction false} RacedSizeIsAmbiguous(name: Bytes, hidden: ModelFile)
    ensures TAG + RacedFrames([ModelFile(name, Frame(hidden))], [0]) == Preimage([ModelFile(name, []), hidden])
  {
    var (read, first) := (ModelFile(name, Frame(hidden)), ModelFile(name, []));
    assert [read][1..] == [] && [0][1..] == [];
    assert [first, hidden][1..] == [hidden] && [hidden][1..] == [];
    assert Frames([hidden]) == Frame(hidden);
    assert Field([]) == U64Bytes(0);
    Associate(Field(name), Field([]), Frame(hidden));
  }

  /** Feeds one file to the hasher in buffers of whatever size the reads return. */
  method UpdateFileHash(hashed: Bytes, content: Bytes) returns (r: Bytes)
    ensures r == hashed + content
  {
    r := hashed;
    var position := 0;
    while position < |content|
      invariant position <= |content| && r == hashed + content[..position]
    {
      var n: nat :| 1 <= n <= HASH_CHUNK_BYTES && position + n <= |content|;
      assert content[..position + n] == content[..position] + content[position..position + n];
      r := r + content[position..position + n];
      position := position + n;
    }
    assert content[..|content|] == content;
  }

  method FeedFile(hashed: Bytes, f: ModelFile) returns (r: Bytes)
    ensures r == hashed + Frame(f)
  {
    r := hashed + U64Bytes(|f.name|);
    r := r + f.name;
    assert r == hashed + Field(f.name);
    r := r + U64Bytes(|f.content|);
    r := UpdateFileHash(r, f.content);
    assert r == hashed + Field(f.name) + Field(f.content);
  }

  /** `digest_directory`: what the hasher has been fed in the end. */
  method FeedDirectory(files: seq<ModelFile>) returns (hashed: Bytes)
    ensures hashed == Preimage(files)
  {
    hashed := TAG;
    for i := 0 to |files|
      invariant hashed + Frames(files[i..]) == Preimage(files)
    {
      ghost var before := hashed;
      hashed := FeedFile(hashed, files[i]);
      assert files[i..][1..] == files[i + 1..];
      Associate(before, Frame(files[i]), Frames(files[i + 1..]));
    }
    assert files[|files|..] == [];
  }

  // ---------------------------------------------------------------- hash cache

  type Path = string

  /** `CacheKey`. */
  datatype Key = Key(size: nat, mtime: int, fileId: string, directory: bool)

  /** What one call finds at a path: metadata and material, unchanged during the
      call. `members` also covers empty subdirectories, which hold no file. */
  datatype Asset = Asset(key: Key, members: map<Bytes, Key>, files: seq<ModelFile>, content: Bytes)

  function DigestOf(sha: HashFn, asset: Asset): Digest {
    if asset.key.directory then sha(Preimage(asset.files)) else sha(asset.content)
  }

  datatype Entry = Entry(key: Key, members: map<Bytes, Key>, hash: Digest)

  type Cache = map<Path, Entry>

  datatype CacheFile = Absent | Unreadable | Readable(cache: Cache)

  datatype HashError = NoAsset | BadCache | SaveFailed

  predicate Hit(cache: Cache, path: Path, asset: Asset) {
    path in cache && cache[path].key == asset.key && cache[path].members == asset.members
  }

  function Loaded(file: CacheFile): Option<Cache> {
    match file
    case Absent => Some(map[])
    case Unreadable => None
    case Readable(cache) => Some(cache)
  }

  function EntryFor(sha: HashFn, asset: Asset): Entry {
    Entry(asset.key, asset.members, DigestOf(sha, asset))
  }

  /** One call; `asset` is absent when reading its metadata or its tree fails. */
  datatype Call = Call(path: Path, asset: Option<Asset>, saveOk: bool)

  function Hashed(sha: HashFn, file: CacheFile, c: Call): (Result<Digest, HashError>, CacheFile) {
    if c.asset == None then (Err(NoAsset), file)
    else
      var cache := Loaded(file);
      if cache == None then (Err(BadCache), file)
      else if Hit(cache.value, c.path, c.asset.value) then (Ok(cache.value[c.path].hash), file)
      else if !c.saveOk then (Err(SaveFailed), file)
      else
        (Ok(DigestOf(sha, c.asset.value)), Readable(cache.value[c.path := EntryFor(sha, c.asset.value)]))
  }

  class HashCache {
    const sha: HashFn
    var file: CacheFile

    constructor (sha: HashFn)
      ensures this.sha == sha && file == Absent
    {
      this.sha := sha;
      file := Absent;
    }

    /** `hash_model`; the cache file is replaced by an atomic rename or not at
        all. */
    method HashModel(c: Call) returns (r: Result<Digest, HashError>)
      modifies this`file
      ensures (r, file) == Hashed(sha, old(file), c)
    {
      if c.asset == None {
        return Err(NoAsset);
      }
      var asset := c.asset.value;
      var loaded := Loaded(file);
      if loaded == None {
        return Err(BadCache);
      }
      var cache := loaded.value;
      if c.path in cache {
        var entry := cache[c.path];
        if entry.key == asset.key && entry.members == asset.members {
          return Ok(entry.hash);
        }
      }
      var hash;
      if asset.key.directory {
        var preimage := FeedDirectory(asset.files);
        hash := sha(preimage);
      } else {
        var content := UpdateFileHash([], asset.content);
        assert [] + asset.content == asset.content;
        hash := sha(content);
      }
      cache := cache[c.path := Entry(asset.key, asset.members, hash)];
      if !c.saveOk {
        return Err(SaveFailed);
      }
      file := Readable(cache);
      return Ok(hash);
    }
  }

  // -------------------------------------------------- the cache over a history

  function CacheAfter(sha: HashFn, file: CacheFile, calls: seq<Call>): CacheFile {
    if calls == [] then file
    else Hashed(sha, CacheAfter(sha, file, calls[..|calls| - 1]), calls[|calls| - 1]).1
  }

  /** Same path, same metadata. */
  predicate SameFingerprint(a: Call, b: Call) {
    a.path == b.path && a.asset.Some? && b.asset.Some?
    && a.asset.value.key == b.asset.value.key && a.asset.value.members == b.asset.value.members
  }

  predicate SameMaterial(a: Asset, b: Asset) {
    if a.key.directory then a.files == b.files else a.content == b.content
  }

  /** Whenever a path shows the same metadata again it holds the same material. */
  ghost predicate MetadataTellsMaterial(calls: seq<Call>) {
    forall a, b :: a in calls && b in calls && SameFingerprint(a, b) ==> SameMaterial(a.asset.value, b.asset.value)
  }

  /** Every cached entry was computed by an earlier call. */
  ghost predicate FromHistory(sha: HashFn, file: CacheFile, calls: seq<Call>) {
    file.Readable? ==> forall path :: path in file.cache ==>
      exists a :: a in calls && a.asset.Some? && a.path == path && file.cache[path] == EntryFor(sha, a.asset.value)
  }

  lemma {:induction false} CacheIsFromHistory(sha: HashFn, calls: seq<Call>)
    ensures FromHistory(sha, CacheAfter(sha, Absent, calls), calls)
  {
    if calls != [] {
      var init, last := calls[..|calls| - 1], calls[|calls| - 1];
      CacheIsFromHistory(sha, init);
      var before, after := CacheAfter(sha, Absent, init), CacheAfter(sha, Absent, calls);
      if after.Readable? {
        forall path | path in after.cache
          ensures exists a ::
            a in calls && a.asset.Some? && a.path == path && after.cache[path] == EntryFor(sha, a.asset.value)
        {
          if before.Readable? && path in before.cache && after.cache[path] == before.cache[path] {
            var a :| a in init && a.asset.Some? && a.path == path && before.cache[path] == EntryFor(sha, a.asset.value);
            assert a in calls;
          } else {
            assert last in calls;
          }
        }
      }
    }
  }

  /** Over any edits between calls, a successful call returns the digest of what
      is there now, whatever earlier calls left in the cache. */
  lemma {:induction false} CacheRefinesRehashing(sha: HashFn, calls: seq<Call>, c: Call)
    requires MetadataTellsMaterial(calls + [c])
    ensures var r := Hashed(sha, CacheAfter(sha, Absent, calls), c).0;
      r.Ok? ==> c.asset.Some? && r.value == DigestOf(sha, c.asset.value)
  {
    var file := CacheAfter(sha, Absent, calls);
    CacheIsFromHistory(sha, calls);
    if c.asset.Some? && file.Readable? && Hit(file.cache, c.path, c.asset.value) {
      var a :| a in calls && a.asset.Some? && a.path == c.path
        && file.cache[c.path] == EntryFor(sha, a.asset.value);
      assert a in calls + [c] && c in calls + [c];
      assert SameFingerprint(a, c);
    }
  }

  /** The hypothesis is needed: after one call, a second call on the same path is
      right exactly when equal metadata comes with an equal digest. */
  lemma {:induction false} SecondCallIsRightIff(sha: HashFn, a: Call, c: Call)
    requires a.asset.Some? && a.saveOk && c.asset.Some? && c.saveOk && a.path == c.path
    ensures var file := Hashed(sha, Absent, a).1;
      Hashed(sha, file, c).0 == Ok(DigestOf(sha, c.asset.value))
      <==> (SameFingerprint(a, c) ==> DigestOf(sha, a.asset.value) == DigestOf(sha, c.asset.value))
  {
  }
}
