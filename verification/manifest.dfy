/** Chunked payload manifests: building, validating and verifying against a byte stream. */
module Manifests {
  import opened Arithmetic
  import opened Outcomes
  import opened Text
  import opened Streams

  const ManifestVersion := 1
  const DefaultChunkSize := 1024 * 1024
  const MaxInt64 := 0x7fff_ffff_ffff_ffff

  predicate LowerHex(s: string, length: nat)
  {
    |s| == length && forall i | 0 <= i < length :: '0' <= s[i] <= '9' || 'a' <= s[i] <= 'f'
  }

  /** 64 lowercase hexadecimal digits, the shape of every SHA-256 digest. */
  type Digest = s: string | LowerHex(s, 64)
    witness seq(64, _ => '0')

  /** The payload hash.  Nothing is assumed of it but the shape of its results. */
  type Hasher = Bytes -> Digest

  /** Two different payloads with one digest. */
  predicate Collides(hash: Hasher, a: Bytes, b: Bytes)
  {
    a != b && hash(a) == hash(b)
  }

  datatype Chunk = Chunk(index: int, size: int, hash: string)

  /** `size` is a 64-bit field; manifests also arrive from the network with arbitrary contents. */
  datatype Manifest = Manifest(
    version: int,
    filename: string,
    size: Int64,
    chunkSize: int,
    hash: string,
    chunks: seq<Chunk>)

  type Int64 = n: int | -MaxInt64 - 1 <= n <= MaxInt64

  /** 64-bit addition overflows by wrapping around. */
  function Wrap64(n: int): Int64
  {
    (n + 0x8000_0000_0000_0000) % 0x1_0000_0000_0000_0000 - 0x8000_0000_0000_0000
  }

  predicate ValidFilename(name: string)
  {
    && !Blank(name)
    && '\0' !in name
    && name != "." && name != ".."
    && '/' !in name && '\\' !in name
  }

  predicate ValidChunkSize(n: int)
  {
    0 < n <= DefaultChunkSize
  }

  /** The number of chunks of a payload of `size` bytes. */
  function ChunkCount(size: nat, chunkSize: nat): nat
    requires chunkSize > 0
  {
    size / chunkSize + if size % chunkSize == 0 then 0 else 1
  }

  /** Where chunk `i` starts. */
  function Offset(size: nat, chunkSize: nat, i: nat): nat
  {
    if i * chunkSize <= size then i * chunkSize else size
  }

  lemma {:induction false} OffsetStep(size: nat, chunkSize: nat, i: nat)
    requires chunkSize > 0
    ensures Offset(size, chunkSize, 0) == 0
    ensures Offset(size, chunkSize, i) <= Offset(size, chunkSize, i + 1) <= size
    ensures Offset(size, chunkSize, i + 1) - Offset(size, chunkSize, i) <= chunkSize
    ensures i < ChunkCount(size, chunkSize) ==> Offset(size, chunkSize, i) < Offset(size, chunkSize, i + 1)
    ensures i + 1 < ChunkCount(size, chunkSize) ==>
              Offset(size, chunkSize, i + 1) == Offset(size, chunkSize, i) + chunkSize
    ensures i >= ChunkCount(size, chunkSize) ==> Offset(size, chunkSize, i) == size
  {
    var q, r := size / chunkSize, size % chunkSize;
    assert size == q * chunkSize + r;
    assert (i + 1) * chunkSize == i * chunkSize + chunkSize;
    if i < q {
      MulMonotone(i + 1, q, chunkSize);
      if i + 1 < q {
        MulMonotone(i + 2, q, chunkSize);
      }
    } else if i > q {
      MulMonotone(q + 1, i, chunkSize);
    }
  }

  function ChunkLen(size: nat, chunkSize: nat, i: nat): nat
    requires chunkSize > 0
  {
    OffsetStep(size, chunkSize, i);
    Offset(size, chunkSize, i + 1) - Offset(size, chunkSize, i)
  }

  /** What `Validate` is for: every chunk covers exactly its own stretch of the payload. */
  predicate WellLaid(m: Manifest)
  {
    && m.size >= 0 && ValidChunkSize(m.chunkSize)
    && |m.chunks| == ChunkCount(m.size, m.chunkSize)
    && forall i | 0 <= i < |m.chunks| ::
         && m.chunks[i].index == i
         && m.chunks[i].size == ChunkLen(m.size, m.chunkSize, i)
  }

  predicate Valid(hash: Hasher, m: Manifest)
  {
    && m.version == ManifestVersion
    && ValidFilename(m.filename)
    && WellLaid(m)
    && LowerHex(m.hash, 64)
    && (m.size == 0 ==> m.hash == hash([]))
    && forall i | 0 <= i < |m.chunks| :: LowerHex(m.chunks[i].hash, 64)
  }

  /** The running total passed to the final comparison cannot have wrapped into agreement. */
  lemma {:induction false} WrapIsFaithful(total: int, size: Int64)
    requires 0 <= total < 0x1_0000_0000_0000_0000 && size >= 0
    ensures Wrap64(total) == size <==> total == size
  {
  }

  method Validate(hash: Hasher, m: Manifest) returns (ok: bool)
    ensures ok <==> Valid(hash, m)
  {
    hide Blank, LowerHex;
    if m.version != ManifestVersion || !ValidFilename(m.filename) || m.size < 0 || !ValidChunkSize(m.chunkSize)
       || !LowerHex(m.hash, 64) {
      return false;
    }
    if m.size == 0 {
      EmptyLayout(m.chunkSize);
      return |m.chunks| == 0 && m.hash == hash([]);
    }
    if |m.chunks| == 0 {
      OffsetStep(m.size, m.chunkSize, 0);
      return false;
    }
    var expected := m.size / m.chunkSize;
    if m.size % m.chunkSize != 0 {
      expected := expected + 1;
    }
    if |m.chunks| != expected {
      return false;
    }
    ok := ValidateChunks(m);
  }

  /** The loop of `Validate`: the chunk checks and the running 64-bit total. */
  method ValidateChunks(m: Manifest) returns (ok: bool)
    requires m.size > 0 && ValidChunkSize(m.chunkSize) && 0 < |m.chunks| == ChunkCount(m.size, m.chunkSize)
    ensures ok <==> WellLaid(m) && forall i | 0 <= i < |m.chunks| :: LowerHex(m.chunks[i].hash, 64)
  {
    hide LowerHex, ChunkCount, Offset, Wrap64;
    var total: Int64 := 0;
    OffsetStep(m.size, m.chunkSize, 0);
    for i := 0 to |m.chunks|
      invariant i < |m.chunks| ==> total == Offset(m.size, m.chunkSize, i)
      invariant i == |m.chunks| ==> total == Wrap64(Offset(m.size, m.chunkSize, i - 1) + m.chunks[i - 1].size)
      invariant forall k | 0 <= k < i :: 0 < m.chunks[k].size <= m.chunkSize
      invariant forall k | 0 <= k < i :: m.chunks[k].index == k && LowerHex(m.chunks[k].hash, 64)
      invariant forall k | 0 <= k < i && k < |m.chunks| - 1 ::
                  m.chunks[k].size == ChunkLen(m.size, m.chunkSize, k)
    {
      var chunk := m.chunks[i];
      OffsetStep(m.size, m.chunkSize, i);
      if chunk.index != i || chunk.size <= 0 || chunk.size > m.chunkSize {
        return false;
      }
      if i < |m.chunks| - 1 && chunk.size != m.chunkSize {
        return false;
      }
      if !LowerHex(chunk.hash, 64) {
        return false;
      }
      WrapSmall(total + chunk.size);
      total := Wrap64(total + chunk.size);
    }
    var last := |m.chunks| - 1;
    OffsetStep(m.size, m.chunkSize, last);
    OffsetStep(m.size, m.chunkSize, last + 1);
    WrapIsFaithful(Offset(m.size, m.chunkSize, last) + m.chunks[last].size, m.size);
    return total == m.size;
  }

  lemma {:induction false} WrapSmall(n: int)
    ensures 0 <= n <= MaxInt64 ==> Wrap64(n) == n
  {
  }

  lemma {:induction false} EmptyLayout(chunkSize: nat)
    requires chunkSize > 0
    ensures ChunkCount(0, chunkSize) == 0
  {
  }

  function TotalSize(chunks: seq<Chunk>): int
  {
    if chunks == [] then 0 else TotalSize(chunks[..|chunks| - 1]) + chunks[|chunks| - 1].size
  }

  lemma {:induction false} TotalIsOffset(hash: Hasher, m: Manifest, n: nat)
    requires Valid(hash, m) && n <= |m.chunks|
    ensures TotalSize(m.chunks[..n]) == Offset(m.size, m.chunkSize, n)
  {
    hide ValidFilename, LowerHex, Offset;
    if n == 0 {
      OffsetStep(m.size, m.chunkSize, 0);
    } else {
      TotalIsOffset(hash, m, n - 1);
      assert m.chunks[..n][..n - 1] == m.chunks[..n - 1];
    }
  }

  /**
   The layout of an accepted manifest is forced: chunk i covers [i * chunkSize, min((i + 1) *
   chunkSize, size)), is not empty and fits a chunk, and the sizes add up without wrapping.
   */
  lemma {:induction false} LayoutIsForced(hash: Hasher, m: Manifest, i: nat)
    requires Valid(hash, m) && i < |m.chunks|
    ensures m.chunks[i].index == i && i * m.chunkSize < m.size
    ensures m.chunks[i].size == if (i + 1) * m.chunkSize <= m.size then m.chunkSize else m.size - i * m.chunkSize
    ensures (i + 1) * m.chunkSize >= m.size <==> i == |m.chunks| - 1
    ensures 0 < m.chunks[i].size <= m.chunkSize <= DefaultChunkSize
    ensures TotalSize(m.chunks) == m.size
  {
    hide ValidFilename, LowerHex, ChunkCount;
    OffsetStep(m.size, m.chunkSize, i);
    OffsetStep(m.size, m.chunkSize, i + 1);
    OffsetStep(m.size, m.chunkSize, |m.chunks|);
    TotalIsOffset(hash, m, |m.chunks|);
    assert m.chunks[..|m.chunks|] == m.chunks;
  }

  /** The stretch of `p` that chunk `i` of a payload of `size` bytes covers. */
  function Part(p: Bytes, size: nat, chunkSize: nat, i: nat): Bytes
    requires chunkSize > 0 && Offset(size, chunkSize, i + 1) <= |p|
  {
    OffsetStep(size, chunkSize, i);
    p[Offset(size, chunkSize, i)..Offset(size, chunkSize, i + 1)]
  }

  function ChunkOf(hash: Hasher, p: Bytes, chunkSize: nat, i: nat): Chunk
    requires chunkSize > 0
  {
    OffsetStep(|p|, chunkSize, i);
    Chunk(i, ChunkLen(|p|, chunkSize, i), hash(Part(p, |p|, chunkSize, i)))
  }

  /** The manifest of a payload. */
  function ManifestOf(hash: Hasher, filename: string, p: Bytes, chunkSize: nat): Manifest
    requires chunkSize > 0
  {
    Manifest(ManifestVersion, filename, Wrap64(|p|), chunkSize, hash(p),
             seq(ChunkCount(|p|, chunkSize), i requires i >= 0 => ChunkOf(hash, p, chunkSize, i)))
  }

  /** A full read inside the payload is one whole chunk; a shorter one is the last chunk. */
  lemma {:induction false} ReadIsChunk(size: nat, chunkSize: nat, i: nat, n: nat)
    requires chunkSize > 0 && i <= ChunkCount(size, chunkSize)
    requires var left := size - Offset(size, chunkSize, i);
             n == if chunkSize <= left then chunkSize else left
    ensures n > 0 ==> i < ChunkCount(size, chunkSize) && n == ChunkLen(size, chunkSize, i)
    ensures n > 0 && n < chunkSize ==> i + 1 == ChunkCount(size, chunkSize)
    ensures n == 0 ==> i == ChunkCount(size, chunkSize)
  {
    hide ChunkCount, Offset;
    OffsetStep(size, chunkSize, i);
    OffsetStep(size, chunkSize, i + 1);
  }

  lemma {:induction false} WrapSum(a: int, b: int)
    ensures Wrap64(Wrap64(a) + b) == Wrap64(a + b)
  {
    var n := 0x1_0000_0000_0000_0000;
    var x := a + 0x8000_0000_0000_0000;
    assert x == x / n * n + x % n;
    var y := x % n + b;
    assert x + b == y + x / n * n;
    QuotientUnique(x + b, n, y / n + x / n, y % n);
  }

  lemma {:induction false} ChunkRead(hash: Hasher, p: Bytes, chunkSize: nat, i: nat, data: Bytes)
    requires chunkSize > 0 && Offset(|p|, chunkSize, i) <= |p| && |data| == ChunkLen(|p|, chunkSize, i)
    requires data <= p[Offset(|p|, chunkSize, i)..]
    ensures Chunk(i, |data|, hash(data)) == ChunkOf(hash, p, chunkSize, i)
    ensures Offset(|p|, chunkSize, i + 1) == Offset(|p|, chunkSize, i) + |data|
    ensures p[..Offset(|p|, chunkSize, i)] + data == p[..Offset(|p|, chunkSize, i + 1)]
  {
    OffsetStep(|p|, chunkSize, i);
    assert data == Part(p, |p|, chunkSize, i);
  }

  lemma {:induction false} AllChunksRead(hash: Hasher, filename: string, p: Bytes, chunkSize: nat, chunks: seq<Chunk>)
    requires chunkSize > 0 && |chunks| == ChunkCount(|p|, chunkSize)
    requires forall i | 0 <= i < |chunks| :: chunks[i] == ChunkOf(hash, p, chunkSize, i)
    ensures Manifest(ManifestVersion, filename, Wrap64(|p|), chunkSize, hash(p), chunks)
         == ManifestOf(hash, filename, p, chunkSize)
  {
    hide ChunkOf, ChunkCount;
    assert chunks == ManifestOf(hash, filename, p, chunkSize).chunks;
  }

  datatype BuildError = BadFilename | BadChunkSize | ReadFailed | BuiltInvalid

  method BuildManifest(hash: Hasher, filename: string, r: ByteReader, chunkSize: int)
    returns (result: Result<Manifest, BuildError>)
    modifies r
    ensures result.Success? <==>
              && ValidFilename(filename) && ValidChunkSize(chunkSize)
              && r.end == EndOfFile && |old(r.remaining)| <= MaxInt64
    ensures result.Success? ==>
              result.value == ManifestOf(hash, filename, old(r.remaining), chunkSize) && r.remaining == []
    ensures !ValidFilename(filename) ==> result == Failure(BadFilename) && r.remaining == old(r.remaining)
  {
    hide ValidFilename, Valid, ChunkCount, Offset, Wrap64, ChunkOf, ChunkLen, ManifestOf, Part;
    if !ValidFilename(filename) {
      return Failure(BadFilename);
    }
    if !ValidChunkSize(chunkSize) {
      return Failure(BadChunkSize);
    }
    ghost var p := r.remaining;
    var buffer := new byte[chunkSize];
    var hashed: Bytes, chunks: seq<Chunk>, total: Int64, index := [], [], 0, 0;
    OffsetStep(|p|, chunkSize, 0);
    WrapSmall(0);
    while true
      invariant index <= ChunkCount(|p|, chunkSize) && fresh(buffer)
      invariant Offset(|p|, chunkSize, index) <= |p| && r.remaining == p[Offset(|p|, chunkSize, index)..]
      invariant hashed == p[..Offset(|p|, chunkSize, index)]
      invariant total == Wrap64(Offset(|p|, chunkSize, index))
      invariant |chunks| == index && forall i | 0 <= i < index :: chunks[i] == ChunkOf(hash, p, chunkSize, i)
      decreases |r.remaining|
    {
      var n, fill := r.ReadFull(buffer, chunkSize);
      ghost var start := Offset(|p|, chunkSize, index);
      ReadIsChunk(|p|, chunkSize, index, n);
      OffsetStep(|p|, chunkSize, index);
      OffsetStep(|p|, chunkSize, index + 1);
      if n > 0 {
        var data := buffer[..n];
        ChunkRead(hash, p, chunkSize, index, data);
        hashed := hashed + data;
        chunks := chunks + [Chunk(index, |data|, hash(data))];
        WrapSum(start, n);
        total := Wrap64(total + n);
      }
      if fill == Filled {
        index := index + 1;
        continue;
      }
      if fill == Failed {
        return Failure(ReadFailed);
      }
      assert hashed == p;
      var manifest := Manifest(ManifestVersion, filename, total, chunkSize, hash(hashed), chunks);
      AllChunksRead(hash, filename, p, chunkSize, chunks);
      BuiltValidIff(hash, filename, p, chunkSize);
      var ok := Validate(hash, manifest);
      if !ok {
        return Failure(BuiltInvalid);
      }
      return Success(manifest);
    }
  }

  /** A built manifest is valid exactly when the payload length fits 64 signed bits. */
  lemma {:induction false} BuiltValidIff(hash: Hasher, filename: string, p: Bytes, chunkSize: nat)
    requires ValidFilename(filename) && ValidChunkSize(chunkSize)
    ensures Valid(hash, ManifestOf(hash, filename, p, chunkSize)) <==> |p| <= MaxInt64
  {
    var m := ManifestOf(hash, filename, p, chunkSize);
    if |p| <= MaxInt64 {
      assert m.size == |p|;
      assert |p| == 0 ==> p == [];
    } else if m.size >= 0 {
      CountsDiffer(m.size, |p|, chunkSize);
    }
  }

  lemma {:induction false} CountsDiffer(a: nat, b: nat, chunkSize: nat)
    requires chunkSize > 0 && a + chunkSize <= b
    ensures ChunkCount(a, chunkSize) < ChunkCount(b, chunkSize)
  {
    var (q, p) := (a / chunkSize, b / chunkSize);
    assert a == q * chunkSize + a % chunkSize && b == p * chunkSize + b % chunkSize;
    if p <= q {
      MulMonotone(p, q, chunkSize);
    } else if p == q + 1 {
      assert p * chunkSize == q * chunkSize + chunkSize;
    }
  }

  /** `VerifyChunk`: the entry is well formed and the data is what it describes. */
  predicate ChunkVerifies(hash: Hasher, expected: Chunk, data: Bytes)
  {
    && expected.index >= 0
    && 0 < expected.size <= DefaultChunkSize
    && LowerHex(expected.hash, 64)
    && |data| == expected.size
    && hash(data) == expected.hash
  }

  /** `p` has the declared size and every declared digest. */
  predicate Matches(hash: Hasher, m: Manifest, p: Bytes)
    requires m.chunkSize > 0
  {
    && |p| == m.size
    && hash(p) == m.hash
    && forall i | 0 <= i < |m.chunks| && Offset(m.size, m.chunkSize, i + 1) <= |p| ::
         hash(Part(p, m.size, m.chunkSize, i)) == m.chunks[i].hash
  }

  /** The first `n` chunks of `p` carry their declared digests. */
  ghost predicate MatchesUpTo(hash: Hasher, m: Manifest, p: Bytes, n: nat)
    requires m.chunkSize > 0 && m.size >= 0
  {
    forall i | 0 <= i < n && i < |m.chunks| && Offset(m.size, m.chunkSize, i + 1) <= |p| ::
      hash(Part(p, m.size, m.chunkSize, i)) == m.chunks[i].hash
  }

  /** Reading chunk `i`: too little data, or exactly its stretch, which verifies iff its digest agrees. */
  lemma {:induction false} ChunkReadDecides(hash: Hasher, m: Manifest, p: Bytes, i: nat, data: Bytes)
    requires Valid(hash, m) && i < |m.chunks| && Offset(m.size, m.chunkSize, i) <= |p|
    requires var rest := p[Offset(m.size, m.chunkSize, i)..];
             data == rest[..if m.chunks[i].size <= |rest| then m.chunks[i].size else |rest|]
    ensures 0 < m.chunks[i].size <= m.chunkSize
    ensures |data| < m.chunks[i].size ==> |p| < m.size
    ensures |data| == m.chunks[i].size ==>
              && Offset(m.size, m.chunkSize, i + 1) == Offset(m.size, m.chunkSize, i) + |data| <= |p|
              && data == Part(p, m.size, m.chunkSize, i)
              && p[..Offset(m.size, m.chunkSize, i)] + data == p[..Offset(m.size, m.chunkSize, i + 1)]
              && (ChunkVerifies(hash, m.chunks[i], data) <==> hash(data) == m.chunks[i].hash)
  {
    hide ValidFilename, LowerHex;
    OffsetStep(m.size, m.chunkSize, i);
  }

  lemma {:induction false} ChunksCoverPayload(hash: Hasher, m: Manifest)
    requires Valid(hash, m)
    ensures m.chunkSize > 0 && m.size >= 0
    ensures Offset(m.size, m.chunkSize, 0) == 0 && Offset(m.size, m.chunkSize, |m.chunks|) == m.size
  {
    hide ValidFilename, LowerHex;
    OffsetStep(m.size, m.chunkSize, 0);
    OffsetStep(m.size, m.chunkSize, |m.chunks|);
  }

  method VerifyPayload(hash: Hasher, m: Manifest, r: ByteReader) returns (ok: bool)
    modifies r
    ensures ok <==> Valid(hash, m) && r.end == EndOfFile && Matches(hash, m, old(r.remaining))
    ensures ok ==> r.remaining == []
    ensures |r.remaining| <= |old(r.remaining)| && r.remaining == old(r.remaining)[|old(r.remaining)| - |r.remaining|..]
  {
    hide Valid, Offset, Part, ChunkVerifies, MatchesUpTo;
    ghost var p := r.remaining;
    var valid := Validate(hash, m);
    if !valid {
      return false;
    }
    ChunksCoverPayload(hash, m);
    var buffer := new byte[m.chunkSize];
    var hashed: Bytes := [];
    NothingMatchedYet(hash, m, p);
    for i := 0 to |m.chunks|
      invariant fresh(buffer) && Offset(m.size, m.chunkSize, i) <= |p|
      invariant r.remaining == p[Offset(m.size, m.chunkSize, i)..] && hashed == p[..Offset(m.size, m.chunkSize, i)]
      invariant MatchesUpTo(hash, m, p, i)
    {
      var expected := m.chunks[i];
      ghost var start := Offset(m.size, m.chunkSize, i);
      SizesInRange(hash, m, i);
      var n, fill := r.ReadFull(buffer, expected.size);
      var data := buffer[..n];
      ChunkReadDecides(hash, m, p, i, data);
      if fill != Filled {
        return false;
      }
      if !ChunkVerifies(hash, expected, data) {
        ChunkRefutes(hash, m, p, i);
        return false;
      }
      MatchedOneMore(hash, m, p, i);
      hashed := hashed + data;
    }
    var n, fill := r.ReadFull(buffer, 1);
    if n > 0 {
      return false;
    }
    if fill != Empty {
      return false;
    }
    assert hashed == p;
    MatchesAll(hash, m, p);
    return hash(hashed) == m.hash;
  }

  lemma {:induction false} SizesInRange(hash: Hasher, m: Manifest, i: nat)
    requires Valid(hash, m) && i < |m.chunks|
    ensures 0 < m.chunks[i].size <= m.chunkSize <= DefaultChunkSize
  {
    hide ValidFilename, LowerHex;
    OffsetStep(m.size, m.chunkSize, i);
  }

  lemma {:induction false} NothingMatchedYet(hash: Hasher, m: Manifest, p: Bytes)
    requires m.chunkSize > 0 && m.size >= 0
    ensures MatchesUpTo(hash, m, p, 0)
  {
  }

  lemma {:induction false} MatchedOneMore(hash: Hasher, m: Manifest, p: Bytes, i: nat)
    requires m.chunkSize > 0 && m.size >= 0 && i < |m.chunks| && Offset(m.size, m.chunkSize, i + 1) <= |p|
    requires MatchesUpTo(hash, m, p, i) && hash(Part(p, m.size, m.chunkSize, i)) == m.chunks[i].hash
    ensures MatchesUpTo(hash, m, p, i + 1)
  {
    hide Offset, Part;
  }

  lemma {:induction false} ChunkRefutes(hash: Hasher, m: Manifest, p: Bytes, i: nat)
    requires m.chunkSize > 0 && m.size >= 0 && i < |m.chunks| && Offset(m.size, m.chunkSize, i + 1) <= |p|
    requires hash(Part(p, m.size, m.chunkSize, i)) != m.chunks[i].hash
    ensures !Matches(hash, m, p)
  {
    hide Offset, Part;
  }

  lemma {:induction false} MatchesAll(hash: Hasher, m: Manifest, p: Bytes)
    requires m.chunkSize > 0 && |p| == m.size && MatchesUpTo(hash, m, p, |m.chunks|)
    ensures Matches(hash, m, p) <==> hash(p) == m.hash
  {
    hide Offset, Part;
  }

  /**
   A built manifest is valid and matches its payload; a different payload passes only by
   colliding with it as a whole and in some chunk.
   */
  lemma {:induction false} ManifestRoundTrip(hash: Hasher, filename: string, p: Bytes, q: Bytes, chunkSize: nat)
    requires ValidFilename(filename) && ValidChunkSize(chunkSize) && |p| <= MaxInt64
    ensures var m := ManifestOf(hash, filename, p, chunkSize);
            && Valid(hash, m) && Matches(hash, m, p)
            && (Matches(hash, m, q) && q != p ==>
                 Collides(hash, q, p)
                 && exists i :: 0 <= i < |m.chunks| && Offset(|p|, chunkSize, i + 1) <= |q|
                                && Collides(hash, Part(q, |p|, chunkSize, i), Part(p, |p|, chunkSize, i)))
  {
    hide ValidFilename, LowerHex, Offset, Part, ChunkCount;
    var m := ManifestOf(hash, filename, p, chunkSize);
    BuiltValidIff(hash, filename, p, chunkSize);
    WrapSmall(|p|);
    assert Matches(hash, m, p);
    if Matches(hash, m, q) && q != p {
      var i := DifferingPart(p, q, chunkSize);
      OffsetStep(|p|, chunkSize, i);
      assert hash(Part(q, |p|, chunkSize, i)) == m.chunks[i].hash == hash(Part(p, |p|, chunkSize, i));
    }
  }

  lemma {:induction false} DifferingPart(p: Bytes, q: Bytes, chunkSize: nat) returns (i: nat)
    requires chunkSize > 0 && |p| == |q| && p != q
    ensures i < ChunkCount(|p|, chunkSize) && Offset(|p|, chunkSize, i + 1) <= |p|
    ensures Part(q, |p|, chunkSize, i) != Part(p, |p|, chunkSize, i)
  {
    hide ChunkCount;
    i := 0;
    assert p[..|p|] == p && q[..|p|] == q;
    OffsetStep(|p|, chunkSize, 0);
    while true
      invariant i <= ChunkCount(|p|, chunkSize) && Offset(|p|, chunkSize, i) <= |p|
      invariant p[..Offset(|p|, chunkSize, i)] == q[..Offset(|p|, chunkSize, i)]
      decreases ChunkCount(|p|, chunkSize) - i
    {
      OffsetStep(|p|, chunkSize, i);
      if i == ChunkCount(|p|, chunkSize) {
        assert false;
      }
      var (a, b) := (Offset(|p|, chunkSize, i), Offset(|p|, chunkSize, i + 1));
      if Part(q, |p|, chunkSize, i) != Part(p, |p|, chunkSize, i) {
        return;
      }
      assert p[..b] == p[..a] + p[a..b] && q[..b] == q[..a] + q[a..b];
      i := i + 1;
    }
  }

  lemma {:induction false} HexByDigit(s: string, n: nat)
    ensures LowerHex(s, n) <==> |s| == n && forall c | c in s :: c in "0123456789abcdef"
  {
    if |s| == n && forall c | c in s :: c in "0123456789abcdef" {
      forall i | 0 <= i < n
        ensures '0' <= s[i] <= '9' || 'a' <= s[i] <= 'f'
      {
        assert s[i] in "0123456789abcdef";
      }
    }
    if LowerHex(s, n) {
      forall c | c in s
        ensures c in "0123456789abcdef"
      {
        HexDigit(c);
      }
    }
  }

  /** A file name with a visible character that names one leaf of a directory. */
  ghost predicate LeafName(name: string)
  {
    && (exists k :: 0 <= k < |name| && !IsSpace(name[k]))
    && name != "." && name != ".." && forall c | c in name :: c as int != 0 && c != '/' && c != '\\'
  }

  /** The stretch that chunk `i` of equal chunks covers. */
  function Stretch(p: Bytes, chunkSize: nat, i: nat): Bytes
    requires i * chunkSize <= |p|
  {
    if i * chunkSize + chunkSize <= |p| then p[i * chunkSize..i * chunkSize + chunkSize] else p[i * chunkSize..]
  }

  /**
   What a manifest must be, field by field: every chunk but the last is full, the last is not
   empty, they add up to the size, and every digest has 64 lowercase hexadecimal digits.
   */
  ghost predicate Sound(hash: Hasher, m: Manifest)
  {
    && m.version == 1 && LeafName(m.filename) && 0 <= m.size && 0 < m.chunkSize <= 0x10_0000
    && |m.hash| == 64 && (forall c | c in m.hash :: c in "0123456789abcdef")
    && (m.size == 0 ==> m.chunks == [] && m.hash == hash([]))
    && (m.size > 0 ==> (|m.chunks| - 1) * m.chunkSize < m.size <= |m.chunks| * m.chunkSize)
    && forall i | 0 <= i < |m.chunks| ::
         && m.chunks[i].index == i
         && m.chunks[i].size == (if i < |m.chunks| - 1 then m.chunkSize else m.size - i * m.chunkSize)
         && |m.chunks[i].hash| == 64 && (forall c | c in m.chunks[i].hash :: c in "0123456789abcdef")
  }

  lemma {:induction false} CountIff(size: nat, chunkSize: nat, n: nat)
    requires chunkSize > 0 && size > 0
    ensures n == ChunkCount(size, chunkSize) <==> (n - 1) * chunkSize < size <= n * chunkSize
  {
    var count := ChunkCount(size, chunkSize);
    var q, r := size / chunkSize, size % chunkSize;
    assert size == q * chunkSize + r;
    assert (count - 1) * chunkSize == count * chunkSize - chunkSize;
    if r != 0 {
      assert (q + 1) * chunkSize == q * chunkSize + chunkSize;
    }
    if n < count {
      MulMonotone(n, count - 1, chunkSize);
    } else if n > count {
      MulMonotone(count, n - 1, chunkSize);
    }
  }

  lemma {:induction false} LenIff(size: nat, chunkSize: nat, i: nat)
    requires chunkSize > 0 && i < ChunkCount(size, chunkSize)
    ensures size > 0 && i * chunkSize < size
    ensures Offset(size, chunkSize, i) == i * chunkSize
    ensures Offset(size, chunkSize, i + 1)
         == if i < ChunkCount(size, chunkSize) - 1 then i * chunkSize + chunkSize else size
    ensures ChunkLen(size, chunkSize, i)
         == if i < ChunkCount(size, chunkSize) - 1 then chunkSize else size - i * chunkSize
    ensures i < ChunkCount(size, chunkSize) - 1 <==> i * chunkSize + chunkSize < size
  {
    var n := ChunkCount(size, chunkSize);
    if size == 0 {
      EmptyLayout(chunkSize);
    } else {
      CountIff(size, chunkSize, n);
      MulMonotone(i, n - 1, chunkSize);
      assert (i + 1) * chunkSize == i * chunkSize + chunkSize && n * chunkSize == (n - 1) * chunkSize + chunkSize;
      if i < n - 1 {
        MulMonotone(i + 1, n - 1, chunkSize);
      }
    }
  }

  /** `Valid`, and so `Validate`, accepts exactly the sound manifests. */
  lemma {:induction false} ValidIff(hash: Hasher, m: Manifest)
    ensures Valid(hash, m) <==> Sound(hash, m)
  {
    hide IsSpace, Blank, ChunkCount, Offset, ChunkLen, LowerHex;
    BlankIffAllSpaces(m.filename);
    HexByDigit(m.hash, 64);
    forall i | 0 <= i < |m.chunks|
      ensures LowerHex(m.chunks[i].hash, 64)
         <==> |m.chunks[i].hash| == 64 && forall c | c in m.chunks[i].hash :: c in "0123456789abcdef"
    {
      HexByDigit(m.chunks[i].hash, 64);
    }
    if m.size >= 0 && m.chunkSize > 0 {
      if m.size == 0 {
        EmptyLayout(m.chunkSize);
      } else {
        CountIff(m.size, m.chunkSize, |m.chunks|);
      }
      if |m.chunks| == ChunkCount(m.size, m.chunkSize) {
        forall i | 0 <= i < |m.chunks|
          ensures ChunkLen(m.size, m.chunkSize, i)
               == if i < |m.chunks| - 1 then m.chunkSize else m.size - i * m.chunkSize
        {
          LenIff(m.size, m.chunkSize, i);
        }
      }
    }
  }

  /** Matching a valid manifest, stretch by stretch. */
  lemma {:induction false} MatchesIff(hash: Hasher, m: Manifest, p: Bytes)
    requires Valid(hash, m)
    ensures m.chunkSize > 0
    ensures Matches(hash, m, p)
       <==> && |p| == m.size && hash(p) == m.hash
            && forall i | 0 <= i < |m.chunks| ::
                 i * m.chunkSize <= |p| && hash(Stretch(p, m.chunkSize, i)) == m.chunks[i].hash
  {
    hide ValidFilename, LowerHex, ChunkCount, Offset;
    if |p| == m.size {
      forall i | 0 <= i < |m.chunks|
        ensures i * m.chunkSize <= |p| && Offset(m.size, m.chunkSize, i + 1) <= |p|
        ensures Part(p, m.size, m.chunkSize, i) == Stretch(p, m.chunkSize, i)
      {
        LenIff(m.size, m.chunkSize, i);
      }
    }
  }

  /** The manifest of a payload, stretch by stretch. */
  lemma {:induction false} ManifestOfPayload(hash: Hasher, filename: string, p: Bytes, chunkSize: nat)
    requires chunkSize > 0 && |p| <= MaxInt64
    ensures var m := ManifestOf(hash, filename, p, chunkSize);
            && m.version == 1 && m.filename == filename && m.size == |p| && m.chunkSize == chunkSize
            && m.hash == hash(p)
            && (if |p| == 0 then |m.chunks| == 0 else (|m.chunks| - 1) * chunkSize < |p| <= |m.chunks| * chunkSize)
            && forall i | 0 <= i < |m.chunks| ::
                 i * chunkSize <= |p|
                 && m.chunks[i] == Chunk(i, |Stretch(p, chunkSize, i)|, hash(Stretch(p, chunkSize, i)))
  {
    hide ChunkCount, Offset, ChunkOf, Stretch;
    WrapSmall(|p|);
    if |p| == 0 {
      EmptyLayout(chunkSize);
    } else {
      CountIff(|p|, chunkSize, ChunkCount(|p|, chunkSize));
    }
    forall i | 0 <= i < ChunkCount(|p|, chunkSize)
      ensures i * chunkSize <= |p|
      ensures ChunkOf(hash, p, chunkSize, i) == Chunk(i, |Stretch(p, chunkSize, i)|, hash(Stretch(p, chunkSize, i)))
    {
      ChunkOfStretch(hash, p, chunkSize, i);
    }
  }

  lemma {:induction false} ChunkOfStretch(hash: Hasher, p: Bytes, chunkSize: nat, i: nat)
    requires chunkSize > 0 && i < ChunkCount(|p|, chunkSize)
    ensures i * chunkSize <= |p|
    ensures ChunkOf(hash, p, chunkSize, i) == Chunk(i, |Stretch(p, chunkSize, i)|, hash(Stretch(p, chunkSize, i)))
  {
    hide ChunkCount, Offset;
    LenIff(|p|, chunkSize, i);
    OffsetStep(|p|, chunkSize, i);
    assert Part(p, |p|, chunkSize, i) == Stretch(p, chunkSize, i);
  }

  lemma {:induction false} FilenameIff(name: string)
    ensures ValidFilename(name) <==> LeafName(name)
  {
    hide IsSpace, Blank;
    BlankIffAllSpaces(name);
  }

  /** A chunk verifies exactly when its entry makes sense by itself and the data is what it describes. */
  lemma {:induction false} VerifyChunkIff(hash: Hasher, expected: Chunk, data: Bytes)
    ensures ChunkVerifies(hash, expected, data)
       <==> && expected == Chunk(expected.index, |data|, hash(data))
            && expected.index >= 0 && 1 <= |data| <= 0x10_0000
  {
  }
}
