/** The version 2 end-to-end media container: its layout, its exact size and a one-shot reader. */
module MediaFormat {
  import opened Bytes
  import opened Crypto

  const CHUNK: nat := 65536
  const HEADER: nat := 32
  const MAGIC: bytes := [0x4d, 0x35, 0x45, 0x4d]  // "M5EM"

  /** What the two ends share: the cipher, the media key and the associated-data prefix. */
  datatype Channel = Channel(cipher: Cipher, key: bytes, aad: bytes)

  type Prefix = p: bytes | |p| == 16 witness Zeros(16)

  function Header(size: u64, prefix: Prefix): (h: bytes)
    ensures |h| == HEADER
  {
    MAGIC + [2, 16, 0, 0] + ToBytes(size, 8) + prefix
  }

  function Nonce(prefix: Prefix, index: u64): bytes {
    prefix + ToBytes(index, 8)
  }

  function ChunkAad(aad: bytes, header: bytes, index: u64, len: nat): bytes {
    aad + header + ToBytes(index, 8) + ToBytes(len, 4)
  }

  /** One sealed chunk on the wire: a length, then ciphertext and tag. */
  function SealedChunk(c: Channel, size: u64, prefix: Prefix, index: u64, plain: bytes): (out: bytes)
    ensures |out| == |plain| + 20
  {
    var aad := ChunkAad(c.aad, Header(size, prefix), index, |plain|);
    ToBytes(|plain| + TAG_LEN, 4) + Encrypt(c.cipher, c.key, Nonce(prefix, index), aad, plain)
  }

  /** The canonical 64 KiB chunking. */
  function Chunks(plain: bytes): (cs: seq<bytes>)
    ensures Concat(cs) == plain
  {
    Pieces(plain, CHUNK)
  }

  /** The sealed chunks of `plain`, the first of them carrying number `index`. */
  function Body(c: Channel, size: u64, prefix: Prefix, index: nat, plain: bytes): bytes
    requires index + |plain| <= U64_MAX
    decreases |plain|
  {
    if plain == [] then [] else
      var n := Min(|plain|, CHUNK);
      SealedChunk(c, size, prefix, index, plain[..n]) + Body(c, size, prefix, index + 1, plain[n..])
  }

  /** The whole container of a plaintext. */
  function Container(c: Channel, prefix: Prefix, plain: bytes): bytes
    requires |plain| <= U64_MAX
  {
    Header(|plain|, prefix) + Body(c, |plain|, prefix, 0, plain)
  }

  function CeilDiv(n: nat, d: nat): nat
    requires d > 0
  {
    (n + d - 1) / d
  }

  /** The exact container size, before any machine-integer bound. */
  function ContainerSize(n: nat): nat {
    HEADER + n + 20 * CeilDiv(n, CHUNK)
  }

  function CheckedMul(a: u64, b: u64): Result<u64> {
    if a * b > U64_MAX then Err else Ok(a * b)
  }

  function CheckedAdd(a: u64, b: u64): Result<u64> {
    if a + b > U64_MAX then Err else Ok(a + b)
  }

  /** `encrypted_media_size`: fails exactly when the exact size does not fit 64 bits. */
  function EncryptedMediaSize(n: u64): (r: Result<u64>)
    ensures r == if ContainerSize(n) <= U64_MAX then Ok(ContainerSize(n)) else Err
    ensures r.Ok? ==> r.value == 32 + n + 20 * ((n + 65535) / 65536)
  {
    var chunks: u64 := n / CHUNK + (if n % CHUNK == 0 then 0 else 1);
    assert chunks == CeilDiv(n, CHUNK);
    match CheckedMul(chunks, 20)
    case Err => Err
    case Ok(tags) =>
      match CheckedAdd(tags, HEADER)
      case Err => Err
      case Ok(overhead) => CheckedAdd(n, overhead)
  }

  lemma ContainerSizeIncreases(m: nat, n: nat)
    requires m < n
    ensures ContainerSize(m) < ContainerSize(n)
  {
    assert (m + CHUNK - 1) / CHUNK <= (n + CHUNK - 1) / CHUNK;
  }

  lemma CeilStep(left: nat)
    requires left > 0
    ensures CeilDiv(left, CHUNK) == 1 + CeilDiv(left - Min(left, CHUNK), CHUNK)
  {
  }

  lemma {:induction false} BodySize(c: Channel, size: u64, prefix: Prefix, index: nat, plain: bytes)
    requires index + |plain| <= U64_MAX
    ensures |Body(c, size, prefix, index, plain)| == |plain| + 20 * CeilDiv(|plain|, CHUNK)
    decreases |plain|
  {
    if plain != [] {
      var n := Min(|plain|, CHUNK);
      CeilStep(|plain|);
      BodySize(c, size, prefix, index + 1, plain[n..]);
    }
  }

  /** A body splits at any chunk boundary. */
  lemma {:induction false} BodySplit(c: Channel, size: u64, prefix: Prefix, index: nat, a: bytes, b: bytes)
    requires |a| % CHUNK == 0
    requires index + |a| + |b| <= U64_MAX
    ensures Body(c, size, prefix, index, a + b)
         == Body(c, size, prefix, index, a) + Body(c, size, prefix, index + |a| / CHUNK, b)
    decreases |a|
  {
    hide SealedChunk;
    if a == [] {
      assert a + b == b;
    } else {
      var rest := a[CHUNK..];
      assert (a + b)[..CHUNK] == a[..CHUNK];
      assert (a + b)[CHUNK..] == rest + b;
      BodySplit(c, size, prefix, index + 1, rest, b);
      assert index + 1 + |rest| / CHUNK == index + |a| / CHUNK;
    }
  }

  // The one-shot reader: what a receiver holding the whole object would do.

  function ReadHeader(w: bytes): (r: Result<(u64, Prefix)>)
    requires |w| >= HEADER
    ensures r.Ok? ==> w[..HEADER] == Header(r.value.0, r.value.1)
  {
    if w[..4] != MAGIC || w[4] != 2 || w[5] != 16 || w[6] != 0 || w[7] != 0 then Err else
      BytesU64(w[8..16]);
      assert w[..HEADER] == w[..4] + w[4..8] + w[8..16] + w[16..32];
      assert w[4..8] == [2, 16, 0, 0];
      Ok((FromBytes(w[8..16]), w[16..32]))
  }

  lemma ReadHeaderOfHeader(size: u64, prefix: Prefix, rest: bytes)
    ensures ReadHeader(Header(size, prefix) + rest) == Ok((size, prefix))
  {
    var w := Header(size, prefix) + rest;
    U64Bytes(size);
    assert w[..4] == MAGIC;
    assert w[8..16] == ToBytes(size, 8);
    assert w[16..32] == prefix;
  }

  /** One chunk, read whole: its plaintext, if `w` starts with chunk `index` of `plain` bytes. */
  function ReadChunk(c: Channel, size: u64, prefix: Prefix, index: u64, plain: nat, w: bytes): (r: Option<bytes>)
    ensures r.Some? ==> |r.value| == plain && plain + 20 <= |w|
  {
    if |w| < plain + 20 || FromBytes(w[..4]) != plain + TAG_LEN then None else
      Decrypt(c.cipher, c.key, Nonce(prefix, index),
              ChunkAad(c.aad, Header(size, prefix), index, plain), w[4..plain + 20])
  }

  lemma ReadSealedChunk(c: Channel, size: u64, prefix: Prefix, index: u64, plain: bytes, rest: bytes)
    requires |plain| <= CHUNK
    ensures ReadChunk(c, size, prefix, index, |plain|, SealedChunk(c, size, prefix, index, plain) + rest)
         == Some(plain)
  {
    var w := SealedChunk(c, size, prefix, index, plain) + rest;
    var aad := ChunkAad(c.aad, Header(size, prefix), index, |plain|);
    U32Bytes(|plain| + TAG_LEN);
    assert w[..4] == ToBytes(|plain| + TAG_LEN, 4);
    assert w[4..|plain| + 20] == Encrypt(c.cipher, c.key, Nonce(prefix, index), aad, plain);
  }

  /** The plaintext chunks of a body that must hold exactly `left` more plaintext bytes. */
  function OpenBody(c: Channel, size: u64, prefix: Prefix, index: nat, left: nat, w: bytes): Option<seq<bytes>>
    requires index + left <= U64_MAX
    decreases left
  {
    if left == 0 then (if w == [] then Some([]) else None) else
      var n := Min(left, CHUNK);
      match ReadChunk(c, size, prefix, index, n, w)
      case None => None
      case Some(plain) =>
        match OpenBody(c, size, prefix, index + 1, left - n, w[n + 20..])
        case None => None
        case Some(rest) => Some([plain] + rest)
  }

  function OpenContainer(c: Channel, w: bytes): Option<seq<bytes>> {
    if |w| < HEADER then None else
      match ReadHeader(w)
      case Err => None
      case Ok((size, prefix)) => OpenBody(c, size, prefix, 0, size, w[HEADER..])
  }

  lemma {:induction false} OpenBodyOfBody(c: Channel, size: u64, prefix: Prefix, index: nat, plain: bytes)
    requires index + |plain| <= U64_MAX
    ensures OpenBody(c, size, prefix, index, |plain|, Body(c, size, prefix, index, plain)) == Some(Chunks(plain))
    decreases |plain|
  {
    hide SealedChunk, ReadChunk;
    if plain != [] {
      var n := Min(|plain|, CHUNK);
      var rest := Body(c, size, prefix, index + 1, plain[n..]);
      ReadSealedChunk(c, size, prefix, index, plain[..n], rest);
      OpenBodyOfBody(c, size, prefix, index + 1, plain[n..]);
      assert Body(c, size, prefix, index, plain)[n + 20..] == rest;
    }
  }

  /** Opening a container recovers the plaintext it was made of. */
  lemma OpenContainerOfContainer(c: Channel, prefix: Prefix, plain: bytes)
    requires |plain| <= U64_MAX
    ensures OpenContainer(c, Container(c, prefix, plain)) == Some(Chunks(plain))
  {
    var body := Body(c, |plain|, prefix, 0, plain);
    ReadHeaderOfHeader(|plain|, prefix, body);
    assert Container(c, prefix, plain)[HEADER..] == body;
    OpenBodyOfBody(c, |plain|, prefix, 0, plain);
  }

  lemma {:induction false} OpenBodySize(c: Channel, size: u64, prefix: Prefix, index: nat, left: nat, w: bytes)
    requires index + left <= U64_MAX
    requires OpenBody(c, size, prefix, index, left, w).Some?
    ensures |Concat(OpenBody(c, size, prefix, index, left, w).value)| == left
    ensures |w| == left + 20 * CeilDiv(left, CHUNK)
    decreases left
  {
    if left != 0 {
      var n := Min(left, CHUNK);
      var tail := w[n + 20..];
      CeilStep(left);
      OpenBodySize(c, size, prefix, index + 1, left - n, tail);
      var plain := ReadChunk(c, size, prefix, index, n, w).value;
      var rest := OpenBody(c, size, prefix, index + 1, left - n, tail).value;
      assert OpenBody(c, size, prefix, index, left, w).value == [plain] + rest;
      assert ([plain] + rest)[1..] == rest;
    }
  }

  /** Whatever object is accepted has exactly the size announced for its plaintext. */
  lemma OpenContainerSize(c: Channel, w: bytes)
    requires OpenContainer(c, w).Some?
    ensures |w| == ContainerSize(|Concat(OpenContainer(c, w).value)|)
  {
    var (size, prefix) := ReadHeader(w).value;
    OpenBodySize(c, size, prefix, 0, size, w[HEADER..]);
  }
}
