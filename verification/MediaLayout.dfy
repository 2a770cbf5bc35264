/**
  The media container byte by byte: where every chunk lies, and under which nonce and associated data
  it is sealed and opened, said without the functions that build them.
*/
module MediaLayout {
  import opened Bytes
  import opened MediaFormat
  import opened MediaEncrypt
  import MediaDecrypt

  predicate IsHeader(h: bytes, size: u64, prefix: Prefix) {
    |h| == 32 && h[..4] == [0x4d, 0x35, 0x45, 0x4d] && h[4..8] == [2, 16, 0, 0]
    && FromBytes(h[8..16]) == size && h[16..] == prefix
  }

  /** The 24 bytes of an XChaCha20 nonce: the file's prefix, then the chunk number. */
  predicate IsNonce(n: bytes, prefix: Prefix, k: nat) {
    |n| == 24 && n[..16] == prefix && FromBytes(n[16..]) == k
  }

  /** The associated data: the caller's, the header, the chunk number and the plaintext length. */
  predicate IsAad(a: bytes, aad: bytes, h: bytes, k: nat, len: nat) {
    var at := |aad| + |h|;
    && |a| == at + 12 && a[..|aad|] == aad && a[|aad|..at] == h
    && FromBytes(a[at..at + 8]) == k && FromBytes(a[at + 8..]) == len
  }

  lemma HeaderIs(size: u64, prefix: Prefix)
    ensures IsHeader(Header(size, prefix), size, prefix)
  {
    var h := Header(size, prefix);
    U64Bytes(size);
    assert h[8..16] == ToBytes(size, 8);
  }

  lemma NonceIs(prefix: Prefix, k: u64)
    ensures IsNonce(Nonce(prefix, k), prefix, k)
  {
    U64Bytes(k);
    assert Nonce(prefix, k)[16..] == ToBytes(k, 8);
  }

  lemma AadIs(aad: bytes, h: bytes, k: u64, len: u32)
    ensures IsAad(ChunkAad(aad, h, k, len), aad, h, k, len)
  {
    hide ToBytes, FromBytes;
    var a, at := ChunkAad(aad, h, k, len), |aad| + |h|;
    U64Bytes(k);
    U32Bytes(len);
    assert a[..|aad|] == aad && a[|aad|..at] == h;
    assert a[at..at + 8] == ToBytes(k, 8) && a[at + 8..] == ToBytes(len, 4);
  }

  /** One file never seals two chunks under one nonce: nonces are equal only for equal numbers. */
  lemma NoncesNeverRepeat(prefix: Prefix, j: nat, k: nat, n: bytes, m: bytes)
    requires IsNonce(n, prefix, j) && IsNonce(m, prefix, k)
    ensures n == m <==> j == k
  {
    hide FromBytes, ToBytes;
    BytesU64(n[16..]);
    BytesU64(m[16..]);
    assert n == n[..16] + n[16..] && m == m[..16] + m[16..];
  }

  // Sealing.

  /** `out` is chunk `k` of the file: its length, then ciphertext and tag under its own nonce. */
  ghost predicate SealedUnder(c: Channel, size: u64, prefix: Prefix, k: nat, plain: bytes, out: bytes) {
    exists n, a, h ::
      && IsNonce(n, prefix, k) && IsAad(a, c.aad, h, k, |plain|) && IsHeader(h, size, prefix)
      && |out| == |plain| + 20 && FromBytes(out[..4]) == |plain| + 16
      && out[4..] == c.cipher.encrypt(c.key, n, a, plain)
  }

  lemma ChunkIsSealedUnder(c: Channel, size: u64, prefix: Prefix, k: u64, plain: bytes)
    requires |plain| <= CHUNK
    ensures SealedUnder(c, size, prefix, k, plain, SealedChunk(c, size, prefix, k, plain))
  {
    hide ToBytes, FromBytes, IsNonce, IsAad, IsHeader;
    var h := Header(size, prefix);
    var n, a := Nonce(prefix, k), ChunkAad(c.aad, h, k, |plain|);
    HeaderIs(size, prefix);
    NonceIs(prefix, k);
    AadIs(c.aad, h, k, |plain|);
    var out := SealedChunk(c, size, prefix, k, plain);
    U32Bytes(|plain| + 16);
    assert out[..4] == ToBytes(|plain| + 16, 4);
    assert out[4..] == c.cipher.encrypt(c.key, n, a, plain);
  }

  /** The outputs of an accepted run, finished or not: output `k` is chunk number `k` sealed as such. */
  ghost predicate Outputs(c: Channel, st: EncState, chunks: seq<bytes>, outs: seq<bytes>) {
    && |outs| == |chunks|
    && forall k :: 0 <= k < |chunks| ==>
         SealedUnder(c, st.size, st.prefix, st.index + k, chunks[k], outs[k])
  }

  lemma OutputsStep(c: Channel, st: EncState, st': EncState, head: bytes, tail: seq<bytes>, out: bytes, outs: seq<bytes>)
    requires SealedUnder(c, st.size, st.prefix, st.index, head, out) && Outputs(c, st', tail, outs)
    requires st'.size == st.size && st'.prefix == st.prefix && st'.index == st.index + 1
    ensures Outputs(c, st, [head] + tail, [out] + outs)
  {
    hide SealedUnder;
    forall k | 0 <= k < |tail| + 1
      ensures SealedUnder(c, st.size, st.prefix, st.index + k, ([head] + tail)[k], ([out] + outs)[k])
    {
      if k > 0 {
        assert SealedUnder(c, st'.size, st'.prefix, st'.index + (k - 1), tail[k - 1], outs[k - 1]);
        assert st'.index + (k - 1) == st.index + k;
      }
    }
  }

  lemma SealIsSealed(c: Channel, st: EncState, plain: bytes)
    requires Seal(c, st, plain).result.Ok?
    ensures var r := Seal(c, st, plain);
            && SealedUnder(c, st.size, st.prefix, st.index, plain, r.result.value)
            && r.state.size == st.size && r.state.prefix == st.prefix && r.state.index == st.index + 1
  {
    hide SealedUnder, SealedChunk;
    ChunkIsSealedUnder(c, st.size, st.prefix, st.index, plain);
  }

  lemma {:induction false} RunIsSealed(c: Channel, st: EncState, chunks: seq<bytes>) returns (outs: seq<bytes>)
    requires SealAll(c, st, chunks).result.Ok?
    ensures SealAll(c, st, chunks).result.value == Concat(outs)
    ensures Outputs(c, st, chunks, outs)
    decreases |chunks|
  {
    hide Seal, Outputs, Concat;
    if chunks == [] {
      outs := [];
      NoOutputs(c, st);
    } else {
      var first := Seal(c, st, chunks[0]);
      SealIsSealed(c, st, chunks[0]);
      var rest := RunIsSealed(c, first.state, chunks[1..]);
      outs := [first.result.value] + rest;
      ConcatCons(first.result.value, rest);
      OutputsStep(c, st, first.state, chunks[0], chunks[1..], first.result.value, rest);
      assert chunks == [chunks[0]] + chunks[1..];
    }
  }

  lemma NoOutputs(c: Channel, st: EncState)
    ensures Outputs(c, st, [], []) && Concat<byte>([]) == []
  {
  }

  // The container.

  /** Chunk `k` of a plaintext, and where it lies behind the header. */
  function ChunkOf(plain: bytes, k: nat): bytes
    requires k * 65536 <= |plain|
  {
    plain[k * 65536..Min((k + 1) * 65536, |plain|)]
  }

  function Offset(k: nat): nat { k * 65556 }

  lemma BodyAt(c: Channel, size: u64, prefix: Prefix, plain: bytes, k: nat)
    requires |plain| <= U64_MAX && k * 65536 < |plain|
    ensures var body, n := Body(c, size, prefix, 0, plain), |ChunkOf(plain, k)|;
            && Offset(k) + n + 20 <= |body|
            && body[Offset(k)..Offset(k) + n + 20] == SealedChunk(c, size, prefix, k, ChunkOf(plain, k))
  {
    hide SealedChunk, Body;
    var a, b := plain[..k * 65536], plain[k * 65536..];
    BodyFrom(c, size, prefix, a, b, k);
    FirstOfBody(c, size, prefix, k, b);
    assert plain == a + b;
    var n := Min(|b|, CHUNK);
    assert b[..n] == ChunkOf(plain, k);
    SliceAfter(Body(c, size, prefix, 0, a), SealedChunk(c, size, prefix, k, b[..n]), Body(c, size, prefix, k + 1, b[n..]));
  }

  lemma BodyFrom(c: Channel, size: u64, prefix: Prefix, a: bytes, b: bytes, k: nat)
    requires |a| == k * 65536 && |a| + |b| <= U64_MAX
    ensures |Body(c, size, prefix, 0, a)| == Offset(k)
    ensures Body(c, size, prefix, 0, a + b) == Body(c, size, prefix, 0, a) + Body(c, size, prefix, k, b)
  {
    hide Body, CeilDiv;
    FullChunks(k);
    BodySize(c, size, prefix, 0, a);
    BodySplit(c, size, prefix, 0, a, b);
  }

  lemma FirstOfBody(c: Channel, size: u64, prefix: Prefix, k: nat, b: bytes)
    requires b != [] && k + |b| <= U64_MAX
    ensures var n := Min(|b|, CHUNK);
            Body(c, size, prefix, k, b)
            == SealedChunk(c, size, prefix, k, b[..n]) + Body(c, size, prefix, k + 1, b[n..])
  {
    hide SealedChunk;
  }

  lemma FullChunks(k: nat)
    ensures CeilDiv(k * 65536, CHUNK) == k && k * 65536 % CHUNK == 0 && k * 65536 / CHUNK == k
  {
  }

  lemma SliceAfter(a: bytes, b: bytes, c: bytes)
    ensures (a + (b + c))[|a|..|a| + |b|] == b
  {
  }

  /** Where everything is in a container, and under what it is sealed. */
  lemma ContainerLayout(c: Channel, prefix: Prefix, plain: bytes, k: nat)
    requires |plain| <= U64_MAX && k * 65536 < |plain|
    ensures var w, chunk := Container(c, prefix, plain), ChunkOf(plain, k);
            var from := 32 + Offset(k);
            && |w| >= from + |chunk| + 20
            && IsHeader(w[..32], |plain|, prefix)
            && SealedUnder(c, |plain|, prefix, k, chunk, w[from..from + |chunk| + 20])
  {
    hide SealedChunk, SealedUnder, IsHeader, Header, Body;
    var body, chunk := Body(c, |plain|, prefix, 0, plain), ChunkOf(plain, k);
    var w := Container(c, prefix, plain);
    HeaderIs(|plain|, prefix);
    BodyAt(c, |plain|, prefix, plain, k);
    ChunkIsSealedUnder(c, |plain|, prefix, k, chunk);
    assert w[..32] == Header(|plain|, prefix);
    assert w[32 + Offset(k)..32 + Offset(k) + |chunk| + 20] == body[Offset(k)..Offset(k) + |chunk| + 20];
  }

  // Opening.

  /** `w` starts with chunk `k`, and `plain` is what the AEAD made of it under that chunk's nonce. */
  ghost predicate OpenedUnder(c: Channel, size: u64, prefix: Prefix, k: nat, plain: bytes, w: bytes) {
    exists n, a, h ::
      && IsNonce(n, prefix, k) && IsAad(a, c.aad, h, k, |plain|) && IsHeader(h, size, prefix)
      && |w| >= |plain| + 20 && FromBytes(w[..4]) == |plain| + 16
      && c.cipher.decrypt(c.key, n, a, w[4..|plain| + 20]) == Option.Some(plain)
  }

  lemma ReadIsOpenedUnder(c: Channel, size: u64, prefix: Prefix, k: u64, len: nat, w: bytes)
    requires len <= CHUNK && ReadChunk(c, size, prefix, k, len, w).Some?
    ensures OpenedUnder(c, size, prefix, k, ReadChunk(c, size, prefix, k, len, w).value, w)
  {
    hide ToBytes, FromBytes, IsNonce, IsAad, IsHeader;
    var h := Header(size, prefix);
    var n, a := Nonce(prefix, k), ChunkAad(c.aad, h, k, len);
    HeaderIs(size, prefix);
    NonceIs(prefix, k);
    AadIs(c.aad, h, k, len);
    assert c.cipher.decrypt(c.key, n, a, w[4..len + 20]) == ReadChunk(c, size, prefix, k, len, w);
  }

  lemma {:induction false} OpenBodyAt(c: Channel, size: u64, prefix: Prefix, index: nat, left: nat, w: bytes, k: nat)
    requires index + left <= U64_MAX && OpenBody(c, size, prefix, index, left, w).Some?
    requires k < |OpenBody(c, size, prefix, index, left, w).value|
    ensures Offset(k) <= |w|
    ensures OpenedUnder(c, size, prefix, index + k, OpenBody(c, size, prefix, index, left, w).value[k], w[Offset(k)..])
    decreases k
  {
    hide OpenedUnder, ReadChunk;
    var n := Min(left, CHUNK);
    if k == 0 {
      ReadIsOpenedUnder(c, size, prefix, index, n, w);
      assert w[0..] == w;
    } else {
      var tail := w[n + 20..];
      assert OpenBody(c, size, prefix, index, left, w).value[k]
          == OpenBody(c, size, prefix, index + 1, left - n, tail).value[k - 1];
      assert left > CHUNK;
      OpenBodyAt(c, size, prefix, index + 1, left - n, tail, k - 1);
      assert tail[Offset(k - 1)..] == w[Offset(k)..];
    }
  }

  /**
    Whatever the decryptor delivers and finishes, in any fragmentation, was authenticated: chunk `k`
    is the plaintext that the AEAD accepted under nonce number `k` of the file, at the place of chunk `k`.
  */
  lemma DeliversOnlyAuthenticated(c: Channel, parts: seq<bytes>, k: nat)
    requires MediaDecrypt.Received(c, parts).Some?
    requires k < |MediaDecrypt.Received(c, parts).value.0|
    ensures var w, got := Concat(parts), MediaDecrypt.Received(c, parts).value;
            && |w| >= 32 + Offset(k)
            && exists prefix :: IsHeader(w[..32], got.1, prefix)
                  && OpenedUnder(c, got.1, prefix, k, got.0[k], w[32 + Offset(k)..])
  {
    hide MediaDecrypt.Received, OpenBody, OpenedUnder, IsHeader, Header, Concat;
    MediaDecrypt.RefinesOneShotReader(c, parts);
    var w := Concat(parts);
    var (size, prefix) := ReadHeader(w).value;
    HeaderIs(size, prefix);
    OpenBodySize(c, size, prefix, 0, size, w[32..]);
    OpenBodyAt(c, size, prefix, 0, size, w[32..], k);
    assert w[32..][Offset(k)..] == w[32 + Offset(k)..];
  }
}
