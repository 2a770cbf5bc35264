/**
  The browser's streaming media upload: an alignment buffer in front of the encryptor, and the
  byte-counting media stream behind it.
*/
module MediaUpload {
  import opened Bytes
  import opened MediaFormat
  import opened MediaEncrypt

  /** `wire` is everything handed to the media stream, whose byte count is `|wire|`. */
  datatype UpState = UpState(enc: EncState, pending: bytes, wire: bytes, expected: u64)

  /** `BrowserMediaUpload::write`, with the transport itself taken as reliable. */
  function WireWrite(st: UpState, data: bytes): Outcome<UpState, ()> {
    if |st.wire| + |data| > st.expected then Outcome(st, Err) else Outcome(st.(wire := st.wire + data), Ok(()))
  }

  function SealOut(c: Channel, st: UpState, chunk: bytes): (r: Outcome<UpState, ()>)
    ensures r.state.pending == st.pending
  {
    var sealed := Seal(c, st.enc, chunk);
    var st' := st.(enc := sealed.state);
    match sealed.result
    case Err => Outcome(st', Err)
    case Ok(out) => WireWrite(st', out)
  }

  function SealFull(c: Channel, st: UpState): Outcome<UpState, ()>
    decreases |st.pending|
  {
    if |st.pending| < CHUNK then Outcome(st, Ok(())) else
      var r := SealOut(c, st.(pending := st.pending[CHUNK..]), st.pending[..CHUNK]);
      if r.result.Err? then r else SealFull(c, r.state)
  }

  /** `Mst5E2eMediaUpload::write`. */
  function AfterWrite(c: Channel, st: UpState, data: bytes): Outcome<UpState, ()> {
    if data == [] then Outcome(st, Ok(())) else SealFull(c, st.(pending := st.pending + data))
  }

  /** `Mst5E2eMediaUpload::finish`, up to the final exchange with the media node. */
  function AfterFinish(c: Channel, st: UpState): Outcome<UpState, ()> {
    var r := if st.pending == [] then Outcome(st, Ok(())) else SealOut(c, st.(pending := []), st.pending);
    if r.result.Err? || r.state.enc.written != r.state.enc.size || |r.state.wire| != r.state.expected
    then Outcome(r.state, Err) else r
  }

  /** `begin_e2e_media_upload`: an empty file is refused, and the header is written at once. */
  function Begin(size: u64, prefix: Prefix): Result<UpState> {
    if size == 0 then Err else
      match EncryptedMediaSize(size)
      case Err => Err
      case Ok(expected) =>
        var r := WireWrite(UpState(Fresh(size, prefix), [], [], expected), Header(size, prefix));
        if r.result.Err? then Err else Ok(r.state)
  }

  function WriteAll(c: Channel, st: UpState, writes: seq<bytes>): Outcome<UpState, ()>
    decreases |writes|
  {
    if writes == [] then AfterFinish(c, st) else
      var r := AfterWrite(c, st, writes[0]);
      if r.result.Err? then r else WriteAll(c, r.state, writes[1..])
  }

  /** A whole upload: the bytes on the media stream, or a failure somewhere along the way. */
  function Upload(c: Channel, size: u64, prefix: Prefix, writes: seq<bytes>): Result<bytes> {
    match Begin(size, prefix)
    case Err => Err
    case Ok(st) =>
      var r := WriteAll(c, st, writes);
      if r.result.Err? then Err else Ok(r.state.wire)
  }

  /** After the bytes `done`, everything but the buffered tail is sealed and on the wire. */
  ghost predicate Inv(c: Channel, st: UpState, done: bytes) {
    var w := |done| - |st.pending|;
    && 0 <= w <= st.enc.size && w % CHUNK == 0
    && st.enc.written == w && st.enc.index == w / CHUNK
    && done[w..] == st.pending
    && st.expected == ContainerSize(st.enc.size)
    && st.wire == Header(st.enc.size, st.enc.prefix) + Body(c, st.enc.size, st.enc.prefix, 0, done[..w])
  }

  /** One more chunk extends the sealed body and keeps it within the announced size. */
  lemma BodyGrows(c: Channel, size: u64, prefix: Prefix, done: bytes, w: nat, n: nat)
    requires w % CHUNK == 0 && 0 < n <= CHUNK && w + n <= |done| && w + n <= size
    ensures Body(c, size, prefix, 0, done[..w]) + SealedChunk(c, size, prefix, w / CHUNK, done[w..w + n])
         == Body(c, size, prefix, 0, done[..w + n])
    ensures HEADER + |Body(c, size, prefix, 0, done[..w + n])| <= ContainerSize(size)
  {
    hide SealedChunk;
    var chunk := done[w..w + n];
    assert done[..w + n] == done[..w] + chunk;
    BodySplit(c, size, prefix, 0, done[..w], chunk);
    assert chunk[..n] == chunk && chunk[n..] == [];
    BodySize(c, size, prefix, 0, done[..w + n]);
    if w + n < size {
      ContainerSizeIncreases(w + n, size);
    }
  }

  lemma SealOutWhole(c: Channel, st: UpState, done: bytes, n: nat)
    requires Inv(c, st, done) && 0 < n <= Min(|st.pending|, CHUNK)
    ensures var w := st.enc.written;
            var r := SealOut(c, st.(pending := st.pending[n..]), st.pending[..n]);
            && (r.result.Ok? <==> w + n == st.enc.size || (w + n < st.enc.size && n == CHUNK))
            && r.state.enc.size == st.enc.size && r.state.enc.prefix == st.enc.prefix
            && (r.result.Ok? ==>
                  && r.state.enc.written == w + n
                  && r.state.expected == st.expected
                  && r.state.wire == Header(st.enc.size, st.enc.prefix)
                                   + Body(c, st.enc.size, st.enc.prefix, 0, done[..w + n])
                  && (n == CHUNK ==> r.state.enc.index == (w + n) / CHUNK))
  {
    hide SealedChunk, Body, Header;
    var w, size, prefix := st.enc.written, st.enc.size, st.enc.prefix;
    assert st.pending[..n] == done[w..w + n];
    if w + n <= size {
      BodyGrows(c, size, prefix, done, w, n);
      var sealed := SealedChunk(c, size, prefix, w / CHUNK, done[w..w + n]);
      assert st.wire + sealed == Header(size, prefix) + (Body(c, size, prefix, 0, done[..w]) + sealed);
    }
  }

  /** The bytes of the whole chunks among `n` bytes. */
  function WholeChunks(n: nat): nat {
    n - n % CHUNK
  }

  lemma WholeChunksAre(w: nat, n: nat)
    requires w % CHUNK == 0
    ensures if n < CHUNK then WholeChunks(w + n) == w else WholeChunks(w + n) >= w + CHUNK
  {
  }

  lemma FullChunkKeeps(c: Channel, st: UpState, done: bytes)
    requires Inv(c, st, done) && |st.pending| >= CHUNK
    ensures var r := SealOut(c, st.(pending := st.pending[CHUNK..]), st.pending[..CHUNK]);
            && (r.result.Ok? <==> st.enc.written + CHUNK <= st.enc.size)
            && r.state.enc.size == st.enc.size && r.state.enc.prefix == st.enc.prefix
            && |r.state.pending| == |st.pending| - CHUNK
            && (r.result.Ok? ==> Inv(c, r.state, done) && r.state.enc.written == st.enc.written + CHUNK)
  {
    hide SealOut, Body, Header;
    SealOutWhole(c, st, done, CHUNK);
  }

  lemma InvCounts(c: Channel, st: UpState, done: bytes)
    requires Inv(c, st, done)
    ensures |done| == st.enc.written + |st.pending| && st.enc.written % CHUNK == 0 && st.enc.written <= st.enc.size
  {
  }

  lemma {:induction false} SealFullKeeps(c: Channel, st: UpState, done: bytes)
    requires Inv(c, st, done)
    ensures var r := SealFull(c, st);
            && (r.result.Ok? <==> WholeChunks(|done|) <= st.enc.size)
            && (r.result.Ok? ==> Inv(c, r.state, done) && |r.state.pending| < CHUNK)
            && r.state.enc.size == st.enc.size && r.state.enc.prefix == st.enc.prefix
    decreases |st.pending|
  {
    hide SealOut, Inv, WholeChunks;
    InvCounts(c, st, done);
    WholeChunksAre(st.enc.written, |st.pending|);
    if |st.pending| >= CHUNK {
      FullChunkKeeps(c, st, done);
      var r := SealOut(c, st.(pending := st.pending[CHUNK..]), st.pending[..CHUNK]);
      if r.result.Ok? {
        SealFullKeeps(c, r.state, done);
      }
    }
  }

  /** What sealing the tail leaves: the whole body on the wire, exactly when the tail completes the file. */
  lemma TailSealed(c: Channel, st: UpState, done: bytes)
    requires Inv(c, st, done) && 0 < |st.pending| < CHUNK
    ensures var r := SealOut(c, st.(pending := []), st.pending);
            && (r.result.Ok? <==> |done| == st.enc.size)
            && (r.result.Ok? ==>
                  && r.state.enc.written == r.state.enc.size == st.enc.size && r.state.expected == st.expected
                  && r.state.wire == Header(st.enc.size, st.enc.prefix) + Body(c, st.enc.size, st.enc.prefix, 0, done))
  {
    hide SealOut, Body, Header;
    var n := |st.pending|;
    SealOutWhole(c, st, done, n);
    assert st.pending[..n] == st.pending && st.pending[n..] == [] && done[..|done|] == done;
  }

  lemma FinishIff(c: Channel, st: UpState, done: bytes)
    requires Inv(c, st, done) && |st.pending| < CHUNK
    ensures var r := AfterFinish(c, st);
            && (r.result.Ok? <==> |done| == st.enc.size)
            && (r.result.Ok? ==> r.state.wire == Container(c, st.enc.prefix, done))
  {
    hide SealOut, Body, Header, CeilDiv;
    if st.pending != [] {
      TailSealed(c, st, done);
    } else {
      assert done[..|done|] == done;
    }
    if |done| == st.enc.size {
      BodySize(c, st.enc.size, st.enc.prefix, 0, done);
    }
  }

  lemma {:induction false} WriteAllIff(c: Channel, st: UpState, done: bytes, writes: seq<bytes>)
    requires Inv(c, st, done) && |st.pending| < CHUNK
    ensures var r := WriteAll(c, st, writes);
            && (r.result.Ok? <==> |done| + |Concat(writes)| == st.enc.size)
            && (r.result.Ok? ==> r.state.wire == Container(c, st.enc.prefix, done + Concat(writes)))
    decreases |writes|
  {
    if writes == [] {
      FinishIff(c, st, done);
      assert done + Concat(writes) == done;
    } else {
      var data, more := writes[0], done + writes[0];
      assert done + Concat(writes) == more + Concat(writes[1..]);
      if data == [] {
        assert more == done;
        WriteAllIff(c, st, done, writes[1..]);
      } else {
        var ext := st.(pending := st.pending + data);
        var w := st.enc.written;
        assert more[..w] == done[..w] && more[w..] == ext.pending;
        SealFullKeeps(c, ext, more);
        var r := SealFull(c, ext);
        if r.result.Ok? {
          WriteAllIff(c, r.state, more, writes[1..]);
        }
      }
    }
  }

  /**
    Whatever way a file is cut into `write` calls, the upload succeeds exactly when the writes add
    up to the declared size, and what the media node receives is then the container of the file.
  */
  lemma UploadIsContainer(c: Channel, size: u64, prefix: Prefix, writes: seq<bytes>)
    ensures Upload(c, size, prefix, writes)
         == if 0 < size == |Concat(writes)| && ContainerSize(size) <= U64_MAX
            then Ok(Container(c, prefix, Concat(writes))) else Err
  {
    if size > 0 && ContainerSize(size) <= U64_MAX {
      var st := Begin(size, prefix).value;
      assert st.wire == Header(size, prefix) + [];
      assert Inv(c, st, []);
      WriteAllIff(c, st, [], writes);
      assert [] + Concat(writes) == Concat(writes);
    }
  }

  // The media stream itself, as the plain browser upload uses it.

  /** The stream after writes of which some may be refused. */
  function StreamAfter(st: UpState, writes: seq<bytes>): UpState
    decreases |writes|
  {
    if writes == [] then st else StreamAfter(WireWrite(st, writes[0]).state, writes[1..])
  }

  /** `Mst5MediaUpload`: writes that must all succeed, and then the count must be the announced one. */
  function StreamAll(st: UpState, writes: seq<bytes>): Result<bytes>
    decreases |writes|
  {
    if writes == [] then (if |st.wire| == st.expected then Ok(st.wire) else Err) else
      var r := WireWrite(st, writes[0]);
      if r.result.Err? then Err else StreamAll(r.state, writes[1..])
  }

  /** Whatever is written, the stream never carries more than was announced. */
  lemma {:induction false} NeverMoreThanAnnounced(st: UpState, writes: seq<bytes>)
    requires |st.wire| <= st.expected
    ensures |StreamAfter(st, writes).wire| <= st.expected == StreamAfter(st, writes).expected
    decreases |writes|
  {
    if writes != [] {
      NeverMoreThanAnnounced(WireWrite(st, writes[0]).state, writes[1..]);
    }
  }

  /** A plain upload succeeds exactly when its writes add up to what was announced, and carries just them. */
  lemma {:induction false} StreamCarriesTheWrites(st: UpState, writes: seq<bytes>)
    requires |st.wire| <= st.expected
    ensures StreamAll(st, writes)
         == if |st.wire| + |Concat(writes)| == st.expected then Ok(st.wire + Concat(writes)) else Err
    decreases |writes|
  {
    if writes == [] {
      assert st.wire + Concat(writes) == st.wire;
    } else {
      assert st.wire + Concat(writes) == st.wire + writes[0] + Concat(writes[1..]);
      if WireWrite(st, writes[0]).result.Ok? {
        StreamCarriesTheWrites(WireWrite(st, writes[0]).state, writes[1..]);
      }
    }
  }

  lemma NoPieces(data: bytes, n: nat)
    requires n > 0 && data == []
    ensures Pieces(data, n) == []
  {
  }

  class BrowserUpload {
    const encryptor: MediaEncryptor
    const expected: u64
    const chunkSize: nat
    var pending: bytes
    /** The payloads of the STREAM_DATA frames sent so far, and how many bytes they hold. */
    var frames: seq<bytes>
    var sent: nat

    ghost predicate Valid()
      reads this
    {
      chunkSize > 0 && sent == |Concat(frames)|
    }

    ghost function State(): UpState
      reads this, encryptor
    {
      UpState(encryptor.State(), pending, Concat(frames), expected)
    }

    /** The open media stream, with `chunkSize` from the node's acknowledgement. */
    constructor (encryptor: MediaEncryptor, expected: u64, chunkSize: nat)
      requires chunkSize > 0
      ensures Valid() && this.encryptor == encryptor && this.chunkSize == chunkSize && frames == []
      ensures State() == UpState(encryptor.State(), [], [], expected)
    {
      this.encryptor, this.expected, this.chunkSize := encryptor, expected, chunkSize;
      pending, frames, sent := [], [], 0;
    }

    /** `BrowserMediaUpload::write`. */
    method StreamWrite(data: bytes) returns (r: Result<()>)
      requires Valid()
      modifies this`frames, this`sent
      ensures Valid()
      ensures Outcome(State(), r) == WireWrite(old(State()), data)
      ensures frames == old(frames) + (if r.Ok? then Pieces(data, chunkSize) else [])
    {
      if sent + |data| > expected {
        return Err;
      }
      ConcatAppend(frames, Pieces(data, chunkSize));
      SendPieces(data);
      r := Ok(());
    }

    /** One STREAM_DATA frame for each piece. */
    method SendPieces(data: bytes)
      requires chunkSize > 0
      modifies this`frames, this`sent
      ensures frames == old(frames) + Pieces(data, chunkSize) && sent == old(sent) + |data|
    {
      hide Pieces;
      assert data[0..] == data;
      var i := 0;
      while i < |data|
        invariant 0 <= i <= |data| && sent == old(sent) + i
        invariant frames + Pieces(data[i..], chunkSize) == old(frames) + Pieces(data, chunkSize)
      {
        var n := Min(|data| - i, chunkSize);
        PiecesStep(data, chunkSize, i, n);
        frames := frames + [data[i..i + n]];
        sent := sent + n;
        i := i + n;
      }
      NoPieces(data[i..], chunkSize);
    }

    method Write(data: bytes) returns (r: Result<()>)
      requires Valid()
      modifies this, encryptor
      ensures Valid()
      ensures Outcome(State(), r) == AfterWrite(encryptor.channel, old(State()), data)
    {
      if data == [] {
        return Ok(());
      }
      ghost var goal := AfterWrite(encryptor.channel, State(), data);
      pending := pending + data;
      while |pending| >= CHUNK
        invariant Valid() && SealFull(encryptor.channel, State()) == goal
        decreases |pending|
      {
        var chunk := pending[..CHUNK];
        pending := pending[CHUNK..];
        var sealed := encryptor.SealChunk(chunk);
        if sealed.Err? {
          return Err;
        }
        var sent := StreamWrite(sealed.value);
        if sent.Err? {
          return Err;
        }
      }
      r := Ok(());
    }

    method Finish() returns (r: Result<()>)
      requires Valid()
      modifies this, encryptor
      ensures Valid()
      ensures Outcome(State(), r) == AfterFinish(encryptor.channel, old(State()))
    {
      if pending != [] {
        var chunk := pending;
        pending := [];
        var sealed := encryptor.SealChunk(chunk);
        if sealed.Err? {
          return Err;
        }
        var sent := StreamWrite(sealed.value);
        if sent.Err? {
          return Err;
        }
      }
      var done := encryptor.Finish();
      if done.Err? || sent != expected {
        return Err;
      }
      r := Ok(());
    }
  }

  /** `begin_e2e_media_upload`, with a media node that takes the stream. */
  method BeginUpload(channel: Channel, size: u64, prefix: Prefix, chunkSize: nat)
    returns (r: Result<BrowserUpload>)
    requires chunkSize > 0
    ensures match Begin(size, prefix)
            case Err => r.Err?
            case Ok(st) =>
              && r.Ok? && fresh(r.value) && fresh(r.value.encryptor) && r.value.Valid()
              && r.value.State() == st && r.value.encryptor.channel == channel
              && r.value.frames == Pieces(Header(size, prefix), chunkSize)
  {
    if size == 0 {
      return Err;
    }
    var expected := EncryptedMediaSize(size);
    if expected.Err? {
      return Err;
    }
    var encryptor := new MediaEncryptor(channel, prefix, size);
    var upload := new BrowserUpload(encryptor, expected.value, chunkSize);
    var written := upload.StreamWrite(Header(size, prefix));
    if written.Err? {
      return Err;
    }
    r := Ok(upload);
  }
}
