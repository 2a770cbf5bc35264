/** The incremental decryptor of `src/e2e.rs`: independent of fragmentation, equal to the one-shot reader. */
module MediaDecrypt {
  import opened Bytes
  import opened Crypto
  import opened MediaFormat
  import MediaUpload

  datatype DecState = DecState(
    prefix: Prefix, size: u64, written: u64, index: u64, pending: bytes, headerRead: bool)

  function Init(): DecState {
    DecState(Zeros(16), 0, 0, 0, [], false)
  }

  datatype Step = Stop | Broken(state: DecState) | Took(state: DecState, plain: bytes)

  /** One turn of the loop of `push`: stop, fail, or take a whole chunk off the buffer. */
  function NextChunk(c: Channel, st: DecState): (s: Step)
    ensures s.Took? ==> |s.state.pending| < |st.pending|
    ensures !s.Stop? ==> s.state.headerRead == st.headerRead
  {
    if st.written >= st.size || |st.pending| < 4 then Stop else
      var n := Min(st.size - st.written, CHUNK);
      if FromBytes(st.pending[..4]) != n + TAG_LEN then Broken(st)
      else if |st.pending| < n + 20 then Stop
      else
        match ReadChunk(c, st.size, st.prefix, st.index, n, st.pending)
        case None => Broken(st)
        case Some(plain) =>
          var st1 := st.(pending := st.pending[n + 20..], written := st.written + n);
          if st.index == U64_MAX then Broken(st1) else Took(st1.(index := st.index + 1), plain)
  }

  lemma NothingLeft(c: Channel, st: DecState)
    requires st.written >= st.size
    ensures NextChunk(c, st).Stop?
  {
  }

  /** The loop of `push`: opens whole chunks while the buffer holds them. */
  function Drain(c: Channel, st: DecState): Outcome<DecState, seq<bytes>>
    decreases |st.pending|
  {
    match NextChunk(c, st)
    case Stop => Outcome(st, Ok([]))
    case Broken(st') => Outcome(st', Err)
    case Took(st', plain) =>
      var rest := Drain(c, st');
      match rest.result
      case Err => rest
      case Ok(out) => Outcome(rest.state, Ok([plain] + out))
  }

  /** One `push` call. */
  function AfterPush(c: Channel, st: DecState, data: bytes): Outcome<DecState, seq<bytes>> {
    var st1 := st.(pending := st.pending + data);
    if st.headerRead then Drain(c, st1)
    else if |st1.pending| < HEADER then Outcome(st1, Ok([]))
    else
      match ReadHeader(st1.pending)
      case Err => Outcome(st1, Err)
      case Ok((size, prefix)) =>
        Drain(c, st1.(size := size, prefix := prefix, pending := st1.pending[HEADER..], headerRead := true))
  }

  function AfterFinish(st: DecState): Result<u64> {
    if !st.headerRead || st.written != st.size || st.pending != [] then Err else Ok(st.written)
  }

  /** A run of pushes that stops at the first failure; the recovered chunks in order. */
  function PushAll(c: Channel, st: DecState, parts: seq<bytes>): Outcome<DecState, seq<bytes>>
    decreases |parts|
  {
    if parts == [] then Outcome(st, Ok([])) else
      var first := AfterPush(c, st, parts[0]);
      match first.result
      case Err => first
      case Ok(out) =>
        var rest := PushAll(c, first.state, parts[1..]);
        match rest.result
        case Err => rest
        case Ok(tail) => Outcome(rest.state, Ok(out + tail))
  }

  /** `whole` succeeds exactly when `first` and then `second` do, with the same state and output. */
  predicate Splits(whole: Outcome<DecState, seq<bytes>>, first: Outcome<DecState, seq<bytes>>,
                   second: Outcome<DecState, seq<bytes>>) {
    && (whole.result.Ok? <==> first.result.Ok? && second.result.Ok?)
    && (whole.result.Ok? ==>
          && whole.state == second.state
          && whole.result.value == first.result.value + second.result.value)
  }

  function More(st: DecState, data: bytes): DecState {
    st.(pending := st.pending + data)
  }

  lemma NextChunkMore(c: Channel, st: DecState, data: bytes)
    ensures match NextChunk(c, st)
            case Stop => true
            case Broken(_) => NextChunk(c, More(st, data)).Broken?
            case Took(st', plain) => NextChunk(c, More(st, data)) == Took(More(st', data), plain)
  {
    hide FromBytes, Header, ChunkAad, Nonce;
    if st.written < st.size && |st.pending| >= 4 {
      var ext := More(st, data).pending;
      var n := Min(st.size - st.written, CHUNK);
      assert ext[..4] == st.pending[..4];
      if |st.pending| >= n + 20 {
        assert ext[4..n + 20] == st.pending[4..n + 20];
        assert ext[n + 20..] == st.pending[n + 20..] + data;
      }
    }
  }

  lemma {:induction false} DrainMore(c: Channel, st: DecState, data: bytes)
    ensures var first := Drain(c, st);
            Splits(Drain(c, More(st, data)), first, Drain(c, More(first.state, data)))
    ensures Drain(c, st).state.headerRead == st.headerRead
    decreases |st.pending|
  {
    hide NextChunk;
    NextChunkMore(c, st, data);
    var step := NextChunk(c, st);
    if step.Took? {
      DrainMore(c, step.state, data);
    }
  }

  /**
    Fragmentation, from any state and for any bytes, well formed or not: pushing `a` and then `b`
    succeeds exactly when pushing `a + b` does, with the same state and the same chunks.
  */
  lemma PushSplits(c: Channel, st: DecState, a: bytes, b: bytes)
    ensures var first := AfterPush(c, st, a);
            Splits(AfterPush(c, st, a + b), first, AfterPush(c, first.state, b))
  {
    var p := st.pending + a;
    assert st.pending + (a + b) == p + b;
    if st.headerRead {
      DrainMore(c, st.(pending := p), b);
    } else if |p| >= HEADER {
      assert (p + b)[HEADER..] == p[HEADER..] + b;
      assert (p + b)[..4] == p[..4] && (p + b)[8..16] == p[8..16] && (p + b)[16..32] == p[16..32];
      if ReadHeader(p).Ok? {
        var (size, prefix) := ReadHeader(p).value;
        DrainMore(c, st.(size := size, prefix := prefix, pending := p[HEADER..], headerRead := true), b);
      }
    }
  }

  /** Any number of pushes does what one push of all the bytes would. */
  lemma {:induction false} PushAllIsOnePush(c: Channel, st: DecState, parts: seq<bytes>)
    requires parts != []
    ensures var whole := AfterPush(c, st, Concat(parts));
            var run := PushAll(c, st, parts);
            (whole.result.Ok? <==> run.result.Ok?) && (whole.result.Ok? ==> whole == run)
    decreases |parts|
  {
    if |parts| == 1 {
      ConcatSingle(parts[0]);
      assert parts == [parts[0]];
      var first := AfterPush(c, st, parts[0]);
      if first.result.Ok? {
        assert PushAll(c, first.state, parts[1..]) == Outcome(first.state, Ok([]));
        assert first.result.value + [] == first.result.value;
      }
    } else {
      PushSplits(c, st, parts[0], Concat(parts[1..]));
      var first := AfterPush(c, st, parts[0]);
      if first.result.Ok? {
        PushAllIsOnePush(c, first.state, parts[1..]);
      }
    }
  }

  ghost function Whole(c: Channel, st: DecState): Option<seq<bytes>>
    requires st.index <= st.written <= st.size
  {
    OpenBody(c, st.size, st.prefix, st.index, st.size - st.written, st.pending)
  }

  lemma NextChunkOfWhole(c: Channel, st: DecState)
    requires st.headerRead && st.index <= st.written <= st.size
    ensures match NextChunk(c, st)
            case Stop => Whole(c, st) == if AfterFinish(st).Ok? then Some([]) else None
            case Broken(_) => Whole(c, st).None?
            case Took(st', plain) =>
              && st'.headerRead && st'.size == st.size && st'.index <= st'.written <= st'.size
              && (Whole(c, st).Some? <==> Whole(c, st').Some?)
              && (Whole(c, st).Some? ==> Whole(c, st).value == [plain] + Whole(c, st').value)
  {
  }

  lemma {:induction false} DrainIsOpenBody(c: Channel, st: DecState)
    requires st.headerRead && st.index <= st.written <= st.size
    ensures var r := Drain(c, st);
            && (r.result.Ok? && AfterFinish(r.state).Ok? <==> Whole(c, st).Some?)
            && (Whole(c, st).Some? ==>
                  r.result.value == Whole(c, st).value && r.state.written == r.state.size == st.size)
    decreases |st.pending|
  {
    hide NextChunk;
    NextChunkOfWhole(c, st);
    var step := NextChunk(c, st);
    if step.Took? {
      DrainIsOpenBody(c, step.state);
    }
  }

  /** What a run of pushes and a `finish` deliver together. */
  function Received(c: Channel, parts: seq<bytes>): Option<(seq<bytes>, u64)> {
    var run := PushAll(c, Init(), parts);
    match run.result
    case Err => None
    case Ok(chunks) =>
      match AfterFinish(run.state)
      case Err => None
      case Ok(n) => Some((chunks, n))
  }

  /** One push of all the bytes and a finish, against the one-shot reader. */
  lemma OnePush(c: Channel, w: bytes)
    ensures var r := AfterPush(c, Init(), w);
            match OpenContainer(c, w)
            case None => r.result.Err? || AfterFinish(r.state).Err?
            case Some(chunks) =>
              && r.result == Ok(chunks) && AfterFinish(r.state) == Ok(|Concat(chunks)|)
              && |w| == ContainerSize(|Concat(chunks)|)
  {
    hide Drain, OpenBody, NextChunk, ReadHeader, Concat;
    assert [] + w == w;
    if |w| >= HEADER && ReadHeader(w).Ok? {
      var (size, prefix) := ReadHeader(w).value;
      DrainIsOpenBody(c, DecState(prefix, size, 0, 0, w[HEADER..], true));
      if OpenContainer(c, w).Some? {
        OpenContainerSize(c, w);
        OpenBodySize(c, size, prefix, 0, size, w[HEADER..]);
      }
    }
  }

  lemma NoParts(c: Channel)
    ensures Received(c, []) == None && OpenContainer(c, Concat([])) == None
  {
  }

  /**
    The incremental decryptor refines the one-shot reader: for any bytes in any fragmentation it
    succeeds exactly when the reader accepts the bytes, with the same chunks and their total length;
    an accepted object has exactly the announced size.
  */
  lemma RefinesOneShotReader(c: Channel, parts: seq<bytes>)
    ensures match OpenContainer(c, Concat(parts))
            case None => Received(c, parts) == None
            case Some(chunks) =>
              && Received(c, parts) == Some((chunks, |Concat(chunks)|))
              && |Concat(parts)| == ContainerSize(|Concat(chunks)|)
  {
    hide AfterPush, PushAll, OpenContainer, AfterFinish, Concat;
    if parts == [] {
      NoParts(c);
    } else {
      PushAllIsOnePush(c, Init(), parts);
      OnePush(c, Concat(parts));
    }
  }

  /** Whatever way the container of a plaintext is fragmented, the plaintext comes out. */
  lemma DecryptsContainer(c: Channel, prefix: Prefix, plain: bytes, parts: seq<bytes>)
    requires |plain| <= U64_MAX
    requires Concat(parts) == Container(c, prefix, plain)
    ensures Received(c, parts) == Some((Chunks(plain), |plain|))
  {
    RefinesOneShotReader(c, parts);
    OpenContainerOfContainer(c, prefix, plain);
  }

  /**
    End to end: however the sender's file is cut into `write` calls and however the stored object
    is cut into `push` calls, the recovered chunks concatenate to the file and `finish` counts it.
  */
  lemma EndToEnd(c: Channel, size: u64, prefix: Prefix, writes: seq<bytes>, parts: seq<bytes>)
    requires MediaUpload.Upload(c, size, prefix, writes) == Ok(Concat(parts))
    ensures var got := Received(c, parts);
            && got.Some?
            && Concat(got.value.0) == Concat(writes)
            && got.value.1 == |Concat(writes)| == size
  {
    MediaUpload.UploadIsContainer(c, size, prefix, writes);
    DecryptsContainer(c, prefix, Concat(writes), parts);
  }

  class MediaDecryptor {
    const channel: Channel
    var prefix: Prefix
    var size: u64
    var written: u64
    var index: u64
    var pending: bytes
    var headerRead: bool

    ghost function State(): DecState
      reads this
    {
      DecState(prefix, size, written, index, pending, headerRead)
    }

    constructor (channel: Channel)
      ensures this.channel == channel && State() == Init()
    {
      this.channel := channel;
      prefix, size, written, index := Zeros(16), 0, 0, 0;
      pending, headerRead := [], false;
    }

    /** Reads the header off the buffer. */
    method TakeHeader() returns (ok: bool)
      requires |pending| >= HEADER
      modifies this
      ensures match old(ReadHeader(pending))
              case Err => !ok && State() == old(State())
              case Ok((size, prefix)) =>
                ok && State() == old(State()).(size := size, prefix := prefix, headerRead := true,
                                               pending := old(pending)[HEADER..])
    {
      if pending[..4] != MAGIC || pending[4] != 2 || pending[5] != 16 || pending[6] != 0 || pending[7] != 0 {
        return false;
      }
      BytesU64(pending[8..16]);
      size := FromBytes(pending[8..16]);
      prefix := pending[16..32];
      pending := pending[HEADER..];
      headerRead := true;
      ok := true;
    }

    /** The loop body of `push`. */
    method TakeChunk() returns (s: Step)
      requires written < size
      modifies this
      ensures s == old(NextChunk(channel, State()))
      ensures State() == if s.Stop? then old(State()) else s.state
    {
      hide FromBytes, Header, ChunkAad, Nonce;
      if |pending| < 4 {
        return Stop;
      }
      var len := FromBytes(pending[..4]);
      var n := Min(size - written, CHUNK);
      if len != n + TAG_LEN {
        return Broken(DecState(prefix, size, written, index, pending, headerRead));
      }
      if |pending| < 4 + len {
        return Stop;
      }
      var aad := ChunkAad(channel.aad, Header(size, prefix), index, n);
      var plain := Decrypt(channel.cipher, channel.key, Nonce(prefix, index), aad, pending[4..4 + len]);
      assert plain == ReadChunk(channel, size, prefix, index, n, pending);
      if plain.None? {
        return Broken(DecState(prefix, size, written, index, pending, headerRead));
      }
      pending := pending[4 + len..];
      written := written + |plain.value|;
      if index == U64_MAX {
        return Broken(DecState(prefix, size, written, index, pending, headerRead));
      }
      index := index + 1;
      s := Took(DecState(prefix, size, written, index, pending, headerRead), plain.value);
    }

    /** The loop of `push`. */
    method TakeChunks() returns (r: Result<seq<bytes>>)
      modifies this
      ensures Outcome(State(), r) == Drain(channel, old(State()))
    {
      hide NextChunk;
      ghost var goal := Drain(channel, State());
      assert goal.result.Ok? ==> [] + goal.result.value == goal.result.value;
      var output: seq<bytes> := [];
      while written < size
        invariant var rest := Drain(channel, State());
                  && goal.state == rest.state
                  && goal.result == (if rest.result.Err? then Err else Ok(output + rest.result.value))
        decreases |pending|
      {
        var step := TakeChunk();
        if step.Broken? {
          return Err;
        }
        if step.Stop? {
          break;
        }
        ghost var rest := Drain(channel, State());
        assert rest.result.Ok? ==> output + ([step.plain] + rest.result.value) == output + [step.plain] + rest.result.value;
        output := output + [step.plain];
      }
      if written >= size {
        NothingLeft(channel, State());
      }
      assert output + [] == output;
      r := Ok(output);
    }

    method Push(data: bytes) returns (r: Result<seq<bytes>>)
      modifies this
      ensures Outcome(State(), r) == AfterPush(channel, old(State()), data)
    {
      pending := pending + data;
      if !headerRead {
        if |pending| < HEADER {
          return Ok([]);
        }
        var ok := TakeHeader();
        if !ok {
          return Err;
        }
      }
      r := TakeChunks();
    }

    method Finish() returns (r: Result<u64>)
      ensures r == AfterFinish(State())
    {
      if !headerRead || written != size || pending != [] {
        return Err;
      }
      r := Ok(written);
    }
  }
}
