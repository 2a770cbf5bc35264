/**
  The native end-to-end media upload of `src/lib.rs`. It has no alignment buffer: every read of the
  source is one chunk, so a read that ends early breaks the chunking.
*/
module NativeUpload {
  import opened Bytes
  import opened MediaFormat
  import opened MediaEncrypt
  import MediaDecrypt

  /** `payloads` are those of the STREAM_DATA frames sent, `sent` counts their bytes. */
  datatype NativeState = NativeState(enc: EncState, payloads: seq<bytes>, sent: u64)

  /** One turn of the loop: a chunk is sealed, counted and sent. */
  function SendChunk(c: Channel, st: NativeState, chunk: bytes): Outcome<NativeState, ()> {
    var sealed := Seal(c, st.enc, chunk);
    var st1 := st.(enc := sealed.state);
    match sealed.result
    case Err => Outcome(st1, Err)
    case Ok(out) =>
      match CheckedAdd(st.sent, |out|)
      case Err => Outcome(st1, Err)
      case Ok(sent) => Outcome(st1.(payloads := st.payloads + [out], sent := sent), Ok(()))
  }

  /** The loop, over what the reads of the source return; an empty read is its end. */
  function SendAll(c: Channel, st: NativeState, input: seq<Result<bytes>>): Outcome<NativeState, ()>
    decreases |input|
  {
    if input == [] || input[0] == Ok([]) then Outcome(st, Ok(()))
    else if input[0].Err? then Outcome(st, Err)
    else
      var r := SendChunk(c, st, input[0].value);
      if r.result.Err? then r else SendAll(c, r.state, input[1..])
  }

  /** `upload_media_e2e_with_encryptor`, up to STREAM_END: the payloads sent and the outcome. */
  function Upload(c: Channel, size: u64, prefix: Prefix, input: seq<Result<bytes>>): Outcome<seq<bytes>, ()> {
    match EncryptedMediaSize(size)
    case Err => Outcome([], Err)
    case Ok(expected) =>
      var header := Header(size, prefix);
      var r := SendAll(c, NativeState(Fresh(size, prefix), [header], |header|), input);
      if r.result.Err? || r.state.enc.written != r.state.enc.size || r.state.sent != expected
      then Outcome(r.state.payloads, Err) else Outcome(r.state.payloads, Ok(()))
  }

  /** The reads before the end of the source, unless one of them fails. */
  function Taken(input: seq<Result<bytes>>): Option<seq<bytes>> {
    if input == [] || input[0] == Ok([]) then Some([])
    else if input[0].Err? then None
    else
      match Taken(input[1..])
      case None => None
      case Some(rest) => Some([input[0].value] + rest)
  }

  /** The loop is a run of the encryptor that also counts and keeps its outputs. */
  lemma {:induction false} SendAllIsSealAll(c: Channel, st: NativeState, input: seq<Result<bytes>>)
    ensures var r := SendAll(c, st, input);
            match Taken(input)
            case None => r.result.Err?
            case Some(chunks) =>
              var sealed := SealAll(c, st.enc, chunks);
              && (r.result.Ok? <==> sealed.result.Ok? && st.sent + |sealed.result.value| <= U64_MAX)
              && (r.result.Ok? ==>
                    && r.state.enc == sealed.state
                    && r.state.sent == st.sent + |sealed.result.value|
                    && Concat(r.state.payloads) == Concat(st.payloads) + sealed.result.value)
    decreases |input|
  {
    hide Seal;
    if input == [] || input[0] == Ok([]) {
      assert Concat(st.payloads) + [] == Concat(st.payloads);
    } else if input[0].Ok? {
      var chunk := input[0].value;
      var sealed := Seal(c, st.enc, chunk);
      var r := SendChunk(c, st, chunk);
      if Taken(input).Some? {
        var chunks := Taken(input).value;
        assert chunks[0] == chunk && chunks[1..] == Taken(input[1..]).value;
      }
      if r.result.Ok? {
        SendAllIsSealAll(c, r.state, input[1..]);
        ConcatAppend(st.payloads, [sealed.result.value]);
        ConcatSingle(sealed.result.value);
      }
    }
  }

  /**
    The upload succeeds if and only if no read fails, the announced size fits 64 bits and the reads
    are the canonical chunks of the declared number of bytes; the media node then has the container.
  */
  lemma SucceedsExactlyOnCanonicalReads(c: Channel, size: u64, prefix: Prefix, input: seq<Result<bytes>>)
    ensures var r, taken := Upload(c, size, prefix, input), Taken(input);
            && (r.result.Ok? <==>
                  && ContainerSize(size) <= U64_MAX && taken.Some?
                  && |Concat(taken.value)| == size && taken.value == Chunks(Concat(taken.value)))
            && (r.result.Ok? ==> Concat(r.state) == Container(c, prefix, Concat(taken.value)))
  {
    hide Seal, SealAll, Chunks, Container, Header;
    var header := Header(size, prefix);
    ConcatSingle(header);
    SendAllIsSealAll(c, NativeState(Fresh(size, prefix), [header], |header|), input);
    if Taken(input).Some? {
      AcceptsExactlyCanonicalChunks(c, size, prefix, Taken(input).value);
    }
  }

  lemma TakenStep(chunk: bytes, rest: seq<Result<bytes>>)
    requires chunk != []
    ensures var taken := Taken(rest);
            Taken([Ok(chunk)] + rest) == if taken.None? then None else Some([chunk] + taken.value)
  {
    assert ([Ok(chunk)] + rest)[1..] == rest;
  }

  /** A source that hands out two bytes one at a time is refused, although its bytes are all there. */
  lemma ShortReadFails(c: Channel, prefix: Prefix)
    ensures Upload(c, 2, prefix, [Ok([0]), Ok([0])]).result.Err?
  {
    var input: seq<Result<bytes>> := [Ok([0]), Ok([0])];
    SucceedsExactlyOnCanonicalReads(c, 2, prefix, input);
    TakenStep([0], []);
    TakenStep([0], [Ok([0])] + []);
    assert input == [Ok([0])] + ([Ok([0])] + []);
    hide Upload, Taken, Concat;
    var chunks := Taken(input).value;
    var plain := Concat(chunks);
    if |plain| == 2 {
      assert Chunks(plain)[0] == plain[..2] && |chunks[0]| == 1;
    }
  }

  /** End to end with the native sender: what it manages to send decrypts, in any fragmentation. */
  lemma NativeEndToEnd(c: Channel, size: u64, prefix: Prefix, input: seq<Result<bytes>>, parts: seq<bytes>)
    requires Upload(c, size, prefix, input).result.Ok?
    requires Concat(parts) == Concat(Upload(c, size, prefix, input).state)
    ensures Taken(input).Some?
    ensures MediaDecrypt.Received(c, parts) == Some((Taken(input).value, size))
  {
    SucceedsExactlyOnCanonicalReads(c, size, prefix, input);
    MediaDecrypt.DecryptsContainer(c, prefix, Concat(Taken(input).value), parts);
  }

  /** The loop as it runs. */
  method UploadLoop(c: Channel, size: u64, prefix: Prefix, input: seq<Result<bytes>>)
    returns (payloads: seq<bytes>, r: Result<()>)
    ensures Outcome(payloads, r) == Upload(c, size, prefix, input)
  {
    hide Seal, Header;
    payloads := [];
    var expected := EncryptedMediaSize(size);
    if expected.Err? {
      return [], Err;
    }
    var encryptor := new MediaEncryptor(c, prefix, size);
    var header := Header(size, prefix);
    var sent: u64 := |header|;
    payloads := [header];
    ghost var goal := SendAll(c, NativeState(Fresh(size, prefix), payloads, sent), input);
    var i := 0;
    while i < |input|
      invariant 0 <= i <= |input| && encryptor.channel == c && fresh(encryptor)
      invariant goal == SendAll(c, NativeState(encryptor.State(), payloads, sent), input[i..])
    {
      assert input[i..][0] == input[i] && input[i..][1..] == input[i + 1..];
      if input[i].Err? {
        return payloads, Err;
      }
      if input[i].value == [] {
        break;
      }
      var sealed := encryptor.SealChunk(input[i].value);
      if sealed.Err? {
        return payloads, Err;
      }
      if sent + |sealed.value| > U64_MAX {
        return payloads, Err;
      }
      sent := sent + |sealed.value|;
      payloads := payloads + [sealed.value];
      i := i + 1;
    }
    assert goal == Outcome(NativeState(encryptor.State(), payloads, sent), Ok(()));
    var done := encryptor.Finish();
    if done.Err? || sent != expected.value {
      return payloads, Err;
    }
    r := Ok(());
  }
}
