/** The stateful chunk encryptor of `src/e2e.rs` and the chunk sequences it accepts. */
module MediaEncrypt {
  import opened Bytes
  import opened Crypto
  import opened MediaFormat

  datatype EncState = EncState(size: u64, prefix: Prefix, written: u64, index: u64)

  function Fresh(size: u64, prefix: Prefix): EncState {
    EncState(size, prefix, 0, 0)
  }

  /** One `seal_chunk` call. */
  function Seal(c: Channel, st: EncState, plain: bytes): (r: Outcome<EncState, bytes>)
    ensures r.result.Ok? ==> 0 < |plain| <= CHUNK && r.state.written == st.written + |plain| <= st.size
    ensures r.state.size == st.size && r.state.prefix == st.prefix
  {
    if plain == [] || |plain| > CHUNK then Outcome(st, Err) else
      match CheckedAdd(st.written, |plain|)
      case Err => Outcome(st, Err)
      case Ok(next) =>
        if next > st.size || (next != st.size && |plain| != CHUNK) then Outcome(st, Err) else
          var out := SealedChunk(c, st.size, st.prefix, st.index, plain);
          match CheckedAdd(st.index, 1)
          case Err => Outcome(st.(written := next), Err)
          case Ok(index) => Outcome(st.(written := next, index := index), Ok(out))
  }

  /** A run of `seal_chunk` calls that stops at the first failure; the outputs concatenated. */
  function SealAll(c: Channel, st: EncState, chunks: seq<bytes>): Outcome<EncState, bytes>
    decreases |chunks|
  {
    if chunks == [] then Outcome(st, Ok([])) else
      var first := Seal(c, st, chunks[0]);
      match first.result
      case Err => Outcome(first.state, Err)
      case Ok(out) =>
        var rest := SealAll(c, first.state, chunks[1..]);
        match rest.result
        case Err => rest
        case Ok(tail) => Outcome(rest.state, Ok(out + tail))
  }

  /** `finish` succeeds after a run. */
  predicate Completes(r: Outcome<EncState, bytes>) {
    r.result.Ok? && r.state.written == r.state.size
  }

  lemma CanonicalStep(head: bytes, tail: seq<bytes>)
    ensures var all := head + Concat(tail);
            [head] + tail == Chunks(all) <==> 0 < |head| == Min(|all|, CHUNK) && tail == Chunks(Concat(tail))
  {
    var all := head + Concat(tail);
    if 0 < |head| == Min(|all|, CHUNK) {
      assert all[..|head|] == head && all[|head|..] == Concat(tail);
      assert Chunks(all) == [head] + Chunks(Concat(tail));
      assert ([head] + tail)[1..] == tail && ([head] + Chunks(Concat(tail)))[1..] == Chunks(Concat(tail));
    } else if all != [] {
      assert |Chunks(all)[0]| == Min(|all|, CHUNK);
      assert ([head] + tail)[0] == head;
    }
  }

  lemma SealAccepts(c: Channel, st: EncState, plain: bytes)
    requires st.index <= st.written <= st.size
    ensures var r, next := Seal(c, st, plain), st.written + |plain|;
            && (r.result.Ok? <==>
                  0 < |plain| <= CHUNK && (next == st.size || (next < st.size && |plain| == CHUNK)))
            && (r.result.Ok? ==>
                  && r.result.value == SealedChunk(c, st.size, st.prefix, st.index, plain)
                  && r.state == EncState(st.size, st.prefix, next, st.index + 1))
  {
    hide SealedChunk;
  }

  lemma BodyStep(c: Channel, size: u64, prefix: Prefix, index: nat, head: bytes, rest: bytes)
    requires index + |head| + |rest| <= U64_MAX && 0 < |head| == Min(|head + rest|, CHUNK)
    ensures Body(c, size, prefix, index, head + rest)
         == SealedChunk(c, size, prefix, index, head) + Body(c, size, prefix, index + 1, rest)
  {
    hide SealedChunk;
    assert (head + rest)[..|head|] == head && (head + rest)[|head|..] == rest;
  }

  /** One chunk of a run: it goes on as from the next state, or it ends in a failure. */
  lemma SealAllStep(c: Channel, st: EncState, head: bytes, tail: seq<bytes>)
    ensures var first, run := Seal(c, st, head), SealAll(c, st, [head] + tail);
            var rest := SealAll(c, first.state, tail);
            && (Completes(run) <==> first.result.Ok? && Completes(rest))
            && (Completes(run) ==> run.result.value == first.result.value + rest.result.value)
  {
    hide Seal;
    assert ([head] + tail)[0] == head && ([head] + tail)[1..] == tail;
  }

  /** What a state misses, cut canonically. */
  predicate Missing(st: EncState, chunks: seq<bytes>) {
    st.written + |Concat(chunks)| == st.size && chunks == Chunks(Concat(chunks))
  }

  lemma MissingStep(c: Channel, st: EncState, head: bytes, tail: seq<bytes>)
    requires st.index <= st.written <= st.size
    ensures var first := Seal(c, st, head);
            Missing(st, [head] + tail) <==> first.result.Ok? && Missing(first.state, tail)
  {
    SealAccepts(c, st, head);
    CanonicalStep(head, tail);
    ConcatCons(head, tail);
    hide Seal, Chunks, Concat;
  }

  lemma HeadIsFull(st: EncState, head: bytes, tail: seq<bytes>)
    requires Missing(st, [head] + tail)
    ensures 0 < |head| == Min(|head + Concat(tail)|, CHUNK) && st.written + |head| + |Concat(tail)| == st.size
  {
    CanonicalStep(head, tail);
    ConcatCons(head, tail);
    hide Chunks, Concat;
  }

  lemma {:induction false} SealAllFrom(c: Channel, st: EncState, chunks: seq<bytes>)
    requires st.index <= st.written <= st.size
    ensures Completes(SealAll(c, st, chunks)) <==> Missing(st, chunks)
    ensures Completes(SealAll(c, st, chunks))
        ==> SealAll(c, st, chunks).result.value == Body(c, st.size, st.prefix, st.index, Concat(chunks))
    decreases |chunks|
  {
    hide Seal, SealAll, SealedChunk, Completes, Missing, Chunks, Concat, Body;
    if chunks == [] {
      NothingToSeal(c, st);
    } else {
      var head, tail := chunks[0], chunks[1..];
      assert chunks == [head] + tail;
      ConcatCons(head, tail);
      SealAllStep(c, st, head, tail);
      MissingStep(c, st, head, tail);
      var first := Seal(c, st, head);
      if first.result.Ok? {
        SealAccepts(c, st, head);
        SealAllFrom(c, first.state, tail);
        if Completes(SealAll(c, first.state, tail)) {
          HeadIsFull(st, head, tail);
          BodyStep(c, st.size, st.prefix, st.index, head, Concat(tail));
        }
      }
    }
  }

  lemma NothingToSeal(c: Channel, st: EncState)
    requires st.index <= st.written <= st.size
    ensures Completes(SealAll(c, st, [])) <==> Missing(st, [])
    ensures SealAll(c, st, []).result == Ok(Body(c, st.size, st.prefix, st.index, Concat([])))
  {
  }

  /**
    A sequence of chunks is accepted and then finished exactly when it is the canonical chunking
    of the declared number of bytes; header and outputs are then the container of those bytes.
  */
  lemma AcceptsExactlyCanonicalChunks(c: Channel, size: u64, prefix: Prefix, chunks: seq<bytes>)
    ensures var r := SealAll(c, Fresh(size, prefix), chunks);
            var plain := Concat(chunks);
            && (Completes(r) <==> |plain| == size && chunks == Chunks(plain))
            && (Completes(r) ==>
                  && Header(size, prefix) + r.result.value == Container(c, prefix, plain)
                  && |Header(size, prefix) + r.result.value| == ContainerSize(size))
  {
    SealAllFrom(c, Fresh(size, prefix), chunks);
    if |Concat(chunks)| == size {
      BodySize(c, size, prefix, 0, Concat(chunks));
    }
  }

  class MediaEncryptor {
    const channel: Channel
    const prefix: Prefix
    const size: u64
    var written: u64
    var index: u64

    ghost function State(): EncState
      reads this
    {
      EncState(size, prefix, written, index)
    }

    constructor (channel: Channel, prefix: Prefix, size: u64)
      ensures this.channel == channel && State() == Fresh(size, prefix)
    {
      this.channel, this.prefix, this.size := channel, prefix, size;
      written, index := 0, 0;
    }

    method SealChunk(plain: bytes) returns (r: Result<bytes>)
      modifies this
      ensures Outcome(State(), r) == Seal(channel, old(State()), plain)
    {
      if |plain| == 0 || |plain| > CHUNK {
        return Err;
      }
      var next := written + |plain|;
      if next > U64_MAX {
        return Err;
      }
      if next > size || (next != size && |plain| != CHUNK) {
        return Err;
      }
      var aad := ChunkAad(channel.aad, Header(size, prefix), index, |plain|);
      var ciphertext := Encrypt(channel.cipher, channel.key, Nonce(prefix, index), aad, plain);
      var out := ToBytes(|ciphertext|, 4) + ciphertext;
      written := next;
      if index == U64_MAX {
        return Err;
      }
      index := index + 1;
      r := Ok(out);
    }

    method Finish() returns (r: Result<()>)
      ensures r.Ok? <==> written == size
    {
      r := if written == size then Ok(()) else Err;
    }
  }
}
