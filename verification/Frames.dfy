/** MST5 frames: the 40-byte header codec of `src/lib.rs`. */
module Frames {
  import opened Bytes

  const HEADER_LEN: nat := 40
  const MAX_PAYLOAD: nat := 4 * 1024 * 1024
  const MAX_RATIO: nat := 64

  type RequestNonce = n: bytes | |n| == 16 witness Zeros(16)

  const RESULT: byte := 4
  const EVENT_BATCH: byte := 5
  const ACK: byte := 6
  const ERROR: byte := 7
  const PING: byte := 8
  const PONG: byte := 9
  const STREAM_OPEN: byte := 14
  const STREAM_DATA: byte := 15
  const STREAM_END: byte := 16
  const STREAM_ABORT: byte := 17

  predicate ValidKind(kind: byte) {
    1 <= kind <= PONG || 11 <= kind <= STREAM_ABORT
  }

  datatype Frame = Frame(
    kind: byte, flags: byte, code: u16, id: u64, requestNonce: RequestNonce, deadline: u64, payload: bytes)

  /** The decompression libraries, called with an input and an output limit. */
  datatype Inflaters = Inflaters(deflate: (bytes, nat) -> Option<bytes>, zstd: (bytes, nat) -> Option<bytes>)

  /** The frames that `Frame::new` and `Frame::request` build. */
  predicate Legal(f: Frame) {
    ValidKind(f.kind) && f.flags == 0 && |f.payload| <= MAX_PAYLOAD
  }

  function Head(f: Frame): (h: bytes)
    requires |f.payload| <= U32_MAX
    ensures |h| == HEADER_LEN
  {
    [f.kind, f.flags] + ToBytes(f.code, 2) + ToBytes(f.id, 8) + f.requestNonce
    + ToBytes(f.deadline, 8) + ToBytes(|f.payload|, 4)
  }

  /** `Frame::encode`. */
  function Encode(f: Frame): Result<bytes> {
    if f.flags != 0 || |f.payload| > MAX_PAYLOAD then Err else Ok(Head(f) + f.payload)
  }

  /** The payload behind a header, decompressed as the flags say. */
  function Inflate(z: Inflaters, flags: byte, wire: bytes): Result<bytes> {
    var out :=
      if flags == 1 then z.deflate(wire, MAX_PAYLOAD)
      else if flags == 2 then (if wire == [] then None else z.zstd(wire, MAX_PAYLOAD))
      else Some(wire);
    match out
    case None => Err
    case Some(payload) =>
      if |payload| > MAX_PAYLOAD then Err
      else if flags != 0 && wire != [] && |payload| > |wire| * MAX_RATIO then Err
      else Ok(payload)
  }

  /** `Frame::decode_with_zstd`. */
  function Decode(z: Inflaters, input: bytes): Result<Frame> {
    if |input| < HEADER_LEN then Err else
      var kind, flags := input[0], input[1];
      if !ValidKind(kind) || flags > 2 then Err
      else if flags != 0 && kind != RESULT && kind != EVENT_BATCH then Err
      else
        var len := FromBytes(input[36..40]);
        if len > MAX_PAYLOAD || |input| != HEADER_LEN + len then Err else
          match Inflate(z, flags, input[HEADER_LEN..])
          case Err => Err
          case Ok(payload) =>
            BytesU64(input[4..12]); BytesU64(input[28..36]); Widths(); ToFromBytes(input[2..4]);
            Ok(Frame(kind, flags, FromBytes(input[2..4]), FromBytes(input[4..12]), input[12..28],
                     FromBytes(input[28..36]), payload))
  }

  /** Every legal frame survives the wire. */
  lemma DecodeOfEncode(z: Inflaters, f: Frame)
    requires Legal(f)
    ensures Encode(f).Ok? && Decode(z, Encode(f).value) == Ok(f)
  {
    var w := Head(f) + f.payload;
    assert w[2..4] == ToBytes(f.code, 2);
    assert w[4..12] == ToBytes(f.id, 8);
    assert w[12..28] == f.requestNonce;
    assert w[28..36] == ToBytes(f.deadline, 8);
    assert w[36..40] == ToBytes(|f.payload|, 4);
    assert w[HEADER_LEN..] == f.payload;
    Widths();
    FromToBytes(f.code, 2); U64Bytes(f.id); U64Bytes(f.deadline); U32Bytes(|f.payload|);
  }

  /** An uncompressed frame has one encoding: what decodes to it is what encodes it. */
  lemma EncodeOfDecode(z: Inflaters, w: bytes)
    requires Decode(z, w).Ok? && Decode(z, w).value.flags == 0
    ensures Legal(Decode(z, w).value) && Encode(Decode(z, w).value) == Ok(w)
  {
    ToFromBytes(w[2..4]); BytesU64(w[4..12]); BytesU64(w[28..36]); BytesU32(w[36..40]);
    assert w == [w[0], w[1]] + w[2..4] + w[4..12] + w[12..28] + w[28..36] + w[36..40] + w[40..];
  }

  /** The fields of a header, read off the wire without the codec. */
  predicate HeaderReads(w: bytes, f: Frame, wireLen: nat) {
    && |w| == 40 + wireLen && w[0] == f.kind && w[1] == f.flags && FromBytes(w[2..4]) == f.code
    && FromBytes(w[4..12]) == f.id && w[12..28] == f.requestNonce && FromBytes(w[28..36]) == f.deadline
    && FromBytes(w[36..40]) == wireLen
  }

  /** What the server may compress, and what comes out: the output of the library that the flag names. */
  function Unpacked(z: Inflaters, flags: byte, wire: bytes): Option<bytes> {
    if flags == 0 then Some(wire)
    else if flags == 1 then z.deflate(wire, 4194304)
    else if wire == [] then None
    else z.zstd(wire, 4194304)
  }

  /**
    A byte string decodes to a frame exactly when its header holds the frame's fields, the kind is
    known, compression is of a RESULT or an EVENT_BATCH only, and the payload is what the named
    library makes of the rest, at most 4 MiB and at most 64 times as long as it was on the wire.
  */
  lemma DecodesExactly(z: Inflaters, w: bytes, f: Frame)
    ensures Decode(z, w) == Ok(f) <==>
              && |w| >= 40 && |w| - 40 <= 4194304 && HeaderReads(w, f, |w| - 40)
              && (1 <= f.kind <= 9 || 11 <= f.kind <= 17) && f.flags <= 2
              && (f.flags != 0 ==> f.kind == 4 || f.kind == 5)
              && Unpacked(z, f.flags, w[40..]) == Option.Some(f.payload)
              && |f.payload| <= 4194304
              && (f.flags != 0 && w[40..] != [] ==> |f.payload| <= 64 * |w[40..]|)
  {
    hide FromBytes;
  }

  /** Encoding puts a frame's fields where decoding looks for them, and its payload behind. */
  lemma EncodesExactly(f: Frame, w: bytes)
    ensures Encode(f) == Ok(w) <==>
              f.flags == 0 && |f.payload| <= 4194304 && HeaderReads(w, f, |f.payload|) && w[40..] == f.payload
  {
    hide ToBytes, FromBytes;
    if f.flags == 0 && |f.payload| <= 4194304 {
      HeadIs(f);
      if w == Head(f) + f.payload {
        FieldsOfPrefix(w);
        assert w[..40] == Head(f) && w[40..] == f.payload;
      }
      if HeaderReads(w, f, |f.payload|) && w[40..] == f.payload {
        FieldsOfPrefix(w);
        HeadIsUnique(w[..40], f);
        assert w[..40] + w[40..] == w;
      }
    }
  }

  lemma FieldsOfPrefix(w: bytes)
    requires |w| >= 40
    ensures w[..40][2..4] == w[2..4] && w[..40][4..12] == w[4..12] && w[..40][12..28] == w[12..28]
    ensures w[..40][28..36] == w[28..36] && w[..40][36..40] == w[36..40]
  {
  }

  lemma HeadSlices(f: Frame)
    requires |f.payload| <= U32_MAX
    ensures var h := Head(f);
            && h[0] == f.kind && h[1] == f.flags && h[2..4] == ToBytes(f.code, 2) && h[4..12] == ToBytes(f.id, 8)
            && h[12..28] == f.requestNonce && h[28..36] == ToBytes(f.deadline, 8) && h[36..40] == ToBytes(|f.payload|, 4)
  {
    hide ToBytes;
    var front := [f.kind, f.flags] + ToBytes(f.code, 2) + ToBytes(f.id, 8) + f.requestNonce;
    var h := Head(f);
    assert h == front + ToBytes(f.deadline, 8) + ToBytes(|f.payload|, 4);
    assert front[2..4] == ToBytes(f.code, 2) && front[4..12] == ToBytes(f.id, 8) && front[12..28] == f.requestNonce;
    assert h[..28] == front;
    assert h[2..4] == h[..28][2..4] && h[4..12] == h[..28][4..12] && h[12..28] == h[..28][12..28];
    assert h[28..36] == ToBytes(f.deadline, 8);
    assert h[36..40] == ToBytes(|f.payload|, 4);
  }

  lemma HeadIs(f: Frame)
    requires |f.payload| <= U32_MAX
    ensures var h := Head(f);
            && h[0] == f.kind && h[1] == f.flags && FromBytes(h[2..4]) == f.code && FromBytes(h[4..12]) == f.id
            && h[12..28] == f.requestNonce && FromBytes(h[28..36]) == f.deadline && FromBytes(h[36..40]) == |f.payload|
  {
    hide ToBytes, FromBytes, Head;
    HeadSlices(f);
    Widths();
    FromToBytes(f.code, 2); U64Bytes(f.id); U64Bytes(f.deadline); U32Bytes(|f.payload|);
  }

  lemma HeadIsUnique(h: bytes, f: Frame)
    requires |h| == 40 && |f.payload| <= U32_MAX
    requires h[0] == f.kind && h[1] == f.flags && FromBytes(h[2..4]) == f.code && FromBytes(h[4..12]) == f.id
    requires h[12..28] == f.requestNonce && FromBytes(h[28..36]) == f.deadline && FromBytes(h[36..40]) == |f.payload|
    ensures h == Head(f)
  {
    hide ToBytes, FromBytes;
    ToFromBytes(h[2..4]); BytesU64(h[4..12]); BytesU64(h[28..36]); BytesU32(h[36..40]);
    assert h == [h[0], h[1]] + h[2..4] + h[4..12] + h[12..28] + h[28..36] + h[36..40];
  }
}
