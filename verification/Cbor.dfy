/** The CBOR subset of `src/lib.rs` (RFC 8949, section 3): values, the encoder and the decoder's meaning. */
module Cbor {
  import opened Bytes

  const I64_MIN: int := -0x8000_0000_0000_0000
  const I64_MAX: int := 0x7fff_ffff_ffff_ffff
  const MAX_DEPTH: nat := 64
  const MAX_ENTRIES: nat := 4 * 1024 * 1024

  type i64 = x: int | I64_MIN <= x <= I64_MAX

  /** The hardware conversion of an `f32` to an `f64`, both given by their bits. */
  type Widen = u32 -> u64

  predicate Tail(b: byte) { 0x80 <= b <= 0xbf }

  /** Well-formed UTF-8, as `str::from_utf8` demands. */
  predicate ValidUtf8(s: bytes) {
    if s == [] then true
    else if s[0] < 0x80 then ValidUtf8(s[1..])
    else if |s| >= 2 && 0xc2 <= s[0] <= 0xdf then Tail(s[1]) && ValidUtf8(s[2..])
    else if |s| >= 3 && 0xe0 <= s[0] <= 0xef then
      && Tail(s[1]) && Tail(s[2])
      && (s[0] == 0xe0 ==> s[1] >= 0xa0) && (s[0] == 0xed ==> s[1] <= 0x9f)
      && ValidUtf8(s[3..])
    else
      && |s| >= 4 && 0xf0 <= s[0] <= 0xf4
      && Tail(s[1]) && Tail(s[2]) && Tail(s[3])
      && (s[0] == 0xf0 ==> s[1] >= 0x90) && (s[0] == 0xf4 ==> s[1] <= 0x8f)
      && ValidUtf8(s[4..])
  }

  type Utf8 = s: bytes | ValidUtf8(s)

  datatype Value =
    | Null
    | Bool(truth: bool)
    | Unsigned(n: u64)
    | Integer(i: i64)
    | Float(bits: u64)
    | Bytes(data: bytes)
    | Text(text: Utf8)
    | Array(items: seq<Value>)
    | Map(entries: seq<Entry>)

  datatype Entry = Entry(key: Utf8, value: Value)

  /** Every length fits the 64-bit argument of a head. */
  predicate Sized(v: Value) {
    match v
    case Bytes(data) => |data| <= U64_MAX
    case Text(text) => |text| <= U64_MAX
    case Array(items) => |items| <= U64_MAX && forall x :: x in items ==> Sized(x)
    case Map(entries) =>
      |entries| <= U64_MAX && forall e :: e in entries ==> |e.key| <= U64_MAX && Sized(e.value)
    case _ => true
  }

  function Head(major: nat, n: u64): (h: bytes)
    requires major < 8
    ensures |h| >= 1
  {
    if n < 24 then [major * 32 + n]
    else if n < 0x100 then [major * 32 + 24, n]
    else if n < 0x1_0000 then [major * 32 + 25] + ToBytes(n, 2)
    else if n < 0x1_0000_0000 then [major * 32 + 26] + ToBytes(n, 4)
    else [major * 32 + 27] + ToBytes(n, 8)
  }

  function Encode(v: Value): (out: bytes)
    requires Sized(v)
    decreases v, 0
  {
    match v
    case Null => [0xf6]
    case Bool(truth) => [if truth then 0xf5 else 0xf4]
    case Unsigned(n) => Head(0, n)
    case Integer(i) => if i >= 0 then Head(0, i) else Head(1, -1 - i)
    case Float(bits) => [0xfb] + ToBytes(bits, 8)
    case Bytes(data) => Head(2, |data|) + data
    case Text(text) => Head(3, |text|) + text
    case Array(items) => Head(4, |items|) + EncodeItems(items)
    case Map(entries) => Head(5, |entries|) + EncodeEntries(entries)
  }

  function EncodeItems(items: seq<Value>): bytes
    requires forall x :: x in items ==> Sized(x)
    decreases items, 1
  {
    if items == [] then [] else Encode(items[0]) + EncodeItems(items[1..])
  }

  function EncodeEntry(e: Entry): bytes
    requires |e.key| <= U64_MAX && Sized(e.value)
    decreases e, 1
  {
    Head(3, |e.key|) + e.key + Encode(e.value)
  }

  function EncodeEntries(entries: seq<Entry>): bytes
    requires forall e :: e in entries ==> |e.key| <= U64_MAX && Sized(e.value)
    decreases entries, 1
  {
    if entries == [] then [] else
      EncodeEntry(entries[0]) + EncodeEntries(entries[1..])
  }

  // The decoder, as a function of the bytes at the cursor.

  datatype Parsed<T> = Bad | Parsed(value: T, used: nat)

  function ReadArgument(s: bytes, info: nat): (r: Parsed<u64>)
    ensures r.Parsed? ==> r.used <= |s|
  {
    if info < 24 then Parsed(info, 0)
    else
      var k := if info == 24 then 1 else if info == 25 then 2 else if info == 26 then 4 else 8;
      if info > 27 || |s| < k then Bad else
        Widths(); ToFromBytes(s[..k]);
        Parsed(FromBytes(s[..k]), k)
  }

  function ReadSimple(widen: Widen, s: bytes, info: nat): (r: Parsed<Value>)
    ensures r.Parsed? ==> r.used <= |s|
  {
    if info == 20 then Parsed(Bool(false), 0)
    else if info == 21 then Parsed(Bool(true), 0)
    else if info == 22 then Parsed(Null, 0)
    else if info == 26 && |s| >= 4 then BytesU32(s[..4]); Parsed(Float(widen(FromBytes(s[..4]))), 4)
    else if info == 27 && |s| >= 8 then BytesU64(s[..8]); Parsed(Float(FromBytes(s[..8])), 8)
    else Bad
  }

  /** What follows a head of major type 0 to 3 with argument `n`. */
  function ReadScalar(major: nat, n: u64, s: bytes): (r: Parsed<Value>)
    ensures r.Parsed? ==> r.used <= |s|
  {
    if major == 0 then Parsed(Unsigned(n), 0)
    else if major == 1 then (if -1 - n < I64_MIN then Bad else Parsed(Integer(-1 - n), 0))
    else if n > |s| then Bad
    else if major == 2 then Parsed(Bytes(s[..n]), n)
    else if ValidUtf8(s[..n]) then Parsed(Text(s[..n]), n)
    else Bad
  }

  function Shift<T>(r: Parsed<T>, k: nat): Parsed<T> {
    match r
    case Bad => Bad
    case Parsed(v, used) => Parsed(v, k + used)
  }

  /** `CborDecoder::value`, with the cursor at the start of `s`. */
  function Read(widen: Widen, s: bytes, depth: nat): (r: Parsed<Value>)
    ensures r.Parsed? ==> 1 <= r.used <= |s|
    decreases |s|, 0, 0
  {
    if depth > MAX_DEPTH || s == [] then Bad else
      var major, info := s[0] / 32, s[0] % 32;
      if major == 7 then Shift(ReadSimple(widen, s[1..], info), 1)
      else if major == 6 then Bad
      else
        match ReadArgument(s[1..], info)
        case Bad => Bad
        case Parsed(n, k) => Shift(ReadBody(widen, major, n, s[1 + k..], depth), 1 + k)
  }

  /** What follows a head of major type 0 to 5 with argument `n`. */
  function ReadBody(widen: Widen, major: nat, n: u64, s: bytes, depth: nat): (r: Parsed<Value>)
    ensures r.Parsed? ==> r.used <= |s|
    decreases |s|, 2, 0
  {
    if major < 4 then ReadScalar(major, n, s)
    else if n > MAX_ENTRIES then Bad
    else if major == 4 then
      match ReadItems(widen, s, n, depth + 1)
      case Bad => Bad
      case Parsed(items, m) => Parsed(Array(items), m)
    else
      match ReadEntries(widen, s, n, depth + 1)
      case Bad => Bad
      case Parsed(entries, m) => Parsed(Map(entries), m)
  }

  function ReadItems(widen: Widen, s: bytes, n: nat, depth: nat): (r: Parsed<seq<Value>>)
    ensures r.Parsed? ==> r.used <= |s| && |r.value| == n
    decreases |s|, 1, n
  {
    if n == 0 then Parsed([], 0) else
      match Read(widen, s, depth)
      case Bad => Bad
      case Parsed(v, k) =>
        match ReadItems(widen, s[k..], n - 1, depth)
        case Bad => Bad
        case Parsed(rest, m) => Parsed([v] + rest, k + m)
  }

  function ReadEntries(widen: Widen, s: bytes, n: nat, depth: nat): (r: Parsed<seq<Entry>>)
    ensures r.Parsed? ==> r.used <= |s| && |r.value| == n
    decreases |s|, 1, n
  {
    if n == 0 then Parsed([], 0) else
      match ReadEntry(widen, s, depth)
      case Bad => Bad
      case Parsed(e, k) =>
        match ReadEntries(widen, s[k..], n - 1, depth)
        case Bad => Bad
        case Parsed(rest, m) => Parsed([e] + rest, k + m)
  }

  /** A key, which must be text, and its value. */
  function ReadEntry(widen: Widen, s: bytes, depth: nat): (r: Parsed<Entry>)
    ensures r.Parsed? ==> 2 <= r.used <= |s|
    decreases |s|, 1, 0
  {
    match Read(widen, s, depth)
    case Bad => Bad
    case Parsed(key, k) =>
      if !key.Text? then Bad else
        match Read(widen, s[k..], depth)
        case Bad => Bad
        case Parsed(v, m) => Parsed(Entry(key.text, v), k + m)
  }

  /** `Value::decode_cbor`. */
  function Decode(widen: Widen, input: bytes): Result<Value> {
    match Read(widen, input, 0)
    case Bad => Err
    case Parsed(v, used) => if used != |input| then Err else Ok(v)
  }
}
