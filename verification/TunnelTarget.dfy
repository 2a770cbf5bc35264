/** The GET target of the HTTP tunnel: base64url (section 5 of RFC 4648) and the permuted route. */
module TunnelTarget {
  import opened Bytes

  const MAX_GET_TARGET: nat := 23 * 1024
  const UPLOAD_CHUNK: nat := (MAX_GET_TARGET - 4) / 4 * 3 - 8

  type sextet = x: int | 0 <= x < 64

  function Symbol(v: sextet): char {
    if v < 26 then ('A' as int + v) as char
    else if v < 52 then ('a' as int + v - 26) as char
    else if v < 62 then ('0' as int + v - 52) as char
    else if v == 62 then '-' else '_'
  }

  /** `base64_value`: both alphabets are read. */
  function Value(c: char): Result<sextet> {
    if 'A' <= c <= 'Z' then Ok(c as int - 'A' as int)
    else if 'a' <= c <= 'z' then Ok(c as int - 'a' as int + 26)
    else if '0' <= c <= '9' then Ok(c as int - '0' as int + 52)
    else if c == '+' || c == '-' then Ok(62)
    else if c == '/' || c == '_' then Ok(63)
    else Err
  }

  predicate Whitespace(c: char) {
    c == ' ' || c == '\t' || c == '\n' || c == '\r' || c as int == 12
  }

  lemma SymbolValue(v: sextet)
    ensures Value(Symbol(v)) == Ok(v) && !Whitespace(Symbol(v)) && Symbol(v) != '='
  {
  }

  // Encoding.

  /** The four six-bit values of three bytes. */
  function Sextet1(x: byte): sextet { x / 4 }

  function Sextet2(x: byte, y: byte): sextet { (x % 4) as int * 16 + y / 16 }

  function Sextet3(y: byte, z: byte): sextet { (y % 16) as int * 4 + z / 64 }

  function Sextet4(z: byte): sextet { z % 64 }

  function Text(x: byte, y: byte, z: byte): (s: string)
    ensures |s| == 4
  {
    [Symbol(Sextet1(x)), Symbol(Sextet2(x, y)), Symbol(Sextet3(y, z)), Symbol(Sextet4(z))]
  }

  /** The characters of one group of one to three bytes; missing bytes count as zero. */
  function EncodeGroup(chunk: bytes): (s: string)
    requires 1 <= |chunk| <= 3
    ensures |s| == |chunk| + 1
  {
    var y := if |chunk| > 1 then chunk[1] else 0;
    var z := if |chunk| > 2 then chunk[2] else 0;
    Text(chunk[0], y, z)[..|chunk| + 1]
  }

  /** Base64url without padding. */
  function Base64(input: bytes): string {
    if input == [] then "" else
      var n := Min(|input|, 3);
      EncodeGroup(input[..n]) + Base64(input[n..])
  }

  lemma Base64Step(input: bytes, n: nat)
    requires input != [] && n == Min(|input|, 3)
    ensures Base64(input) == EncodeGroup(input[..n]) + Base64(input[n..])
  {
  }

  lemma NoGroups()
    ensures Base64([]) == ""
  {
  }

  lemma {:induction false} Base64Length(input: bytes)
    ensures |Base64(input)| == (4 * |input| + 2) / 3
  {
    if input != [] {
      Base64Length(input[Min(|input|, 3)..]);
    }
  }

  // Decoding.

  /** The bytes behind four six-bit values. */
  function Byte1(a: int, b: int): (x: byte)
    requires 0 <= a < 64 && 0 <= b < 64
  {
    a * 4 + b / 16
  }

  function Byte2(b: int, c: int): (y: byte)
    requires 0 <= b < 64 && 0 <= c < 64
  {
    b % 16 * 16 + c / 4
  }

  function Byte3(c: int, d: int): (z: byte)
    requires 0 <= c < 64 && 0 <= d < 64
  {
    c % 4 * 64 + d
  }

  function Clean(s: string): string {
    if s == "" then "" else (if Whitespace(s[0]) then "" else [s[0]]) + Clean(s[1..])
  }

  /** Four characters to one to three bytes; padding may only end a group. */
  function DecodeGroup(g: string): Result<bytes>
    requires |g| == 4
  {
    var cPad, dPad := g[2] == '=', g[3] == '=';
    var a, b := Value(g[0]), Value(g[1]);
    var c := if cPad then Ok(0) else Value(g[2]);
    var d := if dPad then Ok(0) else Value(g[3]);
    if a.Err? || b.Err? || (cPad && !dPad) || c.Err? || d.Err? then Err else
      Ok([Byte1(a.value, b.value)]
         + (if cPad then [] else [Byte2(b.value, c.value)])
         + (if dPad then [] else [Byte3(c.value, d.value)]))
  }

  function DecodeGroups(s: string): Result<bytes>
    requires |s| % 4 == 0
  {
    if s == "" then Ok([]) else
      match DecodeGroup(s[..4])
      case Err => Err
      case Ok(first) =>
        match DecodeGroups(s[4..])
        case Err => Err
        case Ok(rest) => Ok(first + rest)
  }

  function Padded(s: string): (p: string)
    requires |s| % 4 != 1
    ensures |p| % 4 == 0 && (2 <= |s| <= 4 ==> |p| == 4)
  {
    var residue := |s| % 4;
    if residue == 2 then s + ['=', '='] else if residue == 3 then s + ['='] else s
  }

  lemma PaddedShort(s: string)
    requires 2 <= |s| <= 4
    ensures Padded(s) == s + (if |s| == 2 then ['=', '='] else if |s| == 3 then ['='] else [])
  {
    assert |s| == 2 || |s| == 3 || |s| == 4;
  }

  /** `decode_base64`. */
  function Decode(s: string): Result<bytes> {
    var clean := Clean(s);
    if clean == "" || |clean| % 4 == 1 then Err else DecodeGroups(Padded(clean))
  }

  lemma SextetsBack(x: byte, y: byte, z: byte)
    ensures Byte1(Sextet1(x), Sextet2(x, y)) == x
    ensures Byte2(Sextet2(x, y), Sextet3(y, z)) == y
    ensures Byte3(Sextet3(y, z), Sextet4(z)) == z
  {
  }

  lemma DecodeText(x: byte, y: byte, z: byte)
    ensures var t := Text(x, y, z);
            && DecodeGroup(t) == Ok([x, y, z])
            && (z == 0 ==> DecodeGroup(t[..3] + ['=']) == Ok([x, y]))
            && (y == 0 ==> DecodeGroup(t[..2] + ['=', '=']) == Ok([x]))
  {
    hide Symbol, Value, Whitespace, Byte1, Byte2, Byte3, Sextet1, Sextet2, Sextet3, Sextet4;
    SextetsBack(x, y, z);
    SymbolValue(Sextet1(x)); SymbolValue(Sextet2(x, y)); SymbolValue(Sextet3(y, z)); SymbolValue(Sextet4(z));
    assert [x] + [y] + [z] == [x, y, z] && [x] + [y] + [] == [x, y] && [x] + [] + [] == [x];
  }

  lemma DecodeOne(x: byte)
    ensures DecodeGroup(Padded(EncodeGroup([x]))) == Ok([x])
  {
    hide DecodeGroup, Padded, Text;
    PaddedShort(EncodeGroup([x]));
    DecodeText(x, 0, 0);
  }

  lemma DecodeTwo(x: byte, y: byte)
    ensures DecodeGroup(Padded(EncodeGroup([x, y]))) == Ok([x, y])
  {
    hide DecodeGroup, Padded, Text;
    PaddedShort(EncodeGroup([x, y]));
    DecodeText(x, y, 0);
  }

  lemma DecodeThree(x: byte, y: byte, z: byte)
    ensures DecodeGroup(Padded(EncodeGroup([x, y, z]))) == Ok([x, y, z])
  {
    hide DecodeGroup, Padded, Text;
    PaddedShort(EncodeGroup([x, y, z]));
    DecodeText(x, y, z);
    assert Text(x, y, z)[..4] + [] == Text(x, y, z);
  }

  lemma DecodeGroupOfEncodeGroup(chunk: bytes)
    requires 1 <= |chunk| <= 3
    ensures DecodeGroup(Padded(EncodeGroup(chunk))) == Ok(chunk)
  {
    hide DecodeGroup, Padded, EncodeGroup;
    if |chunk| == 1 {
      DecodeOne(chunk[0]);
      assert chunk == [chunk[0]];
    } else if |chunk| == 2 {
      DecodeTwo(chunk[0], chunk[1]);
      assert chunk == [chunk[0], chunk[1]];
    } else {
      DecodeThree(chunk[0], chunk[1], chunk[2]);
      assert chunk == [chunk[0], chunk[1], chunk[2]];
    }
  }

  lemma DecodeGroupsStep(g: string, rest: string, first: bytes, more: bytes)
    requires |g| == 4 && |rest| % 4 == 0
    requires DecodeGroup(g) == Ok(first) && DecodeGroups(rest) == Ok(more)
    ensures DecodeGroups(g + rest) == Ok(first + more)
  {
    hide DecodeGroup;
    assert (g + rest)[..4] == g && (g + rest)[4..] == rest;
  }

  lemma EmptyGroups()
    ensures DecodeGroups("") == Ok([])
  {
  }

  lemma PaddedAfterGroup(g: string, rest: string)
    requires |g| == 4 && |rest| % 4 != 1
    ensures Padded(g + rest) == g + Padded(rest)
  {
  }

  lemma {:induction false} DecodeGroupsOfBase64(input: bytes)
    ensures |Base64(input)| % 4 != 1 && DecodeGroups(Padded(Base64(input))) == Ok(input)
  {
    hide EncodeGroup, DecodeGroup, DecodeGroups;
    Base64Length(input);
    if input == [] {
      EmptyGroups();
    } else {
      var n := Min(|input|, 3);
      var first, rest := EncodeGroup(input[..n]), Base64(input[n..]);
      assert Base64(input) == first + rest;
      DecodeGroupOfEncodeGroup(input[..n]);
      DecodeGroupsOfBase64(input[n..]);
      hide Base64;
      assert input == input[..n] + input[n..];
      if n == 3 {
        PaddedAfterGroup(first, rest);
        DecodeGroupsStep(first, Padded(rest), input[..n], input[n..]);
      } else {
        assert input[n..] == [] && rest == "" by {
          Base64Length([]);
        }
        assert first + rest == first && Padded(first) + "" == Padded(first);
        EmptyGroups();
        DecodeGroupsStep(Padded(first), "", input[..n], []);
      }
    }
  }

  predicate NoWhitespace(s: string) {
    forall i :: 0 <= i < |s| ==> !Whitespace(s[i])
  }

  lemma {:induction false} CleanOfClean(s: string)
    requires NoWhitespace(s)
    ensures Clean(s) == s
  {
    if s != "" {
      CleanOfClean(s[1..]);
    }
  }

  lemma TextHasNoWhitespace(x: byte, y: byte, z: byte)
    ensures NoWhitespace(Text(x, y, z))
  {
    hide Symbol, Whitespace, Sextet1, Sextet2, Sextet3, Sextet4;
    SymbolValue(Sextet1(x)); SymbolValue(Sextet2(x, y)); SymbolValue(Sextet3(y, z)); SymbolValue(Sextet4(z));
  }

  lemma {:induction false} Base64HasNoWhitespace(input: bytes)
    ensures NoWhitespace(Base64(input))
  {
    hide Text, Whitespace;
    if input != [] {
      var n := Min(|input|, 3);
      Base64HasNoWhitespace(input[n..]);
      Base64Step(input, n);
      TextHasNoWhitespace(input[0], if n > 1 then input[1] else 0, if n > 2 then input[2] else 0);
    }
  }

  /** Decoding undoes encoding on every input but the empty one, which the decoder refuses. */
  lemma DecodeOfBase64(input: bytes)
    ensures Decode(Base64(input)) == if input == [] then Err else Ok(input)
  {
    Base64HasNoWhitespace(input);
    CleanOfClean(Base64(input));
    DecodeGroupsOfBase64(input);
    Base64Length(input);
  }

  // The target.

  datatype Destination = Destination(port: u16, ip: (byte, byte, byte, byte))

  function Logical(d: Destination, reserved: u16): (l: bytes)
    ensures |l| == 8
  {
    [d.port / 256, d.port % 256, d.ip.0, d.ip.1, d.ip.2, d.ip.3, reserved / 256, reserved % 256]
  }

  /** Wire positions hold logical bytes 1, 8, 4, 6, 2, 7, 5, 3. */
  function Permuted(l: bytes): (w: bytes)
    requires |l| == 8
    ensures |w| == 8
  {
    [l[0], l[7], l[3], l[5], l[1], l[6], l[4], l[2]]
  }

  /** The router's reading of a packet: its destination, reserved field and payload. */
  function Route(w: bytes): (Destination, u16)
    requires |w| >= 8
  {
    (Destination(Word(w[0], w[4]), (w[7], w[2], w[6], w[3])), Word(w[5], w[1]))
  }

  function Word(high: int, low: int): u16
    requires 0 <= high < 256 && 0 <= low < 256
  {
    high * 256 + low
  }

  /** `get_target`. */
  function GetTarget(destination: Option<Destination>, payload: bytes): string {
    match destination
    case Some(d) => "/?r=" + Base64(Permuted(Logical(d, 0)) + payload)
    case None => if payload == [] then "/" else "/?r=" + Base64(payload)
  }

  lemma PermutedIs(d: Destination, reserved: u16)
    ensures Permuted(Logical(d, reserved))
         == [d.port / 256, reserved % 256, d.ip.1, d.ip.3, d.port % 256, reserved / 256, d.ip.2, d.ip.0]
  {
  }

  lemma RouteBack(d: Destination, reserved: u16, payload: bytes)
    ensures Route(Permuted(Logical(d, reserved)) + payload) == (d, reserved)
  {
  }

  /**
    The text behind `/?r=` gives back destination and payload, and the target fits the CDN's limit
    if and only if the payload is at most one upload chunk.
  */
  lemma TargetRoundTrip(d: Destination, payload: bytes)
    ensures var target := GetTarget(Some(d), payload);
            var packet := Decode(target[4..]);
            && packet.Ok? && |packet.value| >= 8
            && Route(packet.value) == (d, 0) && packet.value[8..] == payload
            && (|target| <= 23552 <==> |payload| <= 17653)
            && UPLOAD_CHUNK == 17653 && target[..4] == "/?r="
            && packet.value[..8] == [d.port / 256, 0, d.ip.1, d.ip.3, d.port % 256, 0, d.ip.2, d.ip.0]
  {
    hide Base64, Decode, Route, Permuted, Logical;
    var packet := Permuted(Logical(d, 0)) + payload;
    assert GetTarget(Some(d), payload)[4..] == Base64(packet);
    DecodeOfBase64(packet);
    Base64Length(packet);
    RouteBack(d, 0, payload);
    PermutedIs(d, 0);
    assert packet[8..] == payload && packet[..8] == Permuted(Logical(d, 0));
  }

  /** Without a destination the target is the bare path, or carries the payload alone. */
  lemma PlainTargetRoundTrip(payload: bytes)
    ensures var target := GetTarget(None, payload);
            if payload == [] then target == "/"
            else |target| >= 4 && target[..4] == "/?r=" && Decode(target[4..]) == Ok(payload)
  {
    hide Base64, Decode;
    DecodeOfBase64(payload);
    if payload != [] {
      assert GetTarget(None, payload)[4..] == Base64(payload);
    }
  }

  /** The URL-safe alphabet of section 5 of RFC 4648, by ASCII code: letters, digits, hyphen, underscore. */
  function Code(v: sextet): nat {
    if v < 26 then 65 + v else if v < 52 then 97 + v - 26 else if v < 62 then 48 + v - 52 else if v == 62 then 45 else 95
  }

  lemma SymbolIs(v: sextet)
    ensures Symbol(v) as int == Code(v)
  {
  }

  /** Character `k` of the text stands for bits 6k to 6k + 5 of the input, followed by zeros. */
  lemma {:induction false} Base64At(input: bytes, k: nat)
    requires k < |Base64(input)|
    ensures var at := k / 4 * 3;
            && at < |input|
            && Base64(input)[k] as int
            == Code(BitsAt(ByteAt(input, at), ByteAt(input, at + 1), ByteAt(input, at + 2), k % 4))
    decreases k
  {
    hide Base64, Symbol, Code, BitsAt, Text;
    NoGroups();
    assert input != [];
    var n := Min(|input|, 3);
    Base64Step(input, n);
    var first, rest := EncodeGroup(input[..n]), Base64(input[n..]);
    if n < 3 {
      assert input[n..] == [];
    }
    if k < |first| {
      TextAt(input[0], ByteAt(input, 1), ByteAt(input, 2), k);
    } else {
      Base64At(input[n..], k - 4);
      GroupsBefore(k);
      ShiftedBy3(input, k / 4 * 3);
    }
  }

  lemma GroupsBefore(k: nat)
    requires k >= 4
    ensures (k - 4) / 4 * 3 == k / 4 * 3 - 3 && (k - 4) % 4 == k % 4 && k / 4 * 3 >= 3
  {
  }

  function ByteAt(input: bytes, i: nat): byte { if i < |input| then input[i] else 0 }

  /** Six bits of three bytes, most significant first: those from bit 6j. */
  function BitsAt(x: int, y: int, z: int, j: nat): sextet
    requires 0 <= x < 256 && 0 <= y < 256 && 0 <= z < 256 && j < 4
  {
    var bits := x * 65536 + y * 256 + z;
    if j == 0 then bits / 262144 else if j == 1 then bits / 4096 % 64 else if j == 2 then bits / 64 % 64 else bits % 64
  }

  lemma ShiftedBy3(input: bytes, at: nat)
    requires |input| >= 3 && at >= 3
    ensures ByteAt(input[3..], at - 3) == ByteAt(input, at)
    ensures ByteAt(input[3..], at - 2) == ByteAt(input, at + 1)
    ensures ByteAt(input[3..], at - 1) == ByteAt(input, at + 2)
  {
  }

  lemma TextAt(x: byte, y: byte, z: byte, j: nat)
    requires j < 4
    ensures Text(x, y, z)[j] as int == Code(BitsAt(x, y, z, j))
  {
    hide BitsAt, Code;
    SextetsAre(x, y, z);
    SymbolIs(Sextet1(x)); SymbolIs(Sextet2(x, y)); SymbolIs(Sextet3(y, z)); SymbolIs(Sextet4(z));
    hide Symbol, Sextet1, Sextet2, Sextet3, Sextet4;
  }

  lemma SextetsAre(x: byte, y: byte, z: byte)
    ensures Sextet1(x) == BitsAt(x, y, z, 0) && Sextet2(x, y) == BitsAt(x, y, z, 1)
    ensures Sextet3(y, z) == BitsAt(x, y, z, 2) && Sextet4(z) == BitsAt(x, y, z, 3)
  {
    hide Sextet1, Sextet2, Sextet3, Sextet4;
    FirstSextet(x, y, z);
    SecondSextet(x, y, z);
    ThirdSextet(x, y, z);
    FourthSextet(x, y, z);
  }

  lemma FirstSextet(x: byte, y: byte, z: byte)
    ensures Sextet1(x) == (x as int * 65536 + y as int * 256 + z) / 262144
  {
    assert x as int == x / 4 * 4 + x % 4;
  }

  lemma SecondSextet(x: byte, y: byte, z: byte)
    ensures Sextet2(x, y) == (x as int * 65536 + y as int * 256 + z) / 4096 % 64
  {
    assert x as int == x / 4 * 4 + x % 4 && y as int == y / 16 * 16 + y % 16;
    var upper: int := x as int * 16 + y / 16;
    assert (x as int * 65536 + y as int * 256 + z) / 4096 == upper;
    assert upper == (x / 4) as int * 64 + ((x % 4) as int * 16 + y / 16);
  }

  lemma ThirdSextet(x: byte, y: byte, z: byte)
    ensures Sextet3(y, z) == (x as int * 65536 + y as int * 256 + z) / 64 % 64
  {
    assert y as int == y / 16 * 16 + y % 16 && z as int == z / 64 * 64 + z % 64;
    var upper: int := x as int * 1024 + y as int * 4 + z / 64;
    assert (x as int * 65536 + y as int * 256 + z) / 64 == upper;
    assert upper == (x as int * 16 + y / 16) * 64 + ((y % 16) as int * 4 + z / 64);
  }

  lemma FourthSextet(x: byte, y: byte, z: byte)
    ensures Sextet4(z) == (x as int * 65536 + y as int * 256 + z) % 64
  {
    assert x as int * 65536 + y as int * 256 + z == (x as int * 1024 + y as int * 4) * 64 + z;
  }

  /** The decoder also takes padded text, and text with whitespace anywhere in it. */
  lemma DecodeIsTolerant(input: bytes, s: string)
    requires input != []
    ensures |Base64(input)| % 4 != 1 && Decode(Padded(Base64(input))) == Ok(input)
    ensures Clean(s) == Base64(input) ==> Decode(s) == Ok(input)
  {
    hide DecodeGroups, Base64;
    Base64Length(input);
    var text := Base64(input);
    Base64HasNoWhitespace(input);
    DecodeGroupsOfBase64(input);
    PaddedIsClean(text);
    CleanOfClean(Padded(text));
    PaddedTwice(text);
  }

  lemma PaddedIsClean(s: string)
    requires NoWhitespace(s) && |s| % 4 != 1
    ensures NoWhitespace(Padded(s))
  {
  }

  lemma PaddedTwice(s: string)
    requires |s| % 4 != 1
    ensures Padded(Padded(s)) == Padded(s) && |Padded(s)| >= |s|
  {
  }

  // The browser's target.

  /** `encode_route`. */
  function EncodeRoute(d: Destination, reserved: u16): string {
    Base64(Permuted(Logical(d, reserved)))
  }

  /** The library's strict decoder: it takes exactly the canonical text of some bytes. */
  function StrictDecode(s: string): Result<bytes> {
    if |s| % 4 == 1 then Err else
      match DecodeGroups(Padded(s))
      case Err => Err
      case Ok(b) => if Base64(b) == s then Ok(b) else Err
  }

  /** The selector of a route gives back destination and reserved field. */
  lemma RouteRoundTrip(d: Destination, reserved: u16)
    ensures var packet := Decode(EncodeRoute(d, reserved));
            && packet.Ok? && |packet.value| == 8 && Route(packet.value) == (d, reserved)
            && packet.value == [d.port / 256, reserved % 256, d.ip.1, d.ip.3, d.port % 256, reserved / 256, d.ip.2, d.ip.0]
  {
    hide Base64, Decode, Route, Permuted, Logical;
    var packet := Permuted(Logical(d, reserved));
    DecodeOfBase64(packet);
    RouteBack(d, reserved, []);
    PermutedIs(d, reserved);
    assert packet + [] == packet;
  }

  /** The strict decoder takes a text as bytes exactly when it is their text. */
  lemma StrictDecodesExactly(s: string, b: bytes)
    ensures StrictDecode(s) == Ok(b) <==> s == Base64(b)
  {
    hide Base64, DecodeGroups, Padded;
    if s == Base64(b) {
      DecodeGroupsOfBase64(b);
    }
  }

  /** The target that `M5ohFetch::fetch` appends to its endpoint. */
  function FetchTarget(route: string, record: Option<bytes>): Result<string> {
    match record
    case None => Ok("/?r=" + route)
    case Some(r) =>
      match StrictDecode(route)
      case Err => Err
      case Ok(packet) => Ok("/?r=" + Base64(packet + r))
  }

  /** With the selector of a destination, the browser asks for the native client's targets. */
  lemma BrowserTargetIsNative(d: Destination, record: Option<bytes>)
    ensures FetchTarget(EncodeRoute(d, 0), record)
         == Ok(GetTarget(Some(d), if record.Some? then record.value else []))
  {
    var packet := Permuted(Logical(d, 0));
    DecodeGroupsOfBase64(packet);
    assert packet + [] == packet;
  }

  // The two loops.

  /** `base64url_no_pad`. */
  method Base64UrlNoPad(input: bytes) returns (output: string)
    ensures output == Base64(input)
  {
    hide EncodeGroup, Base64;
    NoGroups();
    output := "";
    assert output + Base64(input) == Base64(input) && input[0..] == input;
    var i := 0;
    while i < |input|
      invariant 0 <= i <= |input|
      invariant output + Base64(input[i..]) == Base64(input)
    {
      var n := Min(|input| - i, 3);
      var text := EncodeChunk(input[i..i + n]);
      Base64Step(input[i..], n);
      assert input[i..][..n] == input[i..i + n] && input[i..][n..] == input[i + n..];
      assert output + (text + Base64(input[i + n..])) == output + text + Base64(input[i + n..]);
      output := output + text;
      i := i + n;
    }
    assert input[i..] == [];
    assert output + "" == output;
  }

  /** The body of its loop. */
  method EncodeChunk(chunk: bytes) returns (output: string)
    requires 1 <= |chunk| <= 3
    ensures output == EncodeGroup(chunk)
  {
    hide Symbol;
    var first := chunk[0];
    var second := if |chunk| > 1 then chunk[1] else 0;
    var third := if |chunk| > 2 then chunk[2] else 0;
    output := [Symbol(first / 4)];
    output := output + [Symbol(Sextet2(first, second))];
    if |chunk| > 1 {
      output := output + [Symbol(Sextet3(second, third))];
    }
    if |chunk| > 2 {
      output := output + [Symbol(third % 64)];
    }
  }

  /** `decode_base64`. */
  method DecodeBase64(s: string) returns (r: Result<bytes>)
    ensures r == Decode(s)
  {
    hide Clean, Padded, DecodeGroups;
    var clean := Strip(s);
    if clean == "" || |clean| % 4 == 1 {
      return Err;
    }
    var padded := Pad(clean);
    r := DecodeAll(padded);
  }

  lemma CleanStep(s: string, i: nat)
    requires i < |s|
    ensures Clean(s[i..]) == (if Whitespace(s[i]) then "" else [s[i]]) + Clean(s[i + 1..])
  {
    assert s[i..][1..] == s[i + 1..];
  }

  lemma NothingToClean()
    ensures Clean("") == ""
  {
  }

  /** The loop that drops whitespace. */
  method Strip(s: string) returns (clean: string)
    ensures clean == Clean(s)
  {
    hide Whitespace, Clean;
    NothingToClean();
    clean := "";
    var i := 0;
    assert s[0..] == s && "" + Clean(s) == Clean(s);
    while i < |s|
      invariant 0 <= i <= |s|
      invariant clean + Clean(s[i..]) == Clean(s)
    {
      CleanStep(s, i);
      ghost var rest := Clean(s[i + 1..]);
      assert clean + ("" + rest) == clean + rest && clean + ([s[i]] + rest) == clean + [s[i]] + rest;
      if !Whitespace(s[i]) {
        clean := clean + [s[i]];
      }
      i := i + 1;
    }
    assert s[i..] == "" && clean + "" == clean;
  }

  method Pad(clean: string) returns (padded: string)
    requires |clean| % 4 != 1
    ensures padded == Padded(clean)
  {
    padded := clean;
    while |padded| % 4 != 0
      invariant |padded| % 4 == 0 ==> padded == Padded(clean)
      invariant |padded| % 4 != 0 ==> padded == clean || (|clean| % 4 == 2 && padded == clean + "=")
      decreases (4 - |padded| % 4) % 4
    {
      padded := padded + "=";
    }
  }

  /** The loop over the groups of four. */
  method DecodeAll(s: string) returns (r: Result<bytes>)
    requires |s| % 4 == 0
    ensures r == DecodeGroups(s)
  {
    hide DecodeGroup;
    var out: bytes := [];
    var i := 0;
    ghost var whole := DecodeGroups(s);
    assert s[0..] == s && (whole.Ok? ==> [] + whole.value == whole.value);
    while i < |s|
      invariant 0 <= i <= |s| && i % 4 == 0
      invariant DecodeGroups(s) == (match DecodeGroups(s[i..])
                                    case Err => Err
                                    case Ok(rest) => Ok(out + rest))
    {
      assert s[i..][..4] == s[i..i + 4] && s[i..][4..] == s[i + 4..];
      var group := DecodeGroup(s[i..i + 4]);
      if group.Err? {
        return Err;
      }
      ghost var rest := DecodeGroups(s[i + 4..]);
      assert rest.Ok? ==> out + (group.value + rest.value) == out + group.value + rest.value;
      out := out + group.value;
      i := i + 4;
    }
    assert out + [] == out;
    r := Ok(out);
  }
}
