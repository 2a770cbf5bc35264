/** What well-formed UTF-8 is (section 3 of RFC 3629): exactly the encodings of Unicode scalar values. */
module Utf8 {
  import opened Bytes
  import opened Cbor

  type Scalar = x: int | 0 <= x <= 0x10ffff && !(0xd800 <= x <= 0xdfff)

  function Low(x: nat): byte { 0x80 + x % 64 }

  function Unit(x: Scalar): (u: bytes)
    ensures 1 <= |u| <= 4
  {
    if x < 0x80 then [x]
    else if x < 0x800 then [0xc0 + x / 64, Low(x)]
    else if x < 0x1_0000 then [0xe0 + x / 4096, Low(x / 64), Low(x)]
    else [0xf0 + x / 262144, Low(x / 4096), Low(x / 64), Low(x)]
  }

  function Encoding(text: seq<Scalar>): bytes {
    if text == [] then [] else Unit(text[0]) + Encoding(text[1..])
  }

  lemma UnitLeads(x: Scalar, rest: bytes)
    ensures ValidUtf8(Unit(x) + rest) <==> ValidUtf8(rest)
  {
    var u, s := Unit(x), Unit(x) + rest;
    assert s[|u|..] == rest;
    UnitRange(x);
    assert forall i :: 0 <= i < |u| ==> s[i] == u[i];
    hide Unit;
    if |u| == 1 {
    } else if |u| == 2 {
    } else if |u| == 3 {
    } else {
    }
  }

  /** The ranges of the bytes of one scalar value. */
  lemma UnitRange(x: Scalar)
    ensures var u := Unit(x);
            && (|u| == 1 ==> u[0] < 0x80)
            && (|u| == 2 ==> 0xc2 <= u[0] <= 0xdf && Tail(u[1]))
            && (|u| == 3 ==>
                  && 0xe0 <= u[0] <= 0xef && Tail(u[1]) && Tail(u[2])
                  && (u[0] == 0xe0 ==> u[1] >= 0xa0) && (u[0] == 0xed ==> u[1] <= 0x9f))
            && (|u| == 4 ==>
                  && 0xf0 <= u[0] <= 0xf4 && Tail(u[1]) && Tail(u[2]) && Tail(u[3])
                  && (u[0] == 0xf0 ==> u[1] >= 0x90) && (u[0] == 0xf4 ==> u[1] <= 0x8f))
  {
    if x < 0x80 {
    } else if x < 0x800 {
    } else if x < 0x1_0000 {
      ThreeRange(x);
    } else {
      FourRange(x);
    }
  }

  lemma ThreeRange(x: Scalar)
    requires 0x800 <= x < 0x1_0000
    ensures 0 <= x / 4096 <= 15
    ensures x / 4096 == 0 ==> x / 64 % 64 >= 0x20
    ensures x / 4096 == 13 ==> x / 64 % 64 <= 0x1f
  {
  }

  lemma FourRange(x: Scalar)
    requires x >= 0x1_0000
    ensures 0 <= x / 262144 <= 4
    ensures x / 262144 == 0 ==> x / 4096 % 64 >= 0x10
    ensures x / 262144 == 4 ==> x / 4096 % 64 <= 0x0f
  {
  }

  lemma TwoBack(a: byte, b: byte)
    requires 0xc2 <= a <= 0xdf && Tail(b)
    ensures var x := (a as int - 0xc0) * 64 + b as int - 0x80;
            0x80 <= x < 0x800 && x / 64 == a - 0xc0 && x % 64 == b - 0x80
  {
  }

  lemma ThreeBack(a: byte, b: byte, c: byte)
    requires 0xe0 <= a <= 0xef && Tail(b) && Tail(c) && (a == 0xe0 ==> b >= 0xa0) && (a == 0xed ==> b <= 0x9f)
    ensures var x := (a as int - 0xe0) * 4096 + (b as int - 0x80) * 64 + c as int - 0x80;
            && 0x800 <= x < 0x1_0000 && !(0xd800 <= x <= 0xdfff)
            && x / 4096 == a - 0xe0 && x / 64 % 64 == b - 0x80 && x % 64 == c - 0x80
  {
    var x := (a as int - 0xe0) * 4096 + (b as int - 0x80) * 64 + c as int - 0x80;
    assert x / 64 == (a as int - 0xe0) * 64 + b as int - 0x80;
  }

  lemma FourBack(a: byte, b: byte, c: byte, d: byte)
    requires 0xf0 <= a <= 0xf4 && Tail(b) && Tail(c) && Tail(d) && (a == 0xf0 ==> b >= 0x90) && (a == 0xf4 ==> b <= 0x8f)
    ensures var x := (a as int - 0xf0) * 262144 + (b as int - 0x80) * 4096 + (c as int - 0x80) * 64 + d as int - 0x80;
            && 0x1_0000 <= x <= 0x10ffff && x / 262144 == a - 0xf0
            && x / 4096 % 64 == b - 0x80 && x / 64 % 64 == c - 0x80 && x % 64 == d - 0x80
  {
    var x := (a as int - 0xf0) * 262144 + (b as int - 0x80) * 4096 + (c as int - 0x80) * 64 + d as int - 0x80;
    assert x / 64 == (a as int - 0xf0) * 4096 + (b as int - 0x80) * 64 + c as int - 0x80;
    assert x / 4096 == (a as int - 0xf0) * 64 + b as int - 0x80;
  }

  lemma TwoUnit(a: byte, b: byte) returns (x: Scalar)
    requires 0xc2 <= a <= 0xdf && Tail(b)
    ensures Unit(x) == [a, b]
  {
    TwoBack(a, b);
    x := (a as int - 0xc0) * 64 + b as int - 0x80;
  }

  lemma ThreeUnit(a: byte, b: byte, c: byte) returns (x: Scalar)
    requires 0xe0 <= a <= 0xef && Tail(b) && Tail(c) && (a == 0xe0 ==> b >= 0xa0) && (a == 0xed ==> b <= 0x9f)
    ensures Unit(x) == [a, b, c]
  {
    ThreeBack(a, b, c);
    x := (a as int - 0xe0) * 4096 + (b as int - 0x80) * 64 + c as int - 0x80;
  }

  lemma FourUnit(a: byte, b: byte, c: byte, d: byte) returns (x: Scalar)
    requires 0xf0 <= a <= 0xf4 && Tail(b) && Tail(c) && Tail(d) && (a == 0xf0 ==> b >= 0x90) && (a == 0xf4 ==> b <= 0x8f)
    ensures Unit(x) == [a, b, c, d]
  {
    FourBack(a, b, c, d);
    x := (a as int - 0xf0) * 262144 + (b as int - 0x80) * 4096 + (c as int - 0x80) * 64 + d as int - 0x80;
  }

  lemma OneUnit(a: byte) returns (x: Scalar)
    requires a < 0x80
    ensures Unit(x) == [a]
  {
    x := a;
  }

  /** Well-formed bytes start with a scalar value. */
  lemma FirstScalar(s: bytes) returns (x: Scalar)
    requires s != [] && ValidUtf8(s)
    ensures |Unit(x)| <= |s| && s[..|Unit(x)|] == Unit(x) && ValidUtf8(s[|Unit(x)|..])
  {
    hide Unit;
    if s[0] < 0x80 {
      x := OneUnit(s[0]);
    } else if s[0] <= 0xdf {
      x := TwoUnit(s[0], s[1]);
    } else if s[0] <= 0xef {
      x := ThreeUnit(s[0], s[1], s[2]);
    } else {
      x := FourUnit(s[0], s[1], s[2], s[3]);
    }
  }

  lemma {:induction false} EncodingIsValid(text: seq<Scalar>)
    ensures ValidUtf8(Encoding(text))
  {
    hide Unit, ValidUtf8;
    if text == [] {
      EmptyIsValid();
    } else {
      EncodingIsValid(text[1..]);
      UnitLeads(text[0], Encoding(text[1..]));
    }
  }

  lemma EmptyIsValid()
    ensures ValidUtf8([])
  {
  }

  lemma {:induction false} ValidIsEncoding(s: bytes) returns (text: seq<Scalar>)
    requires ValidUtf8(s)
    ensures Encoding(text) == s
  {
    hide Unit, ValidUtf8;
    if s == [] {
      text := [];
    } else {
      var x := FirstScalar(s);
      var rest := ValidIsEncoding(s[|Unit(x)|..]);
      text := [x] + rest;
      assert text[1..] == rest;
      assert s == s[..|Unit(x)|] + s[|Unit(x)|..];
    }
  }

  /** The bytes that the decoder takes as text are exactly the encodings of sequences of scalar values. */
  lemma ValidExactly(s: bytes)
    ensures ValidUtf8(s) <==> exists text :: Encoding(text) == s
  {
    hide ValidUtf8, Encoding;
    if ValidUtf8(s) {
      var text := ValidIsEncoding(s);
    }
    forall text | Encoding(text) == s
      ensures ValidUtf8(s)
    {
      EncodingIsValid(text);
    }
  }
}
