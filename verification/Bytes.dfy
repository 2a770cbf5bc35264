/** Bytes, machine integers and the fixed-width big-endian integers of the wire formats. */
module Bytes {
  type byte = x: int | 0 <= x < 256
  type bytes = seq<byte>

  const U32_MAX: nat := 0xffff_ffff
  const U64_MAX: nat := 0xffff_ffff_ffff_ffff

  type u16 = x: int | 0 <= x <= 0xffff
  type u32 = x: int | 0 <= x <= U32_MAX
  type u64 = x: int | 0 <= x <= U64_MAX

  datatype Option<+T> = None | Some(value: T)

  /** An `io::Result`; error kinds and texts are not distinguished. */
  datatype Result<+T> = Ok(value: T) | Err

  /** What a call leaves behind: the new state, also when the call fails, and its result. */
  datatype Outcome<+S, +T> = Outcome(state: S, result: Result<T>)

  function Min(a: nat, b: nat): nat { if a <= b then a else b }

  function Max(a: nat, b: nat): nat { if a >= b then a else b }

  function Zeros(n: nat): (s: bytes)
    ensures |s| == n && forall i :: 0 <= i < n ==> s[i] == 0
  {
    seq(n, i => 0)
  }

  /** The concatenation of a sequence of sequences. */
  function Concat<T>(parts: seq<seq<T>>): (whole: seq<T>)
    ensures parts == [] ==> whole == []
  {
    if parts == [] then [] else parts[0] + Concat(parts[1..])
  }

  lemma {:induction false} ConcatAppend<T>(a: seq<seq<T>>, b: seq<seq<T>>)
    ensures Concat(a + b) == Concat(a) + Concat(b)
  {
    if a == [] {
      assert a + b == b;
    } else {
      assert (a + b)[1..] == a[1..] + b;
      ConcatAppend(a[1..], b);
      assert Concat(a) == a[0] + Concat(a[1..]);
    }
  }

  lemma ConcatCons<T>(part: seq<T>, rest: seq<seq<T>>)
    ensures Concat([part] + rest) == part + Concat(rest)
  {
    assert ([part] + rest)[1..] == rest;
  }

  lemma ConcatSingle<T>(part: seq<T>)
    ensures Concat([part]) == part
  {
    assert [part][1..] == [];
    assert Concat([part]) == part + Concat<T>([]);
  }

  /** `chunks(n)`: the consecutive pieces of `n` elements, the last one possibly shorter. */
  function Pieces<T>(data: seq<T>, n: nat): (parts: seq<seq<T>>)
    requires n > 0
    ensures Concat(parts) == data
    ensures forall p :: p in parts ==> 0 < |p| <= n
  {
    if data == [] then [] else
      var k := Min(|data|, n);
      assert data == data[..k] + data[k..];
      [data[..k]] + Pieces(data[k..], n)
  }

  lemma PiecesStep<T>(data: seq<T>, n: nat, i: nat, k: nat)
    requires n > 0 && i < |data| && k == Min(|data| - i, n)
    ensures Pieces(data[i..], n) == [data[i..i + k]] + Pieces(data[i + k..], n)
  {
    assert data[i..][..k] == data[i..i + k] && data[i..][k..] == data[i + k..];
  }

  function Pow256(n: nat): (p: nat)
    ensures p > 0
  {
    if n == 0 then 1 else 256 * Pow256(n - 1)
  }

  /** The low `n` bytes of `v`, most significant first (`to_be_bytes`). */
  function ToBytes(v: nat, n: nat): (s: bytes)
    ensures |s| == n
  {
    if n == 0 then [] else ToBytes(v / 256, n - 1) + [v % 256]
  }

  /** The inverse reading (`from_be_bytes`). */
  function FromBytes(s: bytes): nat
  {
    if s == [] then 0 else FromBytes(s[..|s| - 1]) * 256 + s[|s| - 1]
  }

  lemma LowByte(v: nat, p: nat)
    requires v < 256 * p
    ensures v / 256 < p && v / 256 * 256 + v % 256 == v
  {
  }

  lemma {:induction false} FromToBytes(v: nat, n: nat)
    requires v < Pow256(n)
    ensures FromBytes(ToBytes(v, n)) == v
  {
    if n != 0 {
      LowByte(v, Pow256(n - 1));
      var high, low := v / 256, v % 256;
      FromToBytes(high, n - 1);
      var s := ToBytes(v, n);
      assert s == ToBytes(high, n - 1) + [low];
      assert s[..n - 1] == ToBytes(high, n - 1) && s[n - 1] == low;
    }
  }

  lemma HighBytes(high: nat, low: byte)
    ensures (high * 256 + low) / 256 == high && (high * 256 + low) % 256 == low
  {
  }

  lemma {:induction false} ToFromBytes(s: bytes)
    ensures FromBytes(s) < Pow256(|s|)
    ensures ToBytes(FromBytes(s), |s|) == s
  {
    if s != [] {
      var front, low := s[..|s| - 1], s[|s| - 1];
      ToFromBytes(front);
      HighBytes(FromBytes(front), low);
      assert s == front + [low];
    }
  }

  lemma Widths()
    ensures Pow256(1) == 0x100 && Pow256(2) == 0x1_0000
    ensures Pow256(4) == 0x1_0000_0000 && Pow256(8) == 0x1_0000_0000_0000_0000
  {
    assert Pow256(4) == 256 * Pow256(3);
    assert Pow256(6) == 256 * Pow256(5) && Pow256(8) == 256 * Pow256(7);
  }

  lemma U32Bytes(v: u32)
    ensures FromBytes(ToBytes(v, 4)) == v
  {
    Widths();
    FromToBytes(v, 4);
  }

  lemma U64Bytes(v: u64)
    ensures FromBytes(ToBytes(v, 8)) == v
  {
    Widths();
    FromToBytes(v, 8);
  }

  lemma BytesU64(s: bytes)
    requires |s| == 8
    ensures FromBytes(s) <= U64_MAX
    ensures ToBytes(FromBytes(s), 8) == s
  {
    Widths();
    ToFromBytes(s);
  }

  lemma BytesU32(s: bytes)
    requires |s| == 4
    ensures FromBytes(s) <= U32_MAX
    ensures ToBytes(FromBytes(s), 4) == s
  {
    Widths();
    ToFromBytes(s);
  }
}
