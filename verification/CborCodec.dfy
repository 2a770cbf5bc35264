/** The CBOR encoder and decoder of `src/lib.rs` as they run: an appended buffer and a moving cursor. */
module CborCodec {
  import opened Bytes
  import opened Cbor

  /** `encode_cbor_value` and `encode_cbor_head`, appending to `out`. */
  class CborWriter {
    var out: bytes

    constructor ()
      ensures out == []
    {
      out := [];
    }

    method PutHead(major: nat, n: u64)
      requires major < 8
      modifies this
      ensures out == old(out) + Head(major, n)
    {
      var prefix := major * 32;
      if n < 24 {
        out := out + [prefix + n];
      } else if n < 0x100 {
        out := out + [prefix + 24];
        out := out + [n];
      } else if n < 0x1_0000 {
        out := out + [prefix + 25];
        out := out + ToBytes(n, 2);
      } else if n < 0x1_0000_0000 {
        out := out + [prefix + 26];
        out := out + ToBytes(n, 4);
      } else {
        out := out + [prefix + 27];
        out := out + ToBytes(n, 8);
      }
    }

    method Put(v: Value)
      requires Sized(v)
      modifies this
      ensures out == old(out) + Encode(v)
      decreases v, 0
    {
      hide Head;
      match v
      case Null => out := out + [0xf6];
      case Bool(truth) => out := out + [if truth then 0xf5 else 0xf4];
      case Unsigned(n) => PutHead(0, n);
      case Integer(i) =>
        if i >= 0 {
          PutHead(0, i);
        } else {
          PutHead(1, -1 - i);
        }
      case Float(bits) =>
        out := out + [0xfb];
        out := out + ToBytes(bits, 8);
      case Bytes(data) =>
        PutHead(2, |data|);
        out := out + data;
      case Text(text) =>
        PutHead(3, |text|);
        out := out + text;
      case Array(items) =>
        PutHead(4, |items|);
        PutItems(items);
      case Map(entries) =>
        PutHead(5, |entries|);
        PutEntries(entries);
    }

    method PutItems(items: seq<Value>)
      requires forall x :: x in items ==> Sized(x)
      modifies this
      ensures out == old(out) + EncodeItems(items)
      decreases items, 1
    {
      hide Encode, Sized;
      var i := 0;
      while i < |items|
        invariant 0 <= i <= |items|
        invariant out + EncodeItems(items[i..]) == old(out) + EncodeItems(items)
      {
        assert items[i..][1..] == items[i + 1..];
        Put(items[i]);
        i := i + 1;
      }
    }

    method PutEntries(entries: seq<Entry>)
      requires forall e :: e in entries ==> |e.key| <= U64_MAX && Sized(e.value)
      modifies this
      ensures out == old(out) + EncodeEntries(entries)
      decreases entries, 1
    {
      hide Encode, Sized, Head;
      var i := 0;
      while i < |entries|
        invariant 0 <= i <= |entries|
        invariant out + EncodeEntries(entries[i..]) == old(out) + EncodeEntries(entries)
      {
        var e := entries[i];
        assert entries[i..][1..] == entries[i + 1..];
        ghost var before := out;
        PutHead(3, |e.key|);
        out := out + e.key;
        Put(e.value);
        assert out == before + EncodeEntry(e);
        i := i + 1;
      }
    }
  }

  /** `CborDecoder`: a cursor over the input. `built` counts the values produced so far. */
  class CborDecoder {
    const widen: Widen
    const input: bytes
    var pos: nat
    ghost var built: nat

    ghost predicate Valid()
      reads this
    {
      pos <= |input|
    }

    constructor (widen: Widen, input: bytes)
      ensures this.widen == widen && this.input == input && pos == 0 && built == 0 && Valid()
    {
      this.widen, this.input := widen, input;
      pos, built := 0, 0;
    }

    method Byte() returns (r: Result<byte>)
      requires Valid()
      modifies this`pos
      ensures Valid()
      ensures if old(pos) < |input| then r == Ok(input[old(pos)]) && pos == old(pos) + 1
              else r.Err? && pos == old(pos)
    {
      if pos >= |input| {
        return Err;
      }
      r := Ok(input[pos]);
      pos := pos + 1;
    }

    method Take(len: nat) returns (r: Result<bytes>)
      requires Valid()
      modifies this`pos
      ensures Valid()
      ensures if old(pos) + len <= |input| then r == Ok(input[old(pos)..][..len]) && pos == old(pos) + len
              else r.Err? && pos == old(pos)
    {
      if pos + len > |input| {
        return Err;
      }
      r := Ok(input[pos..pos + len]);
      assert input[pos..][..len] == input[pos..pos + len];
      pos := pos + len;
    }

    /** A reading method moved from `start` over exactly what its specification `p` reads there. */
    ghost predicate Reads<T>(start: nat, p: Parsed<T>, r: Result<T>)
      reads this
    {
      && Valid() && start <= pos
      && match p
         case Bad => r.Err?
         case Parsed(v, used) => r == Ok(v) && pos == start + used
    }

    /** No more values were built since `had` than bytes were consumed since `start`. */
    ghost predicate Frugal(start: nat, had: nat)
      reads this
    {
      had <= built <= had + pos - start
    }

    method Argument(info: nat) returns (r: Result<u64>)
      requires Valid()
      modifies this`pos
      ensures Reads(old(pos), ReadArgument(input[old(pos)..], info), r)
    {
      if info < 24 {
        return Ok(info);
      }
      if info > 27 {
        return Err;
      }
      var k := if info == 24 then 1 else if info == 25 then 2 else if info == 26 then 4 else 8;
      var taken := Take(k);
      if taken.Err? {
        return Err;
      }
      Widths();
      ToFromBytes(taken.value);
      r := Ok(FromBytes(taken.value));
    }

    method Simple(info: nat) returns (r: Result<Value>)
      requires Valid()
      modifies this`pos
      ensures Reads(old(pos), ReadSimple(widen, input[old(pos)..], info), r)
    {
      if info == 20 {
        return Ok(Bool(false));
      }
      if info == 21 {
        return Ok(Bool(true));
      }
      if info == 22 {
        return Ok(Null);
      }
      if info != 26 && info != 27 {
        return Err;
      }
      var taken := Take(if info == 26 then 4 else 8);
      if taken.Err? {
        return Err;
      }
      if info == 26 {
        BytesU32(taken.value);
        return Ok(Float(widen(FromBytes(taken.value))));
      }
      BytesU64(taken.value);
      r := Ok(Float(FromBytes(taken.value)));
    }

    method Scalar(major: nat, n: u64) returns (r: Result<Value>)
      requires Valid() && major < 4
      modifies this`pos
      ensures Reads(old(pos), ReadScalar(major, n, input[old(pos)..]), r)
    {
      hide ValidUtf8;
      if major == 0 {
        return Ok(Unsigned(n));
      }
      if major == 1 {
        if -1 - n < I64_MIN {
          return Err;
        }
        return Ok(Integer(-1 - n));
      }
      var taken := Take(n);
      if taken.Err? {
        return Err;
      }
      if major == 2 {
        return Ok(Bytes(taken.value));
      }
      if !ValidUtf8(taken.value) {
        return Err;
      }
      r := Ok(Text(taken.value));
    }

    /** The loop over the elements of an array. */
    method Items(n: nat, depth: nat) returns (r: Result<seq<Value>>)
      requires Valid()
      modifies this
      ensures Reads(old(pos), ReadItems(widen, input[old(pos)..], n, depth), r)
      ensures Frugal(old(pos), old(built))
      decreases |input| - pos, 1
    {
      hide Read;
      ghost var goal := ReadItems(widen, input[pos..], n, depth);
      var values: seq<Value> := [];
      assert goal.Parsed? ==> [] + goal.value == goal.value;
      var i := 0;
      while i < n
        invariant 0 <= i <= n && Valid() && old(pos) <= pos
        invariant Frugal(old(pos), old(built))
        invariant goal == match ReadItems(widen, input[pos..], n - i, depth)
                          case Bad => Bad
                          case Parsed(rest, m) => Parsed(values + rest, pos - old(pos) + m)
      {
        ghost var at := pos;
        ghost var more := ReadItems(widen, input[pos..], n - i, depth);
        var item := ReadValue(depth);
        if item.Err? {
          return Err;
        }
        assert input[at..][pos - at..] == input[pos..];
        ghost var rest := ReadItems(widen, input[pos..], n - i - 1, depth);
        assert rest.Parsed? ==> values + ([item.value] + rest.value) == values + [item.value] + rest.value;
        values := values + [item.value];
        i := i + 1;
      }
      assert values + [] == values;
      r := Ok(values);
    }

    method KeyAndValue(depth: nat) returns (r: Result<Entry>)
      requires Valid()
      modifies this
      ensures Reads(old(pos), ReadEntry(widen, input[old(pos)..], depth), r)
      ensures Frugal(old(pos), old(built))
      decreases |input| - pos, 1
    {
      hide Read;
      var key := ReadValue(depth);
      if key.Err? {
        return Err;
      }
      if !key.value.Text? {
        return Err;
      }
      assert input[old(pos)..][pos - old(pos)..] == input[pos..];
      var value := ReadValue(depth);
      if value.Err? {
        return Err;
      }
      r := Ok(Entry(key.value.text, value.value));
    }

    /** The loop over the entries of a map. */
    method Entries(n: nat, depth: nat) returns (r: Result<seq<Entry>>)
      requires Valid()
      modifies this
      ensures Reads(old(pos), ReadEntries(widen, input[old(pos)..], n, depth), r)
      ensures Frugal(old(pos), old(built))
      decreases |input| - pos, 2
    {
      hide ReadEntry, ValidUtf8;
      ghost var goal := ReadEntries(widen, input[pos..], n, depth);
      var values: seq<Entry> := [];
      assert goal.Parsed? ==> [] + goal.value == goal.value;
      var i := 0;
      while i < n
        invariant 0 <= i <= n && Valid() && old(pos) <= pos
        invariant Frugal(old(pos), old(built))
        invariant goal == match ReadEntries(widen, input[pos..], n - i, depth)
                          case Bad => Bad
                          case Parsed(rest, m) => Parsed(values + rest, pos - old(pos) + m)
      {
        ghost var at := pos;
        var entry := KeyAndValue(depth);
        if entry.Err? {
          return Err;
        }
        assert input[at..][pos - at..] == input[pos..];
        ghost var rest := ReadEntries(widen, input[pos..], n - i - 1, depth);
        assert rest.Parsed? ==> values + ([entry.value] + rest.value) == values + [entry.value] + rest.value;
        assert Reads(at, ReadEntry(widen, input[at..], depth), entry);
        values := values + [entry.value];
        i := i + 1;
      }
      assert values + [] == values;
      r := Ok(values);
    }

    /** What follows a head; major types 4 and 5 nest. */
    method Body(major: nat, n: u64, depth: nat) returns (r: Result<Value>)
      requires Valid() && major < 6
      modifies this
      ensures Reads(old(pos), ReadBody(widen, major, n, input[old(pos)..], depth), r)
      ensures Frugal(old(pos), old(built))
      decreases |input| - pos, 3
    {
      hide ReadScalar, ReadItems, ReadEntries;
      if major < 4 {
        r := Scalar(major, n);
      } else if n > MAX_ENTRIES {
        return Err;
      } else if major == 4 {
        var items := Items(n, depth + 1);
        if items.Err? {
          return Err;
        }
        r := Ok(Array(items.value));
      } else {
        var entries := Entries(n, depth + 1);
        if entries.Err? {
          return Err;
        }
        r := Ok(Map(entries.value));
      }
    }

    /**
      `value`: finds what the specification finds, keeps the cursor within the input, and never
      builds more values than it consumes bytes, whatever lengths the input declares, whether it
      succeeds or fails.
    */
    method ReadValue(depth: nat) returns (r: Result<Value>)
      requires Valid()
      modifies this
      ensures Reads(old(pos), Read(widen, input[old(pos)..], depth), r)
      ensures Frugal(old(pos), old(built))
      ensures r.Ok? ==> built > old(built)
      decreases |input| - pos, 0
    {
      hide ReadSimple, ReadArgument, ReadBody;
      if depth > MAX_DEPTH {
        return Err;
      }
      var initial := Byte();
      if initial.Err? {
        return Err;
      }
      var major, info := initial.value / 32, initial.value % 32;
      ghost var s := input[old(pos)..];
      assert s[1..] == input[pos..];
      if major == 7 {
        r := Simple(info);
      } else if major == 6 {
        return Err;
      } else {
        var argument := Argument(info);
        if argument.Err? {
          return Err;
        }
        assert s[pos - old(pos)..] == input[pos..];
        r := Body(major, argument.value, depth);
      }
      if r.Ok? {
        built := built + 1;
      }
    }
  }

  /** `Value::encode_cbor`. */
  method EncodeCbor(v: Value) returns (out: bytes)
    requires Sized(v)
    ensures out == Encode(v)
  {
    var writer := new CborWriter();
    writer.Put(v);
    out := writer.out;
  }

  /** `Value::decode_cbor`. */
  method DecodeCbor(widen: Widen, input: bytes) returns (r: Result<Value>)
    ensures r == Decode(widen, input)
  {
    hide Read;
    var decoder := new CborDecoder(widen, input);
    assert input[0..] == input;
    r := decoder.ReadValue(0);
    if r.Ok? && decoder.pos != |input| {
      r := Err;
    }
  }
}
