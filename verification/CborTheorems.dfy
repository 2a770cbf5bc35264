/** What the CBOR codec promises: the exact domain of the round trip, and a total, frugal decoder. */
module CborTheorems {
  import opened Bytes
  import opened Cbor

  /** Nesting height: scalars and empty containers have height 0. */
  function Height(v: Value): nat
    decreases v, 0
  {
    match v
    case Array(items) => if items == [] then 0 else 1 + ItemsHeight(items)
    case Map(entries) => if entries == [] then 0 else 1 + EntriesHeight(entries)
    case _ => 0
  }

  function ItemsHeight(items: seq<Value>): nat
    decreases items, 1
  {
    if items == [] then 0 else Max(Height(items[0]), ItemsHeight(items[1..]))
  }

  function EntriesHeight(entries: seq<Entry>): nat
    decreases entries, 1
  {
    if entries == [] then 0 else Max(Height(entries[0].value), EntriesHeight(entries[1..]))
  }

  /** No container has more than 4194304 entries. */
  predicate Narrow(v: Value) {
    match v
    case Array(items) => |items| <= 4194304 && forall x :: x in items ==> Narrow(x)
    case Map(entries) => |entries| <= 4194304 && forall e :: e in entries ==> Narrow(e.value)
    case _ => true
  }

  /** What a decoder at nesting depth `depth` can take. */
  predicate Fits(v: Value, depth: nat) {
    depth + Height(v) <= 64 && Narrow(v)
  }

  predicate ItemsFit(items: seq<Value>, depth: nat) {
    items == [] || (depth + ItemsHeight(items) <= MAX_DEPTH && forall x :: x in items ==> Narrow(x))
  }

  predicate EntriesFit(entries: seq<Entry>, depth: nat) {
    entries == [] || (depth + EntriesHeight(entries) <= MAX_DEPTH && forall e :: e in entries ==> Narrow(e.value))
  }

  /** The one normalisation: a non-negative `Integer` reads back as `Unsigned`. */
  function Norm(v: Value): Value
    decreases v, 0
  {
    match v
    case Integer(i) => if i >= 0 then Unsigned(i) else v
    case Array(items) => Array(NormItems(items))
    case Map(entries) => Map(NormEntries(entries))
    case _ => v
  }

  function NormItems(items: seq<Value>): seq<Value>
    decreases items, 1
  {
    if items == [] then [] else [Norm(items[0])] + NormItems(items[1..])
  }

  function NormEntries(entries: seq<Entry>): seq<Entry>
    decreases entries, 1
  {
    if entries == [] then [] else
      [Entry(entries[0].key, Norm(entries[0].value))] + NormEntries(entries[1..])
  }

  // The round trip.

  lemma ReadsArgument(info: nat, k: nat, n: u64, rest: bytes)
    requires (info == 24 && k == 1) || (info == 25 && k == 2) || (info == 26 && k == 4) || (info == 27 && k == 8)
    requires n < Pow256(k)
    ensures ReadArgument(ToBytes(n, k) + rest, info) == Parsed(n, k)
  {
    hide ToBytes, FromBytes;
    assert (ToBytes(n, k) + rest)[..k] == ToBytes(n, k);
    FromToBytes(n, k);
  }

  lemma HeadReads(major: nat, n: u64, rest: bytes)
    requires major < 8
    ensures var h, s := Head(major, n), Head(major, n) + rest;
            && s[0] / 32 == major
            && ReadArgument(s[1..], s[0] % 32) == Parsed(n, |h| - 1)
            && s[|h|..] == rest
  {
    Widths();
    var h, s := Head(major, n), Head(major, n) + rest;
    assert s[|h|..] == rest;
    if n >= 24 {
      var k := |h| - 1;
      if n < 0x100 {
        assert ToBytes(n / 256, 0) == [];
        assert ToBytes(n, 1) == [n];
      }
      assert s[1..] == ToBytes(n, k) + rest;
      ReadsArgument(23 + (if k == 1 then 1 else if k == 2 then 2 else if k == 4 then 3 else 4), k, n, rest);
    }
  }

  lemma ReadAfterHead(widen: Widen, major: nat, n: u64, rest: bytes, depth: nat)
    requires major < 6
    ensures Read(widen, Head(major, n) + rest, depth)
         == if depth > MAX_DEPTH then Bad else Shift(ReadBody(widen, major, n, rest, depth), |Head(major, n)|)
  {
    HeadReads(major, n, rest);
    hide Head, ReadArgument, ReadBody, ReadSimple;
  }

  lemma ReadsString(text: bytes, rest: bytes)
    requires |text| <= U64_MAX
    ensures ReadScalar(2, |text|, text + rest) == Parsed(Bytes(text), |text|)
    ensures ValidUtf8(text) ==> ReadScalar(3, |text|, text + rest) == Parsed(Text(text), |text|)
  {
    hide ValidUtf8;
    assert (text + rest)[..|text|] == text;
  }

  lemma ReadsFloat(widen: Widen, bits: u64, rest: bytes, depth: nat)
    ensures Read(widen, [0xfb] + ToBytes(bits, 8) + rest, depth)
         == if depth > MAX_DEPTH then Bad else Parsed(Float(bits), 9)
  {
    var s := [0xfb] + ToBytes(bits, 8) + rest;
    assert s[1..][..8] == ToBytes(bits, 8);
    U64Bytes(bits);
    hide ToBytes, FromBytes, ReadArgument, ReadBody;
  }

  /** The round trip of a value that is no container. */
  lemma ReadOfScalar(widen: Widen, v: Value, rest: bytes, depth: nat)
    requires Sized(v) && !v.Array? && !v.Map?
    ensures Read(widen, Encode(v) + rest, depth) == if depth > MAX_DEPTH then Bad else Parsed(Norm(v), |Encode(v)|)
  {
    hide Read, ReadArgument, Head, ValidUtf8, ToBytes;
    match v
    case Null => ReadsSimple(widen, 22, Null, rest, depth);
    case Bool(truth) => ReadsSimple(widen, if truth then 21 else 20, v, rest, depth);
    case Unsigned(n) => ReadAfterHead(widen, 0, n, rest, depth);
    case Integer(i) => ReadAfterHead(widen, if i >= 0 then 0 else 1, if i >= 0 then i else -1 - i, rest, depth);
    case Float(bits) => ReadsFloat(widen, bits, rest, depth);
    case Bytes(data) =>
      assert Encode(v) + rest == Head(2, |data|) + (data + rest);
      ReadAfterHead(widen, 2, |data|, data + rest, depth);
      ReadsString(data, rest);
    case Text(text) =>
      assert Encode(v) + rest == Head(3, |text|) + (text + rest);
      ReadAfterHead(widen, 3, |text|, text + rest, depth);
      ReadsString(text, rest);
  }

  /**
    The round trip on its exact domain, behind any suffix: the decoder consumes exactly the encoding
    and yields the normal form if the value fits, and refuses it otherwise.
  */
  lemma {:induction false} ReadOfEncode(widen: Widen, v: Value, rest: bytes, depth: nat)
    requires Sized(v)
    ensures Read(widen, Encode(v) + rest, depth)
         == if Fits(v, depth) then Parsed(Norm(v), |Encode(v)|) else Bad
    decreases v, 0
  {
    hide Read, ReadArgument, Head, ReadScalar, ReadItems, ReadEntries;
    if v.Array? {
      var items := v.items;
      assert Encode(v) + rest == Head(4, |items|) + (EncodeItems(items) + rest);
      ReadAfterHead(widen, 4, |items|, EncodeItems(items) + rest, depth);
      ReadOfItems(widen, items, rest, depth + 1);
    } else if v.Map? {
      var entries := v.entries;
      assert Encode(v) + rest == Head(5, |entries|) + (EncodeEntries(entries) + rest);
      ReadAfterHead(widen, 5, |entries|, EncodeEntries(entries) + rest, depth);
      ReadOfEntries(widen, entries, rest, depth + 1);
    } else {
      ReadOfScalar(widen, v, rest, depth);
    }
  }

  lemma ReadsSimple(widen: Widen, info: nat, v: Value, rest: bytes, depth: nat)
    requires info < 23 && ReadSimple(widen, rest, info) == Parsed(v, 0)
    ensures Read(widen, [224 + info] + rest, depth) == if depth > MAX_DEPTH then Bad else Parsed(v, 1)
  {
    hide ReadSimple, ReadArgument, ReadBody;
    assert ([224 + info] + rest)[1..] == rest;
  }

  lemma {:induction false} ReadOfItems(widen: Widen, items: seq<Value>, rest: bytes, depth: nat)
    requires forall x :: x in items ==> Sized(x)
    ensures ReadItems(widen, EncodeItems(items) + rest, |items|, depth)
         == if ItemsFit(items, depth) then Parsed(NormItems(items), |EncodeItems(items)|) else Bad
    decreases items, 1
  {
    hide Read, Encode, Norm, Height, Sized;
    if items != [] {
      var first, others := Encode(items[0]), EncodeItems(items[1..]);
      var s := first + others + rest;
      assert s == first + (others + rest) && s[|first|..] == others + rest;
      ReadOfEncode(widen, items[0], others + rest, depth);
      ReadOfItems(widen, items[1..], rest, depth);
      assert (forall x :: x in items ==> Narrow(x))
        <==> Narrow(items[0]) && forall x :: x in items[1..] ==> Narrow(x);
    }
  }

  lemma ReadOfEntry(widen: Widen, e: Entry, rest: bytes, depth: nat)
    requires |e.key| <= U64_MAX && Sized(e.value)
    ensures ReadEntry(widen, EncodeEntry(e) + rest, depth)
         == if Fits(e.value, depth) then Parsed(Entry(e.key, Norm(e.value)), |EncodeEntry(e)|) else Bad
    decreases e, 0
  {
    hide Read, Head, Encode, Norm, ValidUtf8;
    var key, body := Head(3, |e.key|), Encode(e.value);
    var s := EncodeEntry(e) + rest;
    assert s == key + (e.key + (body + rest));
    ReadAfterHead(widen, 3, |e.key|, e.key + (body + rest), depth);
    ReadsString(e.key, body + rest);
    assert s[|key| + |e.key|..] == body + rest;
    ReadOfEncode(widen, e.value, rest, depth);
  }

  lemma {:induction false} ReadOfEntries(widen: Widen, entries: seq<Entry>, rest: bytes, depth: nat)
    requires forall e :: e in entries ==> |e.key| <= U64_MAX && Sized(e.value)
    ensures ReadEntries(widen, EncodeEntries(entries) + rest, |entries|, depth)
         == if EntriesFit(entries, depth) then Parsed(NormEntries(entries), |EncodeEntries(entries)|) else Bad
    decreases entries, 1
  {
    hide Read, EncodeEntry, Norm, Height, Sized, ReadEntry;
    if entries != [] {
      var first, others := EncodeEntry(entries[0]), EncodeEntries(entries[1..]);
      var s := first + others + rest;
      assert s == first + (others + rest) && s[|first|..] == others + rest;
      ReadOfEntry(widen, entries[0], others + rest, depth);
      ReadOfEntries(widen, entries[1..], rest, depth);
      assert (forall e :: e in entries ==> Narrow(e.value))
        <==> Narrow(entries[0].value) && forall e :: e in entries[1..] ==> Narrow(e.value);
    }
  }

  /** A value decodes from its encoding, normalised, if and only if it is shallow and narrow enough. */
  lemma DecodeOfEncode(widen: Widen, v: Value)
    requires Sized(v)
    ensures Decode(widen, Encode(v))
         == if Height(v) <= 64 && Narrow(v) then Ok(Norm(v)) else Err
  {
    ReadOfEncode(widen, v, [], 0);
    assert Encode(v) + [] == Encode(v);
  }

  /** Arrays nested `n` deep. */
  function Nested(n: nat): (v: Value)
    ensures Sized(v) && Narrow(v)
  {
    if n == 0 then Null else Array([Nested(n - 1)])
  }

  /** The limit is met on both sides: an encodable value of any height exists, and decodes up to 64. */
  lemma {:induction false} NestedDecodes(widen: Widen, n: nat)
    ensures Height(Nested(n)) == n
    ensures Decode(widen, Encode(Nested(n))).Ok? <==> n <= 64
  {
    NestedHeight(n);
    DecodeOfEncode(widen, Nested(n));
  }

  lemma {:induction false} NestedHeight(n: nat)
    ensures Height(Nested(n)) == n
  {
    if n > 0 {
      NestedHeight(n - 1);
      var items := [Nested(n - 1)];
      assert items[1..] == [] && ItemsHeight(items) == Max(Height(items[0]), ItemsHeight([]));
    }
  }

  // Encodings are prefix-free, also those that no decoder takes.

  lemma HeadUnique(major: nat, n: u64, a: bytes, major': nat, n': u64, b: bytes)
    requires major < 8 && major' < 8 && Head(major, n) + a == Head(major', n') + b
    ensures major == major' && n == n' && a == b
  {
    HeadReads(major, n, a);
    HeadReads(major', n', b);
  }

  /** What starts the encoding of a value with a head: major type and argument. */
  function Lead(v: Value): (nat, u64)
    requires Sized(v) && !IsSimple(v)
  {
    match v
    case Unsigned(n) => (0, n)
    case Integer(i) => if i >= 0 then (0, i) else (1, -1 - i)
    case Bytes(data) => (2, |data|)
    case Text(text) => (3, |text|)
    case Array(items) => (4, |items|)
    case Map(entries) => (5, |entries|)
  }

  /** What follows that head. */
  function Trail(v: Value): bytes
    requires Sized(v) && !IsSimple(v)
  {
    match v
    case Bytes(data) => data
    case Text(text) => text
    case Array(items) => EncodeItems(items)
    case Map(entries) => EncodeEntries(entries)
    case _ => []
  }

  /** Major type 7. */
  predicate IsSimple(v: Value) {
    v.Null? || v.Bool? || v.Float?
  }

  lemma EncodeIsHead(v: Value)
    requires Sized(v) && !IsSimple(v)
    ensures Encode(v) == Head(Lead(v).0, Lead(v).1) + Trail(v) && Lead(v).0 < 6
  {
    hide Head, EncodeItems, EncodeEntries;
  }

  lemma SimpleStarts(v: Value)
    requires IsSimple(v)
    ensures Encode(v) != [] && Encode(v)[0] >= 224
  {
  }

  lemma EncodeSplits(v: Value, a: bytes)
    requires Sized(v)
    ensures !IsSimple(v) ==> Encode(v) + a == Head(Lead(v).0, Lead(v).1) + (Trail(v) + a)
    ensures Encode(v) != [] && ((Encode(v) + a)[0] >= 224 <==> IsSimple(v))
  {
    hide Encode, Head, Lead, Trail, Sized;
    if IsSimple(v) {
      SimpleStarts(v);
    } else {
      EncodeIsHead(v);
      HeadReads(Lead(v).0, Lead(v).1, Trail(v) + a);
    }
  }

  lemma SimplesFree(v: Value, w: Value, a: bytes, b: bytes)
    requires IsSimple(v) && IsSimple(w) && Encode(v) + a == Encode(w) + b
    ensures v == w && a == b
  {
    var s := Encode(v) + a;
    var n := if v.Float? then 9 else 1;
    assert s[0] == Encode(v)[0] && s[0] == Encode(w)[0];
    assert s[n..] == a && s[n..] == b;
    if v.Float? {
      assert s[1..9] == ToBytes(v.bits, 8) && s[1..9] == ToBytes(w.bits, 8);
      U64Bytes(v.bits);
      U64Bytes(w.bits);
    }
  }

  lemma SameFront(x: bytes, y: bytes, a: bytes, b: bytes)
    requires x + a == y + b && |x| == |y|
    ensures x == y && a == b
  {
    assert (x + a)[..|x|] == x && (y + b)[..|x|] == y;
    assert (x + a)[|x|..] == a && (y + b)[|x|..] == b;
  }

  /** Of two encodings that start the same stream, both are of the same normal form. */
  lemma {:induction false} PrefixFree(v: Value, w: Value, a: bytes, b: bytes)
    requires Sized(v) && Sized(w) && Encode(v) + a == Encode(w) + b
    ensures Norm(v) == Norm(w) && Encode(v) == Encode(w) && a == b
    decreases v, 0
  {
    hide Encode, EncodeItems, EncodeEntries, Head, NormItems, NormEntries;
    EncodeSplits(v, a);
    EncodeSplits(w, b);
    if IsSimple(v) {
      SimplesFree(v, w, a, b);
    } else {
      HeadUnique(Lead(v).0, Lead(v).1, Trail(v) + a, Lead(w).0, Lead(w).1, Trail(w) + b);
      if v.Array? {
        ItemsPrefixFree(v.items, w.items, a, b);
      } else if v.Map? {
        EntriesPrefixFree(v.entries, w.entries, a, b);
      } else {
        SameFront(Trail(v), Trail(w), a, b);
      }
    }
    assert |Encode(v)| == |Encode(w)|;
    SameFront(Encode(v), Encode(w), a, b);
  }

  lemma {:induction false} ItemsPrefixFree(x: seq<Value>, y: seq<Value>, a: bytes, b: bytes)
    requires (forall v :: v in x ==> Sized(v)) && (forall v :: v in y ==> Sized(v))
    requires |x| == |y| && EncodeItems(x) + a == EncodeItems(y) + b
    ensures NormItems(x) == NormItems(y) && a == b
    decreases x, 1
  {
    hide Encode, Norm, Sized;
    if x == [] {
      assert [] + a == a && [] + b == b;
    } else {
      var p, q := EncodeItems(x[1..]) + a, EncodeItems(y[1..]) + b;
      assert EncodeItems(x) + a == Encode(x[0]) + p && EncodeItems(y) + b == Encode(y[0]) + q;
      PrefixFree(x[0], y[0], p, q);
      ItemsPrefixFree(x[1..], y[1..], a, b);
    }
  }

  lemma EntryPrefixFree(x: Entry, y: Entry, a: bytes, b: bytes)
    requires |x.key| <= U64_MAX && |y.key| <= U64_MAX && Sized(x.value) && Sized(y.value)
    requires EncodeEntry(x) + a == EncodeEntry(y) + b
    ensures x.key == y.key && Norm(x.value) == Norm(y.value) && a == b
    decreases x, 0
  {
    hide Encode, Norm, Sized, Head;
    var p, q := Encode(x.value) + a, Encode(y.value) + b;
    assert EncodeEntry(x) + a == Head(3, |x.key|) + (x.key + p);
    assert EncodeEntry(y) + b == Head(3, |y.key|) + (y.key + q);
    HeadUnique(3, |x.key|, x.key + p, 3, |y.key|, y.key + q);
    SameFront(x.key, y.key, p, q);
    PrefixFree(x.value, y.value, a, b);
  }

  lemma {:induction false} EntriesPrefixFree(x: seq<Entry>, y: seq<Entry>, a: bytes, b: bytes)
    requires forall e :: e in x ==> |e.key| <= U64_MAX && Sized(e.value)
    requires forall e :: e in y ==> |e.key| <= U64_MAX && Sized(e.value)
    requires |x| == |y| && EncodeEntries(x) + a == EncodeEntries(y) + b
    ensures NormEntries(x) == NormEntries(y) && a == b
    decreases x, 1
  {
    hide EncodeEntry, Norm, Sized;
    if x == [] {
      assert [] + a == a && [] + b == b;
    } else {
      var p, q := EncodeEntries(x[1..]) + a, EncodeEntries(y[1..]) + b;
      assert EncodeEntries(x) + a == EncodeEntry(x[0]) + p && EncodeEntries(y) + b == EncodeEntry(y[0]) + q;
      EntryPrefixFree(x[0], y[0], p, q);
      EntriesPrefixFree(x[1..], y[1..], a, b);
    }
  }

  // Totality: whatever is accepted is small, in the domain and in normal form.

  /** The values built for `v`, keys included. */
  function Count(v: Value): nat
    decreases v, 0
  {
    match v
    case Array(items) => 1 + CountItems(items)
    case Map(entries) => 1 + CountEntries(entries)
    case _ => 1
  }

  function CountItems(items: seq<Value>): nat
    decreases items, 1
  {
    if items == [] then 0 else Count(items[0]) + CountItems(items[1..])
  }

  function CountEntries(entries: seq<Entry>): nat
    decreases entries, 1
  {
    if entries == [] then 0 else 1 + Count(entries[0].value) + CountEntries(entries[1..])
  }

  predicate Canonical(v: Value, depth: nat) {
    Sized(v) && Fits(v, depth) && Norm(v) == v
  }

  lemma {:induction false} ReadIsCanonical(widen: Widen, s: bytes, depth: nat)
    requires Read(widen, s, depth).Parsed?
    ensures var r := Read(widen, s, depth);
            Canonical(r.value, depth) && Count(r.value) <= r.used
    decreases |s|, 0, 0
  {
    hide ReadSimple, ReadArgument, ReadScalar, ReadItems, ReadEntries;
    var major, info := s[0] / 32, s[0] % 32;
    if major < 6 {
      var argument := ReadArgument(s[1..], info);
      var body := s[1 + argument.used..];
      if major == 4 {
        ReadItemsIsCanonical(widen, body, argument.value, depth + 1);
      } else if major == 5 {
        ReadEntriesIsCanonical(widen, body, argument.value, depth + 1);
      } else {
        ScalarIsCanonical(major, argument.value, body, depth);
      }
    } else {
      SimpleIsCanonical(widen, s[1..], info, depth);
    }
  }

  lemma ScalarIsCanonical(major: nat, n: u64, s: bytes, depth: nat)
    requires ReadScalar(major, n, s).Parsed? && depth <= MAX_DEPTH
    ensures var v := ReadScalar(major, n, s).value; Canonical(v, depth) && Count(v) == 1
  {
    hide ValidUtf8;
  }

  lemma SimpleIsCanonical(widen: Widen, s: bytes, info: nat, depth: nat)
    requires ReadSimple(widen, s, info).Parsed? && depth <= MAX_DEPTH
    ensures var v := ReadSimple(widen, s, info).value; Canonical(v, depth) && Count(v) == 1
  {
  }

  lemma {:induction false} ReadItemsIsCanonical(widen: Widen, s: bytes, n: nat, depth: nat)
    requires ReadItems(widen, s, n, depth).Parsed?
    ensures var r := ReadItems(widen, s, n, depth);
            && (forall x :: x in r.value ==> Sized(x)) && ItemsFit(r.value, depth)
            && NormItems(r.value) == r.value && CountItems(r.value) <= r.used
    decreases |s|, 1, n
  {
    hide Read, Sized, Norm, Height, Narrow, Count;
    if n > 0 {
      var first := Read(widen, s, depth);
      ReadIsCanonical(widen, s, depth);
      ReadItemsIsCanonical(widen, s[first.used..], n - 1, depth);
      var rest := ReadItems(widen, s[first.used..], n - 1, depth);
      var all := ReadItems(widen, s, n, depth).value;
      assert all == [first.value] + rest.value && all[1..] == rest.value;
      assert forall x :: x in all ==> x == first.value || x in rest.value;
      assert ItemsHeight(all) == Max(Height(first.value), ItemsHeight(rest.value));
      assert rest.value == [] ==> ItemsHeight(rest.value) == 0;
    }
  }

  lemma {:induction false} ReadEntriesIsCanonical(widen: Widen, s: bytes, n: nat, depth: nat)
    requires ReadEntries(widen, s, n, depth).Parsed?
    ensures var r := ReadEntries(widen, s, n, depth);
            && (forall e :: e in r.value ==> |e.key| <= U64_MAX && Sized(e.value)) && EntriesFit(r.value, depth)
            && NormEntries(r.value) == r.value && CountEntries(r.value) <= r.used
    decreases |s|, 1, n
  {
    hide Read, Sized, Norm, Height, Narrow, Count;
    if n > 0 {
      var first := ReadEntry(widen, s, depth);
      var key := Read(widen, s, depth);
      ReadIsCanonical(widen, s, depth);
      ReadIsCanonical(widen, s[key.used..], depth);
      KeyIsSized(key.value);
      ReadEntriesIsCanonical(widen, s[first.used..], n - 1, depth);
      var rest := ReadEntries(widen, s[first.used..], n - 1, depth);
      var all := ReadEntries(widen, s, n, depth).value;
      assert all == [first.value] + rest.value && all[1..] == rest.value;
      assert forall e :: e in all ==> e == first.value || e in rest.value;
      assert EntriesHeight(all) == Max(Height(first.value.value), EntriesHeight(rest.value));
      assert rest.value == [] ==> EntriesHeight(rest.value) == 0;
    }
  }

  lemma KeyIsSized(v: Value)
    requires Sized(v)
    ensures v.Text? ==> |v.text| <= U64_MAX
  {
  }

  /** Any value the decoder accepts is a fixed point: encoding and decoding it gives it back. */
  lemma DecodedIsFixedPoint(widen: Widen, input: bytes)
    requires Decode(widen, input).Ok?
    ensures var v := Decode(widen, input).value;
            Sized(v) && Decode(widen, Encode(v)) == Ok(v) && Count(v) <= |input|
  {
    ReadIsCanonical(widen, input, 0);
    DecodeOfEncode(widen, Decode(widen, input).value);
  }

  // What the decoder takes beyond what the encoder writes, and what it refuses.

  lemma ReadsWideHead(widen: Widen, major: nat, info: nat, n: u64, k: nat, rest: bytes, depth: nat)
    requires major < 6 && n < Pow256(k) && depth <= 64
    requires (info == 24 && k == 1) || (info == 25 && k == 2) || (info == 26 && k == 4) || (info == 27 && k == 8)
    ensures Read(widen, [major * 32 + info] + ToBytes(n, k) + rest, depth)
         == Shift(ReadBody(widen, major, n, rest, depth), 1 + k)
  {
    hide ReadArgument, ReadBody, ReadSimple, ToBytes, Shift;
    var s := [major * 32 + info] + ToBytes(n, k) + rest;
    assert s[1..] == ToBytes(n, k) + rest && s[1 + k..] == rest;
    ReadsArgument(info, k, n, rest);
  }

  /** A head of any width that holds the argument is read, not only the shortest. */
  lemma ReadsAnyWidth(widen: Widen, major: nat, info: nat, n: u64, k: nat, rest: bytes, depth: nat)
    requires major < 6 && n < Pow256(k) && depth <= 64
    requires (info == 24 && k == 1) || (info == 25 && k == 2) || (info == 26 && k == 4) || (info == 27 && k == 8)
    ensures var shortest := Read(widen, Head(major, n) + rest, depth);
            Read(widen, [major * 32 + info] + ToBytes(n, k) + rest, depth)
            == if shortest.Bad? then Bad else Parsed(shortest.value, shortest.used + 1 + k - |Head(major, n)|)
  {
    hide Read, Head, ReadBody, ToBytes;
    ReadsWideHead(widen, major, info, n, k, rest, depth);
    ReadAfterHead(widen, major, n, rest, depth);
  }

  /** A 32-bit float is widened. */
  lemma ReadsSingle(widen: Widen, bits: u32, rest: bytes, depth: nat)
    requires depth <= 64
    ensures Read(widen, [0xfa] + ToBytes(bits, 4) + rest, depth) == Parsed(Float(widen(bits)), 5)
  {
    var s := [0xfa] + ToBytes(bits, 4) + rest;
    assert s[1..][..4] == ToBytes(bits, 4);
    U32Bytes(bits);
    hide ToBytes, FromBytes, ReadArgument, ReadBody;
  }

  predicate Unsupported(first: byte) {
    || first / 32 == 6 || (first / 32 < 6 && first % 32 >= 28)
    || (first / 32 == 7 && !(20 <= first % 32 <= 22) && first % 32 != 26 && first % 32 != 27)
  }

  /** Tags, indefinite and reserved lengths, unknown simple values and too small integers are refused. */
  lemma Refuses(widen: Widen, first: byte, rest: bytes, depth: nat, n: u64)
    ensures Unsupported(first) ==> Read(widen, [first] + rest, depth).Bad?
    ensures n > 0x7fff_ffff_ffff_ffff ==> Read(widen, Head(1, n) + rest, depth).Bad?
    ensures depth > 64 ==> Read(widen, [first] + rest, depth).Bad?
    ensures Read(widen, [], depth).Bad?
  {
    ReadAfterHead(widen, 1, n, rest, depth);
    hide Head, ReadBody, ReadItems, ReadEntries, ValidUtf8;
    assert ([first] + rest)[1..] == rest;
    NegativeLimit(widen, n, rest, depth);
  }

  lemma NegativeLimit(widen: Widen, n: u64, rest: bytes, depth: nat)
    ensures n > 0x7fff_ffff_ffff_ffff ==> ReadBody(widen, 1, n, rest, depth).Bad?
  {
  }
}
