/**
  A record byte by byte: its plaintext, the key, nonce and associated data it is sealed and opened
  under, and which records are refused, said without the functions that build them.
*/
module RecordLayout {
  import opened Bytes
  import opened Crypto
  import opened Records

  // Plaintext.

  /** Content type, length, payload, and nothing but zeros behind it. */
  predicate IsPlaintext(p: bytes, contentType: byte, payload: bytes) {
    && |p| >= 5 + |payload| && p[0] == contentType && FromBytes(p[1..5]) == |payload|
    && p[5..5 + |payload|] == payload
    && forall i :: 5 + |payload| <= i < |p| ==> p[i] == 0
  }

  /** The padded length is the next multiple of 256 up to 1024 bytes, and of 128 beyond. */
  lemma PaddedLenIs(payload: nat)
    ensures var n, base := PaddedLen(payload), 5 + payload;
            if base <= 1024 then n % 256 == 0 && base <= n < base + 256
            else n % 128 == 0 && base <= n < base + 128
  {
  }

  lemma PaddedIs(contentType: byte, payload: bytes)
    requires |payload| <= U32_MAX
    ensures var p := Padded(contentType, payload);
            IsPlaintext(p, contentType, payload) && |p| == PaddedLen(|payload|)
  {
    hide ToBytes, FromBytes, PaddedLen;
    var p := Padded(contentType, payload);
    U32Bytes(|payload|);
    assert p[1..5] == ToBytes(|payload|, 4) && p[5..5 + |payload|] == payload;
    forall i | 5 + |payload| <= i < |p|
      ensures p[i] == 0
    {
      assert p[i] == Zeros(|p| - 5 - |payload|)[i - 5 - |payload|];
    }
  }

  /** A plaintext is accepted exactly when it is one of these, however much padding it carries. */
  lemma ParsesExactly(p: bytes, payload: bytes)
    ensures Parse(p) == Ok(Application(payload)) <==> |payload| <= MAX_PAYLOAD && IsPlaintext(p, 0, payload)
    ensures Parse(p) == Ok(Close) <==> IsPlaintext(p, 1, [])
  {
    hide FromBytes;
  }

  // Nonce, associated data and key.

  function FromLittle(s: bytes): nat {
    if s == [] then 0 else s[0] + 256 * FromLittle(s[1..])
  }

  /** Four zero bytes and the sequence number, least significant byte first (section 2.3 of RFC 8439). */
  predicate IsNonce(n: bytes, sequence: nat) {
    |n| == 12 && n[..4] == [0, 0, 0, 0] && FromLittle(n[4..]) == sequence
  }

  /** "MST5 record", the handshake hash, the record's length and its sequence number. */
  predicate IsAad(a: bytes, hash: bytes, length: nat, sequence: nat) {
    var at := 11 + |hash|;
    && |a| == at + 12
    && a[..11] == [0x4d, 0x53, 0x54, 0x35, 0x20, 0x72, 0x65, 0x63, 0x6f, 0x72, 0x64] && a[11..at] == hash
    && FromBytes(a[at..at + 4]) == length && FromBytes(a[at + 4..]) == sequence
  }

  lemma {:induction false} FromLittleEndian(v: nat, n: nat)
    requires v < Pow256(n)
    ensures FromLittle(LittleEndian(v, n)) == v
  {
    if n > 0 {
      LowByte(v, Pow256(n - 1));
      FromLittleEndian(v / 256, n - 1);
      assert LittleEndian(v, n)[1..] == LittleEndian(v / 256, n - 1);
    }
  }

  lemma NonceIs(sequence: u64)
    ensures IsNonce(AeadNonce(sequence), sequence)
  {
    hide LittleEndian, FromLittle;
    Widths();
    FromLittleEndian(sequence, 8);
    assert AeadNonce(sequence)[4..] == LittleEndian(sequence, 8);
  }

  lemma AadIs(hash: bytes, length: u32, sequence: u64)
    ensures IsAad(RecordAad(hash, length, sequence), hash, length, sequence)
  {
    hide ToBytes, FromBytes;
    var a, at := RecordAad(hash, length, sequence), 11 + |hash|;
    U32Bytes(length);
    U64Bytes(sequence);
    assert a[..11] == LABEL && a[11..at] == hash;
    assert a[at..at + 4] == ToBytes(length, 4) && a[at + 4..] == ToBytes(sequence, 8);
  }

  lemma NoncesDiffer(n: bytes, m: bytes, i: nat, j: nat)
    requires IsNonce(n, i) && IsNonce(m, j) && i != j
    ensures n != m
  {
  }

  /** The key of a generation: each one is derived from the one before it and its own number. */
  function KeyOf(c: Cipher, hash: bytes, key: bytes, generation: nat): bytes {
    if generation == 0 then key
    else c.hkdf(KeyOf(c, hash, key, generation - 1), hash + ToBytes(generation, 8)).0
  }

  lemma CommitKeepsKey(c: Cipher, hash: bytes, key: bytes, st: CipherState, len: nat)
    requires st.key == KeyOf(c, hash, key, st.generation)
    ensures var next := Commit(c, hash, st, len).state; next.key == KeyOf(c, hash, key, next.generation)
  {
  }

  lemma SealKeepsKey(c: Cipher, hash: bytes, key: bytes, st: CipherState, contentType: byte, payload: bytes)
    requires st.key == KeyOf(c, hash, key, st.generation)
    ensures var next := Seal(c, hash, st, contentType, payload).state; next.key == KeyOf(c, hash, key, next.generation)
  {
    hide Commit, Padded, SealedRecord, KeyOf;
    if Sealable(contentType, payload) {
      PaddedLenBound(|payload|);
      CommitKeepsKey(c, hash, key, st, |Padded(contentType, payload)|);
    }
  }

  /** Along every run, failures included, the key is the one of the current generation. */
  lemma {:induction false} KeysFollowGenerations(c: Cipher, hash: bytes, key: bytes, st: CipherState,
                                                 messages: seq<Record>, i: nat)
    requires st.key == KeyOf(c, hash, key, st.generation) && i <= |messages|
    ensures var at := SealStates(c, hash, st, messages)[i]; at.key == KeyOf(c, hash, key, at.generation)
    decreases |messages|
  {
    hide Seal, KeyOf;
    if i > 0 {
      var m := messages[0];
      SealKeepsKey(c, hash, key, st, TypeOf(m), PayloadOf(m));
      KeysFollowGenerations(c, hash, key, Seal(c, hash, st, TypeOf(m), PayloadOf(m)).state, messages[1..], i - 1);
    }
  }

  // Sealing.

  ghost predicate SealedUnder(c: Cipher, hash: bytes, key: bytes, sequence: nat, p: bytes, record: bytes) {
    exists n, a ::
      && IsNonce(n, sequence) && IsAad(a, hash, |record|, sequence)
      && |record| == |p| + 24 && FromBytes(record[..8]) == sequence
      && record[8..] == c.encrypt(key, n, a, p)
  }

  lemma RecordIsSealedUnder(c: Cipher, hash: bytes, key: bytes, sequence: u64, p: bytes)
    requires |p| + 24 <= U32_MAX
    ensures SealedUnder(c, hash, key, sequence, p, SealedRecord(c, hash, key, sequence, p))
  {
    hide ToBytes, FromBytes, IsNonce, IsAad;
    var record := SealedRecord(c, hash, key, sequence, p);
    var n, a := AeadNonce(sequence), RecordAad(hash, |p| + 24, sequence);
    NonceIs(sequence);
    AadIs(hash, |p| + 24, sequence);
    U64Bytes(sequence);
    assert record[..8] == ToBytes(sequence, 8);
    assert record[8..] == c.encrypt(key, n, a, p);
  }

  /** `record` carries message `m` under the key of the generation and the nonce of `st`. */
  ghost predicate Carries(c: Cipher, hash: bytes, key: bytes, st: CipherState, m: Record, record: bytes) {
    exists p ::
      && IsPlaintext(p, TypeOf(m), PayloadOf(m)) && |p| == PaddedLen(|PayloadOf(m)|)
      && SealedUnder(c, hash, KeyOf(c, hash, key, st.generation), st.nonce, p, record)
  }

  lemma SealCarries(c: Cipher, hash: bytes, key: bytes, st: CipherState, m: Record)
    requires st.key == KeyOf(c, hash, key, st.generation)
    requires Seal(c, hash, st, TypeOf(m), PayloadOf(m)).result.Ok?
    ensures Carries(c, hash, key, st, m, Seal(c, hash, st, TypeOf(m), PayloadOf(m)).result.value)
  {
    hide IsPlaintext, SealedUnder, SealedRecord, Padded, PaddedLen, KeyOf, Commit;
    PaddedLenBound(|PayloadOf(m)|);
    var p := Padded(TypeOf(m), PayloadOf(m));
    PaddedIs(TypeOf(m), PayloadOf(m));
    RecordIsSealedUnder(c, hash, st.key, st.nonce, p);
  }

  /**
    Record `i` of every successful run carries message `i` under the key derived for its generation
    and under its own nonce, both of which `Records.RunIsSafe` shows never to repeat together.
  */
  lemma {:induction false} RunCarries(c: Cipher, hash: bytes, key: bytes, st: CipherState, messages: seq<Record>, i: nat)
    requires st.key == KeyOf(c, hash, key, st.generation) && i < |messages|
    requires SealAll(c, hash, st, messages).Ok?
    ensures |SealAll(c, hash, st, messages).value| == |messages|
    ensures Carries(c, hash, key, SealStates(c, hash, st, messages)[i], messages[i],
                    SealAll(c, hash, st, messages).value[i])
    decreases |messages|
  {
    hide Seal, KeyOf, Carries;
    var m := messages[0];
    var first := Seal(c, hash, st, TypeOf(m), PayloadOf(m));
    SealCarries(c, hash, key, st, m);
    SealKeepsKey(c, hash, key, st, TypeOf(m), PayloadOf(m));
    if i > 0 {
      RunCarries(c, hash, key, first.state, messages[1..], i - 1);
    } else if |messages| > 1 {
      RunCarries(c, hash, key, first.state, messages[1..], 0);
    }
  }

  // Opening.

  /** What is opened was authenticated under this state's key and next nonce, and is well formed. */
  ghost predicate OpenedUnder(c: Cipher, hash: bytes, st: CipherState, record: bytes, m: Record) {
    exists n, a, p ::
      && IsNonce(n, st.nonce) && IsAad(a, hash, |record|, st.nonce) && IsPlaintext(p, TypeOf(m), PayloadOf(m))
      && 24 <= |record| && FromBytes(record[..8]) == st.nonce
      && c.decrypt(st.key, n, a, record[8..]) == Option.Some(p)
  }

  /** The opener delivers nothing that is not authentic, in sequence and within the limits. */
  lemma OpensOnlyAuthenticated(c: Cipher, hash: bytes, st: CipherState, record: bytes)
    requires Open(c, hash, st, record).result.Ok?
    ensures OpenedUnder(c, hash, st, record, Open(c, hash, st, record).result.value)
    ensures |record| <= MAX_RECORD_LEN && st.nonce < 0x10_0000 && st.count + |record| - 24 <= 0x4000_0000
  {
    hide FromBytes, IsNonce, IsAad, IsPlaintext, Parse, Commit;
    var m := Open(c, hash, st, record).result.value;
    var n, a := AeadNonce(st.nonce), RecordAad(hash, |record|, st.nonce);
    NonceIs(st.nonce);
    AadIs(hash, |record|, st.nonce);
    var p := UnsealedRecord(c, hash, st.key, st.nonce, record).value;
    ParsesExactly(p, PayloadOf(m));
    assert c.decrypt(st.key, n, a, record[8..]) == Option.Some(p);
  }

  /** A refused record changes nothing, unless the cipher itself is exhausted. */
  lemma RefusalChangesNothing(c: Cipher, hash: bytes, st: CipherState, record: bytes)
    requires Bounded(st) && st.generation < U64_MAX && Open(c, hash, st, record).result.Err?
    ensures Open(c, hash, st, record).state == st
  {
    hide FromBytes, Parse, UnsealedRecord;
  }

  /** A record with any other sequence number is refused: none is skipped, repeated or reordered. */
  lemma OutOfSequenceIsRefused(c: Cipher, hash: bytes, st: CipherState, record: bytes)
    requires |record| >= 8 && FromBytes(record[..8]) != st.nonce
    ensures Open(c, hash, st, record).result.Err?
  {
  }

  /** What every state between records satisfies, besides its bounds: only records add bytes. */
  predicate Started(st: CipherState) {
    Bounded(st) && (st.nonce == 0 ==> st.count == 0)
  }

  /** A record that was accepted once is refused if it comes again at once. */
  lemma ReplayIsRefused(c: Cipher, hash: bytes, st: CipherState, record: bytes)
    requires Started(st) && Open(c, hash, st, record).result.Ok?
    ensures var next := Open(c, hash, st, record).state;
            Started(next) && Open(c, hash, next, record).result.Err?
  {
    hide FromBytes, Parse;
    var next := Open(c, hash, st, record).state;
    assert next.nonce != st.nonce;
    OutOfSequenceIsRefused(c, hash, next, record);
    hide Open;
  }
}
