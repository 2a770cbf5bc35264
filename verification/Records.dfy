/** The encrypted record layer of `src/lib.rs`: padding, sequence numbers and rekeying. */
module Records {
  import opened Bytes
  import opened Crypto

  const MAX_PAYLOAD: nat := 20 * 1024 * 1024
  const MAX_RECORDS: nat := 0x10_0000
  const MAX_BYTES: nat := 0x4000_0000
  const REKEY_RECORDS: nat := 0x4_0000
  const REKEY_BYTES: nat := 0x1000_0000
  const LABEL: bytes := [0x4d, 0x53, 0x54, 0x35, 0x20, 0x72, 0x65, 0x63, 0x6f, 0x72, 0x64]  // "MST5 record"

  // Transport plaintext: content type, length, payload and zero padding.

  datatype Record = Application(payload: bytes) | Close

  function PaddedLen(payload: nat): (n: nat)
    ensures 5 + payload <= n && n % 128 == 0
  {
    var base := 5 + payload;
    var block := if base <= 1024 then 256 else 128;
    (base + block - 1) / block * block
  }

  /** The longest record: an 8-byte sequence number, the largest padded plaintext and a tag. */
  const MAX_RECORD_LEN: nat := 8 + (5 + MAX_PAYLOAD + 127) / 128 * 128 + TAG_LEN

  lemma PaddedLenBound(payload: nat)
    requires payload <= MAX_PAYLOAD
    ensures 8 + PaddedLen(payload) + TAG_LEN <= MAX_RECORD_LEN
  {
  }

  function Padded(contentType: byte, payload: bytes): (p: bytes)
    requires |payload| <= U32_MAX
    ensures |p| == PaddedLen(|payload|)
  {
    [contentType] + ToBytes(|payload|, 4) + payload + Zeros(PaddedLen(|payload|) - 5 - |payload|)
  }

  predicate Sealable(contentType: byte, payload: bytes) {
    (contentType == 0 || (contentType == 1 && payload == [])) && |payload| <= MAX_PAYLOAD
  }

  function Parse(p: bytes): Result<Record> {
    if |p| < 5 then Err else
      var len := FromBytes(p[1..5]);
      if len > MAX_PAYLOAD || 5 + len > |p| then Err
      else if exists i :: 5 + len <= i < |p| && p[i] != 0 then Err
      else if p[0] == 0 then Ok(Application(p[5..5 + len]))
      else if p[0] == 1 && len == 0 then Ok(Close)
      else Err
  }

  function Meant(contentType: byte, payload: bytes): Record {
    if contentType == 0 then Application(payload) else Close
  }

  /** Padding is undone by parsing. */
  lemma ParseOfPadded(contentType: byte, payload: bytes)
    requires Sealable(contentType, payload)
    ensures Parse(Padded(contentType, payload)) == Ok(Meant(contentType, payload))
  {
    var p := Padded(contentType, payload);
    assert p[1..5] == ToBytes(|payload|, 4);
    U32Bytes(|payload|);
    assert p[5..5 + |payload|] == payload;
    assert forall i :: 5 + |payload| <= i < |p| ==> p[i] == Zeros(|p| - 5 - |payload|)[i - 5 - |payload|];
  }

  // Cipher states.

  datatype CipherState = CipherState(key: bytes, nonce: u64, count: u64, generation: u64)

  function FreshCipher(key: bytes): CipherState {
    CipherState(key, 0, 0, 0)
  }

  predicate WithinLimit(st: CipherState, len: nat) {
    st.nonce < MAX_RECORDS && st.count + len <= MAX_BYTES
  }

  /** `commit`: counts a record and rekeys deterministically at a threshold. */
  function Commit(c: Cipher, hash: bytes, st: CipherState, len: nat): (r: Outcome<CipherState, ()>)
    ensures r.result.Ok? ==> r.state.nonce == st.nonce + 1 || r.state.nonce == 0
  {
    if st.count + len > U64_MAX then Outcome(st, Err) else
      var st1 := st.(count := st.count + len);
      if st.nonce == U64_MAX then Outcome(st1, Err) else
        var st2 := st1.(nonce := st.nonce + 1);
        if st2.nonce < REKEY_RECORDS && st2.count < REKEY_BYTES then Outcome(st2, Ok(()))
        else if st.generation == U64_MAX then Outcome(st2, Err)
        else
          var generation := st.generation + 1;
          Outcome(CipherState(c.hkdf(st.key, hash + ToBytes(generation, 8)).0, 0, 0, generation), Ok(()))
  }

  // Sealing and opening one record.

  function AeadNonce(sequence: u64): (n: bytes)
    ensures |n| == 12
  {
    Zeros(4) + LittleEndian(sequence, 8)
  }

  function LittleEndian(v: nat, n: nat): (s: bytes)
    ensures |s| == n
  {
    if n == 0 then [] else [v % 256] + LittleEndian(v / 256, n - 1)
  }

  function RecordAad(hash: bytes, length: u32, sequence: u64): bytes {
    LABEL + hash + ToBytes(length, 4) + ToBytes(sequence, 8)
  }

  /** The record that carries plaintext `p` under sequence number `st.nonce`. */
  function SealedRecord(c: Cipher, hash: bytes, key: bytes, sequence: u64, p: bytes): (record: bytes)
    requires |p| + 24 <= U32_MAX
    ensures |record| == |p| + 24
  {
    ToBytes(sequence, 8) + Encrypt(c, key, AeadNonce(sequence), RecordAad(hash, |p| + 24, sequence), p)
  }

  /** `Session::seal_record`. */
  function Seal(c: Cipher, hash: bytes, st: CipherState, contentType: byte, payload: bytes)
    : Outcome<CipherState, bytes>
  {
    if !Sealable(contentType, payload) then Outcome(st, Err) else
      PaddedLenBound(|payload|);
      var p := Padded(contentType, payload);
      if !WithinLimit(st, |p|) then Outcome(st, Err) else
        var record := SealedRecord(c, hash, st.key, st.nonce, p);
        var done := Commit(c, hash, st, |p|);
        Outcome(done.state, if done.result.Ok? then Ok(record) else Err)
  }

  function UnsealedRecord(c: Cipher, hash: bytes, key: bytes, sequence: u64, record: bytes): (p: Option<bytes>)
    requires 24 <= |record| <= U32_MAX
    ensures p.Some? ==> |p.value| == |record| - 24
  {
    Decrypt(c, key, AeadNonce(sequence), RecordAad(hash, |record|, sequence), record[8..])
  }

  /** `Session::open_record`. */
  function Open(c: Cipher, hash: bytes, st: CipherState, record: bytes): Outcome<CipherState, Record> {
    if |record| < 24 || |record| > MAX_RECORD_LEN then Outcome(st, Err)
    else if FromBytes(record[..8]) != st.nonce then Outcome(st, Err)
    else if !WithinLimit(st, |record| - 24) then Outcome(st, Err)
    else
      match UnsealedRecord(c, hash, st.key, st.nonce, record)
      case None => Outcome(st, Err)
      case Some(p) =>
        match Parse(p)
        case Err => Outcome(st, Err)
        case Ok(decoded) =>
          var done := Commit(c, hash, st, |p|);
          Outcome(done.state, if done.result.Ok? then Ok(decoded) else Err)
  }

  lemma UnsealedOfSealed(c: Cipher, hash: bytes, key: bytes, sequence: u64, p: bytes)
    requires |p| + 24 <= U32_MAX
    ensures UnsealedRecord(c, hash, key, sequence, SealedRecord(c, hash, key, sequence, p)) == Some(p)
    ensures FromBytes(SealedRecord(c, hash, key, sequence, p)[..8]) == sequence
  {
    var record := SealedRecord(c, hash, key, sequence, p);
    U64Bytes(sequence);
    assert record[..8] == ToBytes(sequence, 8);
    assert record[8..] == Encrypt(c, key, AeadNonce(sequence), RecordAad(hash, |p| + 24, sequence), p);
  }

  /** From equal states, the opener accepts what the sealer emits and ends in the sealer's state. */
  lemma OpenOfSeal(c: Cipher, hash: bytes, st: CipherState, contentType: byte, payload: bytes)
    requires Seal(c, hash, st, contentType, payload).result.Ok?
    ensures var sealed := Seal(c, hash, st, contentType, payload);
            && 24 <= |sealed.result.value| <= MAX_RECORD_LEN
            && Open(c, hash, st, sealed.result.value) == Outcome(sealed.state, Ok(Meant(contentType, payload)))
  {
    PaddedLenBound(|payload|);
    UnsealedOfSealed(c, hash, st.key, st.nonce, Padded(contentType, payload));
    ParseOfPadded(contentType, payload);
  }

  // Runs.

  /** What holds of a cipher state between records. */
  predicate Bounded(st: CipherState) {
    st.nonce < 0x4_0000 && st.count < 0x1000_0000
  }

  /** The record that the sealer would commit next crosses a rekeying threshold. */
  predicate Rekeys(st: CipherState, len: nat) {
    st.nonce + 1 == 0x4_0000 || st.count + len >= 0x1000_0000
  }

  predicate LexLess(a: CipherState, b: CipherState) {
    a.generation < b.generation || (a.generation == b.generation && a.nonce < b.nonce)
  }

  /**
    One step of a run: the limit check never refuses, the bounds hold again, the pair of generation
    and nonce moves up, and sealing fails only when a rekey would overflow the generation.
  */
  lemma SealKeepsBounds(c: Cipher, hash: bytes, st: CipherState, contentType: byte, payload: bytes)
    requires Bounded(st) && Sealable(contentType, payload)
    ensures var r := Seal(c, hash, st, contentType, payload);
            var len := PaddedLen(|payload|);
            && WithinLimit(st, len)
            && (r.result.Ok? <==> !(st.generation == U64_MAX && Rekeys(st, len)))
            && (r.result.Ok? ==> Bounded(r.state) && LexLess(st, r.state))
            && (r.result.Ok? ==> r.state.generation == st.generation + (if Rekeys(st, len) then 1 else 0))
  {
    PaddedLenBound(|payload|);
  }

  /** The state that a sealed record leaves behind, short of the last generation. */
  lemma SealMoves(c: Cipher, hash: bytes, st: CipherState, contentType: byte, payload: bytes)
    requires Bounded(st) && Sealable(contentType, payload) && st.generation < U64_MAX
    ensures var next, len := Seal(c, hash, st, contentType, payload).state, PaddedLen(|payload|);
            if Rekeys(st, len) then next.nonce == 0 && next.count == 0 && next.generation == st.generation + 1
            else next == st.(nonce := st.nonce + 1, count := st.count + len)
  {
    PaddedLenBound(|payload|);
    hide Padded, PaddedLen, SealedRecord;
  }

  /** The sealer's states along a run: before each record, and after the last. */
  function SealStates(c: Cipher, hash: bytes, st: CipherState, messages: seq<Record>): (states: seq<CipherState>)
    ensures |states| == |messages| + 1 && states[0] == st
    decreases |messages|
  {
    if messages == [] then [st] else
      [st] + SealStates(c, hash, Seal(c, hash, st, TypeOf(messages[0]), PayloadOf(messages[0])).state, messages[1..])
  }

  function TypeOf(m: Record): byte { if m.Application? then 0 else 1 }

  function PayloadOf(m: Record): bytes { if m.Application? then m.payload else [] }

  predicate AllSealable(messages: seq<Record>) {
    forall i :: 0 <= i < |messages| ==> Sealable(TypeOf(messages[i]), PayloadOf(messages[i]))
  }

  /** The records of a run, or the first failure. */
  function SealAll(c: Cipher, hash: bytes, st: CipherState, messages: seq<Record>): Result<seq<bytes>>
    decreases |messages|
  {
    if messages == [] then Ok([]) else
      var first := Seal(c, hash, st, TypeOf(messages[0]), PayloadOf(messages[0]));
      if first.result.Err? then Err else
        match SealAll(c, hash, first.state, messages[1..])
        case Err => Err
        case Ok(rest) => Ok([first.result.value] + rest)
  }

  function OpenAll(c: Cipher, hash: bytes, st: CipherState, records: seq<bytes>): Outcome<CipherState, seq<Record>>
    decreases |records|
  {
    if records == [] then Outcome(st, Ok([])) else
      var first := Open(c, hash, st, records[0]);
      if first.result.Err? then Outcome(first.state, Err) else
        var rest := OpenAll(c, hash, first.state, records[1..]);
        Outcome(rest.state, if rest.result.Err? then Err else Ok([first.result.value] + rest.result.value))
  }

  /** Both ends stay in lockstep over a whole run, across any number of rekeys. */
  lemma {:induction false} Lockstep(c: Cipher, hash: bytes, st: CipherState, messages: seq<Record>)
    requires SealAll(c, hash, st, messages).Ok?
    ensures var records := SealAll(c, hash, st, messages).value;
            && OpenAll(c, hash, st, records)
            == Outcome(SealStates(c, hash, st, messages)[|messages|], Ok(messages))
            && |records| == |messages|
            && forall i :: 0 <= i < |records| ==> 24 <= |records[i]| <= MAX_RECORD_LEN
    decreases |messages|
  {
    hide Seal, Open;
    if messages != [] {
      var m := messages[0];
      OpenOfSeal(c, hash, st, TypeOf(m), PayloadOf(m));
      var first := Seal(c, hash, st, TypeOf(m), PayloadOf(m));
      Lockstep(c, hash, first.state, messages[1..]);
      var records := SealAll(c, hash, st, messages).value;
      assert records[1..] == SealAll(c, hash, first.state, messages[1..]).value;
      assert messages == [m] + messages[1..];
    }
  }

  /** Bounded throughout, and always moving up. */
  ghost predicate SafeTrace(states: seq<CipherState>) {
    && (forall i :: 0 <= i < |states| ==> Bounded(states[i]))
    && (forall i, j :: 0 <= i < j < |states| ==> LexLess(states[i], states[j]))
  }

  lemma SealedIsSealable(c: Cipher, hash: bytes, st: CipherState, contentType: byte, payload: bytes)
    requires Seal(c, hash, st, contentType, payload).result.Ok?
    ensures Sealable(contentType, payload)
  {
  }

  /**
    Every run from a bounded state stays bounded and never uses the same pair of generation and
    nonce twice; it succeeds unless it is long enough to exhaust the generation.
  */
  lemma {:induction false} RunIsSafe(c: Cipher, hash: bytes, st: CipherState, messages: seq<Record>)
    requires Bounded(st)
    ensures SealAll(c, hash, st, messages).Ok? ==> SafeTrace(SealStates(c, hash, st, messages))
    ensures AllSealable(messages) && st.generation + |messages| <= U64_MAX ==> SealAll(c, hash, st, messages).Ok?
    decreases |messages|
  {
    hide Seal, Sealable, SafeTrace;
    if messages == [] {
      SafeStart(st);
    } else {
      var m := messages[0];
      var first := Seal(c, hash, st, TypeOf(m), PayloadOf(m));
      if first.result.Ok? {
        SealedIsSealable(c, hash, st, TypeOf(m), PayloadOf(m));
      }
      if Sealable(TypeOf(m), PayloadOf(m)) {
        SealKeepsBounds(c, hash, st, TypeOf(m), PayloadOf(m));
        if first.result.Ok? {
          RunIsSafe(c, hash, first.state, messages[1..]);
          SafeStep(st, SealStates(c, hash, first.state, messages[1..]));
        }
      }
    }
  }

  lemma SafeStart(st: CipherState)
    requires Bounded(st)
    ensures SafeTrace([st])
  {
  }

  lemma SafeStep(st: CipherState, rest: seq<CipherState>)
    requires Bounded(st) && rest != [] && LexLess(st, rest[0])
    ensures SafeTrace(rest) ==> SafeTrace([st] + rest)
  {
    var states := [st] + rest;
    if SafeTrace(rest) {
      forall i, j | 0 <= i < j < |states|
        ensures LexLess(states[i], states[j])
      {
        assert states[j] == rest[j - 1];
        if i == 0 {
          assert j == 1 || LexLess(rest[0], rest[j - 1]);
        } else {
          assert states[i] == rest[i - 1];
        }
      }
    }
  }

  /** From a fresh key, any run of fewer than 2^64 sealable messages arrives intact. */
  lemma FreshRun(c: Cipher, hash: bytes, key: bytes, messages: seq<Record>)
    requires AllSealable(messages) && |messages| <= U64_MAX
    ensures var sealed := SealAll(c, hash, FreshCipher(key), messages);
            sealed.Ok? && OpenAll(c, hash, FreshCipher(key), sealed.value).result == Ok(messages)
  {
    RunIsSafe(c, hash, FreshCipher(key), messages);
    Lockstep(c, hash, FreshCipher(key), messages);
  }
}
