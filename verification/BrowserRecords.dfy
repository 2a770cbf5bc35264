/**
  The browser's record layer of `wasm/src/lib.rs`, which counts records but never rekeys, compared
  with the native one.
*/
module BrowserRecords {
  import opened Bytes
  import opened Crypto
  import opened Records

  datatype BrowserCipher = BrowserCipher(key: bytes, nonce: u64)

  /** The longest record that the browser reads from its tunnel. */
  const MAX_BROWSER_RECORD: nat := 4 * 1024 * 1024 + 512

  function BrowserSeal(c: Cipher, hash: bytes, st: BrowserCipher, payload: bytes): Outcome<BrowserCipher, bytes> {
    if PaddedLen(|payload|) + 24 > U32_MAX || st.nonce == U64_MAX then Outcome(st, Err) else
      Outcome(st.(nonce := st.nonce + 1), Ok(SealedRecord(c, hash, st.key, st.nonce, Padded(0, payload))))
  }

  /** The checks on an opened plaintext: content type, length and zero padding. */
  function BrowserParse(p: bytes): Result<bytes> {
    if |p| < 5 || p[0] != 0 then Err else
      var len := FromBytes(p[1..5]);
      if 5 + len > |p| then Err
      else if exists i :: 5 + len <= i < |p| && p[i] != 0 then Err
      else Ok(p[5..5 + len])
  }

  /** The nonce advances as soon as the record authenticates. */
  function BrowserOpen(c: Cipher, hash: bytes, st: BrowserCipher, record: bytes): Outcome<BrowserCipher, bytes> {
    if |record| < 24 || FromBytes(record[..8]) != st.nonce || |record| > U32_MAX then Outcome(st, Err) else
      match UnsealedRecord(c, hash, st.key, st.nonce, record)
      case None => Outcome(st, Err)
      case Some(p) =>
        if st.nonce == U64_MAX then Outcome(st, Err) else
          Outcome(st.(nonce := st.nonce + 1), BrowserParse(p))
  }

  /** `read_record`, which checks the length before it opens the record. */
  function BrowserReceive(c: Cipher, hash: bytes, st: BrowserCipher, record: bytes): Outcome<BrowserCipher, bytes> {
    if |record| > MAX_BROWSER_RECORD then Outcome(st, Err) else BrowserOpen(c, hash, st, record)
  }

  function BrowserOpenAll(c: Cipher, hash: bytes, st: BrowserCipher, records: seq<bytes>): Result<seq<bytes>>
    decreases |records|
  {
    if records == [] then Ok([]) else
      var first := BrowserReceive(c, hash, st, records[0]);
      if first.result.Err? then Err else
        match BrowserOpenAll(c, hash, first.state, records[1..])
        case Err => Err
        case Ok(rest) => Ok([first.result.value] + rest)
  }

  // Emission: one run of payloads through both layers, from the same fresh key.

  /** The native sealer's state before payload `i`. */
  function NativeAt(c: Cipher, hash: bytes, key: bytes, payloads: seq<bytes>, i: nat): CipherState
    requires i <= |payloads|
  {
    if i == 0 then FreshCipher(key)
    else Seal(c, hash, NativeAt(c, hash, key, payloads, i - 1), 0, payloads[i - 1]).state
  }

  /** The browser sealer's state before payload `i`. */
  function BrowserAt(c: Cipher, hash: bytes, key: bytes, payloads: seq<bytes>, i: nat): BrowserCipher
    requires i <= |payloads|
  {
    if i == 0 then BrowserCipher(key, 0)
    else BrowserSeal(c, hash, BrowserAt(c, hash, key, payloads, i - 1), payloads[i - 1]).state
  }

  /** The padded plaintext bytes of the first `i` payloads. */
  function Total(payloads: seq<bytes>, i: nat): nat
    requires i <= |payloads|
  {
    if i == 0 then 0 else Total(payloads, i - 1) + PaddedLen(|payloads[i - 1]|)
  }

  /** No record before `i` reached a rekeying threshold. */
  predicate BeforeRekey(payloads: seq<bytes>, i: nat)
    requires i <= |payloads|
  {
    i < 0x4_0000 && Total(payloads, i) < 0x1000_0000
  }

  predicate AllFit(payloads: seq<bytes>) {
    |payloads| < U64_MAX && forall i :: 0 <= i < |payloads| ==> |payloads[i]| <= MAX_PAYLOAD
  }

  lemma {:induction false} NativeStateCompared(c: Cipher, hash: bytes, key: bytes, payloads: seq<bytes>, i: nat)
    requires AllFit(payloads) && i <= |payloads|
    ensures var st := NativeAt(c, hash, key, payloads, i);
            && Bounded(st) && st.generation <= i
            && if BeforeRekey(payloads, i)
               then st == CipherState(key, i, Total(payloads, i), 0)
               else st.nonce < i
  {
    hide Seal, PaddedLen;
    if i > 0 {
      var st, payload := NativeAt(c, hash, key, payloads, i - 1), payloads[i - 1];
      NativeStateCompared(c, hash, key, payloads, i - 1);
      SealKeepsBounds(c, hash, st, 0, payload);
      SealMoves(c, hash, st, 0, payload);
    }
  }

  lemma {:induction false} BrowserCounts(c: Cipher, hash: bytes, key: bytes, payloads: seq<bytes>, i: nat)
    requires AllFit(payloads) && i <= |payloads|
    ensures BrowserAt(c, hash, key, payloads, i) == BrowserCipher(key, i)
  {
    if i > 0 {
      BrowserCounts(c, hash, key, payloads, i - 1);
      PaddedLenBound(|payloads[i - 1]|);
    }
  }

  /** Record `i` of either side. */
  function NativeRecord(c: Cipher, hash: bytes, key: bytes, payloads: seq<bytes>, i: nat): Result<bytes>
    requires i < |payloads|
  {
    Seal(c, hash, NativeAt(c, hash, key, payloads, i), 0, payloads[i]).result
  }

  function BrowserRecord(c: Cipher, hash: bytes, key: bytes, payloads: seq<bytes>, i: nat): Result<bytes>
    requires i < |payloads|
  {
    BrowserSeal(c, hash, BrowserAt(c, hash, key, payloads, i), payloads[i]).result
  }

  /** Both records exist, are equally long, and start with the two record numbers. */
  lemma RecordsCompared(c: Cipher, hash: bytes, key: bytes, payloads: seq<bytes>, i: nat)
    requires AllFit(payloads) && i < |payloads|
    ensures var native, browser := NativeRecord(c, hash, key, payloads, i), BrowserRecord(c, hash, key, payloads, i);
            var st, p := NativeAt(c, hash, key, payloads, i), Padded(0, payloads[i]);
            && |p| + 24 <= MAX_RECORD_LEN
            && native == Ok(SealedRecord(c, hash, st.key, st.nonce, p))
            && browser == Ok(SealedRecord(c, hash, key, i, p))
            && FromBytes(native.value[..8]) == st.nonce && FromBytes(browser.value[..8]) == i
            && (st.nonce == i <==> BeforeRekey(payloads, i))
  {
    var st, p := NativeAt(c, hash, key, payloads, i), Padded(0, payloads[i]);
    NativeStateCompared(c, hash, key, payloads, i);
    BrowserCounts(c, hash, key, payloads, i);
    SealKeepsBounds(c, hash, st, 0, payloads[i]);
    PaddedLenBound(|payloads[i]|);
    UnsealedOfSealed(c, hash, st.key, st.nonce, p);
    UnsealedOfSealed(c, hash, key, i, p);
    hide SealedRecord, UnsealedRecord, NativeAt, BrowserAt, Total, Padded;
  }

  /**
    The exact boundary: record `i` is the same on both sides if and only if no earlier record reached
    2^18 records or 256 MiB; past it the sequence number in front of it already differs.
  */
  lemma AgreeExactlyBeforeRekey(c: Cipher, hash: bytes, key: bytes, payloads: seq<bytes>, i: nat)
    requires AllFit(payloads) && i < |payloads|
    ensures var native, browser := NativeRecord(c, hash, key, payloads, i), BrowserRecord(c, hash, key, payloads, i);
            && native.Ok? && browser.Ok?
            && (native == browser <==> BeforeRekey(payloads, i))
            && (native.value[..8] == browser.value[..8] <==> BeforeRekey(payloads, i))
  {
    RecordsCompared(c, hash, key, payloads, i);
    NativeStateCompared(c, hash, key, payloads, i);
    hide SealedRecord, NativeAt, NativeRecord, BrowserRecord, Total, Padded;
  }

  /** Whether the browser takes native record `i`. */
  predicate Readable(payloads: seq<bytes>, i: nat)
    requires i < |payloads|
  {
    BeforeRekey(payloads, i) && PaddedLen(|payloads[i]|) + 24 <= 0x40_0200
  }

  predicate AllShort(payloads: seq<bytes>) {
    forall i :: 0 <= i < |payloads| ==> PaddedLen(|payloads[i]|) + 24 <= 0x40_0200
  }

  lemma BrowserReceivesNative(c: Cipher, hash: bytes, key: bytes, payloads: seq<bytes>, i: nat)
    requires AllFit(payloads) && i < |payloads|
    ensures var native := NativeRecord(c, hash, key, payloads, i);
            && native.Ok?
            && var got := BrowserReceive(c, hash, BrowserCipher(key, i), native.value);
               if Readable(payloads, i) then got == Outcome(BrowserCipher(key, i + 1), Ok(payloads[i])) else got.result.Err?
  {
    hide SealedRecord, UnsealedRecord, NativeAt, NativeRecord, BrowserRecord, Total, Padded, PaddedLen, Parse, BrowserParse;
    RecordsCompared(c, hash, key, payloads, i);
    var p := Padded(0, payloads[i]);
    UnsealedOfSealed(c, hash, key, i, p);
    NativeStateCompared(c, hash, key, payloads, i);
    ParseOfPadded(0, payloads[i]);
    PaddedIsParsable(payloads[i]);
    BrowserParseIsParse(p);
  }

  lemma PaddedIsParsable(payload: bytes)
    requires |payload| <= MAX_PAYLOAD
    ensures var p := Padded(0, payload); |p| >= 5 && FromBytes(p[1..5]) <= MAX_PAYLOAD
  {
    var p := Padded(0, payload);
    assert p[1..5] == ToBytes(|payload|, 4);
    U32Bytes(|payload|);
  }

  lemma NativeReceivesBrowser(c: Cipher, hash: bytes, key: bytes, payloads: seq<bytes>, i: nat)
    requires AllFit(payloads) && i < |payloads|
    ensures var browser := BrowserRecord(c, hash, key, payloads, i);
            && browser.Ok?
            && var got := Open(c, hash, NativeAt(c, hash, key, payloads, i), browser.value);
               if BeforeRekey(payloads, i)
               then got == Outcome(NativeAt(c, hash, key, payloads, i + 1), Ok(Application(payloads[i])))
               else got.result.Err?
  {
    RecordsCompared(c, hash, key, payloads, i);
    AgreeExactlyBeforeRekey(c, hash, key, payloads, i);
    var st := NativeAt(c, hash, key, payloads, i);
    assert NativeAt(c, hash, key, payloads, i + 1) == Seal(c, hash, st, 0, payloads[i]).state;
    OpenOfSeal(c, hash, st, 0, payloads[i]);
    hide SealedRecord, NativeAt, BrowserRecord, BrowserAt, Total, Padded, Seal, UnsealedRecord, Parse;
  }

  // Whole runs across: each side reads the other's records, from the same fresh key.

  ghost predicate NativeRun(c: Cipher, hash: bytes, key: bytes, payloads: seq<bytes>, records: seq<bytes>) {
    && |records| == |payloads|
    && forall i :: 0 <= i < |payloads| ==> NativeRecord(c, hash, key, payloads, i) == Ok(records[i])
  }

  ghost predicate BrowserRun(c: Cipher, hash: bytes, key: bytes, payloads: seq<bytes>, records: seq<bytes>) {
    && |records| == |payloads|
    && forall i :: 0 <= i < |payloads| ==> BrowserRecord(c, hash, key, payloads, i) == Ok(records[i])
  }

  /** Both sides can send every payload. */
  lemma RunsExist(c: Cipher, hash: bytes, key: bytes, payloads: seq<bytes>)
    returns (native: seq<bytes>, browser: seq<bytes>)
    requires AllFit(payloads)
    ensures NativeRun(c, hash, key, payloads, native) && BrowserRun(c, hash, key, payloads, browser)
  {
    hide NativeRecord, BrowserRecord;
    forall i | 0 <= i < |payloads|
      ensures NativeRecord(c, hash, key, payloads, i).Ok? && BrowserRecord(c, hash, key, payloads, i).Ok?
    {
      AgreeExactlyBeforeRekey(c, hash, key, payloads, i);
    }
    native := seq(|payloads|, i requires 0 <= i < |payloads| => NativeRecord(c, hash, key, payloads, i).value);
    browser := seq(|payloads|, i requires 0 <= i < |payloads| => BrowserRecord(c, hash, key, payloads, i).value);
  }

  lemma {:induction false} BrowserReadsFrom(c: Cipher, hash: bytes, key: bytes, payloads: seq<bytes>,
                                            records: seq<bytes>, j: nat)
    requires AllFit(payloads) && NativeRun(c, hash, key, payloads, records) && j <= |payloads|
    ensures BrowserOpenAll(c, hash, BrowserCipher(key, j), records[j..])
         == if forall i :: j <= i < |payloads| ==> Readable(payloads, i) then Ok(payloads[j..]) else Err
    decreases |payloads| - j
  {
    hide BrowserReceive, NativeRecord, Readable;
    if j < |payloads| {
      BrowserReceivesNative(c, hash, key, payloads, j);
      BrowserReadsFrom(c, hash, key, payloads, records, j + 1);
      assert records[j..][0] == records[j] && records[j..][1..] == records[j + 1..];
      assert payloads[j..] == [payloads[j]] + payloads[j + 1..];
      assert (forall i :: j <= i < |payloads| ==> Readable(payloads, i))
        <==> Readable(payloads, j) && forall i :: j + 1 <= i < |payloads| ==> Readable(payloads, i);
    }
  }

  lemma {:induction false} NativeReadsFrom(c: Cipher, hash: bytes, key: bytes, payloads: seq<bytes>,
                                           records: seq<bytes>, j: nat)
    requires AllFit(payloads) && BrowserRun(c, hash, key, payloads, records) && j <= |payloads|
    ensures OpenAll(c, hash, NativeAt(c, hash, key, payloads, j), records[j..]).result
         == if forall i :: j <= i < |payloads| ==> BeforeRekey(payloads, i) then Ok(Applications(payloads[j..])) else Err
    decreases |payloads| - j
  {
    hide Open, BrowserRecord, NativeAt, BeforeRekey;
    if j < |payloads| {
      NativeReceivesBrowser(c, hash, key, payloads, j);
      NativeReadsFrom(c, hash, key, payloads, records, j + 1);
      assert records[j..][0] == records[j] && records[j..][1..] == records[j + 1..];
      assert Applications(payloads[j..]) == [Application(payloads[j])] + Applications(payloads[j + 1..]);
      assert (forall i :: j <= i < |payloads| ==> BeforeRekey(payloads, i))
        <==> BeforeRekey(payloads, j) && forall i :: j + 1 <= i < |payloads| ==> BeforeRekey(payloads, i);
    }
  }

  lemma {:induction false} TotalGrows(payloads: seq<bytes>, i: nat, j: nat)
    requires i <= j <= |payloads|
    ensures Total(payloads, i) <= Total(payloads, j)
    decreases j
  {
    if i < j {
      TotalGrows(payloads, i, j - 1);
    }
  }

  /** The records of a run up to its last one are before the rekey if the last one is. */
  lemma BeforeRekeyAll(payloads: seq<bytes>)
    requires payloads != []
    ensures BeforeRekey(payloads, |payloads| - 1) <==> forall i :: 0 <= i < |payloads| ==> BeforeRekey(payloads, i)
  {
    forall i | 0 <= i < |payloads|
      ensures BeforeRekey(payloads, |payloads| - 1) ==> BeforeRekey(payloads, i)
    {
      TotalGrows(payloads, i, |payloads| - 1);
    }
    hide Total;
  }

  lemma ReadableAll(payloads: seq<bytes>)
    ensures (forall i :: 0 <= i < |payloads| ==> Readable(payloads, i))
       <==> (forall i :: 0 <= i < |payloads| ==> BeforeRekey(payloads, i)) && AllShort(payloads)
  {
    hide BeforeRekey, PaddedLen;
    if forall i :: 0 <= i < |payloads| ==> Readable(payloads, i) {
      forall i | 0 <= i < |payloads|
        ensures BeforeRekey(payloads, i) && PaddedLen(|payloads[i]|) + 24 <= 0x40_0200
      {
        assert Readable(payloads, i);
      }
    }
  }

  /**
    Over whole runs: the native side reads the browser's records exactly when the last one is still
    before the rekey, and the browser reads the native ones exactly when none is, besides, longer
    than it takes.
  */
  lemma RunsCrossExactly(c: Cipher, hash: bytes, key: bytes, payloads: seq<bytes>,
                         native: seq<bytes>, browser: seq<bytes>)
    requires AllFit(payloads) && payloads != []
    requires NativeRun(c, hash, key, payloads, native) && BrowserRun(c, hash, key, payloads, browser)
    ensures OpenAll(c, hash, FreshCipher(key), browser).result
         == if BeforeRekey(payloads, |payloads| - 1) then Ok(Applications(payloads)) else Err
    ensures BrowserOpenAll(c, hash, BrowserCipher(key, 0), native)
         == if BeforeRekey(payloads, |payloads| - 1) && AllShort(payloads) then Ok(payloads) else Err
  {
    assert NativeAt(c, hash, key, payloads, 0) == FreshCipher(key);
    BeforeRekeyAll(payloads);
    ReadableAll(payloads);
    hide NativeAt, BeforeRekey, Readable, AllShort, NativeRun, BrowserRun, BrowserOpenAll, OpenAll;
    NativeReadsFrom(c, hash, key, payloads, browser, 0);
    BrowserReadsFrom(c, hash, key, payloads, native, 0);
    assert payloads[0..] == payloads;
    RunLengths(c, hash, key, payloads, native, browser);
    assert native[0..] == native && browser[0..] == browser;
  }

  lemma RunLengths(c: Cipher, hash: bytes, key: bytes, payloads: seq<bytes>,
                   native: seq<bytes>, browser: seq<bytes>)
    requires NativeRun(c, hash, key, payloads, native) && BrowserRun(c, hash, key, payloads, browser)
    ensures |native| == |payloads| == |browser|
  {
  }

  /** The two plaintext checks differ only on closes and on payloads beyond the native limit. */
  lemma BrowserParseIsParse(p: bytes)
    requires |p| <= 5 + MAX_PAYLOAD
          || (|p| >= 5 && FromBytes(p[1..5]) <= MAX_PAYLOAD)
    ensures BrowserParse(p) == match Parse(p)
                               case Ok(Application(payload)) => Ok(payload)
                               case _ => Err
  {
  }

  // Acceptance: one run of incoming records, well formed or not, through both layers.

  /** The plaintext bytes that a run of records carries. */
  function PlainBytes(records: seq<bytes>): nat {
    if records == [] then 0
    else (if |records[0]| < 24 then 0 else |records[0]| - 24) + PlainBytes(records[1..])
  }

  function Applications(payloads: seq<bytes>): (ms: seq<Record>)
    ensures |ms| == |payloads| && forall i :: 0 <= i < |ms| ==> ms[i] == Application(payloads[i])
  {
    seq(|payloads|, i requires 0 <= i < |payloads| => Application(payloads[i]))
  }

  /** Records of a length the browser reads, all but the last short of the thresholds. */
  predicate Aligned(st: CipherState, records: seq<bytes>) {
    && st.nonce + |records| <= 0x4_0000
    && (forall i :: 0 <= i < |records| ==> |records[i]| <= MAX_BROWSER_RECORD)
    && (records != [] ==> st.count + PlainBytes(records[..|records| - 1]) < 0x1000_0000)
    && st.generation < U64_MAX
  }

  lemma OpenCompared(c: Cipher, hash: bytes, st: CipherState, record: bytes)
    requires Bounded(st) && |record| <= MAX_BROWSER_RECORD && st.generation < U64_MAX
    ensures var native := Open(c, hash, st, record);
            var browser := BrowserOpen(c, hash, BrowserCipher(st.key, st.nonce), record);
            && browser.result == (match native.result
                                  case Ok(Application(payload)) => Ok(payload)
                                  case _ => Err)
            && (browser.result.Ok? ==>
                  && browser.state == BrowserCipher(st.key, st.nonce + 1)
                  && (Rekeys(st, |record| - 24) ||
                      native.state == st.(nonce := st.nonce + 1, count := st.count + |record| - 24)))
  {
    if 24 <= |record| && FromBytes(record[..8]) == st.nonce {
      var p := UnsealedRecord(c, hash, st.key, st.nonce, record);
      if p.Some? {
        BrowserParseIsParse(p.value);
      }
    }
  }

  /**
    Over a whole run, the browser accepts a sequence of records exactly when the native layer
    accepts them all as application records, with the same payloads.
  */
  lemma {:induction false} AcceptsAlike(c: Cipher, hash: bytes, st: CipherState, records: seq<bytes>)
    requires Bounded(st) && Aligned(st, records)
    ensures Alike(OpenAll(c, hash, st, records).result,
                  BrowserOpenAll(c, hash, BrowserCipher(st.key, st.nonce), records))
    decreases |records|
  {
    hide Open, BrowserOpen;
    if records != [] {
      assert |records[0]| <= MAX_BROWSER_RECORD;
      var tail := records[1..];
      OpenCompared(c, hash, st, records[0]);
      var first := Open(c, hash, st, records[0]);
      if first.result.Ok? && first.result.value.Application? {
        var browser := BrowserOpen(c, hash, BrowserCipher(st.key, st.nonce), records[0]);
        if tail != [] {
          assert records[..|records| - 1] == [records[0]] + tail[..|tail| - 1];
          assert ([records[0]] + tail[..|tail| - 1])[1..] == tail[..|tail| - 1];
          AcceptsAlike(c, hash, first.state, tail);
        }
        CombineRuns(first.result.value.payload, OpenAll(c, hash, first.state, tail).result,
                    BrowserOpenAll(c, hash, browser.state, tail));
      } else if first.result.Ok? {
        var native := OpenAll(c, hash, st, records).result;
        assert native.Ok? ==> native.value[0].Close?;
      }
    }
  }

  /** What a native run and a browser run must have in common. */
  ghost predicate Alike(native: Result<seq<Record>>, browser: Result<seq<bytes>>) {
    match browser
    case Ok(payloads) => native == Ok(Applications(payloads))
    case Err => native.Err? || exists i :: 0 <= i < |native.value| && native.value[i].Close?
  }

  lemma CombineRuns(payload: bytes, native: Result<seq<Record>>, browser: Result<seq<bytes>>)
    requires Alike(native, browser)
    ensures native.Err? || browser.Err? ||
            Applications([payload] + browser.value) == [Application(payload)] + native.value
    ensures native.Ok? && browser.Err? ==>
            exists i :: 0 <= i < |native.value| + 1 && ([Application(payload)] + native.value)[i].Close?
  {
    if native.Ok? && browser.Err? {
      var i :| 0 <= i < |native.value| && native.value[i].Close?;
      assert ([Application(payload)] + native.value)[i + 1].Close?;
    }
  }
}
