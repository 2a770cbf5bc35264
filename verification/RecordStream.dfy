/**
  Frames inside records on a byte stream, and the buffer-reusing writer and reader of
  `src/connection.rs`, which do what the allocating `Session` does whatever their buffers held.
*/
module RecordStream {
  import opened Bytes
  import opened Crypto
  import opened Records
  import Frames

  /** The parameters of one direction of a connection. */
  datatype Link = Link(suite: Cipher, hash: bytes, inflaters: Frames.Inflaters)

  // Specification: what the writer is told to write, as bytes on the stream.

  /** A writer command. */
  datatype Command = Send(frame: Frames.Frame) | Goodbye

  function Prefixed(record: bytes): bytes {
    ToBytes(|record|, 4) + record
  }

  /** The content type and payload of a command's record. */
  function Content(cmd: Command): Result<(byte, bytes)> {
    match cmd
    case Goodbye => Ok((1, []))
    case Send(f) =>
      match Frames.Encode(f)
      case Err => Err
      case Ok(encoded) => Ok((0, encoded))
  }

  /** A written command: a frame encoded, or a close, padded, sealed and length-prefixed. */
  function WriteOne(l: Link, st: CipherState, cmd: Command): Outcome<CipherState, bytes> {
    match Content(cmd)
    case Err => Outcome(st, Err)
    case Ok((contentType, payload)) =>
      var sealed := Seal(l.suite, l.hash, st, contentType, payload);
      Outcome(sealed.state, if sealed.result.Ok? then Ok(Prefixed(sealed.result.value)) else Err)
  }

  datatype Run = Run(state: CipherState, wire: bytes, ok: bool)

  /** The commands written one after the other, up to the first failure. */
  function WriteRun(l: Link, st: CipherState, commands: seq<Command>): Run
    decreases |commands|
  {
    if commands == [] then Run(st, [], true) else
      var first := WriteOne(l, st, commands[0]);
      if first.result.Err? then Run(first.state, [], false) else
        var rest := WriteRun(l, first.state, commands[1..]);
        rest.(wire := first.result.value + rest.wire)
  }

  /** The same on a socket that breaks after `room` more bytes. */
  function WriteInto(l: Link, st: CipherState, commands: seq<Command>, room: nat): Run
    decreases |commands|
  {
    if commands == [] then Run(st, [], true) else
      var first := WriteOne(l, st, commands[0]);
      if first.result.Err? then Run(first.state, [], false)
      else if |first.result.value| > room then Run(first.state, first.result.value[..room], false)
      else
        var rest := WriteInto(l, first.state, commands[1..], room - |first.result.value|);
        rest.(wire := first.result.value + rest.wire)
  }

  datatype Read = Read(state: CipherState, result: Result<Option<Frames.Frame>>, rest: bytes)

  /** `read_frame`: a length, a record, a frame; `None` is an orderly close. */
  function ReadOne(l: Link, st: CipherState, wire: bytes): (r: Read)
    ensures r.result.Ok? ==> |r.rest| < |wire|
  {
    if |wire| < 4 then Read(st, Err, []) else
      var length := FromBytes(wire[..4]);
      if length < 24 || length > MAX_RECORD_LEN then Read(st, Err, wire[4..])
      else if |wire| < 4 + length then Read(st, Err, [])
      else
        var got := Open(l.suite, l.hash, st, wire[4..4 + length]);
        Read(got.state, Delivered(l, got.result), wire[4 + length..])
  }

  function Delivered(l: Link, got: Result<Record>): Result<Option<Frames.Frame>> {
    match got
    case Err => Err
    case Ok(Close) => Ok(None)
    case Ok(Application(payload)) =>
      match Frames.Decode(l.inflaters, payload)
      case Err => Err
      case Ok(f) => Ok(Some(f))
  }

  /** `closed` says whether the peer's close ended the stream; otherwise reading failed. */
  datatype Inbox = Inbox(state: CipherState, frames: seq<Frames.Frame>, rest: bytes, closed: bool)

  /** What the reader loop delivers from a stream, up to a close or a failure, the end being one. */
  function ReadRun(l: Link, st: CipherState, wire: bytes): Inbox
    decreases |wire|
  {
    var first := ReadOne(l, st, wire);
    match first.result
    case Err => Inbox(first.state, [], first.rest, false)
    case Ok(None) => Inbox(first.state, [], first.rest, true)
    case Ok(Some(f)) =>
      var more := ReadRun(l, first.state, first.rest);
      more.(frames := [f] + more.frames)
  }

  predicate AllLegal(commands: seq<Command>) {
    forall i :: 0 <= i < |commands| && commands[i].Send? ==> Frames.Legal(commands[i].frame)
  }

  /** The frames in front of the first close. */
  function BeforeClose(commands: seq<Command>): seq<Frames.Frame> {
    if commands == [] || commands[0].Goodbye? then [] else [commands[0].frame] + BeforeClose(commands[1..])
  }

  /** What the reader makes of a written command. */
  function Meaning(cmd: Command): Option<Frames.Frame> {
    if cmd.Send? then Some(cmd.frame) else None
  }

  /** The bytes of a written command are a length and as many bytes, and open to the command. */
  lemma WrittenRecord(l: Link, st: CipherState, cmd: Command)
    requires (cmd.Send? ==> Frames.Legal(cmd.frame)) && WriteOne(l, st, cmd).result.Ok?
    ensures var w := WriteOne(l, st, cmd);
            var record := w.result.value[4..];
            && 24 <= |record| <= MAX_RECORD_LEN
            && w.result.value[..4] == ToBytes(|record|, 4) && FromBytes(w.result.value[..4]) == |record|
            && Open(l.suite, l.hash, st, record).state == w.state
            && Delivered(l, Open(l.suite, l.hash, st, record).result) == Ok(Meaning(cmd))
  {
    hide Seal, Open, Frames.Decode, Frames.Encode, ToBytes, FromBytes;
    if cmd.Send? {
      Frames.DecodeOfEncode(l.inflaters, cmd.frame);
    }
    var (contentType, payload) := Content(cmd).value;
    OpenOfSeal(l.suite, l.hash, st, contentType, payload);
    var record := Seal(l.suite, l.hash, st, contentType, payload).result.value;
    U32Bytes(|record|);
    assert Prefixed(record)[..4] == ToBytes(|record|, 4) && Prefixed(record)[4..] == record;
  }

  lemma ReadOfWrite(l: Link, st: CipherState, cmd: Command, more: bytes)
    requires (cmd.Send? ==> Frames.Legal(cmd.frame)) && WriteOne(l, st, cmd).result.Ok?
    ensures var w := WriteOne(l, st, cmd);
            ReadOne(l, st, w.result.value + more) == Read(w.state, Ok(Meaning(cmd)), more)
  {
    WrittenRecord(l, st, cmd);
    hide WriteOne, Open, Delivered, ToBytes, FromBytes;
    var bytes := WriteOne(l, st, cmd).result.value;
    var wire, length := bytes + more, |bytes| - 4;
    assert wire[..4] == bytes[..4];
    assert wire[4..4 + length] == bytes[4..];
    assert wire[4 + length..] == more;
  }

  /** A record that was cut short is not read. */
  lemma ReadOfCut(l: Link, st: CipherState, cmd: Command, k: nat)
    requires (cmd.Send? ==> Frames.Legal(cmd.frame)) && WriteOne(l, st, cmd).result.Ok?
    requires k < |WriteOne(l, st, cmd).result.value|
    ensures ReadOne(l, st, WriteOne(l, st, cmd).result.value[..k]) == Read(st, Err, [])
  {
    WrittenRecord(l, st, cmd);
    hide WriteOne, Open, Delivered, ToBytes, FromBytes;
    var bytes := WriteOne(l, st, cmd).result.value;
    if k >= 4 {
      assert bytes[..k][..4] == bytes[..4];
    }
  }

  lemma ReadOfNothing(l: Link, st: CipherState)
    ensures ReadOne(l, st, []) == Read(st, Err, [])
  {
  }

  /**
    Frame lockstep: whatever was written without failure is read back exactly, in order, up to the
    first close; if no command follows a close, the reader's cipher ends equal to the writer's in
    key, nonce, byte count and generation, and nothing is left over.
  */
  lemma {:induction false} ReadRunOfWriteRun(l: Link, st: CipherState, commands: seq<Command>)
    requires AllLegal(commands)
    ensures var w := WriteRun(l, st, commands);
            var got := ReadRun(l, st, w.wire);
            w.ok ==>
              && got.frames == BeforeClose(commands)
              && (got.closed <==> Goodbye in commands)
              && (commands == [] || Goodbye !in commands[..|commands| - 1] ==> got.state == w.state && got.rest == [])
    decreases |commands|
  {
    hide WriteOne, ReadOne;
    if commands == [] {
      ReadOfNothing(l, st);
    } else {
      var cmd, tail := commands[0], commands[1..];
      var first := WriteOne(l, st, cmd);
      if first.result.Ok? {
        var rest := WriteRun(l, first.state, tail);
        ReadOfWrite(l, st, cmd, rest.wire);
        ReadRunOfWriteRun(l, first.state, tail);
        assert commands == [cmd] + tail;
        if tail != [] {
          assert commands[..|commands| - 1] == [cmd] + tail[..|tail| - 1];
        }
      }
    }
  }

  /** Whatever part of a stream arrives, what is read from it is a prefix of the frames written. */
  lemma {:induction false} ReadRunOfPart(l: Link, st: CipherState, commands: seq<Command>, k: nat)
    requires AllLegal(commands) && k <= |WriteRun(l, st, commands).wire|
    ensures ReadRun(l, st, WriteRun(l, st, commands).wire[..k]).frames <= BeforeClose(commands)
    decreases |commands|
  {
    hide WriteOne, ReadOne;
    if k == 0 {
      ReadOfNothing(l, st);
      assert WriteRun(l, st, commands).wire[..k] == [];
    } else {
      var cmd, tail := commands[0], commands[1..];
      var first := WriteOne(l, st, cmd);
      var bytes, rest := first.result.value, WriteRun(l, first.state, tail).wire;
      if k < |bytes| {
        ReadOfCut(l, st, cmd, k);
        assert (bytes + rest)[..k] == bytes[..k];
      } else {
        var part := rest[..k - |bytes|];
        assert (bytes + rest)[..k] == bytes + part;
        ReadOfWrite(l, st, cmd, part);
        ReadRunOfPart(l, first.state, tail, k - |bytes|);
      }
    }
  }

  /** A socket that breaks has taken a part of what the whole run would have put on it. */
  lemma {:induction false} WriteIntoIsPart(l: Link, st: CipherState, commands: seq<Command>, room: nat)
    ensures var w, whole := WriteInto(l, st, commands, room), WriteRun(l, st, commands);
            && w.wire == whole.wire[..Min(room, |whole.wire|)]
            && (w.ok <==> whole.ok && |whole.wire| <= room)
            && (w.ok ==> w == whole)
    decreases |commands|
  {
    hide WriteOne;
    if commands != [] {
      var first := WriteOne(l, st, commands[0]);
      if first.result.Ok? {
        var bytes, rest := first.result.value, WriteRun(l, first.state, commands[1..]);
        if |bytes| <= room {
          WriteIntoIsPart(l, first.state, commands[1..], room - |bytes|);
          assert (bytes + rest.wire)[..Min(room, |bytes + rest.wire|)]
              == bytes + rest.wire[..Min(room - |bytes|, |rest.wire|)];
        } else {
          assert (bytes + rest.wire)[..room] == bytes[..room];
        }
      }
    }
  }

  lemma ContentSealable(cmd: Command)
    requires cmd.Send? ==> Frames.Legal(cmd.frame)
    ensures var r := Content(cmd); r.Ok? && Sealable(r.value.0, r.value.1)
  {
  }

  lemma {:induction false} WriteRunSucceeds(l: Link, st: CipherState, commands: seq<Command>)
    requires AllLegal(commands) && Bounded(st) && st.generation + |commands| <= U64_MAX
    ensures WriteRun(l, st, commands).ok && Bounded(WriteRun(l, st, commands).state)
    decreases |commands|
  {
    hide Seal, Content, Bounded;
    if commands != [] {
      ContentSealable(commands[0]);
      var (contentType, payload) := Content(commands[0]).value;
      SealKeepsBounds(l.suite, l.hash, st, contentType, payload);
      WriteRunSucceeds(l, WriteOne(l, st, commands[0]).state, commands[1..]);
    }
  }

  /** From a fresh key, every run of legal frames is written and crosses the stream. */
  lemma FramesCross(l: Link, key: bytes, commands: seq<Command>)
    requires AllLegal(commands) && |commands| <= U64_MAX
    ensures var w := WriteRun(l, FreshCipher(key), commands);
            w.ok && ReadRun(l, FreshCipher(key), w.wire).frames == BeforeClose(commands)
  {
    WriteRunSucceeds(l, FreshCipher(key), commands);
    ReadRunOfWriteRun(l, FreshCipher(key), commands);
  }

  // The growable buffers of the connection.

  /** `Vec::resize(n, 0)`. */
  function Resize(s: bytes, n: nat): (r: bytes)
    ensures |r| == n
  {
    if n <= |s| then s[..n] else s + Zeros(n - |s|)
  }

  /** `copy_from_slice` into the buffer at `at`. */
  function CopyAt(s: bytes, at: nat, data: bytes): (r: bytes)
    requires at + |data| <= |s|
    ensures |r| == |s|
  {
    s[..at] + data + s[at + |data|..]
  }

  lemma LaidOut(z: bytes, x: byte, len: bytes, payload: bytes)
    requires |len| == 4 && 5 + |payload| <= |z|
    ensures CopyAt(CopyAt(z[0 := x], 1, len), 5, payload) == [x] + len + payload + z[5 + |payload|..]
  {
    var q := CopyAt(z[0 := x], 1, len);
    assert q == [x] + len + z[5..];
    assert q[..5] == [x] + len && q[5 + |payload|..] == z[5 + |payload|..];
  }

  lemma RestOfZeros(n: nat, k: nat)
    requires k <= n
    ensures Resize([], n)[k..] == Zeros(n - k)
  {
  }

  lemma FilledPlaintext(contentType: byte, payload: bytes, n: nat)
    requires |payload| <= U32_MAX && n == PaddedLen(|payload|)
    ensures var p := Resize([], n)[0 := contentType];
            CopyAt(CopyAt(p, 1, ToBytes(|payload|, 4)), 5, payload) == Padded(contentType, payload)
  {
    hide PaddedLen, ToBytes, Resize, Zeros, CopyAt;
    LaidOut(Resize([], n), contentType, ToBytes(|payload|, 4), payload);
    RestOfZeros(n, 5 + |payload|);
  }

  lemma FilledBuffer(wire: bytes, length: nat, buffer: bytes)
    requires 4 + length <= |wire| && |buffer| == length
    ensures CopyAt(buffer, 0, wire[4..][..length]) == wire[4..4 + length]
    ensures wire[4..][length..] == wire[4 + length..]
  {
    assert buffer[length..] == [] && buffer[..0] == [];
  }

  /** A `CipherState` updated in place. */
  class CipherCell {
    const suite: Cipher
    var key: bytes
    var nonce: u64
    var count: u64
    var generation: u64

    function State(): CipherState
      reads this
    {
      CipherState(key, nonce, count, generation)
    }

    constructor (suite: Cipher, key: bytes)
      ensures this.suite == suite && State() == FreshCipher(key)
    {
      this.suite, this.key := suite, key;
      nonce, count, generation := 0, 0, 0;
    }

    method CommitRecord(len: nat, hash: bytes) returns (ok: bool)
      modifies this
      ensures Outcome(State(), if ok then Ok(()) else Err) == Commit(suite, hash, old(State()), len)
    {
      if count + len > U64_MAX {
        return false;
      }
      count := count + len;
      if nonce == U64_MAX {
        return false;
      }
      nonce := nonce + 1;
      if nonce >= REKEY_RECORDS || count >= REKEY_BYTES {
        if generation == U64_MAX {
          return false;
        }
        generation := generation + 1;
        var material := hash + ToBytes(generation, 8);
        key := suite.hkdf(key, material).0;
        nonce := 0;
        count := 0;
      }
      ok := true;
    }
  }

  /** The writer task's state: a cipher and three buffers reused for every frame. */
  class RecordWriter {
    const link: Link
    const cipher: CipherCell
    var encoded: bytes
    var plaintext: bytes
    var record: bytes
    /** What the socket has taken, and how much more it will take. */
    var wire: bytes
    var room: nat

    ghost predicate Valid()
      reads this
    {
      cipher.suite == link.suite
    }

    /** The buffers start with whatever they are given. */
    constructor (link: Link, cipher: CipherCell, encoded: bytes, plaintext: bytes, record: bytes, room: nat)
      requires cipher.suite == link.suite
      ensures Valid() && this.link == link && this.cipher == cipher && wire == [] && this.room == room
      ensures this.encoded == encoded && this.plaintext == plaintext && this.record == record
    {
      this.link, this.cipher := link, cipher;
      this.encoded, this.plaintext, this.record := encoded, plaintext, record;
      wire := [];
      this.room := room;
    }

    method EncodeInto(f: Frames.Frame) returns (ok: bool)
      modifies this`encoded
      ensures match Frames.Encode(f)
              case Err => !ok
              case Ok(w) => ok && encoded == w
    {
      if f.flags != 0 || |f.payload| > Frames.MAX_PAYLOAD {
        return false;
      }
      encoded := [];
      encoded := encoded + [f.kind];
      encoded := encoded + [f.flags];
      encoded := encoded + ToBytes(f.code, 2);
      encoded := encoded + ToBytes(f.id, 8);
      encoded := encoded + f.requestNonce;
      encoded := encoded + ToBytes(f.deadline, 8);
      encoded := encoded + ToBytes(|f.payload|, 4);
      encoded := encoded + f.payload;
      assert encoded == Frames.Head(f) + f.payload;
      ok := true;
    }

    method TransportPlaintextInto(contentType: byte, payload: bytes) returns (ok: bool)
      modifies this`plaintext
      ensures ok <==> Sealable(contentType, payload)
      ensures ok ==> plaintext == Padded(contentType, payload)
      ensures !ok ==> plaintext == old(plaintext)
    {
      if contentType > 1 || (contentType == 1 && payload != []) {
        return false;
      }
      if |payload| > MAX_PAYLOAD {
        return false;
      }
      hide Padded, CopyAt;
      var base := 5 + |payload|;
      var block := if base <= 1024 then 256 else 128;
      var padded := (base + block - 1) / block * block;
      plaintext := [];
      plaintext := Resize(plaintext, padded);
      plaintext := plaintext[0 := contentType];
      plaintext := CopyAt(plaintext, 1, ToBytes(|payload|, 4));
      plaintext := CopyAt(plaintext, 5, payload);
      FilledPlaintext(contentType, payload, padded);
      ok := true;
    }

    method SealRecordInto(contentType: byte, payload: bytes) returns (ok: bool)
      requires Valid()
      modifies this`plaintext, this`record, cipher
      ensures Valid()
      ensures var r := Seal(link.suite, link.hash, old(cipher.State()), contentType, payload);
              cipher.State() == r.state && ok == r.result.Ok? && (ok ==> record == r.result.value)
    {
      hide Padded, PaddedLen, Commit, AeadNonce, RecordAad, ToBytes;
      ok := TransportPlaintextInto(contentType, payload);
      if !ok {
        return false;
      }
      PaddedLenBound(|payload|);
      if cipher.nonce >= MAX_RECORDS || cipher.count + |plaintext| > MAX_BYTES {
        return false;
      }
      var sequence := cipher.nonce;
      var aad := RecordAad(link.hash, 8 + |plaintext| + TAG_LEN, sequence);
      var (body, tag) := EncryptDetached(link.suite, cipher.key, AeadNonce(sequence), aad, plaintext);
      plaintext := body;
      record := [];
      record := record + ToBytes(sequence, 8);
      record := record + plaintext;
      record := record + tag;
      assert record == ToBytes(sequence, 8) + (body + tag);
      ok := cipher.CommitRecord(|plaintext|, link.hash);
    }

    /** `write_all`: the socket takes what it has room for. */
    method WriteAll(data: bytes) returns (ok: bool)
      modifies this`wire, this`room
      ensures ok <==> |data| <= old(room)
      ensures wire == old(wire) + data[..Min(old(room), |data|)]
      ensures ok ==> room == old(room) - |data|
    {
      if |data| > room {
        wire := wire + data[..room];
        room := 0;
        return false;
      }
      wire := wire + data;
      room := room - |data|;
      ok := true;
    }

    /** The sealing half of `write_frame_locked` and `write_close_locked`. */
    method SealCommand(cmd: Command) returns (ok: bool)
      requires Valid()
      modifies this`encoded, this`plaintext, this`record, cipher
      ensures Valid()
      ensures var r := WriteOne(link, old(cipher.State()), cmd);
              cipher.State() == r.state && ok == r.result.Ok? && (ok ==> Prefixed(record) == r.result.value)
    {
      hide Frames.Encode, Seal;
      if cmd.Goodbye? {
        ok := SealRecordInto(1, []);
        return;
      }
      ok := EncodeInto(cmd.frame);
      if ok {
        ok := SealRecordInto(0, encoded);
      }
    }

    /** `write_frame_locked` or `write_close_locked`: the length, then the record. */
    method WriteCommand(cmd: Command) returns (ok: bool)
      requires Valid()
      modifies this, cipher
      ensures Valid()
      ensures var r := WriteOne(link, old(cipher.State()), cmd);
              && cipher.State() == r.state
              && (ok <==> r.result.Ok? && |r.result.value| <= old(room))
              && wire == old(wire) + (if r.result.Ok? then r.result.value[..Min(old(room), |r.result.value|)] else [])
              && (ok ==> room == old(room) - |r.result.value|)
    {
      hide WriteOne;
      ok := SealCommand(cmd);
      if !ok {
        return;
      }
      ghost var bytes := Prefixed(record);
      ghost var n := Min(room, |bytes|);
      ok := WriteAll(ToBytes(|record|, 4));
      if !ok {
        assert bytes[..n] == ToBytes(|record|, 4)[..n];
        return;
      }
      ok := WriteAll(record);
      assert bytes[..n] == ToBytes(|record|, 4) + record[..n - 4];
    }

    /** The writer loop over a run of commands, on a socket that may break. */
    method WriteCommands(commands: seq<Command>) returns (ok: bool)
      requires Valid()
      modifies this, cipher
      ensures Valid()
      ensures Run(cipher.State(), wire, ok) ==
              var w := WriteInto(link, old(cipher.State()), commands, old(room)); w.(wire := old(wire) + w.wire)
    {
      hide WriteOne;
      ghost var goal := WriteInto(link, cipher.State(), commands, room);
      ghost var before := wire;
      var i := 0;
      while i < |commands|
        invariant 0 <= i <= |commands| && Valid()
        invariant var w := WriteInto(link, cipher.State(), commands[i..], room);
                  goal.state == w.state && goal.ok == w.ok && before + goal.wire == wire + w.wire
      {
        assert commands[i..][0] == commands[i] && commands[i..][1..] == commands[i + 1..];
        ok := WriteCommand(commands[i]);
        if !ok {
          return false;
        }
        i := i + 1;
      }
      ok := true;
    }
  }

  /** The reader task's state: a cipher and one buffer reused for every record. */
  class RecordReader {
    const link: Link
    const cipher: CipherCell
    var record: bytes
    var stream: bytes

    ghost predicate Valid()
      reads this
    {
      cipher.suite == link.suite
    }

    constructor (link: Link, cipher: CipherCell, record: bytes, stream: bytes)
      requires cipher.suite == link.suite
      ensures Valid() && this.link == link && this.cipher == cipher
      ensures this.record == record && this.stream == stream
    {
      this.link, this.cipher := link, cipher;
      this.record, this.stream := record, stream;
    }

    /** The decoding half of `read_frame`, on the filled buffer. */
    method OpenBuffer() returns (r: Result<Option<Frames.Frame>>)
      requires Valid() && 24 <= |record| <= MAX_RECORD_LEN
      modifies cipher
      ensures var got := Open(link.suite, link.hash, old(cipher.State()), record);
              cipher.State() == got.state && r == Delivered(link, got.result)
    {
      BytesU64(record[..8]);
      var sequence := FromBytes(record[..8]);
      if sequence != cipher.nonce {
        return Err;
      }
      if cipher.nonce >= MAX_RECORDS || cipher.count + (|record| - 24) > MAX_BYTES {
        return Err;
      }
      var aad := RecordAad(link.hash, |record|, sequence);
      var plaintext := Decrypt(link.suite, cipher.key, AeadNonce(sequence), aad, record[8..]);
      if plaintext.None? {
        return Err;
      }
      var decoded := Parse(plaintext.value);
      if decoded.Err? {
        return Err;
      }
      var ok := cipher.CommitRecord(|plaintext.value|, link.hash);
      r := if ok then Delivered(link, decoded) else Err;
    }

    method ReadFrame() returns (r: Result<Option<Frames.Frame>>)
      requires Valid()
      modifies this, cipher
      ensures Valid()
      ensures Read(cipher.State(), r, stream) == ReadOne(link, old(cipher.State()), old(stream))
    {
      hide Open, Delivered;
      if |stream| < 4 {
        stream := [];
        return Err;
      }
      var length := FromBytes(stream[..4]);
      stream := stream[4..];
      if length < 24 || length > MAX_RECORD_LEN {
        return Err;
      }
      record := [];
      record := Resize(record, length);
      if |stream| < length {
        stream := [];
        return Err;
      }
      record := CopyAt(record, 0, stream[..length]);
      stream := stream[length..];
      FilledBuffer(old(stream), length, Resize([], length));
      r := OpenBuffer();
    }

    /** The reader loop, delivering frames in order until a close or a failure. */
    method ReadFrames() returns (frames: seq<Frames.Frame>, closed: bool)
      requires Valid()
      modifies this, cipher
      ensures Valid()
      ensures Inbox(cipher.State(), frames, stream, closed) == ReadRun(link, old(cipher.State()), old(stream))
    {
      hide ReadOne;
      ghost var goal := ReadRun(link, cipher.State(), stream);
      frames := [];
      assert [] + goal.frames == goal.frames;
      while true
        invariant Valid()
        invariant var more := ReadRun(link, cipher.State(), stream);
                  goal == more.(frames := frames + more.frames)
        decreases |stream|
      {
        ghost var rest := ReadRun(link, cipher.State(), stream);
        var r := ReadFrame();
        if r.Err? {
          assert frames + [] == frames;
          return frames, false;
        }
        if r.value.None? {
          assert frames + [] == frames;
          return frames, true;
        }
        assert rest.frames == [r.value.value] + ReadRun(link, cipher.State(), stream).frames;
        frames := frames + [r.value.value];
      }
    }
  }
}
