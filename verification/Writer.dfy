/**
  The two-queue writer of `src/connection.rs` with everything that feeds it: requests opened under
  the order lock, media uploads, and all other senders. A step is one semaphore, channel or write
  operation; timeouts and dropped futures are steps too. A run is any sequence of steps.
*/
module Writer {
  import opened Bytes
  import opened Frames

  const BUDGET: nat := 1024
  const UNIT: nat := 16384
  const CONTROL_QUEUE: nat := 64
  const MEDIA_QUEUE: nat := 128
  const MEDIA_CHUNK: nat := 256 * 1024

  /** Who sent a frame: `begin`/`begin_stream`, the upload of a stream, anybody else, or `close`. */
  datatype Origin = Opening | Upload(id: u64) | Other | Goodbye

  /** A writer command. A goodbye carries no frame, here one of no kind, and no budget. */
  datatype Item = Item(frame: Frame, origin: Origin)

  function NoFrame(): Frame {
    Frame(0, 0, 0, 0, Zeros(16), 0, [])
  }

  /** The units of budget that `enqueue_frame` acquires. */
  function FrameUnits(f: Frame): nat {
    Max((|f.payload| + HEADER_LEN + UNIT - 1) / UNIT, 1)
  }

  function ItemUnits(x: Item): nat {
    if x.origin.Goodbye? then 0 else FrameUnits(x.frame)
  }

  function Units(items: seq<Item>): nat {
    if items == [] then 0 else ItemUnits(items[0]) + Units(items[1..])
  }

  /** The holder of the order lock: with an id, with a budgeted frame, or waiting for its write. */
  datatype Opener = Free | Numbered(id: u64) | Budgeted(item: Item) | Waiting

  /** Where an `upload_media` loop stands. */
  datatype Phase =
    | Reading                   // about to read the source
    | Wants(chunk: bytes)       // has a chunk to send
    | Admitted(chunk: bytes)    // its STREAM_DATA holds budget, is queued, or is being written
    | WantsEnd                  // source exhausted at the declared size
    | EndAdmitted               // its STREAM_END is on its way
    | EndDone                   // its STREAM_END is written
    | Stopped                   // failed or abandoned

  /** `sent` counts the bytes seen written; `read` is everything the reads of the source returned. */
  datatype Up = Up(size: nat, sent: nat, read: seq<bytes>, phase: Phase)

  /** `taken` holds the ids whose stream data comes from a handle that is not a media upload. */
  datatype State = State(
    free: nat, nextId: u64, opener: Opener, held: seq<Item>, control: seq<Item>, media: seq<Item>,
    writing: seq<Item>, alive: bool, wire: seq<Item>, uploads: map<u64, Up>, taken: set<u64>)

  function Init(): State {
    State(BUDGET, 1, Free, [], [], [], [], true, [], map[], {})
  }

  datatype Step =
    | TakeId                              // under the order lock
    | OpenBudget(frame: Frame)
    | OpenQueue
    | OpenRelease                         // written, failed, timed out or dropped
    | OtherBudget(frame: Frame)
    | Queue(i: nat)                       // a budgeted command enters its queue
    | GiveUp(i: nat)                      // a budgeted command's send times out
    | SayGoodbye
    | Start(id: u64, size: nat)
    | ReadChunk(id: u64, chunk: bytes)
    | ReadEnd(id: u64)
    | AdmitData(id: u64)
    | AdmitEnd(id: u64, payload: bytes)
    | Abandon(id: u64)                    // read error, send error or timeout, dropped future
    | Pop                                 // biased: control before media
    | Wrote
    | WriteFails

  function DataFrame(id: u64, chunk: bytes): Frame {
    Frame(STREAM_DATA, 0, 0, id, Zeros(16), 0, chunk)
  }

  function EndFrame(id: u64, payload: bytes): Frame {
    Frame(STREAM_END, 0, 200, id, Zeros(16), 0, payload)
  }

  /** The kinds that only the holder of an id sends for it. */
  predicate Streamed(kind: byte) {
    kind == STREAM_DATA || kind == STREAM_END
  }

  function Without(items: seq<Item>, i: nat): seq<Item>
    requires i < |items|
  {
    items[..i] + items[i + 1..]
  }

  function Hold(s: State, x: Item): State {
    if Legal(x.frame) && ItemUnits(x) <= s.free
    then s.(free := s.free - ItemUnits(x), held := s.held + [x]) else s
  }

  /** Any other frame; stream data only for an id that is not an upload's. */
  function HoldOther(s: State, f: Frame): State {
    if !Streamed(f.kind) then Hold(s, Item(f, Other))
    else if f.id in s.uploads then s
    else Hold(s, Item(f, Other)).(taken := s.taken + {f.id})
  }

  function SetPhase(s: State, id: u64, phase: Phase): State {
    if id in s.uploads then s.(uploads := s.uploads[id := s.uploads[id].(phase := phase)]) else s
  }

  /** The upload's own view of a completed write. */
  function Completed(up: Up): Up {
    match up.phase
    case Admitted(chunk) => up.(sent := up.sent + |chunk|, phase := Reading)
    case EndAdmitted => up.(phase := EndDone)
    case _ => up
  }

  /** One step; a step that is not enabled changes nothing. */
  function Do(s: State, step: Step): State {
    match step
    case TakeId =>
      if s.opener.Free? && s.nextId != 0 && s.nextId != U64_MAX
      then s.(opener := Numbered(s.nextId), nextId := s.nextId + 1) else s
    case OpenBudget(f) =>
      var x := Item(f, Opening);
      if s.opener.Numbered? && f.id == s.opener.id && !Streamed(f.kind) && Legal(f) && ItemUnits(x) <= s.free
      then s.(opener := Budgeted(x), free := s.free - ItemUnits(x)) else s
    case OpenQueue =>
      if s.opener.Budgeted? && s.alive && |s.control| < CONTROL_QUEUE
      then s.(opener := Waiting, control := s.control + [s.opener.item]) else s
    case OpenRelease =>
      s.(opener := Free, free := s.free + (if s.opener.Budgeted? then ItemUnits(s.opener.item) else 0))
    case OtherBudget(f) => HoldOther(s, f)
    case Queue(i) => if i < |s.held| && s.alive then Enqueue(s, i) else s
    case GiveUp(i) =>
      if i >= |s.held| then s else
        var s' := s.(held := Without(s.held, i), free := s.free + ItemUnits(s.held[i]));
        if s.held[i].origin.Upload? then SetPhase(s', s.held[i].origin.id, Stopped) else s'
    case SayGoodbye =>
      if s.alive && |s.control| < CONTROL_QUEUE then s.(control := s.control + [Item(NoFrame(), Goodbye)]) else s
    case Pop =>
      if !s.alive || s.writing != [] then s
      else if s.control != [] then s.(writing := [s.control[0]], control := s.control[1..])
      else if s.media != [] then s.(writing := [s.media[0]], media := s.media[1..])
      else s
    case Wrote => if |s.writing| == 1 then WriteOut(s, s.writing[0]) else s
    case WriteFails =>
      if |s.writing| != 1 then s else
        s.(alive := false, free := s.free + Units(s.writing) + Units(s.control) + Units(s.media),
           writing := [], control := [], media := [])
    case _ => UploadStep(s, step)
  }

  /** STREAM_DATA goes to the media queue, everything else to the control queue. */
  function Enqueue(s: State, i: nat): State
    requires i < |s.held|
  {
    var x := s.held[i];
    if x.frame.kind == STREAM_DATA then
      if |s.media| < MEDIA_QUEUE then s.(held := Without(s.held, i), media := s.media + [x]) else s
    else
      if |s.control| < CONTROL_QUEUE then s.(held := Without(s.held, i), control := s.control + [x]) else s
  }

  /** A command written: its budget returns and its sender learns of it. */
  function WriteOut(s: State, x: Item): State {
    var s' := s.(writing := [], free := s.free + ItemUnits(x), wire := s.wire + [x]);
    if x.origin.Upload? && x.origin.id in s.uploads
    then s'.(uploads := s.uploads[x.origin.id := Completed(s.uploads[x.origin.id])]) else s'
  }

  /** The loop of `upload_media`. */
  function UploadStep(s: State, step: Step): State {
    match step
    case Start(id, size) =>
      if 0 < id < s.nextId && id !in s.uploads && id !in s.taken
      then s.(uploads := s.uploads[id := Up(size, 0, [], Reading)]) else s
    case ReadChunk(id, chunk) =>
      if id in s.uploads && s.uploads[id].phase.Reading? && 0 < |chunk| <= MEDIA_CHUNK then
        var up := s.uploads[id];
        var phase := if up.sent + |chunk| > up.size then Stopped else Wants(chunk);
        s.(uploads := s.uploads[id := up.(read := up.read + [chunk], phase := phase)])
      else s
    case ReadEnd(id) =>
      if id in s.uploads && s.uploads[id].phase.Reading? then
        SetPhase(s, id, if s.uploads[id].sent != s.uploads[id].size then Stopped else WantsEnd)
      else s
    case AdmitData(id) =>
      if id in s.uploads && s.uploads[id].phase.Wants? then
        var x := Item(DataFrame(id, s.uploads[id].phase.chunk), Upload(id));
        var s' := Hold(s, x);
        if s'.held == s.held then s else SetPhase(s', id, Admitted(s.uploads[id].phase.chunk))
      else s
    case AdmitEnd(id, payload) =>
      if id in s.uploads && s.uploads[id].phase.WantsEnd? then
        var s' := Hold(s, Item(EndFrame(id, payload), Upload(id)));
        if s'.held == s.held then s else SetPhase(s', id, EndAdmitted)
      else s
    case Abandon(id) => SetPhase(s, id, Stopped)
    case _ => s
  }

  /** What the writer has written and is writing. */
  function Sent(s: State): seq<Item> {
    s.wire + s.writing
  }

  function Run(steps: seq<Step>): State {
    if steps == [] then Init() else Do(Run(steps[..|steps| - 1]), steps[|steps| - 1])
  }
}
