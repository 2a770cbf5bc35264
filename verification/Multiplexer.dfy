/**
  The request multiplexer of `src/connection.rs` as a transition system. A step is one lock-protected
  section or one channel operation of the tasks that share a connection; a run is any sequence of
  steps, so every interleaving of any number of requests, handles and failures is covered.
*/
module Multiplexer {
  import opened Bytes
  import opened Frames

  /** What a request's channel carries: a frame, with its position in read order, or a failure. */
  datatype Event = Reply(frame: Frame, at: nat) | Down

  /** The holder of the `request_order` lock, from the closed check to the end of `begin`. */
  datatype Lock = Free | Held | Numbered(id: u64) | Inserted

  /** The reader task: between frames, with a frame to look up, sending to a channel, or gone. */
  datatype Reader = Idle | Got(frame: Frame, at: nat) | Carrying(id: u64, frame: Frame, at: nat) | Stopped

  /** The task that won the `closed` swap: it takes the pending map once and notifies its senders. */
  datatype Failing = NotYet | Swapped | Notifying(ids: set<u64>)

  datatype State = State(
    nextId: u64, lock: Lock, closed: bool, pending: set<u64>, reader: Reader, failing: Failing,
    channels: map<u64, seq<Event>>, issued: seq<u64>, read: seq<Frame>)

  function Init(): State {
    State(1, Free, false, {}, Idle, NotYet, map[], [], [])
  }

  datatype Step =
    | Acquire                    // `begin` or `begin_stream` takes the order lock
    | TakeId                     // second closed check, then the next id
    | Insert                     // the sender goes into the pending map
    | Release                    // the lock is dropped: success, an error, or a dropped future
    | Remove(id: u64)            // cancel, remove, a stream's close, or a dropped handle's task
    | Arrive(frame: Frame)       // the reader has read a frame
    | Lookup                     // the locked section of `dispatch`
    | Deliver(open: bool)        // the reader's send; a closed receiver loses the frame
    | ReadFails                  // the reader stops
    | Close                      // `close` or `fail`: the swap of the closed flag
    | TakeMap                    // `fail_pending` takes the map
    | Notify(id: u64, open: bool)

  predicate Terminal(kind: byte) {
    kind == RESULT || kind == EVENT_BATCH || kind == ERROR || kind == PONG || kind == STREAM_END || kind == STREAM_ABORT
  }

  predicate FromServer(kind: byte) {
    Terminal(kind) || kind == ACK || kind == STREAM_DATA
  }

  function Channel(s: State, id: u64): seq<Event> {
    if id in s.channels then s.channels[id] else []
  }

  function Put(s: State, id: u64, e: Event): State {
    s.(channels := s.channels[id := Channel(s, id) + [e]])
  }

  /** One step; a step that is not enabled changes nothing. */
  function Do(s: State, step: Step): State {
    match step
    case Acquire => if s.lock.Free? && !s.closed then s.(lock := Held) else s
    case TakeId =>
      if !s.lock.Held? then s
      else if s.closed || s.nextId == 0 || s.nextId == U64_MAX then s.(lock := Free)
      else s.(lock := Numbered(s.nextId), nextId := s.nextId + 1, issued := s.issued + [s.nextId])
    case Insert => if s.lock.Numbered? then s.(lock := Inserted, pending := s.pending + {s.lock.id}) else s
    case Release => s.(lock := Free)
    case Remove(id) => s.(pending := s.pending - {id})
    case Arrive(f) => if s.reader.Idle? then s.(reader := Got(f, |s.read|), read := s.read + [f]) else s
    case Lookup => if s.reader.Got? then LookUp(s, s.reader.frame, s.reader.at) else s
    case Deliver(open) =>
      if !s.reader.Carrying? then s
      else
        var s' := s.(reader := Idle);
        if open then Put(s', s.reader.id, Reply(s.reader.frame, s.reader.at)) else s'
    case ReadFails => if s.reader.Idle? then s.(reader := Stopped) else s
    case Close => if s.closed then s else s.(closed := true, failing := Swapped)
    case TakeMap => if s.failing.Swapped? then s.(failing := Notifying(s.pending), pending := {}) else s
    case Notify(id, open) =>
      if !s.failing.Notifying? || id !in s.failing.ids then s
      else
        var s' := s.(failing := Notifying(s.failing.ids - {id}));
        if open then Put(s', id, Down) else s'
  }

  /** `dispatch` up to the end of its locked section. */
  function LookUp(s: State, f: Frame, at: nat): State {
    if f.kind == PING then s.(reader := Idle)
    else if !FromServer(f.kind) then s.(reader := Stopped)
    else if f.id !in s.pending then s.(reader := Idle)
    else if Terminal(f.kind) then s.(reader := Carrying(f.id, f, at), pending := s.pending - {f.id})
    else s.(reader := Carrying(f.id, f, at))
  }

  function Run(steps: seq<Step>): State {
    if steps == [] then Init() else Do(Run(steps[..|steps| - 1]), steps[|steps| - 1])
  }

  // What is promised.

  predicate Ends(e: Event) {
    e.Down? || Terminal(e.frame.kind)
  }

  /** One request's channel, against the frames read so far. */
  ghost predicate ChannelSafe(id: u64, ch: seq<Event>, read: seq<Frame>) {
    // Every frame on it was read for this id.
    && (forall i :: 0 <= i < |ch| && ch[i].Reply? ==>
          ch[i].at < |read| && read[ch[i].at] == ch[i].frame && ch[i].frame.id == id)
    // Frames keep their read order, and none follows the terminal frame.
    && (forall i, j :: 0 <= i < j < |ch| && ch[i].Reply? && ch[j].Reply? ==>
          ch[i].at < ch[j].at && !Terminal(ch[i].frame.kind))
    // At most one event ends the request.
    && (forall i, j :: 0 <= i < j < |ch| && Ends(ch[i]) ==> !Ends(ch[j]))
    // After a failure, at most the one frame that the reader had already looked up.
    && (forall i :: 0 <= i < |ch| && ch[i].Down? ==> |ch| <= i + 2)
  }

  ghost predicate Safe(s: State) {
    && (forall i :: 0 <= i < |s.issued| ==> 0 < s.issued[i] < U64_MAX)
    && (forall i, j :: 0 <= i < j < |s.issued| ==> s.issued[i] < s.issued[j])
    && (forall id :: id in s.channels ==> id in s.issued && ChannelSafe(id, s.channels[id], s.read))
  }

  // The invariant.

  /** Ids below this bound may be pending or have a channel. */
  function Published(s: State): u64 {
    if s.lock.Numbered? then s.lock.id else s.nextId
  }

  predicate Knows(s: State, id: u64) {
    || id in s.pending || id in s.channels || CarriesFor(s, id)
    || (s.failing.Notifying? && id in s.failing.ids)
  }

  /** The right to end a request: whoever holds it may put the one ending event on the channel. */
  predicate MayEnd(s: State, id: u64) {
    || id in s.pending
    || (s.failing.Notifying? && id in s.failing.ids)
    || (CarriesFor(s, id) && Terminal(s.reader.frame.kind))
  }

  /** Positions below this bound may be on a channel already. */
  function Settled(s: State): nat {
    match s.reader
    case Got(_, at) => at
    case Carrying(_, _, at) => at
    case _ => |s.read|
  }

  ghost predicate ChannelInv(s: State, id: u64, ch: seq<Event>) {
    && ChannelSafe(id, ch, s.read)
    && (forall i :: 0 <= i < |ch| && ch[i].Reply? ==> ch[i].at < Settled(s))
    && (forall i :: 0 <= i < |ch| && Ends(ch[i]) ==> !MayEnd(s, id))
    && (forall i :: 0 <= i < |ch| && ch[i].Reply? && Terminal(ch[i].frame.kind) ==>
          !CarriesFor(s, id))
    && (forall i :: 0 <= i < |ch| && ch[i].Down? && |ch| == i + 2 ==> !CarriesFor(s, id))
  }

  predicate CarriesFor(s: State, id: u64) {
    s.reader.Carrying? && s.reader.id == id
  }

  /** Everything but the channels' contents. */
  ghost predicate Bookkeeping(s: State) {
    && 1 <= s.nextId && Issued(s)
    && (s.lock.Numbered? ==> s.nextId == s.lock.id + 1)
    && (forall id: u64 :: Knows(s, id) ==> id in s.issued && id < Published(s))
    && (s.failing.Notifying? ==> s.pending !! s.failing.ids)
    && ReaderInv(s)
  }

  ghost predicate ChannelsInv(s: State) {
    forall id :: id in s.channels ==> ChannelInv(s, id, s.channels[id])
  }

  ghost predicate Inv(s: State) {
    Bookkeeping(s) && ChannelsInv(s)
  }

  ghost predicate Issued(s: State) {
    && (forall i :: 0 <= i < |s.issued| ==> 0 < s.issued[i] < s.nextId)
    && (forall i, j :: 0 <= i < j < |s.issued| ==> s.issued[i] < s.issued[j])
    && (s.lock.Numbered? ==> s.lock.id in s.issued)
  }

  ghost predicate ReaderInv(s: State) {
    match s.reader
    case Got(f, at) => at + 1 == |s.read| && f == s.read[at]
    case Carrying(id, f, at) =>
      && at + 1 == |s.read| && f == s.read[at] && f.id == id
      && (Terminal(f.kind) ==> id !in s.pending && !(s.failing.Notifying? && id in s.failing.ids))
    case _ => true
  }

  // Every step keeps it.

  /** `s'` gives nobody a new right to end `id`, and the reader nothing new for it except by right. */
  ghost predicate Quiet(s: State, s': State, id: u64) {
    && s.read <= s'.read && Settled(s) <= Settled(s')
    && (MayEnd(s', id) ==> MayEnd(s, id))
    && (CarriesFor(s', id) ==> CarriesFor(s, id) || MayEnd(s, id))
  }

  lemma ChannelStays(s: State, s': State, id: u64, ch: seq<Event>)
    requires ChannelInv(s, id, ch) && Quiet(s, s', id)
    ensures ChannelInv(s', id, ch)
  {
    hide MayEnd, CarriesFor, Settled;
  }

  lemma ChannelsStay(s: State, s': State)
    requires ChannelsInv(s) && s'.channels == s.channels
    requires forall id :: id in s.channels ==> Quiet(s, s', id)
    ensures ChannelsInv(s')
  {
    forall id | id in s'.channels
      ensures ChannelInv(s', id, s'.channels[id])
    {
      ChannelStays(s, s', id, s.channels[id]);
    }
  }

  /** Only `Insert` makes an id known. */
  lemma NothingNewKnown(s: State, step: Step, id: u64)
    requires !step.Insert? && Knows(Do(s, step), id)
    ensures Knows(s, id)
  {
  }

  lemma ReaderKept(s: State, step: Step)
    requires Bookkeeping(s)
    ensures ReaderInv(Do(s, step))
    ensures var f := Do(s, step).failing; f.Notifying? ==> Do(s, step).pending !! f.ids
  {
    hide Issued;
    if step.Insert? && s.lock.Numbered? {
      assert !Knows(s, s.lock.id);
    }
    hide Knows;
  }

  lemma BookkeepingKept(s: State, step: Step)
    requires Bookkeeping(s)
    ensures Bookkeeping(Do(s, step))
  {
    ReaderKept(s, step);
    if step.TakeId? || step.Insert? || step.Release? {
      RequestStepKept(s, step);
    } else {
      var s' := Do(s, step);
      assert s'.issued == s.issued && s'.nextId == s.nextId && Published(s') == Published(s);
      forall id: u64 | Knows(s', id)
        ensures id in s.issued && id < Published(s)
      {
        NothingNewKnown(s, step, id);
      }
      hide Knows, ReaderInv, Do;
    }
  }

  lemma RequestStepKept(s: State, step: Step)
    requires Bookkeeping(s) && (step.TakeId? || step.Insert? || step.Release?)
    ensures Bookkeeping(Do(s, step))
  {
    ReaderKept(s, step);
    hide ReaderInv;
    var s' := Do(s, step);
    assert s'.issued == s.issued || s'.issued == s.issued + [s.nextId];
    assert forall id: u64 :: Knows(s', id) ==> Knows(s, id) || (s.lock.Numbered? && id == s.lock.id);
  }

  lemma StepIsQuiet(s: State, step: Step, id: u64)
    requires Bookkeeping(s) && id in s.channels && !step.Deliver? && !step.Notify?
    ensures Quiet(s, Do(s, step), id)
  {
    hide Issued;
    assert Knows(s, id) && id < Published(s);
    hide Knows;
  }

  lemma OtherStepsKeep(s: State, step: Step)
    requires Inv(s) && !step.Deliver? && !step.Notify?
    ensures ChannelsInv(Do(s, step))
  {
    var s' := Do(s, step);
    assert s'.channels == s.channels;
    hide ChannelsInv, Bookkeeping, Quiet, Do;
    forall id | id in s.channels
      ensures Quiet(s, s', id)
    {
      StepIsQuiet(s, step, id);
    }
    ChannelsStay(s, s');
  }

  /** A frame may join a channel that has seen only earlier ones and no terminal one. */
  lemma ReplyJoins(id: u64, ch: seq<Event>, read: seq<Frame>, f: Frame, at: nat)
    requires ChannelSafe(id, ch, read)
    requires at < |read| && read[at] == f && f.id == id
    requires forall i :: 0 <= i < |ch| && ch[i].Reply? ==> ch[i].at < at && !Terminal(ch[i].frame.kind)
    requires Terminal(f.kind) ==> forall i :: 0 <= i < |ch| ==> !Ends(ch[i])
    requires forall i :: 0 <= i < |ch| && ch[i].Down? ==> |ch| == i + 1
    ensures ChannelSafe(id, ch + [Reply(f, at)], read)
  {
  }

  lemma OwnChannelTakesFrame(s: State, s': State, ch: seq<Event>)
    requires ReaderInv(s) && s.reader.Carrying? && ChannelInv(s, s.reader.id, ch)
    requires s'.reader == Idle && s'.read == s.read && s'.pending == s.pending && s'.failing == s.failing
    ensures ChannelInv(s', s.reader.id, ch + [Reply(s.reader.frame, s.reader.at)])
  {
    ReplyJoins(s.reader.id, ch, s.read, s.reader.frame, s.reader.at);
    hide ChannelSafe;
  }

  lemma DeliverKeeps(s: State, open: bool)
    requires Inv(s) && s.reader.Carrying?
    ensures ChannelsInv(Do(s, Deliver(open)))
  {
    hide Issued;
    var s' := Do(s, Deliver(open));
    var me, ch := s.reader.id, Channel(s, s.reader.id);
    assert ChannelInv(s, me, ch);
    hide ChannelInv;
    forall id | id in s'.channels
      ensures ChannelInv(s', id, s'.channels[id])
    {
      if id != me || !open {
        ChannelStays(s, s', id, s.channels[id]);
      } else {
        OwnChannelTakesFrame(s, s', ch);
      }
    }
  }

  lemma OwnChannelTakesDown(s: State, s': State, id: u64, ch: seq<Event>)
    requires Bookkeeping(s) && ChannelInv(s, id, ch)
    requires s.failing.Notifying? && id in s.failing.ids
    requires s' == s.(failing := Notifying(s.failing.ids - {id}), channels := s'.channels)
    ensures ChannelInv(s', id, ch + [Down])
  {
    hide Issued, Knows;
    assert MayEnd(s, id) && !MayEnd(s', id);
    assert forall i :: 0 <= i < |ch| ==> !Ends(ch[i]);
  }

  lemma NotifyKeeps(s: State, id: u64, open: bool)
    requires Inv(s) && s.failing.Notifying? && id in s.failing.ids
    ensures ChannelsInv(Do(s, Notify(id, open)))
  {
    hide Issued;
    var s' := Do(s, Notify(id, open));
    var ch := Channel(s, id);
    assert ChannelInv(s, id, ch);
    hide ChannelInv;
    forall k | k in s'.channels
      ensures ChannelInv(s', k, s'.channels[k])
    {
      if k != id || !open {
        ChannelStays(s, s', k, s.channels[k]);
      } else {
        OwnChannelTakesDown(s, s', id, ch);
      }
    }
  }

  lemma StepKeeps(s: State, step: Step)
    requires Inv(s)
    ensures Inv(Do(s, step))
  {
    hide Bookkeeping, ChannelsInv;
    BookkeepingKept(s, step);
    match step
    case Deliver(open) => if s.reader.Carrying? { DeliverKeeps(s, open); }
    case Notify(id, open) => if s.failing.Notifying? && id in s.failing.ids { NotifyKeeps(s, id, open); }
    case _ => OtherStepsKeep(s, step);
  }

  lemma InitInv()
    ensures Inv(Init())
  {
  }

  lemma {:induction false} RunKeeps(steps: seq<Step>)
    ensures Inv(Run(steps))
  {
    InitInv();
    hide Inv, Do;
    if steps != [] {
      RunKeeps(steps[..|steps| - 1]);
      StepKeeps(Run(steps[..|steps| - 1]), steps[|steps| - 1]);
    }
  }

  /**
    Safety of every interleaving: ids are never 0 and never reused, a channel carries only frames
    read for its own id, in read order and none after its terminal frame, and at most one event
    that ends the request.
  */
  lemma EveryRunIsSafe(steps: seq<Step>)
    ensures Safe(Run(steps))
  {
    RunKeeps(steps);
    var s := Run(steps);
    assert forall id :: id in s.channels ==> Knows(s, id);
  }

  lemma RunStep(steps: seq<Step>, step: Step)
    ensures Run(steps + [step]) == Do(Run(steps), step)
  {
    assert (steps + [step])[..|steps|] == steps;
  }

  function StreamFrame(): Frame {
    Frame(STREAM_DATA, 0, 0, 1, Zeros(16), 0, [])
  }

  // What may still follow a failure.

  predicate HasDown(ch: seq<Event>) {
    exists i :: 0 <= i < |ch| && ch[i].Down?
  }

  /** After a failure nothing reaches a channel for which the reader has not looked a frame up. */
  lemma SilentStep(s: State, step: Step, id: u64)
    requires Inv(s) && HasDown(Channel(s, id)) && !CarriesFor(s, id)
    ensures Channel(Do(s, step), id) == Channel(s, id) && !CarriesFor(Do(s, step), id)
  {
    hide ChannelSafe, Issued, ReaderInv;
    assert ChannelInv(s, id, Channel(s, id)) && !MayEnd(s, id);
    hide ChannelsInv, ChannelInv;
  }

  lemma {:induction false} SilentRun(steps: seq<Step>, more: seq<Step>, id: u64)
    requires HasDown(Channel(Run(steps), id)) && !CarriesFor(Run(steps), id)
    ensures Channel(Run(steps + more), id) == Channel(Run(steps), id) && !CarriesFor(Run(steps + more), id)
    decreases |more|
  {
    if more == [] {
      assert steps + more == steps;
    } else {
      var front, last := more[..|more| - 1], more[|more| - 1];
      assert steps + more == steps + front + [last];
      SilentRun(steps, front, id);
      RunStep(steps + front, last);
      RunKeeps(steps + front);
      SilentStep(Run(steps + front), last, id);
    }
  }

  /** From `s` to `s'` the channel got nothing, or the frame that the reader carried and no longer does. */
  predicate OnlyCarried(s: State, s': State, id: u64)
    requires CarriesFor(s, id)
  {
    if CarriesFor(s', id) then
      s'.reader == s.reader && Channel(s', id) == Channel(s, id)
    else
      || Channel(s', id) == Channel(s, id)
      || Channel(s', id) == Channel(s, id) + [Reply(s.reader.frame, s.reader.at)]
  }

  /** The frame looked up before the failure is all that can follow it, and once it has, nothing can. */
  lemma {:induction false} AtMostTheCarriedFrame(steps: seq<Step>, more: seq<Step>, id: u64)
    requires HasDown(Channel(Run(steps), id)) && CarriesFor(Run(steps), id)
    ensures OnlyCarried(Run(steps), Run(steps + more), id)
    decreases |more|
  {
    if more == [] {
      assert steps + more == steps;
    } else {
      var front, last := more[..|more| - 1], more[|more| - 1];
      assert steps + more == steps + front + [last];
      AtMostTheCarriedFrame(steps, front, id);
      RunStep(steps + front, last);
      RunKeeps(steps + front);
      var mid := Run(steps + front);
      assert HasDown(Channel(mid, id)) by { DownStays(Channel(Run(steps), id), Channel(mid, id)); }
      if CarriesFor(mid, id) {
        CarriedStep(mid, last, id);
      } else {
        SilentStep(mid, last, id);
      }
    }
  }

  lemma DownStays(ch: seq<Event>, ch': seq<Event>)
    requires HasDown(ch) && ch <= ch'
    ensures HasDown(ch')
  {
    var i :| 0 <= i < |ch| && ch[i].Down?;
    assert ch'[i].Down?;
  }

  lemma CarriedStep(s: State, step: Step, id: u64)
    requires Inv(s) && HasDown(Channel(s, id)) && CarriesFor(s, id)
    ensures OnlyCarried(s, Do(s, step), id)
  {
    hide ChannelSafe, Issued, ReaderInv;
    assert ChannelInv(s, id, Channel(s, id)) && !MayEnd(s, id);
    hide ChannelsInv, ChannelInv;
  }

  /**
    Exactly when a frame follows a failure: a channel that has seen one changes in some continuation
    if and only if the reader is carrying a frame for it, and delivering it adds that frame only.
  */
  lemma FollowsExactlyWhenCarried(steps: seq<Step>, id: u64)
    requires HasDown(Channel(Run(steps), id))
    ensures var s := Run(steps);
            && (CarriesFor(s, id) <==> exists more :: Channel(Run(steps + more), id) != Channel(s, id))
            && (CarriesFor(s, id) ==>
                  Channel(Do(s, Deliver(true)), id) == Channel(s, id) + [Reply(s.reader.frame, s.reader.at)])
            && (forall more ::
                  if CarriesFor(s, id) then OnlyCarried(s, Run(steps + more), id)
                  else Channel(Run(steps + more), id) == Channel(s, id))
  {
    var s := Run(steps);
    if CarriesFor(s, id) {
      RunStep(steps, Deliver(true));
      assert Channel(Run(steps + [Deliver(true)]), id) != Channel(s, id);
      forall more
        ensures OnlyCarried(s, Run(steps + more), id)
      {
        AtMostTheCarriedFrame(steps, more, id);
      }
    } else {
      forall more
        ensures Channel(Run(steps + more), id) == Channel(s, id)
      {
        SilentRun(steps, more, id);
      }
    }
  }

  /** The case is reached: a stream frame looked up before the failure arrives after it. */
  lemma FrameMayFollowFailure()
    ensures exists steps :: Channel(Run(steps), 1) == [Down, Reply(StreamFrame(), 0)]
  {
    var f := StreamFrame();
    var a := [];
    RunStep(a, Acquire);
    RunStep(a + [Acquire], TakeId);
    var b := a + [Acquire] + [TakeId];
    assert Run(b) == Init().(lock := Numbered(1), nextId := 2, issued := [1]);
    RunStep(b, Insert);
    RunStep(b + [Insert], Arrive(f));
    var c := b + [Insert] + [Arrive(f)];
    var s := State(2, Inserted, false, {1}, Got(f, 0), NotYet, map[], [1], [f]);
    assert Run(c) == s;
    RunStep(c, Lookup);
    RunStep(c + [Lookup], Close);
    RunStep(c + [Lookup] + [Close], TakeMap);
    var d := c + [Lookup] + [Close] + [TakeMap];
    assert Run(d) == s.(reader := Carrying(1, f, 0), closed := true, failing := Notifying({1}), pending := {});
    RunStep(d, Notify(1, true));
    RunStep(d + [Notify(1, true)], Deliver(true));
    assert Channel(Run(d + [Notify(1, true)] + [Deliver(true)]), 1) == [Down] + [Reply(f, 0)];
  }

  // Nothing is lost: what is found for a request reaches it.

  /** The kinds that answer a request, and those that end it, by number. */
  predicate Answers(kind: byte) { kind in {4, 5, 6, 7, 9, 15, 16, 17} }

  predicate EndsRequest(kind: byte) { kind in {4, 5, 7, 9, 16, 17} }

  /** No receiver has been dropped. */
  predicate AllOpen(steps: seq<Step>) {
    forall i :: 0 <= i < |steps| ==> (steps[i].Deliver? || steps[i].Notify? ==> steps[i].open)
  }

  /** `step` looks up an answer to request `id` while the request is pending. */
  predicate FindsFor(s: State, step: Step, id: u64) {
    step.Lookup? && s.reader.Got? && s.reader.frame.id == id && Answers(s.reader.frame.kind) && id in s.pending
  }

  function NewlyFound(s: State, step: Step, id: u64): seq<Event> {
    if FindsFor(s, step, id) then [Reply(s.reader.frame, s.reader.at)] else []
  }

  /** All answers that a run has found for a request, in order. */
  function Found(steps: seq<Step>, id: u64): seq<Event> {
    if steps == [] then [] else
      var front, step := steps[..|steps| - 1], steps[|steps| - 1];
      Found(front, id) + NewlyFound(Run(front), step, id)
  }

  function Replies(ch: seq<Event>): seq<Event> {
    if ch == [] then [] else
      var n := |ch| - 1;
      Replies(ch[..n]) + (if ch[n].Reply? then [ch[n]] else [])
  }

  function Carried(s: State, id: u64): seq<Event> {
    if CarriesFor(s, id) then [Reply(s.reader.frame, s.reader.at)] else []
  }

  lemma RepliesAppend(ch: seq<Event>, e: Event)
    ensures Replies(ch + [e]) == Replies(ch) + (if e.Reply? then [e] else [])
  {
    assert (ch + [e])[..|ch|] == ch;
  }

  /** The answers on a channel, and the one on its way there. */
  function Account(s: State, id: u64): seq<Event> {
    Replies(Channel(s, id)) + Carried(s, id)
  }

  lemma DeliverAccounts(s: State, id: u64)
    ensures Account(Do(s, Deliver(true)), id) == Account(s, id)
  {
    if CarriesFor(s, id) {
      RepliesAppend(Channel(s, id), Reply(s.reader.frame, s.reader.at));
    }
    hide Replies;
  }

  lemma NotifyAccounts(s: State, id: u64, k: u64)
    ensures Account(Do(s, Notify(k, true)), id) == Account(s, id)
  {
    RepliesAppend(Channel(s, id), Down);
    hide Replies;
  }

  lemma LookupAccounts(s: State, id: u64)
    ensures Account(Do(s, Lookup), id) == Account(s, id) + NewlyFound(s, Lookup, id)
  {
    hide Replies;
    assert Channel(Do(s, Lookup), id) == Channel(s, id);
  }

  lemma FoundStep(s: State, step: Step, id: u64)
    requires step.Deliver? || step.Notify? ==> step.open
    ensures Account(Do(s, step), id) == Account(s, id) + NewlyFound(s, step, id)
  {
    if step.Deliver? {
      DeliverAccounts(s, id);
    } else if step.Notify? {
      NotifyAccounts(s, id, step.id);
    } else if step.Lookup? {
      LookupAccounts(s, id);
    } else {
      assert Channel(Do(s, step), id) == Channel(s, id) && Carried(Do(s, step), id) == Carried(s, id);
    }
    hide Replies, Do, Carried, Account;
    assert !step.Lookup? ==> Account(s, id) + [] == Account(s, id);
  }

  /**
    In every run whose receivers stay open, the frames on a request's channel, with the one the reader
    is about to deliver, are exactly the answers found for it while it was pending, in order.
  */
  lemma {:induction false} NothingIsLost(steps: seq<Step>, id: u64)
    requires AllOpen(steps)
    ensures Account(Run(steps), id) == Found(steps, id)
  {
    hide Do, Account, NewlyFound;
    if steps == [] {
      NothingYet(id);
    } else {
      var front, step := steps[..|steps| - 1], steps[|steps| - 1];
      NothingIsLost(front, id);
      FoundStep(Run(front), step, id);
    }
  }

  lemma NothingYet(id: u64)
    ensures Account(Run([]), id) == []
  {
  }

  /** Request `id` was pending when the failure took the map. */
  predicate WasPending(steps: seq<Step>, id: u64) {
    if steps == [] then false else
      var front, step := steps[..|steps| - 1], steps[|steps| - 1];
      WasPending(front, id) || (step.TakeMap? && Run(front).failing.Swapped? && id in Run(front).pending)
  }

  predicate ToBeTold(s: State, id: u64) {
    s.failing.Notifying? && id in s.failing.ids
  }

  lemma HasDownAppend(ch: seq<Event>, e: Event)
    ensures HasDown(ch + [e]) <==> HasDown(ch) || e.Down?
  {
    assert (ch + [e])[|ch|] == e;
    assert forall i :: 0 <= i < |ch| ==> (ch + [e])[i] == ch[i];
  }

  predicate Told(s: State, id: u64) {
    HasDown(Channel(s, id)) || ToBeTold(s, id)
  }

  lemma ToldStep(s: State, step: Step, id: u64)
    requires step.Deliver? || step.Notify? ==> step.open
    requires s.closed <==> !s.failing.NotYet?
    ensures Told(Do(s, step), id) <==> Told(s, id) || (step.TakeMap? && s.failing.Swapped? && id in s.pending)
    ensures Do(s, step).closed <==> !Do(s, step).failing.NotYet?
  {
    var ch := Channel(s, id);
    HasDownAppend(ch, Down);
    if s.reader.Carrying? {
      HasDownAppend(ch, Reply(s.reader.frame, s.reader.at));
    }
    hide HasDown;
  }

  /**
    In every run whose receivers stay open, a request learns of the connection's failure, or is about
    to, if and only if it was pending when the failure took the map.
  */
  lemma {:induction false} FailureReachesThePending(steps: seq<Step>, id: u64)
    requires AllOpen(steps)
    ensures Told(Run(steps), id) <==> WasPending(steps, id)
    ensures Run(steps).closed <==> !Run(steps).failing.NotYet?
  {
    hide Do, Told;
    if steps == [] {
      NobodyTold(id);
    } else {
      var front, step := steps[..|steps| - 1], steps[|steps| - 1];
      FailureReachesThePending(front, id);
      ToldStep(Run(front), step, id);
    }
  }

  lemma NobodyTold(id: u64)
    ensures !Told(Run([]), id)
  {
  }

  /** Exactly what makes a request pending, and what ends that. */
  lemma PendingChangesExactly(s: State, step: Step, id: u64)
    ensures id in s.pending ==>
              (id !in Do(s, step).pending <==>
                 || step == Remove(id) || (step.TakeMap? && s.failing.Swapped?)
                 || (step.Lookup? && s.reader.Got? && s.reader.frame.id == id && EndsRequest(s.reader.frame.kind)))
    ensures id !in s.pending ==>
              (id in Do(s, step).pending <==> step.Insert? && s.lock == Numbered(id))
  {
  }

  /** A closed connection issues no more ids, whatever is still in progress on it. */
  lemma {:induction false} NothingIssuedAfterClose(steps: seq<Step>, more: seq<Step>)
    requires Run(steps).closed
    ensures Run(steps + more).closed && Run(steps + more).issued == Run(steps).issued
    decreases |more|
  {
    hide Do, Run;
    if more == [] {
      assert steps + more == steps;
    } else {
      var front, last := more[..|more| - 1], more[|more| - 1];
      assert steps + more == steps + front + [last];
      NothingIssuedAfterClose(steps, front);
      RunStep(steps + front, last);
      ClosedIssuesNothing(Run(steps + front), last);
    }
  }

  lemma ClosedIssuesNothing(s: State, step: Step)
    requires s.closed
    ensures Do(s, step).closed && Do(s, step).issued == s.issued && (s.lock.Free? ==> Do(s, step).lock.Free?)
  {
  }

  // One request, step by step.

  /** `begin`, undisturbed: the next id is pending and issued. */
  lemma BeginMakesPending(steps: seq<Step>)
    requires var s := Run(steps); s.lock.Free? && !s.closed && s.nextId < U64_MAX
    ensures var s, t := Run(steps), Run(steps + [Acquire] + [TakeId] + [Insert] + [Release]);
            && t.pending == s.pending + {s.nextId} && t.issued == s.issued + [s.nextId]
            && t.nextId == s.nextId + 1 && t.lock.Free?
  {
    RunKeeps(steps);
    hide Run;
    RunStep(steps, Acquire);
    RunStep(steps + [Acquire], TakeId);
    RunStep(steps + [Acquire] + [TakeId], Insert);
    RunStep(steps + [Acquire] + [TakeId] + [Insert], Release);
  }

  /** An answer to a pending request is put on its channel and on no other, and ends it if terminal. */
  lemma ReplyReaches(steps: seq<Step>, f: Frame)
    requires var s := Run(steps); s.reader.Idle? && Answers(f.kind) && f.id in s.pending
    ensures var s, t := Run(steps), Run(steps + [Arrive(f)] + [Lookup] + [Deliver(true)]);
            && Channel(t, f.id) == Channel(s, f.id) + [Reply(f, |s.read|)]
            && (forall id :: id != f.id ==> Channel(t, id) == Channel(s, id))
            && t.pending == (if EndsRequest(f.kind) then s.pending - {f.id} else s.pending)
            && t.read == s.read + [f] && t.reader.Idle?
  {
    hide Run;
    RunStep(steps, Arrive(f));
    RunStep(steps + [Arrive(f)], Lookup);
    RunStep(steps + [Arrive(f)] + [Lookup], Deliver(true));
  }

  /** A frame for nobody is passed over, a ping answered elsewhere, and any other frame stops the reader. */
  lemma OtherFrames(steps: seq<Step>, f: Frame)
    requires var s := Run(steps); s.reader.Idle? && !(Answers(f.kind) && f.id in s.pending)
    ensures var s, t := Run(steps), Run(steps + [Arrive(f)] + [Lookup]);
            && t.channels == s.channels && t.pending == s.pending
            && t.reader == if Answers(f.kind) || f.kind == 8 then Idle else Stopped
  {
    hide Run;
    RunStep(steps, Arrive(f));
    RunStep(steps + [Arrive(f)], Lookup);
  }

  /** A failure of an open connection reaches a pending request, and leaves none pending. */
  lemma FailureReaches(steps: seq<Step>, id: u64)
    requires !Run(steps).closed && id in Run(steps).pending
    ensures var s, t := Run(steps), Run(steps + [Close] + [TakeMap] + [Notify(id, true)]);
            Channel(t, id) == Channel(s, id) + [Down] && t.pending == {} && t.closed
  {
    hide Run;
    RunStep(steps, Close);
    RunStep(steps + [Close], TakeMap);
    RunStep(steps + [Close] + [TakeMap], Notify(id, true));
  }
}
