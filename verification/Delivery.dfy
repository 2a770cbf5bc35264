/** The writer's queues and the record layer together: what the peer reads of what was sent. */
module Delivery {
  import opened Bytes
  import opened Frames
  import opened Writer
  import opened WriterUploads
  import Records
  import RecordStream

  // Only legal frames reach the wire.

  predicate Sendable(x: Item) {
    x.origin.Goodbye? || Legal(x.frame)
  }

  ghost predicate AllSendable(items: seq<Item>) {
    forall x :: x in items ==> Sendable(x)
  }

  ghost predicate LegalState(s: State) {
    && AllSendable(s.held) && AllSendable(s.control) && AllSendable(s.media) && AllSendable(s.writing)
    && AllSendable(s.wire) && (s.opener.Budgeted? ==> Sendable(s.opener.item))
  }

  lemma SendableAppend(items: seq<Item>, x: Item)
    requires AllSendable(items) && Sendable(x)
    ensures AllSendable(items + [x])
  {
    assert forall y :: y in items + [x] ==> y in items || y == x;
  }

  lemma SendablePart(items: seq<Item>, part: seq<Item>)
    requires AllSendable(items) && forall x :: x in part ==> x in items
    ensures AllSendable(part)
  {
  }

  lemma HoldLegal(s: State, x: Item)
    requires LegalState(s)
    ensures LegalState(Hold(s, x))
  {
    if Legal(x.frame) {
      SendableAppend(s.held, x);
    }
    hide AllSendable, ItemUnits;
  }

  lemma QueueStepLegal(s: State, step: Step)
    requires LegalState(s) && (step.OpenQueue? || step.SayGoodbye? || step.Queue? || step.GiveUp?)
    ensures LegalState(Do(s, step))
  {
    if step.OpenQueue? {
      if s.opener.Budgeted? {
        SendableAppend(s.control, s.opener.item);
      }
    } else if step.SayGoodbye? {
      SendableAppend(s.control, Item(NoFrame(), Goodbye));
    } else if step.i < |s.held| {
      var x := s.held[step.i];
      assert x in s.held && Sendable(x);
      SendablePart(s.held, Without(s.held, step.i));
      SendableAppend(s.control, x);
      SendableAppend(s.media, x);
    }
    hide AllSendable, Without, ItemUnits;
  }

  lemma WriterStepLegal(s: State, step: Step)
    requires LegalState(s) && (step.Pop? || step.Wrote? || step.WriteFails?)
    ensures LegalState(Do(s, step))
  {
    SendablePart(s.wire, []);
    if |s.writing| == 1 {
      assert s.writing[0] in s.writing;
      SendableAppend(s.wire, s.writing[0]);
    }
    if s.control != [] {
      SendablePart(s.control, s.control[1..]);
      SendablePart(s.control, [s.control[0]]);
    }
    if s.media != [] {
      SendablePart(s.media, s.media[1..]);
      SendablePart(s.media, [s.media[0]]);
    }
    hide AllSendable, ItemUnits, Units;
  }

  lemma UploadStepLegal(s: State, step: Step)
    requires LegalState(s)
    ensures LegalState(UploadStep(s, step))
  {
    match step {
      case AdmitData(id) =>
        if id in s.uploads && s.uploads[id].phase.Wants? {
          HoldLegal(s, Item(DataFrame(id, s.uploads[id].phase.chunk), Upload(id)));
        }
      case AdmitEnd(id, payload) => HoldLegal(s, Item(EndFrame(id, payload), Upload(id)));
      case _ =>
    }
    hide AllSendable, Hold;
  }

  lemma StepLegal(s: State, step: Step)
    requires LegalState(s)
    ensures LegalState(Do(s, step))
  {
    if step.OpenQueue? || step.SayGoodbye? || step.Queue? || step.GiveUp? {
      QueueStepLegal(s, step);
    } else if step.Pop? || step.Wrote? || step.WriteFails? {
      WriterStepLegal(s, step);
    } else if step.OtherBudget? {
      HoldLegal(s, Item(step.frame, Other));
    } else {
      UploadStepLegal(s, step);
    }
    hide AllSendable, Hold, UploadStep, Enqueue, WriteOut, ItemUnits, Units;
  }

  lemma {:induction false} RunLegal(steps: seq<Step>)
    ensures LegalState(Run(steps))
  {
    hide Do;
    if steps != [] {
      RunLegal(steps[..|steps| - 1]);
      StepLegal(Run(steps[..|steps| - 1]), steps[|steps| - 1]);
    }
  }

  // The wire, as commands to the record layer.

  function Command(x: Item): RecordStream.Command {
    if x.origin.Goodbye? then RecordStream.Goodbye else RecordStream.Send(x.frame)
  }

  function Commands(items: seq<Item>): (cs: seq<RecordStream.Command>)
    ensures |cs| == |items| && forall i :: 0 <= i < |items| ==> cs[i] == Command(items[i])
  {
    seq(|items|, i requires 0 <= i < |items| => Command(items[i]))
  }

  lemma CommandsLegal(items: seq<Item>)
    requires AllSendable(items)
    ensures RecordStream.AllLegal(Commands(items))
  {
    forall i | 0 <= i < |items|
      ensures Sendable(items[i])
    {
      assert items[i] in items;
    }
  }

  /** The bytes of what is sent, all of which may or may not have reached the peer, under a fresh key. */
  function Socket(l: RecordStream.Link, key: bytes, s: State): RecordStream.Run {
    RecordStream.WriteRun(l, Records.FreshCipher(key), Commands(Sent(s)))
  }

  lemma SentLegal(steps: seq<Step>)
    ensures AllSendable(Sent(Run(steps)))
  {
    RunLegal(steps);
    hide Run;
  }

  function PeerReads(l: RecordStream.Link, key: bytes, wire: bytes): seq<Frame> {
    RecordStream.ReadRun(l, Records.FreshCipher(key), wire).frames
  }

  /**
    In every run of the writer the sealing never fails, and the peer, once all bytes are there, has
    read exactly the frames in front of the first close, in the order in which the queues gave them out.
  */
  lemma PeerReadsTheWire(l: RecordStream.Link, key: bytes, steps: seq<Step>)
    ensures var s := Run(steps);
            && (|Sent(s)| <= U64_MAX ==> Socket(l, key, s).ok)
            && (Socket(l, key, s).ok ==>
                  PeerReads(l, key, Socket(l, key, s).wire) == RecordStream.BeforeClose(Commands(Sent(s))))
  {
    SentLegal(steps);
    var sent := Sent(Run(steps));
    hide Run, RecordStream.WriteRun, RecordStream.ReadRun;
    CommandsLegal(sent);
    RecordStream.ReadRunOfWriteRun(l, Records.FreshCipher(key), Commands(sent));
    if |sent| <= U64_MAX {
      RecordStream.FramesCross(l, key, Commands(sent));
    }
  }

  // What that means for a media upload.

  /** The STREAM_DATA payloads of id `u` among frames. */
  function Payloads(u: u64, frames: seq<Frame>): seq<bytes> {
    if frames == [] then [] else
      var n := |frames| - 1;
      Payloads(u, frames[..n])
      + (if frames[n].id == u && frames[n].kind == STREAM_DATA then [frames[n].payload] else [])
  }

  lemma {:induction false} BeforeCloseAt(commands: seq<RecordStream.Command>, i: nat)
    requires i < |RecordStream.BeforeClose(commands)|
    ensures i < |commands| && commands[i] == RecordStream.Send(RecordStream.BeforeClose(commands)[i])
    decreases |commands|
  {
    if i > 0 {
      BeforeCloseAt(commands[1..], i - 1);
    }
  }

  lemma {:induction false} PayloadsOfWire(u: u64, items: seq<Item>, frames: seq<Frame>)
    requires |frames| <= |items| && forall i :: 0 <= i < |frames| ==> frames[i] == items[i].frame
    ensures Payloads(u, frames) == Data(u, items[..|frames|])
  {
    if frames != [] {
      var n := |frames| - 1;
      PayloadsOfWire(u, items, frames[..n]);
      assert items[..n + 1][..n] == items[..n];
    }
  }

  lemma PrefixOfWire(items: seq<Item>, got: seq<Frame>)
    requires got <= RecordStream.BeforeClose(Commands(items))
    ensures |got| <= |items| && forall i :: 0 <= i < |got| ==> got[i] == items[i].frame
  {
    hide RecordStream.BeforeClose;
    var commands := Commands(items);
    var sent := RecordStream.BeforeClose(commands);
    if got != [] {
      BeforeCloseAt(commands, |got| - 1);
    }
    forall i | 0 <= i < |got|
      ensures got[i] == items[i].frame
    {
      BeforeCloseAt(commands, i);
      assert got[i] == sent[i];
    }
  }

  /** What the peer reads when only the first `k` bytes reach it. */
  function Received(l: RecordStream.Link, key: bytes, s: State, k: nat): seq<Frame> {
    var wire := Socket(l, key, s).wire;
    PeerReads(l, key, wire[..Min(k, |wire|)])
  }

  /** Whatever part of the stream arrives, what is read of it is the sent frames from their start. */
  lemma PeerReadsAPrefix(l: RecordStream.Link, key: bytes, steps: seq<Step>, k: nat)
    ensures var got, sent := Received(l, key, Run(steps), k), Sent(Run(steps));
            |got| <= |sent| && forall i :: 0 <= i < |got| ==> got[i] == sent[i].frame
  {
    SentLegal(steps);
    var sent := Sent(Run(steps));
    hide Run, Sent, RecordStream.WriteRun, RecordStream.ReadRun, RecordStream.BeforeClose;
    CommandsLegal(sent);
    var wire := Socket(l, key, Run(steps)).wire;
    RecordStream.ReadRunOfPart(l, Records.FreshCipher(key), Commands(sent), Min(k, |wire|));
    PrefixOfWire(sent, Received(l, key, Run(steps), k));
  }

  lemma EndSentAfterAllData(steps: seq<Step>, u: u64, m: nat)
    requires u in Run(steps).uploads && m < |Sent(Run(steps))| && IsEnd(u, Sent(Run(steps))[m])
    ensures var s := Run(steps);
            Data(u, Sent(s)[..m]) == s.uploads[u].read && |Concat(s.uploads[u].read)| == s.uploads[u].size
  {
    WriterUploads.RunKeeps(steps);
    var s := Run(steps);
    hide Run, Data, UpInv;
    if m < |s.wire| {
      assert Sent(s)[..m] == s.wire[..m] && Sent(s)[m] == s.wire[m];
      EndFollowsAllData(steps, u, m);
    } else {
      assert m == |s.wire| && Sent(s)[..m] == s.wire && Sent(s)[m] == s.writing[0];
      EndLeavesAfterAllData(steps, u, s.writing[0]);
    }
  }

  /** Every STREAM_END of id `u` among `frames` comes after exactly what the upload read, as declared. */
  ghost predicate EndsWhole(u: u64, up: Up, frames: seq<Frame>) {
    forall m :: 0 <= m < |frames| && frames[m].id == u && frames[m].kind == STREAM_END ==>
      Payloads(u, frames[..m]) == up.read && |Concat(up.read)| == up.size
  }

  /**
    Whatever part of the stream reaches the media node: once it has read the STREAM_END of an upload,
    the STREAM_DATA payloads of that id that it has read are, one by one, the chunks that the uploader
    read from its source, and hold exactly the declared number of bytes.
  */
  lemma MediaNodeHasTheFile(l: RecordStream.Link, key: bytes, steps: seq<Step>, k: nat)
    ensures var s := Run(steps);
            forall u :: u in s.uploads ==> EndsWhole(u, s.uploads[u], Received(l, key, s, k))
  {
    hide Run, Sent, Data, Payloads, Received;
    var s := Run(steps);
    var got := Received(l, key, s, k);
    PeerReadsAPrefix(l, key, steps, k);
    forall u, m | u in s.uploads && 0 <= m < |got| && got[m].id == u && got[m].kind == STREAM_END
      ensures Payloads(u, got[..m]) == s.uploads[u].read && |Concat(s.uploads[u].read)| == s.uploads[u].size
    {
      EndSentAfterAllData(steps, u, m);
      PayloadsOfWire(u, Sent(s), got[..m]);
    }
  }
}
