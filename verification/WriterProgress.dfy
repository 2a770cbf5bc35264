/** The writer's queues: control first, each in order, and an undisturbed upload goes through. */
module WriterProgress {
  import opened Bytes
  import opened Frames
  import opened Writer

  lemma RunStep(steps: seq<Step>, step: Step)
    ensures Run(steps + [step]) == Do(Run(steps), step)
  {
    assert (steps + [step])[..|steps|] == steps;
  }

  // Both queues are first in, first out.

  predicate IsData(x: Item) { x.frame.kind == STREAM_DATA }

  /** The stream data among `items`, and everything else, each in order. */
  function DataOf(items: seq<Item>): seq<Item> {
    if items == [] then [] else
      var n := |items| - 1;
      DataOf(items[..n]) + (if IsData(items[n]) then [items[n]] else [])
  }

  function OthersOf(items: seq<Item>): seq<Item> {
    if items == [] then [] else
      var n := |items| - 1;
      OthersOf(items[..n]) + (if IsData(items[n]) then [] else [items[n]])
  }

  lemma PartsAppend(items: seq<Item>, x: Item)
    ensures DataOf(items + [x]) == DataOf(items) + (if IsData(x) then [x] else [])
    ensures OthersOf(items + [x]) == OthersOf(items) + (if IsData(x) then [] else [x])
  {
    assert (items + [x])[..|items|] == items;
  }

  ghost predicate Sorted(s: State) {
    && |s.writing| <= 1
    && (forall i :: 0 <= i < |s.media| ==> IsData(s.media[i]))
    && (forall i :: 0 <= i < |s.control| ==> !IsData(s.control[i]))
    && (s.opener.Budgeted? ==> !IsData(s.opener.item))
    && |s.control| <= 64 && |s.media| <= 128
  }

  lemma SortedKept(s: State, step: Step)
    requires Sorted(s)
    ensures Sorted(Do(s, step))
  {
    hide ItemUnits, Units, Without;
  }

  lemma {:induction false} RunSorted(steps: seq<Step>)
    ensures Sorted(Run(steps))
  {
    hide Do;
    if steps != [] {
      RunSorted(steps[..|steps| - 1]);
      SortedKept(Run(steps[..|steps| - 1]), steps[|steps| - 1]);
    }
  }

  /** The queues hold at most 64 and 128 commands, and one command at a time is being written. */
  lemma QueuesAreBounded(steps: seq<Step>)
    ensures var s := Run(steps); |s.control| <= 64 && |s.media| <= 128 && |s.writing| <= 1
  {
    RunSorted(steps);
    hide Run;
  }

  /** Everything of a queue's kind, sent or queued, in order. */
  function MediaLine(s: State): seq<Item> { DataOf(Sent(s)) + s.media }

  function ControlLine(s: State): seq<Item> { OthersOf(Sent(s)) + s.control }

  lemma PopControl(s: State)
    requires s.alive && s.writing == [] && s.control != [] && !IsData(s.control[0])
    ensures MediaLine(Do(s, Pop)) == MediaLine(s) && ControlLine(Do(s, Pop)) == ControlLine(s)
  {
    hide DataOf, OthersOf;
    assert Sent(s) == s.wire && Sent(Do(s, Pop)) == s.wire + [s.control[0]];
    PartsAppend(s.wire, s.control[0]);
    assert s.control == [s.control[0]] + s.control[1..];
  }

  lemma PopMedia(s: State)
    requires s.alive && s.writing == [] && s.control == [] && s.media != [] && IsData(s.media[0])
    ensures MediaLine(Do(s, Pop)) == MediaLine(s) && ControlLine(Do(s, Pop)) == ControlLine(s)
  {
    hide DataOf, OthersOf;
    assert Sent(s) == s.wire && Sent(Do(s, Pop)) == s.wire + [s.media[0]];
    PartsAppend(s.wire, s.media[0]);
    assert s.media == [s.media[0]] + s.media[1..];
  }

  lemma PopLines(s: State)
    requires Sorted(s)
    ensures MediaLine(Do(s, Pop)) == MediaLine(s) && ControlLine(Do(s, Pop)) == ControlLine(s)
  {
    hide MediaLine, ControlLine;
    if s.alive && s.writing == [] {
      if s.control != [] {
        PopControl(s);
      } else if s.media != [] {
        PopMedia(s);
      }
    }
  }

  lemma WroteLines(s: State)
    requires Sorted(s)
    ensures Sent(Do(s, Wrote)) == Sent(s)
    ensures Do(s, Wrote).media == s.media && Do(s, Wrote).control == s.control
  {
    if |s.writing| == 1 {
      assert s.writing == [s.writing[0]];
    }
    hide ItemUnits;
  }

  /** All other steps send nothing and put commands only behind those that wait. */
  lemma OtherStepsAppend(s: State, step: Step)
    requires !step.Pop? && !step.Wrote? && Do(s, step).alive
    ensures var s' := Do(s, step);
            s.alive && Sent(s') == Sent(s) && s.media <= s'.media && s.control <= s'.control
  {
    hide ItemUnits, Units, Without;
  }

  lemma PrefixBehind(a: seq<Item>, b: seq<Item>, b': seq<Item>)
    requires b <= b'
    ensures a + b <= a + b'
  {
  }

  lemma LinesGrow(s: State, step: Step)
    requires Sorted(s) && Do(s, step).alive
    ensures MediaLine(s) <= MediaLine(Do(s, step)) && ControlLine(s) <= ControlLine(Do(s, step)) && s.alive
  {
    hide DataOf, OthersOf, Sent, Do;
    StaysDead(s, step);
    if step.Pop? {
      PopLines(s);
    } else if step.Wrote? {
      WroteLines(s);
    } else {
      OtherStepsAppend(s, step);
      PrefixBehind(DataOf(Sent(s)), s.media, Do(s, step).media);
      PrefixBehind(OthersOf(Sent(s)), s.control, Do(s, step).control);
    }
  }

  /**
    As long as the writer lives, whatever was sent or queued stays in line: each queue only grows at
    its end, and gives out its commands in the order in which they were put in.
  */
  lemma {:induction false} QueuesAreFifo(steps: seq<Step>, more: seq<Step>)
    requires Run(steps + more).alive
    ensures Run(steps).alive
    ensures MediaLine(Run(steps)) <= MediaLine(Run(steps + more))
    ensures ControlLine(Run(steps)) <= ControlLine(Run(steps + more))
    decreases |more|
  {
    hide Run, Do, MediaLine, ControlLine, Sorted;
    if more == [] {
      assert steps + more == steps;
    } else {
      var front, last := more[..|more| - 1], more[|more| - 1];
      assert steps + more == steps + front + [last];
      RunStep(steps + front, last);
      RunSorted(steps + front);
      LinesGrow(Run(steps + front), last);
      QueuesAreFifo(steps, front);
    }
  }

  // Control goes first.

  /** `line` is what goes out next, before anything else: it is sent already or at the head of the queue. */
  predicate Next(line: seq<Item>, s: State) {
    if |line| <= |Sent(s)| then line <= Sent(s) else line <= Sent(s) + s.control
  }

  lemma NextAtPop(line: seq<Item>, s: State)
    requires Next(line, s) && s.alive && s.writing == []
    ensures Next(line, Do(s, Pop))
  {
    var s' := Do(s, Pop);
    if s.control != [] {
      assert Sent(s') + s'.control == Sent(s) + s.control;
      assert Sent(s') == Sent(s) + [s.control[0]];
      if |Sent(s)| < |line| <= |Sent(s')| {
        assert line == (Sent(s) + s.control)[..|line|];
        assert Sent(s') == (Sent(s) + s.control)[..|Sent(s')|];
      }
    } else {
      assert Sent(s) <= Sent(s') && Sent(s) + s.control == Sent(s);
    }
  }

  lemma NextKept(line: seq<Item>, s: State, step: Step)
    requires Sorted(s) && Next(line, s) && Do(s, step).alive
    ensures Next(line, Do(s, step))
  {
    hide Do, Sorted, Sent;
    StaysDead(s, step);
    if step.Pop? {
      if s.writing == [] {
        NextAtPop(line, s);
      } else {
        PopWaits(s);
      }
    } else if step.Wrote? {
      WroteLines(s);
    } else {
      OtherStepsAppend(s, step);
      PrefixBehind(Sent(s), s.control, Do(s, step).control);
    }
  }

  lemma PopWaits(s: State)
    requires s.writing != []
    ensures Do(s, Pop) == s
  {
  }

  /**
    Control overtakes media and is never overtaken: as long as the writer lives, what is sent and then
    the whole control queue of any moment goes out before anything that was not in front of it then.
  */
  lemma {:induction false} ControlIsNotOvertaken(steps: seq<Step>, more: seq<Step>)
    requires Run(steps + more).alive
    ensures Run(steps).alive && Next(Sent(Run(steps)) + Run(steps).control, Run(steps + more))
    decreases |more|
  {
    hide Run, Do, Next, Sorted;
    if more == [] {
      assert steps + more == steps;
      NextNow(Run(steps));
    } else {
      var front, last := more[..|more| - 1], more[|more| - 1];
      assert steps + more == steps + front + [last];
      RunStep(steps + front, last);
      RunSorted(steps + front);
      StaysDead(Run(steps + front), last);
      ControlIsNotOvertaken(steps, front);
      NextKept(Sent(Run(steps)) + Run(steps).control, Run(steps + front), last);
    }
  }

  lemma NextNow(s: State)
    ensures Next(Sent(s) + s.control, s)
  {
  }

  lemma StaysDead(s: State, step: Step)
    requires Do(s, step).alive
    ensures s.alive
  {
    hide ItemUnits, Units, Without;
  }

  /** Any other legal frame is admitted when its budget is there, unless it is stream data of an upload. */
  lemma OthersAreAdmitted(s: State, f: Frame)
    requires Legal(f) && FrameUnits(f) <= s.free
    ensures var s' := Do(s, OtherBudget(f));
            if (f.kind == 15 || f.kind == 16) && f.id in s.uploads then s' == s
            else s'.held == s.held + [Item(f, Other)] && s'.free == s.free - FrameUnits(f)
  {
    hide FrameUnits;
  }

  /** A close is queued behind all control frames, and a failed write ends the writer and empties its queues. */
  lemma ClosesAndFailures(s: State)
    requires s.alive
    ensures |s.control| < 64 ==> Do(s, SayGoodbye) == s.(control := s.control + [Item(NoFrame(), Goodbye)])
    ensures |s.writing| == 1 ==>
              var s' := Do(s, WriteFails);
              !s'.alive && s'.control == [] && s'.media == [] && s'.writing == [] && s'.wire == s.wire
  {
    hide ItemUnits, Units;
  }

  // An upload that stops.

  /** What stops an upload: being abandoned, a source that is too long, and one that is too short. */
  lemma UploadStops(s: State, id: u64, chunk: bytes)
    requires id in s.uploads && s.uploads[id].phase.Reading? && 0 < |chunk| <= 262144
    ensures var up := s.uploads[id];
            && Do(s, Abandon(id)).uploads[id] == up.(phase := Stopped)
            && (up.sent + |chunk| > up.size ==> Do(s, ReadChunk(id, chunk)).uploads[id].phase.Stopped?)
            && (up.sent != up.size ==> Do(s, ReadEnd(id)).uploads[id].phase.Stopped?)
  {
  }

  lemma StoppedStays(s: State, step: Step, id: u64)
    requires id in s.uploads && s.uploads[id].phase.Stopped?
    ensures id in Do(s, step).uploads && Do(s, step).uploads[id] == s.uploads[id]
  {
    hide ItemUnits, Units, Without;
  }

  /** Only an upload that wants to send has a command admitted. */
  lemma StoppedAdmits(s: State, step: Step, id: u64)
    requires id in s.uploads && s.uploads[id].phase.Stopped?
    ensures forall x :: x in Do(s, step).held && x.origin == Upload(id) ==> x in s.held
  {
    hide ItemUnits, Units;
  }

  lemma StoppedStep(s: State, step: Step, id: u64)
    requires id in s.uploads && s.uploads[id].phase.Stopped?
    ensures id in Do(s, step).uploads && Do(s, step).uploads[id] == s.uploads[id]
    ensures forall x :: x in Do(s, step).held && x.origin == Upload(id) ==> x in s.held
  {
    hide Do;
    StoppedStays(s, step, id);
    StoppedAdmits(s, step, id);
  }

  /** A stopped upload never sends again: it stays as it is, and no command of it is admitted any more. */
  lemma {:induction false} StoppedForGood(steps: seq<Step>, more: seq<Step>, id: u64)
    requires id in Run(steps).uploads && Run(steps).uploads[id].phase.Stopped?
    ensures id in Run(steps + more).uploads && Run(steps + more).uploads[id] == Run(steps).uploads[id]
    ensures forall x :: x in Run(steps + more).held && x.origin == Upload(id) ==> x in Run(steps).held
    decreases |more|
  {
    hide Do, Run;
    if more == [] {
      assert steps + more == steps;
    } else {
      var front, last := more[..|more| - 1], more[|more| - 1];
      assert steps + more == steps + front + [last];
      StoppedForGood(steps, front, id);
      RunStep(steps + front, last);
      StoppedStep(Run(steps + front), last, id);
    }
  }

  // An upload that nothing disturbs.

  function DoAll(s: State, steps: seq<Step>): State {
    if steps == [] then s else Do(DoAll(s, steps[..|steps| - 1]), steps[|steps| - 1])
  }

  lemma {:induction false} RunMore(steps: seq<Step>, more: seq<Step>)
    ensures Run(steps + more) == DoAll(Run(steps), more)
    decreases |more|
  {
    hide Run, Do;
    if more == [] {
      assert steps + more == steps;
    } else {
      var front, last := more[..|more| - 1], more[|more| - 1];
      assert steps + more == steps + front + [last];
      RunMore(steps, front);
      RunStep(steps + front, last);
    }
  }

  lemma {:induction false} DoAllJoins(s: State, a: seq<Step>, b: seq<Step>)
    ensures DoAll(s, a + b) == DoAll(DoAll(s, a), b)
    decreases |b|
  {
    hide Do;
    if b == [] {
      assert a + b == a;
    } else {
      DoAllJoins(s, a, b[..|b| - 1]);
      assert (a + b)[..|a + b| - 1] == a + b[..|b| - 1];
    }
  }

  lemma DoAllStep(s: State, steps: seq<Step>, step: Step)
    ensures DoAll(s, steps + [step]) == Do(DoAll(s, steps), step)
  {
    assert (steps + [step])[..|steps|] == steps;
  }

  /** All budget free, nothing on its way. */
  predicate Quiet(s: State) {
    s.free == BUDGET && s.held == [] && s.control == [] && s.media == [] && s.writing == [] && s.alive
  }

  /** What a run leaves behind once it is quiet again. */
  function Later(s: State, sent: seq<Item>, id: u64, up: Up): State {
    s.(wire := s.wire + sent, uploads := s.uploads[id := up])
  }

  function ThroughQueue(): seq<Step> { [Queue(0)] + [Pop] + [Wrote] }

  /** A single admitted command of an upload goes out, and the upload hears of it. */
  lemma CommandGoes(s: State, s1: State, x: Item, id: u64)
    requires Quiet(s) && x.origin == Upload(id) && id in s1.uploads
    requires s.free >= ItemUnits(x)
    requires s1 == s.(free := s.free - ItemUnits(x), held := [x], uploads := s1.uploads)
    ensures DoAll(s1, ThroughQueue())
         == s.(wire := s.wire + [x], uploads := s1.uploads[id := Completed(s1.uploads[id])])
  {
    hide ItemUnits, Do, DoAll;
    DoAllStep(s1, [], Queue(0));
    DoAllStep(s1, [Queue(0)], Pop);
    DoAllStep(s1, [Queue(0)] + [Pop], Wrote);
    assert [] + [Queue(0)] == [Queue(0)];
    NoSteps(s1);
    QueuedThenPopped(s, s1, x);
    WrittenOut(s, s1, x, id);
  }

  lemma NoSteps(s: State)
    ensures DoAll(s, []) == s
  {
  }

  lemma QueuedThenPopped(s: State, s1: State, x: Item)
    requires Quiet(s) && s.free >= ItemUnits(x)
    requires s1 == s.(free := s.free - ItemUnits(x), held := [x], uploads := s1.uploads)
    ensures Do(Do(s1, Queue(0)), Pop) == s1.(held := [], writing := [x])
  {
    hide ItemUnits;
    assert Without([x], 0) == [] && [] + [x] == [x];
    assert [x][1..] == [];
    var s2 := Do(s1, Queue(0));
    assert s2 == s1.(held := [], media := [x]) || s2 == s1.(held := [], control := [x]);
  }

  lemma WrittenOut(s: State, s1: State, x: Item, id: u64)
    requires Quiet(s) && x.origin == Upload(id) && id in s1.uploads && s.free >= ItemUnits(x)
    requires s1 == s.(free := s.free - ItemUnits(x), held := [x], uploads := s1.uploads)
    ensures Do(s1.(held := [], writing := [x]), Wrote)
         == s.(wire := s.wire + [x], uploads := s1.uploads[id := Completed(s1.uploads[id])])
  {
    hide ItemUnits;
  }

  function ChunkSteps(id: u64, chunk: bytes): seq<Step> {
    [ReadChunk(id, chunk)] + [AdmitData(id)] + ThroughQueue()
  }

  lemma SmallUnits(x: Item)
    requires |x.frame.payload| <= MAX_PAYLOAD
    ensures ItemUnits(x) <= 257
  {
  }

  lemma ChunkWanted(s: State, id: u64, chunk: bytes)
    requires id in s.uploads && s.uploads[id].phase.Reading?
    requires 0 < |chunk| <= 262144 && s.uploads[id].sent + |chunk| <= s.uploads[id].size
    ensures var up := s.uploads[id];
            Do(s, ReadChunk(id, chunk))
            == s.(uploads := s.uploads[id := up.(read := up.read + [chunk], phase := Wants(chunk))])
  {
  }

  lemma ChunkHeld(s: State, id: u64, chunk: bytes)
    requires Quiet(s) && id in s.uploads && s.uploads[id].phase == Wants(chunk) && |chunk| <= 262144
    ensures var x := Item(DataFrame(id, chunk), Upload(id));
            && ItemUnits(x) <= BUDGET
            && Do(s, AdmitData(id))
            == s.(free := s.free - ItemUnits(x), held := [x],
                  uploads := s.uploads[id := s.uploads[id].(phase := Admitted(chunk))])
  {
    var x := Item(DataFrame(id, chunk), Upload(id));
    SmallUnits(x);
    hide ItemUnits;
    assert [] + [x] == [x];
    assert Hold(s, x).held == [x];
  }

  lemma ChunkAdmitted(s: State, id: u64, chunk: bytes)
    requires Quiet(s) && id in s.uploads && s.uploads[id].phase.Reading?
    requires 0 < |chunk| <= 262144 && s.uploads[id].sent + |chunk| <= s.uploads[id].size
    ensures var up, x := s.uploads[id], Item(DataFrame(id, chunk), Upload(id));
            && ItemUnits(x) <= BUDGET
            && DoAll(s, [ReadChunk(id, chunk)] + [AdmitData(id)])
            == s.(free := s.free - ItemUnits(x), held := [x],
                  uploads := s.uploads[id := up.(read := up.read + [chunk], phase := Admitted(chunk))])
  {
    hide ItemUnits, Do, DoAll;
    DoAllStep(s, [], ReadChunk(id, chunk));
    assert [] + [ReadChunk(id, chunk)] == [ReadChunk(id, chunk)];
    NoSteps(s);
    DoAllStep(s, [ReadChunk(id, chunk)], AdmitData(id));
    ChunkWanted(s, id, chunk);
    ChunkHeld(Do(s, ReadChunk(id, chunk)), id, chunk);
  }

  /** One chunk of an upload, from the read to the wire. */
  lemma ChunkGoes(s: State, id: u64, chunk: bytes)
    requires Quiet(s) && id in s.uploads && s.uploads[id].phase.Reading?
    requires 0 < |chunk| <= 262144 && s.uploads[id].sent + |chunk| <= s.uploads[id].size
    ensures var up, x := s.uploads[id], Item(DataFrame(id, chunk), Upload(id));
            DoAll(s, ChunkSteps(id, chunk))
            == Later(s, [x], id, up.(sent := up.sent + |chunk|, read := up.read + [chunk]))
  {
    hide DoAll, Do, ItemUnits;
    var up, x := s.uploads[id], Item(DataFrame(id, chunk), Upload(id));
    ChunkAdmitted(s, id, chunk);
    DoAllJoins(s, [ReadChunk(id, chunk)] + [AdmitData(id)], ThroughQueue());
    CommandGoes(s, DoAll(s, [ReadChunk(id, chunk)] + [AdmitData(id)]), x, id);
  }

  function EndSteps(id: u64, payload: bytes): seq<Step> {
    [ReadEnd(id)] + [AdmitEnd(id, payload)] + ThroughQueue()
  }

  lemma EndWanted(s: State, id: u64)
    requires id in s.uploads && s.uploads[id].phase.Reading? && s.uploads[id].sent == s.uploads[id].size
    ensures Do(s, ReadEnd(id)) == s.(uploads := s.uploads[id := s.uploads[id].(phase := WantsEnd)])
  {
  }

  lemma EndHeld(s: State, id: u64, payload: bytes)
    requires Quiet(s) && id in s.uploads && s.uploads[id].phase.WantsEnd? && |payload| <= MAX_PAYLOAD
    ensures var x := Item(EndFrame(id, payload), Upload(id));
            && ItemUnits(x) <= BUDGET
            && Do(s, AdmitEnd(id, payload))
            == s.(free := s.free - ItemUnits(x), held := [x],
                  uploads := s.uploads[id := s.uploads[id].(phase := EndAdmitted)])
  {
    var x := Item(EndFrame(id, payload), Upload(id));
    SmallUnits(x);
    hide ItemUnits;
    assert [] + [x] == [x];
    assert Hold(s, x).held == [x];
  }

  lemma EndAdmits(s: State, id: u64, payload: bytes)
    requires Quiet(s) && id in s.uploads && s.uploads[id].phase.Reading? && s.uploads[id].sent == s.uploads[id].size
    requires |payload| <= MAX_PAYLOAD
    ensures var x := Item(EndFrame(id, payload), Upload(id));
            && ItemUnits(x) <= BUDGET
            && DoAll(s, [ReadEnd(id)] + [AdmitEnd(id, payload)])
            == s.(free := s.free - ItemUnits(x), held := [x],
                  uploads := s.uploads[id := s.uploads[id].(phase := EndAdmitted)])
  {
    hide ItemUnits, Do, DoAll;
    DoAllStep(s, [], ReadEnd(id));
    assert [] + [ReadEnd(id)] == [ReadEnd(id)];
    NoSteps(s);
    DoAllStep(s, [ReadEnd(id)], AdmitEnd(id, payload));
    EndWanted(s, id);
    EndHeld(Do(s, ReadEnd(id)), id, payload);
  }

  lemma EndGoes(s: State, id: u64, payload: bytes)
    requires Quiet(s) && id in s.uploads && s.uploads[id].phase.Reading? && s.uploads[id].sent == s.uploads[id].size
    requires |payload| <= MAX_PAYLOAD
    ensures DoAll(s, EndSteps(id, payload))
         == Later(s, [Item(EndFrame(id, payload), Upload(id))], id, s.uploads[id].(phase := EndDone))
  {
    hide DoAll, Do, ItemUnits;
    var x := Item(EndFrame(id, payload), Upload(id));
    EndAdmits(s, id, payload);
    DoAllJoins(s, [ReadEnd(id)] + [AdmitEnd(id, payload)], ThroughQueue());
    CommandGoes(s, DoAll(s, [ReadEnd(id)] + [AdmitEnd(id, payload)]), x, id);
  }

  function UploadSteps(id: u64, chunks: seq<bytes>, payload: bytes): seq<Step> {
    if chunks == [] then EndSteps(id, payload)
    else ChunkSteps(id, chunks[0]) + UploadSteps(id, chunks[1..], payload)
  }

  function DataItems(id: u64, chunks: seq<bytes>): seq<Item> {
    if chunks == [] then [] else [Item(DataFrame(id, chunks[0]), Upload(id))] + DataItems(id, chunks[1..])
  }

  lemma LaterTwice(s: State, a: seq<Item>, b: seq<Item>, id: u64, up: Up, up': Up)
    ensures Later(Later(s, a, id, up), b, id, up') == Later(s, a + b, id, up')
  {
    assert s.wire + a + b == s.wire + (a + b);
  }

  lemma {:induction false} UploadFrom(s: State, id: u64, chunks: seq<bytes>, payload: bytes)
    requires Quiet(s) && id in s.uploads && s.uploads[id].phase.Reading? && |payload| <= MAX_PAYLOAD
    requires forall i :: 0 <= i < |chunks| ==> 0 < |chunks[i]| <= 262144
    requires s.uploads[id].sent + |Concat(chunks)| == s.uploads[id].size
    ensures var up := s.uploads[id];
            DoAll(s, UploadSteps(id, chunks, payload))
            == Later(s, DataItems(id, chunks) + [Item(EndFrame(id, payload), Upload(id))], id,
                     Up(up.size, up.size, up.read + chunks, EndDone))
    decreases |chunks|
  {
    hide DoAll, ChunkSteps, EndSteps;
    var up, end := s.uploads[id], Item(EndFrame(id, payload), Upload(id));
    if chunks == [] {
      EndGoes(s, id, payload);
      assert [] + [end] == [end] && up.read + [] == up.read;
    } else {
      var head, tail := chunks[0], chunks[1..];
      var x := Item(DataFrame(id, head), Upload(id));
      ChunkGoes(s, id, head);
      var s1 := Later(s, [x], id, up.(sent := up.sent + |head|, read := up.read + [head]));
      UploadFrom(s1, id, tail, payload);
      DoAllJoins(s, ChunkSteps(id, head), UploadSteps(id, tail, payload));
      assert up.read + [head] + tail == up.read + chunks;
      assert [x] + (DataItems(id, tail) + [end]) == DataItems(id, chunks) + [end];
      LaterTwice(s, [x], DataItems(id, tail) + [end], id, s1.uploads[id], Up(up.size, up.size, up.read + chunks, EndDone));
    }
  }

  /**
    From any moment of any run at which nothing is on its way, an upload that is reading can be taken
    to its end: whatever chunks its source holds, if they add up, go onto the wire in order, and then
    its STREAM_END, and the whole budget is free again.
  */
  lemma UploadGoesThrough(steps: seq<Step>, id: u64, chunks: seq<bytes>, payload: bytes)
    requires Quiet(Run(steps)) && id in Run(steps).uploads && Run(steps).uploads[id].phase.Reading?
    requires |payload| <= MAX_PAYLOAD && forall i :: 0 <= i < |chunks| ==> 0 < |chunks[i]| <= 262144
    requires Run(steps).uploads[id].sent + |Concat(chunks)| == Run(steps).uploads[id].size
    ensures var s, t := Run(steps), Run(steps + UploadSteps(id, chunks, payload));
            && Quiet(t) && id in t.uploads && t.uploads[id].phase.EndDone? && t.uploads[id].read == s.uploads[id].read + chunks
            && t.wire == s.wire + DataItems(id, chunks) + [Item(EndFrame(id, payload), Upload(id))]
  {
    hide Run, DoAll, UploadSteps, DataItems;
    UploadFrom(Run(steps), id, chunks, payload);
    RunMore(steps, UploadSteps(id, chunks, payload));
  }

  function OpenSteps(open: Frame): seq<Step> {
    [TakeId] + [OpenBudget(open)] + [OpenQueue]
  }

  lemma RequestOpens(open: Frame)
    requires open.kind == STREAM_OPEN && open.id == 1 && Legal(open)
    ensures var x := Item(open, Opening);
            && ItemUnits(x) <= BUDGET
            && Run(OpenSteps(open))
            == Init().(nextId := 2, opener := Waiting, free := BUDGET - ItemUnits(x), control := [x])
  {
    hide ItemUnits, Do, Run;
    NoRun();
    RunStep([], TakeId);
    assert [] + [TakeId] == [TakeId];
    RunStep([TakeId], OpenBudget(open));
    RunStep([TakeId] + [OpenBudget(open)], OpenQueue);
    RequestIsBudgeted(open);
  }

  lemma NoRun()
    ensures Run([]) == Init()
  {
  }

  lemma RequestIsBudgeted(open: Frame)
    requires open.kind == STREAM_OPEN && open.id == 1 && Legal(open)
    ensures var x := Item(open, Opening);
            && ItemUnits(x) <= BUDGET
            && Do(Do(Do(Init(), TakeId), OpenBudget(open)), OpenQueue)
            == Init().(nextId := 2, opener := Waiting, free := BUDGET - ItemUnits(x), control := [x])
  {
    var x := Item(open, Opening);
    SmallUnits(x);
    hide ItemUnits;
    assert [] + [x] == [x];
    var s1 := Do(Init(), TakeId);
    assert s1 == Init().(nextId := 2, opener := Numbered(1));
    var s2 := Do(s1, OpenBudget(open));
    assert s2 == s1.(opener := Budgeted(x), free := BUDGET - ItemUnits(x));
  }

  /** Such a moment exists for every declared size: a request is opened and its upload started. */
  lemma UploadStarts(size: nat, open: Frame)
    requires open.kind == STREAM_OPEN && open.id == 1 && Legal(open)
    ensures var t := Run(OpenSteps(open) + [Pop] + [Wrote] + [OpenRelease] + [Start(1, size)]);
            Quiet(t) && t.uploads == map[1 := Up(size, 0, [], Reading)] && t.wire == [Item(open, Opening)]
  {
    hide ItemUnits, Run, Do, OpenSteps;
    var a := OpenSteps(open);
    RequestOpens(open);
    RunStep(a, Pop);
    RunStep(a + [Pop], Wrote);
    RunStep(a + [Pop] + [Wrote], OpenRelease);
    RunStep(a + [Pop] + [Wrote] + [OpenRelease], Start(1, size));
    RequestIsWritten(Run(a), Item(open, Opening));
    UploadIsStarted(Run(a + [Pop] + [Wrote]), size);
  }

  lemma RequestIsWritten(s: State, x: Item)
    requires s.control == [x] && s.writing == [] && s.alive && x.origin == Opening
    ensures Do(Do(s, Pop), Wrote) == s.(control := [], wire := s.wire + [x], free := s.free + ItemUnits(x))
  {
    hide ItemUnits;
    assert [x][1..] == [];
    assert Do(s, Pop) == s.(writing := [x], control := []);
  }

  lemma UploadIsStarted(s: State, size: nat)
    requires s.opener.Waiting? && s.uploads == map[] && s.taken == {} && s.nextId == 2
    ensures Do(Do(s, OpenRelease), Start(1, size))
         == s.(opener := Free, uploads := map[1 := Up(size, 0, [], Reading)])
  {
    hide ItemUnits;
  }
}
