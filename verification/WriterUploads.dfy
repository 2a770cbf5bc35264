/** A media upload that gets its STREAM_END onto the wire has put exactly what it read before it. */
module WriterUploads {
  import opened Bytes
  import opened Frames
  import opened Writer

  /** Stream data of id `u`, whoever sent it. */
  predicate Mine(u: u64, x: Item) { x.frame.id == u && Streamed(x.frame.kind) }

  predicate IsData(u: u64, x: Item) { x.frame.id == u && x.frame.kind == STREAM_DATA }

  predicate IsEnd(u: u64, x: Item) { x.frame.id == u && x.frame.kind == STREAM_END }

  /** The STREAM_DATA payloads of id `u` among `items`. */
  function Data(u: u64, items: seq<Item>): seq<bytes> {
    if items == [] then [] else
      var n := |items| - 1;
      Data(u, items[..n]) + (if IsData(u, items[n]) then [items[n].frame.payload] else [])
  }

  function Count(u: u64, items: seq<Item>): nat {
    if items == [] then 0 else (if Mine(u, items[0]) then 1 else 0) + Count(u, items[1..])
  }

  // The invariant of one upload.

  function Flight(s: State, u: u64): nat {
    Count(u, s.held) + Count(u, s.control) + Count(u, s.media) + Count(u, s.writing)
  }

  predicate InFlight(s: State, x: Item) {
    x in s.held || x in s.control || x in s.media || x in s.writing
  }

  /** The chunk that was read and is not on the wire yet. */
  function Awaiting(phase: Phase): seq<bytes> {
    match phase
    case Wants(chunk) => [chunk]
    case Admitted(chunk) => [chunk]
    case _ => []
  }

  /** The upload's frames on the wire are all it read, as many bytes as declared. */
  predicate Whole(u: u64, up: Up, wire: seq<Item>) {
    Data(u, wire) == up.read && |Concat(up.read)| == up.size
  }

  /** A command of the upload that is still on its way fits where the upload stands. */
  predicate FlightOk(u: u64, up: Up, wire: seq<Item>, x: Item) {
    && (IsEnd(u, x) ==> Whole(u, up, wire) && !up.phase.Admitted?)
    && (up.phase.Admitted? ==> x.frame.payload == up.phase.chunk)
    && (up.phase.EndAdmitted? ==> IsEnd(u, x))
  }

  ghost predicate HasEnd(u: u64, wire: seq<Item>) {
    exists k :: 0 <= k < |wire| && IsEnd(u, wire[k])
  }

  /** What is promised of the wire. */
  ghost predicate EndsRight(u: u64, up: Up, wire: seq<Item>) {
    forall k :: 0 <= k < |wire| && IsEnd(u, wire[k]) ==>
      Whole(u, up, wire[..k]) && forall j :: k < j < |wire| ==> !Mine(u, wire[j])
  }

  predicate Counted(u: u64, up: Up, wire: seq<Item>) {
    Data(u, wire) + Awaiting(up.phase) == up.read && up.sent == |Concat(Data(u, wire))|
  }

  ghost predicate PhaseOk(u: u64, up: Up, flight: nat, wire: seq<Item>) {
    && flight <= 1
    && (up.phase.Reading? || up.phase.Wants? || up.phase.WantsEnd? || up.phase.EndDone? ==> flight == 0)
    && (!up.phase.Stopped? && !up.phase.EndDone? ==> Counted(u, up, wire))
    && (up.phase.WantsEnd? || up.phase.EndAdmitted? ==> up.sent == up.size)
    && (HasEnd(u, wire) ==> flight == 0 && (up.phase.EndDone? || up.phase.Stopped?))
  }

  ghost predicate UpInv(s: State, u: u64)
    requires u in s.uploads
  {
    var up := s.uploads[u];
    && PhaseOk(u, up, Flight(s, u), s.wire)
    && (forall x :: InFlight(s, x) && Mine(u, x) ==> FlightOk(u, up, s.wire, x))
    && EndsRight(u, up, s.wire)
  }

  // Ownership: who may send stream data for an id.

  /** An upload's commands are stream data of its id, and all other stream data is of a taken id. */
  predicate OwnedItem(uploads: map<u64, Up>, taken: set<u64>, x: Item) {
    && (x.origin.Upload? ==> Mine(x.origin.id, x) && x.origin.id in uploads)
    && (Streamed(x.frame.kind) ==> x.origin == Upload(x.frame.id) || x.frame.id in taken)
  }

  ghost predicate AllOwned(uploads: map<u64, Up>, taken: set<u64>, items: seq<Item>) {
    forall x :: x in items ==> OwnedItem(uploads, taken, x)
  }

  ghost predicate Owned(s: State) {
    && s.uploads.Keys !! s.taken
    && AllOwned(s.uploads, s.taken, s.held) && AllOwned(s.uploads, s.taken, s.control)
    && AllOwned(s.uploads, s.taken, s.media) && AllOwned(s.uploads, s.taken, s.writing)
    && AllOwned(s.uploads, s.taken, s.wire)
    && (s.opener.Budgeted? ==> s.opener.item.origin.Opening? && !Streamed(s.opener.item.frame.kind))
  }

  ghost predicate Inv(s: State) {
    && |s.writing| <= 1 && Owned(s)
    && forall u :: u in s.uploads ==> UpInv(s, u)
  }

  lemma OwnedMore(uploads: map<u64, Up>, taken: set<u64>, uploads': map<u64, Up>, taken': set<u64>, items: seq<Item>)
    requires AllOwned(uploads, taken, items) && uploads.Keys <= uploads'.Keys && taken <= taken'
    ensures AllOwned(uploads', taken', items)
  {
  }

  lemma OwnedPart(uploads: map<u64, Up>, taken: set<u64>, items: seq<Item>, part: seq<Item>)
    requires AllOwned(uploads, taken, items) && forall x :: x in part ==> x in items
    ensures AllOwned(uploads, taken, part)
  {
  }

  lemma OwnedAppend(uploads: map<u64, Up>, taken: set<u64>, items: seq<Item>, x: Item)
    requires AllOwned(uploads, taken, items) && OwnedItem(uploads, taken, x)
    ensures AllOwned(uploads, taken, items + [x])
  {
    assert forall y :: y in items + [x] ==> y in items || y == x;
  }

  lemma HoldOwned(s: State, x: Item)
    requires Owned(s) && OwnedItem(s.uploads, s.taken, x)
    ensures Owned(Hold(s, x))
  {
    hide OwnedItem, AllOwned, ItemUnits;
    OwnedAppend(s.uploads, s.taken, s.held, x);
  }

  lemma HoldOtherOwned(s: State, f: Frame)
    requires Owned(s)
    ensures Owned(HoldOther(s, f))
  {
    var x := Item(f, Other);
    if !Streamed(f.kind) {
      HoldOwned(s, x);
    } else if f.id !in s.uploads {
      var s' := s.(taken := s.taken + {f.id});
      SetsOwned(s, s');
      HoldOwned(s', x);
      assert HoldOther(s, f) == Hold(s', x);
    }
  }

  /** More uploads or taken ids, and changed phases, leave every command owned. */
  lemma SetsOwned(s: State, s': State)
    requires Owned(s) && s.uploads.Keys <= s'.uploads.Keys && s.taken <= s'.taken && s'.uploads.Keys !! s'.taken
    requires s'.held == s.held && s'.control == s.control && s'.media == s.media && s'.writing == s.writing
    requires s'.wire == s.wire && s'.opener == s.opener
    ensures Owned(s')
  {
    hide AllOwned;
    OwnedMore(s.uploads, s.taken, s'.uploads, s'.taken, s.held);
    OwnedMore(s.uploads, s.taken, s'.uploads, s'.taken, s.control);
    OwnedMore(s.uploads, s.taken, s'.uploads, s'.taken, s.media);
    OwnedMore(s.uploads, s.taken, s'.uploads, s'.taken, s.writing);
    OwnedMore(s.uploads, s.taken, s'.uploads, s'.taken, s.wire);
  }

  lemma EnqueueOwned(s: State, i: nat)
    requires Owned(s) && i < |s.held|
    ensures Owned(Enqueue(s, i)) && Enqueue(s, i).uploads == s.uploads && Enqueue(s, i).wire == s.wire
  {
    var x := s.held[i];
    assert x in s.held && OwnedItem(s.uploads, s.taken, x);
    OwnedPart(s.uploads, s.taken, s.held, Without(s.held, i));
    hide OwnedItem, AllOwned, Without;
    OwnedAppend(s.uploads, s.taken, s.control, x);
    OwnedAppend(s.uploads, s.taken, s.media, x);
  }

  lemma PopOwned(s: State)
    requires Owned(s)
    ensures Owned(Do(s, Pop))
  {
    if s.control != [] {
      OwnedPart(s.uploads, s.taken, s.control, s.control[1..]);
      OwnedPart(s.uploads, s.taken, s.control, [s.control[0]]);
    }
    if s.media != [] {
      OwnedPart(s.uploads, s.taken, s.media, s.media[1..]);
      OwnedPart(s.uploads, s.taken, s.media, [s.media[0]]);
    }
    hide AllOwned;
  }

  lemma NewControlOwned(s: State, step: Step)
    requires Owned(s) && (step.OpenQueue? || step.SayGoodbye?)
    ensures Owned(Do(s, step))
  {
    if step.SayGoodbye? {
      OwnedAppend(s.uploads, s.taken, s.control, Item(NoFrame(), Goodbye));
    } else if s.opener.Budgeted? {
      OwnedAppend(s.uploads, s.taken, s.control, s.opener.item);
    }
    hide AllOwned, OwnedItem;
  }

  lemma QuietOwned(s: State, step: Step)
    requires Owned(s) && (step.TakeId? || step.OpenBudget? || step.OpenRelease? || step.WriteFails?)
    ensures Owned(Do(s, step))
  {
    NoneOwned(s.uploads, s.taken);
    hide AllOwned, OwnedItem, ItemUnits, Units;
  }

  lemma NoneOwned(uploads: map<u64, Up>, taken: set<u64>)
    ensures AllOwned(uploads, taken, [])
  {
  }

  /** Stream data of an upload's id was sent by the upload. */
  lemma OwnersSend(s: State, u: u64, x: Item)
    requires Owned(s) && u in s.uploads && (InFlight(s, x) || x in s.wire)
    ensures Mine(u, x) <==> x.origin == Upload(u)
  {
  }

  // Counting.

  lemma {:induction false} CountAppend(u: u64, a: seq<Item>, b: seq<Item>)
    ensures Count(u, a + b) == Count(u, a) + Count(u, b)
  {
    if a == [] {
      assert a + b == b;
    } else {
      assert (a + b)[1..] == a[1..] + b;
      CountAppend(u, a[1..], b);
    }
  }

  lemma CountOne(u: u64, x: Item)
    ensures Count(u, [x]) == if Mine(u, x) then 1 else 0
  {
    assert [x][1..] == [];
    assert Count(u, [x]) == (if Mine(u, x) then 1 else 0) + Count(u, []);
  }

  lemma CountWithout(u: u64, items: seq<Item>, i: nat)
    requires i < |items|
    ensures Count(u, items) == Count(u, Without(items, i)) + Count(u, [items[i]])
  {
    hide Count;
    assert items == items[..i] + ([items[i]] + items[i + 1..]);
    CountAppend(u, items[..i], [items[i]] + items[i + 1..]);
    CountAppend(u, [items[i]], items[i + 1..]);
    CountAppend(u, items[..i], items[i + 1..]);
  }

  lemma {:induction false} CountZero(u: u64, items: seq<Item>)
    ensures Count(u, items) == 0 <==> forall x :: x in items ==> !Mine(u, x)
  {
    if items != [] {
      CountZero(u, items[1..]);
      assert forall x :: x in items <==> x == items[0] || x in items[1..];
    }
  }

  lemma NoFlight(s: State, u: u64)
    ensures Flight(s, u) == 0 <==> forall x :: InFlight(s, x) ==> !Mine(u, x)
  {
    hide Count;
    CountZero(u, s.held); CountZero(u, s.control); CountZero(u, s.media); CountZero(u, s.writing);
  }

  lemma DataAppend(u: u64, wire: seq<Item>, x: Item)
    ensures Data(u, wire + [x]) == Data(u, wire) + (if IsData(u, x) then [x.frame.payload] else [])
  {
    assert (wire + [x])[..|wire|] == wire;
  }

  // What leaves an upload alone, or only stops it.

  /** `wire'` is `wire`, possibly with a command of somebody else behind it. */
  ghost predicate Elsewhere(u: u64, wire: seq<Item>, wire': seq<Item>) {
    wire' == wire || (|wire'| == |wire| + 1 && wire' == wire + [wire'[|wire|]] && !Mine(u, wire'[|wire|]))
  }

  lemma WireElsewhere(u: u64, up: Up, wire: seq<Item>, wire': seq<Item>)
    requires Elsewhere(u, wire, wire') && EndsRight(u, up, wire)
    ensures Data(u, wire') == Data(u, wire) && EndsRight(u, up, wire')
    ensures HasEnd(u, wire') ==> HasEnd(u, wire)
  {
    if wire' != wire {
      DataAppend(u, wire, wire'[|wire|]);
      assert Data(u, wire) + [] == Data(u, wire);
      forall k | 0 <= k < |wire'| && IsEnd(u, wire'[k])
        ensures k < |wire| && IsEnd(u, wire[k]) && wire'[..k] == wire[..k]
      {
        assert wire'[k] == wire[k];
      }
    }
    hide Data, Whole;
  }

  lemma UpKept(s: State, s': State, u: u64)
    requires u in s.uploads && UpInv(s, u)
    requires u in s'.uploads && (s'.uploads[u] == s.uploads[u] || s'.uploads[u] == s.uploads[u].(phase := Stopped))
    requires Elsewhere(u, s.wire, s'.wire)
    requires Flight(s', u) <= Flight(s, u)
    requires forall x :: InFlight(s', x) && Mine(u, x) ==> InFlight(s, x)
    ensures UpInv(s', u)
  {
    hide Data, Flight, InFlight, HasEnd;
    WireElsewhere(u, s.uploads[u], s.wire, s'.wire);
    assert EndsRight(u, s'.uploads[u], s'.wire);
    hide EndsRight;
  }

  /** No upload's commands appear from nowhere. */
  ghost predicate Moved(s: State, s': State) {
    && (forall u: u64 :: u in s.uploads ==> Flight(s', u) <= Flight(s, u))
    && (forall x, u: u64 :: u in s.uploads && InFlight(s', x) && Mine(u, x) ==> InFlight(s, x))
    && |s'.writing| <= 1
  }

  lemma MovedKeeps(s: State, s': State)
    requires Inv(s) && Moved(s, s') && Owned(s') && s'.uploads == s.uploads && s'.wire == s.wire
    ensures Inv(s')
  {
    hide Flight, InFlight, UpInv, Owned;
    forall u | u in s'.uploads
      ensures UpInv(s', u)
    {
      UpKept(s, s', u);
    }
  }

  lemma EnqueueMoves(s: State, i: nat)
    requires i < |s.held| && |s.writing| <= 1
    ensures Moved(s, Enqueue(s, i))
  {
    var x := s.held[i];
    forall u: u64
      ensures Count(u, s.held) == Count(u, Without(s.held, i)) + Count(u, [x])
      ensures Count(u, s.control + [x]) == Count(u, s.control) + Count(u, [x])
      ensures Count(u, s.media + [x]) == Count(u, s.media) + Count(u, [x])
    {
      CountWithout(u, s.held, i);
      CountAppend(u, s.control, [x]);
      CountAppend(u, s.media, [x]);
    }
    hide Count;
  }

  lemma ForeignMoves(s: State, x: Item)
    requires forall u :: u in s.uploads ==> !Mine(u, x)
    ensures forall u :: u in s.uploads ==> Count(u, s.control + [x]) == Count(u, s.control)
    ensures forall u :: u in s.uploads ==> Count(u, s.held + [x]) == Count(u, s.held)
  {
    forall u | u in s.uploads
      ensures Count(u, s.control + [x]) == Count(u, s.control)
      ensures Count(u, s.held + [x]) == Count(u, s.held)
    {
      CountAppend(u, s.control, [x]);
      CountAppend(u, s.held, [x]);
      CountOne(u, x);
    }
  }

  lemma PopMoves(s: State)
    requires |s.writing| <= 1
    ensures Moved(s, Do(s, Pop))
  {
    forall u: u64
      ensures s.control != [] ==> Count(u, s.control) == Count(u, [s.control[0]]) + Count(u, s.control[1..])
      ensures s.media != [] ==> Count(u, s.media) == Count(u, [s.media[0]]) + Count(u, s.media[1..])
    {
      if s.control != [] {
        CountOne(u, s.control[0]);
      }
      if s.media != [] {
        CountOne(u, s.media[0]);
      }
    }
    hide Count;
  }

  /** Steps that bring in a command of no upload. */
  lemma ForeignStepsMove(s: State, step: Step)
    requires Owned(s) && |s.writing| <= 1 && (step.OpenQueue? || step.SayGoodbye? || step.OtherBudget?)
    ensures Moved(s, Do(s, step))
  {
    if step.OpenQueue? {
      if s.opener.Budgeted? {
        ForeignMoves(s, s.opener.item);
      }
    } else if step.SayGoodbye? {
      ForeignMoves(s, Item(NoFrame(), Goodbye));
    } else if !(Streamed(step.frame.kind) && step.frame.id in s.uploads) {
      ForeignMoves(s, Item(step.frame, Other));
    }
    hide Owned, ItemUnits, Count;
  }

  /** Steps that bring in no command, or drop some. */
  lemma QuietStepsMove(s: State, step: Step)
    requires |s.writing| <= 1 && (step.TakeId? || step.OpenBudget? || step.OpenRelease? || step.WriteFails?)
    ensures Moved(s, Do(s, step))
  {
    hide ItemUnits, Units;
  }

  lemma ConnectionStepMoves(s: State, step: Step)
    requires Owned(s) && |s.writing| <= 1 && OfConnection(step)
    ensures Moved(s, Do(s, step)) && Owned(Do(s, step))
    ensures Do(s, step).uploads == s.uploads && Do(s, step).wire == s.wire
  {
    hide Owned, Moved, ItemUnits, Units, Enqueue;
    if step.Queue? {
      if step.i < |s.held| {
        EnqueueMoves(s, step.i);
        EnqueueOwned(s, step.i);
      }
      NothingMoves(s);
    } else if step.Pop? {
      PopMoves(s);
      PopOwned(s);
    } else if step.OtherBudget? {
      ForeignStepsMove(s, step);
      HoldOtherOwned(s, step.frame);
    } else if step.OpenQueue? || step.SayGoodbye? {
      ForeignStepsMove(s, step);
      NewControlOwned(s, step);
    } else {
      QuietStepsMove(s, step);
      QuietOwned(s, step);
    }
  }

  lemma NothingMoves(s: State)
    requires |s.writing| <= 1
    ensures Moved(s, s)
  {
  }

  /** The steps of the connection except a completed write and a timed-out send. */
  predicate OfConnection(step: Step) {
    || step.TakeId? || step.OpenBudget? || step.OpenQueue? || step.OpenRelease? || step.OtherBudget?
    || step.Queue? || step.SayGoodbye? || step.Pop? || step.WriteFails?
  }

  lemma ConnectionStepsKeep(s: State, step: Step)
    requires Inv(s) && OfConnection(step)
    ensures Inv(Do(s, step))
  {
    hide Do, UpInv, Owned, Moved;
    ConnectionStepMoves(s, step);
    MovedKeeps(s, Do(s, step));
  }

  /** A send that timed out: its command is gone and its upload stops. */
  lemma GiveUpMoves(s: State, i: nat, u: u64)
    requires i < |s.held| && u in s.uploads
    ensures var s' := Do(s, GiveUp(i));
            && u in s'.uploads && s'.wire == s.wire
            && (s'.uploads[u] == s.uploads[u] || s'.uploads[u] == s.uploads[u].(phase := Stopped))
            && Flight(s', u) <= Flight(s, u)
            && forall x :: InFlight(s', x) ==> InFlight(s, x)
  {
    hide ItemUnits, Count;
    CountWithout(u, s.held, i);
  }

  lemma GiveUpOwned(s: State, i: nat)
    requires Owned(s) && i < |s.held|
    ensures Owned(Do(s, GiveUp(i)))
  {
    var s1 := s.(held := Without(s.held, i), free := s.free + ItemUnits(s.held[i]));
    OwnedPart(s.uploads, s.taken, s.held, s1.held);
    hide AllOwned, ItemUnits, Without;
    assert Owned(s1);
    SetsOwned(s1, Do(s, GiveUp(i)));
  }

  lemma GiveUpKeeps(s: State, i: nat)
    requires Inv(s) && i < |s.held|
    ensures Inv(Do(s, GiveUp(i)))
  {
    var s' := Do(s, GiveUp(i));
    assert |s'.writing| <= 1 && s'.uploads.Keys == s.uploads.Keys;
    GiveUpOwned(s, i);
    hide Do, UpInv, Owned, Flight, InFlight;
    forall u | u in s'.uploads
      ensures UpInv(s', u)
    {
      GiveUpMoves(s, i, u);
      UpKept(s, s', u);
    }
  }

  // A completed write.

  lemma OwnWireEnds(u: u64, up: Up, wire: seq<Item>, x: Item)
    requires !HasEnd(u, wire) && Mine(u, x)
    requires IsEnd(u, x) ==> Whole(u, up, wire)
    ensures EndsRight(u, up, wire + [x])
    ensures HasEnd(u, wire + [x]) <==> IsEnd(u, x)
  {
    hide Whole;
    var wire' := wire + [x];
    assert wire'[|wire|] == x && wire'[..|wire|] == wire;
    assert forall k :: 0 <= k < |wire| ==> wire'[k] == wire[k];
  }

  lemma CountedAfterData(u: u64, up: Up, wire: seq<Item>, x: Item)
    requires Counted(u, up, wire) && up.phase.Admitted? && IsData(u, x) && x.frame.payload == up.phase.chunk
    ensures Counted(u, Completed(up), wire + [x])
  {
    DataAppend(u, wire, x);
    ConcatAppend(Data(u, wire), [x.frame.payload]);
    ConcatSingle(x.frame.payload);
    hide Data, Concat;
  }

  lemma OwnWrite(s: State, u: u64, x: Item)
    requires u in s.uploads && UpInv(s, u) && s.writing == [x] && Mine(u, x) && x.origin == Upload(u)
    ensures UpInv(WriteOut(s, x), u)
  {
    var s', up := WriteOut(s, x), s.uploads[u];
    CountOne(u, x);
    NoFlight(s', u);
    assert Count(u, s'.writing) == 0;
    assert InFlight(s, x) && FlightOk(u, up, s.wire, x);
    OwnWireEnds(u, Completed(up), s.wire, x);
    if up.phase.Admitted? {
      CountedAfterData(u, up, s.wire, x);
    }
    hide Data, Count, EndsRight, HasEnd, ItemUnits, Counted, Whole;
    assert Flight(s', u) == 0 && s'.uploads[u] == Completed(up);
    assert PhaseOk(u, Completed(up), 0, s'.wire);
  }

  /** Somebody else's write leaves the upload alone. */
  lemma OtherWrite(s: State, u: u64, x: Item)
    requires u in s.uploads && UpInv(s, u) && s.writing == [x] && !Mine(u, x) && x.origin != Upload(u)
    ensures UpInv(WriteOut(s, x), u)
  {
    CountOne(u, x);
    hide Data, ItemUnits, UpInv, Completed;
    UpKept(s, WriteOut(s, x), u);
  }

  lemma WriteOutOwned(s: State, x: Item)
    requires Owned(s) && s.writing == [x]
    ensures Owned(WriteOut(s, x))
  {
    var s1 := s.(writing := [], free := s.free + ItemUnits(x), wire := s.wire + [x]);
    assert OwnedItem(s.uploads, s.taken, x);
    NoneOwned(s.uploads, s.taken);
    hide OwnedItem, AllOwned, ItemUnits;
    OwnedAppend(s.uploads, s.taken, s.wire, x);
    assert Owned(s1);
    SetsOwned(s1, WriteOut(s, x));
  }

  lemma WroteKeeps(s: State)
    requires Inv(s) && |s.writing| == 1
    ensures Inv(WriteOut(s, s.writing[0]))
  {
    var x := s.writing[0];
    var s' := WriteOut(s, x);
    assert s.writing == [x] && InFlight(s, x) && s'.uploads.Keys == s.uploads.Keys && s'.writing == [];
    WriteOutOwned(s, x);
    hide UpInv, WriteOut;
    forall u | u in s'.uploads
      ensures UpInv(s', u)
    {
      OwnersSend(s, u, x);
      if Mine(u, x) {
        OwnWrite(s, u, x);
      } else {
        OtherWrite(s, u, x);
      }
    }
    hide Owned;
  }

  // The upload loops.

  lemma {:induction false} NoData(u: u64, wire: seq<Item>)
    requires forall i :: 0 <= i < |wire| ==> !Mine(u, wire[i])
    ensures Data(u, wire) == []
  {
    if wire != [] {
      NoData(u, wire[..|wire| - 1]);
    }
  }

  /** An id that is neither an upload's nor taken has no stream data anywhere. */
  lemma UntouchedId(s: State, id: u64)
    requires Owned(s) && id !in s.uploads && id !in s.taken
    ensures Data(id, s.wire) == [] && !HasEnd(id, s.wire) && forall x :: InFlight(s, x) ==> !Mine(id, x)
  {
    assert forall i :: 0 <= i < |s.wire| ==> s.wire[i] in s.wire && !Mine(id, s.wire[i]);
    NoData(id, s.wire);
    hide Data;
  }

  lemma StartKeeps(s: State, id: u64, size: nat)
    requires Inv(s) && id !in s.uploads && id !in s.taken
    ensures Inv(s.(uploads := s.uploads[id := Up(size, 0, [], Reading)]))
  {
    var s' := s.(uploads := s.uploads[id := Up(size, 0, [], Reading)]);
    UntouchedId(s, id);
    SetsOwned(s, s');
    NoFlight(s', id);
    hide Data, Count, Owned;
    assert UpInv(s', id);
    hide UpInv;
    forall u | u in s'.uploads
      ensures UpInv(s', u)
    {
      if u != id {
        UpKept(s, s', u);
      }
    }
  }

  /** What one turn of the loop makes of an upload that is reading, or what stops any upload. */
  predicate Advances(up: Up, up': Up) {
    || up' == up.(phase := Stopped)
    || (up.phase.Reading? && up'.phase.Wants?
        && up' == up.(read := up.read + [up'.phase.chunk], phase := up'.phase))
    || (up.phase.Reading? && up'.phase.Stopped? && up' == up.(read := up'.read, phase := Stopped))
    || (up.phase.Reading? && up' == up.(phase := WantsEnd) && up.sent == up.size)
  }

  lemma OwnAdvance(s: State, s': State, id: u64)
    requires id in s.uploads && UpInv(s, id) && id in s'.uploads && s'.wire == s.wire
    requires s'.held == s.held && s'.control == s.control && s'.media == s.media && s'.writing == s.writing
    requires Advances(s.uploads[id], s'.uploads[id])
    ensures UpInv(s', id)
  {
    var up, up' := s.uploads[id], s'.uploads[id];
    assert Flight(s', id) == Flight(s, id);
    if up' == up.(phase := Stopped) {
      UpKept(s, s', id);
    } else {
      NoFlight(s, id);
      assert Data(id, s.wire) + [] == Data(id, s.wire);
      assert !HasEnd(id, s.wire);
      hide Data, Count, Flight, Concat;
      assert forall x :: InFlight(s', x) ==> !Mine(id, x);
    }
  }

  lemma AdvanceKeeps(s: State, id: u64, up: Up)
    requires Inv(s) && id in s.uploads && Advances(s.uploads[id], up)
    ensures Inv(s.(uploads := s.uploads[id := up]))
  {
    var s' := s.(uploads := s.uploads[id := up]);
    SetsOwned(s, s');
    hide UpInv, Owned, Count, Advances;
    forall u | u in s'.uploads
      ensures UpInv(s', u)
    {
      if u == id {
        OwnAdvance(s, s', id);
      } else {
        UpKept(s, s', u);
      }
    }
  }

  /** The command that an upload may have admitted where it stands, and where it stands then. */
  predicate Admits(id: u64, up: Up, x: Item, phase: Phase) {
    || (up.phase.Wants? && IsData(id, x) && x.frame.payload == up.phase.chunk && phase == Admitted(up.phase.chunk))
    || (up.phase.WantsEnd? && IsEnd(id, x) && phase == EndAdmitted)
  }

  lemma OwnAdmit(s: State, s': State, id: u64, x: Item)
    requires id in s.uploads && UpInv(s, id)
    requires s'.wire == s.wire && s'.held == s.held + [x]
    requires s'.control == s.control && s'.media == s.media && s'.writing == s.writing
    requires id in s'.uploads && s'.uploads[id] == s.uploads[id].(phase := s'.uploads[id].phase)
    requires Admits(id, s.uploads[id], x, s'.uploads[id].phase)
    ensures UpInv(s', id)
  {
    NoFlight(s, id);
    CountAppend(id, s.held, [x]);
    CountOne(id, x);
    assert Data(id, s.wire) + [] == Data(id, s.wire);
    hide Data, Count, HasEnd, Concat;
    assert Flight(s', id) == 1;
    assert forall y :: InFlight(s', y) && Mine(id, y) ==> y == x;
    hide InFlight;
  }

  lemma AdmitKeeps(s: State, id: u64, x: Item, phase: Phase)
    requires Inv(s) && id in s.uploads && x.origin == Upload(id) && Admits(id, s.uploads[id], x, phase)
    ensures Hold(s, x).held != s.held ==> Inv(SetPhase(Hold(s, x), id, phase))
  {
    var s1 := Hold(s, x);
    var s' := SetPhase(s1, id, phase);
    HoldOwned(s, x);
    SetsOwned(s1, s');
    if s1.held != s.held {
      assert s'.held == s.held + [x] && s'.uploads == s.uploads[id := s.uploads[id].(phase := phase)];
      assert !(exists u :: u in s.uploads && u != id && Mine(u, x));
      hide UpInv, Owned, ItemUnits, Count, Admits;
      forall u | u in s'.uploads
        ensures UpInv(s', u)
      {
        if u == id {
          OwnAdmit(s, s', id, x);
        } else {
          CountAppend(u, s.held, [x]);
          CountOne(u, x);
          UpKept(s, s', u);
        }
      }
    }
  }

  lemma UploadStepsKeep(s: State, step: Step)
    requires Inv(s)
    ensures Inv(UploadStep(s, step))
  {
    hide Inv, Hold;
    match step
    case Start(id, size) => if id !in s.uploads && id !in s.taken { StartKeeps(s, id, size); }
    case ReadChunk(id, chunk) =>
      if id in s.uploads && s.uploads[id].phase.Reading? {
        var up := s.uploads[id].(read := s.uploads[id].read + [chunk]);
        AdvanceKeeps(s, id, up.(phase := Stopped));
        AdvanceKeeps(s, id, up.(phase := Wants(chunk)));
      }
    case ReadEnd(id) =>
      if id in s.uploads && s.uploads[id].phase.Reading? {
        AdvanceKeeps(s, id, s.uploads[id].(phase := Stopped));
        if s.uploads[id].sent == s.uploads[id].size {
          AdvanceKeeps(s, id, s.uploads[id].(phase := WantsEnd));
        }
      }
    case AdmitData(id) =>
      if id in s.uploads && s.uploads[id].phase.Wants? {
        var chunk := s.uploads[id].phase.chunk;
        AdmitKeeps(s, id, Item(DataFrame(id, chunk), Upload(id)), Admitted(chunk));
      }
    case AdmitEnd(id, payload) =>
      if id in s.uploads && s.uploads[id].phase.WantsEnd? {
        AdmitKeeps(s, id, Item(EndFrame(id, payload), Upload(id)), EndAdmitted);
      }
    case Abandon(id) =>
      if id in s.uploads {
        AdvanceKeeps(s, id, s.uploads[id].(phase := Stopped));
      }
    case _ =>
  }

  lemma StepKeeps(s: State, step: Step)
    requires Inv(s)
    ensures Inv(Do(s, step))
  {
    hide Inv, UploadStep, WriteOut;
    match step
    case GiveUp(i) => if i < |s.held| { GiveUpKeeps(s, i); }
    case Wrote => if |s.writing| == 1 { WroteKeeps(s); }
    case Start(_, _) => UploadStepsKeep(s, step);
    case ReadChunk(_, _) => UploadStepsKeep(s, step);
    case ReadEnd(_) => UploadStepsKeep(s, step);
    case AdmitData(_) => UploadStepsKeep(s, step);
    case AdmitEnd(_, _) => UploadStepsKeep(s, step);
    case Abandon(_) => UploadStepsKeep(s, step);
    case _ => ConnectionStepsKeep(s, step);
  }

  lemma {:induction false} RunKeeps(steps: seq<Step>)
    ensures Inv(Run(steps))
  {
    InitInv();
    hide Do, Inv;
    if steps != [] {
      RunKeeps(steps[..|steps| - 1]);
      StepKeeps(Run(steps[..|steps| - 1]), steps[|steps| - 1]);
    }
  }

  lemma InitInv()
    ensures Inv(Init())
  {
  }

  lemma {:induction false} DataStops(u: u64, wire: seq<Item>, k: nat)
    requires k <= |wire| && forall j :: k <= j < |wire| ==> !IsData(u, wire[j])
    ensures Data(u, wire) == Data(u, wire[..k])
  {
    if k < |wire| {
      DataStops(u, wire[..|wire| - 1], k);
      assert wire[..|wire| - 1][..k] == wire[..k];
    } else {
      assert wire[..k] == wire;
    }
  }

  /**
    In every run, when a STREAM_END with the id of an upload is on the wire, the STREAM_DATA frames
    with that id all precede it, and their payloads are, one by one, the chunks that the reads of the
    source returned, as many bytes together as were declared.
  */
  lemma EndFollowsAllData(steps: seq<Step>, u: u64, k: nat)
    requires u in Run(steps).uploads && k < |Run(steps).wire| && IsEnd(u, Run(steps).wire[k])
    ensures var s := Run(steps);
            && Data(u, s.wire[..k]) == Data(u, s.wire) == s.uploads[u].read
            && |Concat(s.uploads[u].read)| == s.uploads[u].size
  {
    RunKeeps(steps);
    var s := Run(steps);
    hide Run;
    assert UpInv(s, u) && EndsRight(u, s.uploads[u], s.wire);
    DataStops(u, s.wire, k);
  }

  /** The same while the STREAM_END is still on its way: it is only sent when the data is written. */
  lemma EndLeavesAfterAllData(steps: seq<Step>, u: u64, x: Item)
    requires u in Run(steps).uploads && InFlight(Run(steps), x) && IsEnd(u, x)
    ensures var s := Run(steps);
            Data(u, s.wire) == s.uploads[u].read && |Concat(s.uploads[u].read)| == s.uploads[u].size
  {
    RunKeeps(steps);
    var s := Run(steps);
    hide Run;
    assert UpInv(s, u) && Mine(u, x);
    assert FlightOk(u, s.uploads[u], s.wire, x);
  }
}
