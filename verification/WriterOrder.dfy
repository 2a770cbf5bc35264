/** Although control frames overtake media, requests reach the wire in the order of their ids. */
module WriterOrder {
  import opened Writer

  /** Requests among `items` have strictly increasing ids, all below `bound`. */
  ghost predicate Ordered(items: seq<Item>, bound: nat) {
    && (forall i :: 0 <= i < |items| && items[i].origin.Opening? ==> items[i].frame.id < bound)
    && (forall i, j :: 0 <= i < j < |items| && items[i].origin.Opening? && items[j].origin.Opening? ==>
          items[i].frame.id < items[j].frame.id)
  }

  /** What the writer has written, is writing, and will write before anything queued later. */
  function Pipeline(s: State): seq<Item> {
    s.wire + s.writing + s.control
  }

  /** The id of the request in the hands of the lock's holder, or the next one. */
  function Bound(s: State): nat {
    match s.opener
    case Numbered(id) => id
    case Budgeted(x) => x.frame.id
    case _ => s.nextId
  }

  ghost predicate NoOpening(items: seq<Item>) {
    forall i :: 0 <= i < |items| ==> !items[i].origin.Opening?
  }

  ghost predicate Inv(s: State) {
    && |s.writing| <= 1
    && NoOpening(s.held) && NoOpening(s.media)
    && (s.opener.Numbered? || s.opener.Budgeted? ==> Bound(s) < s.nextId)
    && (s.opener.Budgeted? ==> s.opener.item.origin.Opening?)
    && Ordered(Pipeline(s), Bound(s))
  }

  lemma Weaken(items: seq<Item>, b: nat, b': nat)
    requires Ordered(items, b) && b <= b'
    ensures Ordered(items, b')
  {
  }

  /** Commands other than requests may come and go anywhere. */
  lemma Insert(a: seq<Item>, x: Item, b: seq<Item>, bound: nat)
    requires Ordered(a + b, bound) && !x.origin.Opening?
    ensures Ordered(a + [x] + b, bound)
  {
    var items, old_ := a + [x] + b, a + b;
    assert forall i :: 0 <= i < |a| ==> items[i] == old_[i];
    assert forall i :: |a| < i < |items| ==> items[i] == old_[i - 1];
  }

  lemma Delete(a: seq<Item>, x: Item, b: seq<Item>, bound: nat)
    requires Ordered(a + [x] + b, bound)
    ensures Ordered(a + b, bound) && Ordered(a, bound)
  {
    var items, less := a + [x] + b, a + b;
    assert forall i :: 0 <= i < |a| ==> less[i] == items[i] && a[i] == items[i];
    assert forall i :: |a| <= i < |less| ==> less[i] == items[i + 1];
  }

  lemma QueueStepsKeep(s: State, step: Step)
    requires Inv(s) && (step.OpenQueue? || step.Queue? || step.SayGoodbye?)
    ensures Inv(Do(s, step))
  {
    var s' := Do(s, step);
    if s'.control != s.control {
      var x := s'.control[|s.control|];
      assert s'.control == s.control + [x];
      assert Pipeline(s') == Pipeline(s) + [x];
      assert Pipeline(s) + [x] + [] == Pipeline(s) + [x] && Pipeline(s) + [] == Pipeline(s);
      if !step.OpenQueue? {
        Insert(Pipeline(s), x, [], Bound(s));
      }
    } else if s'.held != s.held {
      assert Pipeline(s') == Pipeline(s);
    }
  }

  lemma WriterStepsKeep(s: State, step: Step)
    requires Inv(s) && (step.Pop? || step.Wrote? || step.WriteFails?)
    ensures Inv(Do(s, step))
  {
    var s', bound := Do(s, step), Bound(s);
    hide Ordered;
    if |s.writing| == 1 {
      var x := s.writing[0];
      assert s.writing == [x];
      Delete(s.wire, x, s.control, bound);
      assert s.wire + [x] + [] + s.control == Pipeline(s);
      assert s.wire + [] + s.control == s.wire + s.control && s.wire + [] + [] == s.wire;
    } else if s.control != [] {
      assert s.wire + [s.control[0]] + s.control[1..] == Pipeline(s);
    } else if s.media != [] {
      assert s.wire + s.control == Pipeline(s);
      Insert(s.wire, s.media[0], s.control, bound);
    }
  }

  predicate MovesPipeline(step: Step) {
    step.OpenQueue? || step.Queue? || step.SayGoodbye? || step.Pop? || step.Wrote? || step.WriteFails?
  }

  lemma UploadStepsKeep(s: State, step: Step)
    requires Inv(s)
    ensures Inv(UploadStep(s, step))
  {
    hide Ordered, ItemUnits;
  }

  lemma OtherStepsKeep(s: State, step: Step)
    requires Inv(s) && !MovesPipeline(step)
    ensures Inv(Do(s, step))
  {
    hide Ordered, ItemUnits, UploadStep;
    UploadStepsKeep(s, step);
    var s' := Do(s, step);
    if step.TakeId? || step.OpenBudget? || step.OpenRelease? {
      assert Pipeline(s') == Pipeline(s) && Bound(s) <= Bound(s');
      Weaken(Pipeline(s), Bound(s), Bound(s'));
    }
  }

  lemma StepKeeps(s: State, step: Step)
    requires Inv(s)
    ensures Inv(Do(s, step))
  {
    hide Do;
    match step
    case OpenQueue => QueueStepsKeep(s, step);
    case Queue(_) => QueueStepsKeep(s, step);
    case SayGoodbye => QueueStepsKeep(s, step);
    case Pop => WriterStepsKeep(s, step);
    case Wrote => WriterStepsKeep(s, step);
    case WriteFails => WriterStepsKeep(s, step);
    case _ => OtherStepsKeep(s, step);
  }

  lemma {:induction false} RunKeeps(steps: seq<Step>)
    ensures Inv(Run(steps))
  {
    if steps != [] {
      RunKeeps(steps[..|steps| - 1]);
      StepKeeps(Run(steps[..|steps| - 1]), steps[|steps| - 1]);
      hide Do, Inv;
    }
  }

  /** In every run, request-opening frames are on the wire with strictly increasing ids. */
  lemma RequestsInOrder(steps: seq<Step>)
    ensures var wire := Run(steps).wire;
            forall i, j :: 0 <= i < j < |wire| && wire[i].origin.Opening? && wire[j].origin.Opening? ==>
              wire[i].frame.id < wire[j].frame.id
  {
    RunKeeps(steps);
    var s := Run(steps);
    hide Run;
    assert forall i :: 0 <= i < |s.wire| ==> Pipeline(s)[i] == s.wire[i];
  }
}
