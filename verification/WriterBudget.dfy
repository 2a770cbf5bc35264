/** The writer's budget is conserved, and bounds the bytes it holds. */
module WriterBudget {
  import opened Frames
  import opened Writer

  /** Every command that holds budget, wherever it is. */
  function Holders(s: State): seq<Item> {
    (if s.opener.Budgeted? then [s.opener.item] else []) + s.held + s.control + s.media + s.writing
  }

  /** Encoded frame bytes. */
  function TotalBytes(items: seq<Item>): nat {
    if items == [] then 0
    else (if items[0].origin.Goodbye? then 0 else |items[0].frame.payload| + HEADER_LEN) + TotalBytes(items[1..])
  }

  lemma {:induction false} UnitsAppend(a: seq<Item>, b: seq<Item>)
    ensures Units(a + b) == Units(a) + Units(b)
  {
    if a == [] {
      assert a + b == b;
    } else {
      assert (a + b)[1..] == a[1..] + b;
      UnitsAppend(a[1..], b);
    }
  }

  lemma UnitsOne(x: Item)
    ensures Units([x]) == ItemUnits(x)
  {
    assert [x][1..] == [];
    assert Units([x]) == ItemUnits(x) + Units([]);
  }

  lemma UnitsWithout(items: seq<Item>, i: nat)
    requires i < |items|
    ensures Units(items) == Units(Without(items, i)) + ItemUnits(items[i])
  {
    hide Units, ItemUnits;
    assert items == items[..i] + ([items[i]] + items[i + 1..]);
    UnitsAppend(items[..i], [items[i]] + items[i + 1..]);
    UnitsAppend([items[i]], items[i + 1..]);
    UnitsAppend(items[..i], items[i + 1..]);
    UnitsOne(items[i]);
  }

  function OpenerUnits(o: Opener): nat {
    if o.Budgeted? then ItemUnits(o.item) else 0
  }

  ghost predicate Conserved(s: State) {
    && s.free + OpenerUnits(s.opener) + Units(s.held) + Units(s.control) + Units(s.media) + Units(s.writing) == BUDGET
    && |s.writing| <= 1
  }

  lemma HoldConserves(s: State, x: Item)
    requires Conserved(s)
    ensures Conserved(Hold(s, x))
  {
    UnitsAppend(s.held, [x]);
    UnitsOne(x);
  }

  lemma EnqueueConserves(s: State, i: nat)
    requires Conserved(s) && i < |s.held|
    ensures Conserved(Enqueue(s, i))
  {
    hide ItemUnits, Units, Without;
    UnitsWithout(s.held, i);
    UnitsAppend(s.media, [s.held[i]]);
    UnitsAppend(s.control, [s.held[i]]);
    UnitsOne(s.held[i]);
  }

  lemma GiveUpConserves(s: State, i: nat)
    requires Conserved(s) && i < |s.held|
    ensures Conserved(Do(s, GiveUp(i)))
  {
    hide ItemUnits, Units, Without;
    UnitsWithout(s.held, i);
  }

  lemma ControlTakes(s: State, x: Item)
    ensures Units(s.control + [x]) == Units(s.control) + ItemUnits(x)
  {
    hide ItemUnits, Units;
    UnitsAppend(s.control, [x]);
    UnitsOne(x);
  }

  lemma WriterStepsConserve(s: State, step: Step)
    requires Conserved(s) && (step.Pop? || step.Wrote? || step.WriteFails?)
    ensures Conserved(Do(s, step))
  {
    hide ItemUnits;
    if |s.writing| == 1 {
      UnitsOne(s.writing[0]);
      assert s.writing == [s.writing[0]];
    }
    if s.control != [] {
      UnitsOne(s.control[0]);
    }
    if s.media != [] {
      UnitsOne(s.media[0]);
    }
  }

  lemma StepConserves(s: State, step: Step)
    requires Conserved(s)
    ensures Conserved(Do(s, step))
  {
    hide Units, Enqueue;
    match step
    case OpenQueue => if s.opener.Budgeted? { ControlTakes(s, s.opener.item); }
    case SayGoodbye => ControlTakes(s, Item(NoFrame(), Goodbye));
    case Queue(i) => if i < |s.held| { EnqueueConserves(s, i); }
    case GiveUp(i) => if i < |s.held| { GiveUpConserves(s, i); }
    case Pop => WriterStepsConserve(s, step);
    case Wrote => WriterStepsConserve(s, step);
    case WriteFails => WriterStepsConserve(s, step);
    case OtherBudget(f) => HoldConserves(s, Item(f, Other));
    case AdmitData(id) =>
      if id in s.uploads && s.uploads[id].phase.Wants? {
        HoldConserves(s, Item(DataFrame(id, s.uploads[id].phase.chunk), Upload(id)));
      }
    case AdmitEnd(id, payload) => HoldConserves(s, Item(EndFrame(id, payload), Upload(id)));
    case _ =>
  }

  lemma {:induction false} RunConserves(steps: seq<Step>)
    ensures Conserved(Run(steps))
  {
    if steps != [] {
      RunConserves(steps[..|steps| - 1]);
      StepConserves(Run(steps[..|steps| - 1]), steps[|steps| - 1]);
      hide Do, Conserved;
    }
  }

  lemma {:induction false} BytesWithinUnits(items: seq<Item>)
    ensures TotalBytes(items) <= UNIT * Units(items)
  {
    if items != [] {
      BytesWithinUnits(items[1..]);
    }
  }

  lemma HoldersUnits(s: State)
    ensures Units(Holders(s))
         == OpenerUnits(s.opener) + Units(s.held) + Units(s.control) + Units(s.media) + Units(s.writing)
  {
    var o := if s.opener.Budgeted? then [s.opener.item] else [];
    if s.opener.Budgeted? {
      UnitsOne(s.opener.item);
    }
    UnitsAppend(o, s.held);
    UnitsAppend(o + s.held, s.control);
    UnitsAppend(o + s.held + s.control, s.media);
    UnitsAppend(o + s.held + s.control + s.media, s.writing);
  }

  /**
    In every reachable state free and held permits add up to 1024, so the admitted frames never
    amount to more than 16 MiB; a legal frame needs at most 257 permits, which an empty writer has.
  */
  lemma BudgetIsConserved(steps: seq<Step>, f: Frame)
    requires Legal(f)
    ensures var s := Run(steps);
            && s.free + Units(Holders(s)) == BUDGET
            && TotalBytes(Holders(s)) <= 16 * 1024 * 1024
            && 1 <= FrameUnits(f) <= 257
            && (Holders(s) == [] ==> Hold(s, Item(f, Other)).held == [Item(f, Other)])
  {
    var s := Run(steps);
    RunConserves(steps);
    HoldersUnits(s);
    BytesWithinUnits(Holders(s));
    hide Run;
    if Holders(s) == [] {
      assert |Holders(s)| >= |s.held|;
      assert s.held == [];
    }
  }
}
