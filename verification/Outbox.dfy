/** The persistent send queue of `src/outbox.rs`. */
module Outbox {
  import opened Bytes

  datatype DeliveryState = Queued | Sending | Delivered | Failed

  type u8 = byte

  datatype QueueItem = QueueItem(
    id: string, payload: string, state: DeliveryState, attempts: u32, nextAttempt: u64, progress: u8,
    error: Option<string>)

  datatype RetryPolicy = RetryPolicy(maxAttempts: u32, initialDelay: u64, maxDelay: u64)

  function NewItem(id: string, payload: string): QueueItem {
    QueueItem(id, payload, Queued, 0, 0, 0, None)
  }

  function Saturate(n: nat): u64 { Min(n, U64_MAX) }

  function Pow2(n: nat): nat { if n == 0 then 1 else 2 * Pow2(n - 1) }

  lemma Pow2Grows(n: nat)
    ensures Pow2(n + 4) == 16 * Pow2(n)
  {
    assert Pow2(n + 4) == 2 * Pow2(n + 3) && Pow2(n + 3) == 2 * Pow2(n + 2) && Pow2(n + 2) == 2 * Pow2(n + 1);
  }

  /** The first retry waits the initial delay, the next one twice as long, and so on up to 2^31 times. */
  lemma DelaysDouble()
    ensures Pow2(0) == 1 && Pow2(1) == 2 && Pow2(4) == 16 && Pow2(31) == 0x8000_0000
  {
    Pow2Grows(0); Pow2Grows(4); Pow2Grows(8); Pow2Grows(12); Pow2Grows(16); Pow2Grows(20); Pow2Grows(24);
    hide Pow2;
    LastDoublings();
  }

  lemma LastDoublings()
    ensures Pow2(31) == 8 * Pow2(28) && Pow2(0) == 1 && Pow2(1) == 2
  {
    assert Pow2(31) == 2 * Pow2(30) && Pow2(30) == 2 * Pow2(29);
  }

  /** The delay before the retry that follows failure number `attempts`. */
  function RetryDelay(policy: RetryPolicy, attempts: u32): (delay: u64)
    ensures attempts > 0 ==>
              delay == Min(policy.maxDelay, policy.initialDelay * Pow2(Min(attempts - 1, 31)))
  {
    var exponent := Min(if attempts == 0 then 0 else attempts - 1, 31);
    Min(Saturate(policy.initialDelay * Pow2(exponent)), policy.maxDelay)
  }

  // What each operation does to the item it finds.

  function Claimed(x: QueueItem): QueueItem {
    x.(state := Sending, progress := Min(x.progress, 99), error := None)
  }

  function Failure(x: QueueItem, error: string, policy: RetryPolicy, now: u64): QueueItem {
    var attempts: u32 := Min(x.attempts + 1, U32_MAX);
    var y := x.(attempts := attempts, error := Some(error));
    if attempts >= policy.maxAttempts then y.(state := Failed, nextAttempt := 0)
    else y.(state := Queued, nextAttempt := Saturate(now + RetryDelay(policy, attempts)))
  }

  /** When a failure is final, and when the retry is due otherwise, free of saturation on the way. */
  lemma FailureSchedules(x: QueueItem, error: string, policy: RetryPolicy, now: u64)
    ensures var y := Failure(x, error, policy, now);
            && (y.state == Failed <==> x.attempts + 1 >= policy.maxAttempts)
            && (y.state != Failed ==>
                  && y.state == Queued && y.attempts == x.attempts + 1
                  && y.nextAttempt
                  == Saturate(now + Min(policy.maxDelay, policy.initialDelay * Pow2(Min(x.attempts, 31)))))
  {
    hide Pow2, RetryDelay;
  }

  /** When an item with so many attempts behind it is due after another failure. */
  function DueTime(policy: RetryPolicy, attempts: u32, now: u64): u64 {
    Saturate(now + Min(policy.maxDelay, policy.initialDelay * Pow2(Min(attempts, 31))))
  }

  lemma FailureIsDue(x: QueueItem, error: string, policy: RetryPolicy, now: u64, later: u64)
    ensures var y := Failure(x, error, policy, now);
            && y.error == Some(error) && y.progress == x.progress && y.attempts == Min(x.attempts + 1, U32_MAX)
            && (Ready(y, later) <==> x.attempts + 1 < policy.maxAttempts && later >= DueTime(policy, x.attempts, now))
  {
    FailureSchedules(x, error, policy, now);
    hide RetryDelay, Pow2;
  }

  /** The first item with this id, or the length. */
  function IndexOf(items: seq<QueueItem>, id: string): (i: nat)
    ensures i <= |items| && (i < |items| ==> items[i].id == id)
    ensures forall j :: 0 <= j < i ==> items[j].id != id
  {
    if items == [] || items[0].id == id then 0 else 1 + IndexOf(items[1..], id)
  }

  predicate Ready(x: QueueItem, now: u64) {
    x.state == Queued && x.nextAttempt <= now
  }

  /** The first item that may be claimed, or the length. */
  function FirstReady(items: seq<QueueItem>, now: u64): (i: nat)
    ensures i <= |items| && (i < |items| ==> Ready(items[i], now))
    ensures forall j :: 0 <= j < i ==> !Ready(items[j], now)
  {
    if items == [] || Ready(items[0], now) then 0 else 1 + FirstReady(items[1..], now)
  }

  /** Everything but the delivered items, in order. */
  function Undelivered(items: seq<QueueItem>): seq<QueueItem> {
    if items == [] then []
    else (if items[0].state != Delivered then [items[0]] else []) + Undelivered(items[1..])
  }

  datatype Op =
    | Enqueue(id: string, payload: string)
    | ClaimReady(now: u64)
    | UpdateProgress(id: string, percent: u8)
    | MarkDelivered(id: string)
    | MarkFailed(id: string, error: string, now: u64)
    | RetryFailed(id: string)
    | RemoveDelivered

  /** The queue after an operation. */
  function After(policy: RetryPolicy, items: seq<QueueItem>, op: Op): seq<QueueItem> {
    match op
    case Enqueue(id, payload) =>
      if IndexOf(items, id) < |items| then items else items + [NewItem(id, payload)]
    case ClaimReady(now) =>
      var i := FirstReady(items, now);
      if i == |items| then items else items[i := Claimed(items[i])]
    case UpdateProgress(id, percent) =>
      var i := IndexOf(items, id);
      if i == |items| || items[i].state != Sending then items
      else items[i := items[i].(progress := Min(percent, 99))]
    case MarkDelivered(id) =>
      var i := IndexOf(items, id);
      if i == |items| then items else items[i := items[i].(state := Delivered, progress := 100, error := None)]
    case MarkFailed(id, error, now) =>
      var i := IndexOf(items, id);
      if i == |items| then items else items[i := Failure(items[i], error, policy, now)]
    case RetryFailed(id) =>
      var i := IndexOf(items, id);
      if i == |items| || items[i].state != Failed then items
      else items[i := items[i].(state := Queued, nextAttempt := 0, error := None)]
    case RemoveDelivered => Undelivered(items)
  }

  // Runs from an empty queue under one policy, with the claims and manual retries of each item.

  datatype History = History(items: seq<QueueItem>, claims: map<string, nat>, retries: map<string, nat>)

  function Tally(counts: map<string, nat>, id: string): nat {
    if id in counts then counts[id] else 0
  }

  function Do(policy: RetryPolicy, h: History, op: Op): History {
    var items := After(policy, h.items, op);
    match op
    case Enqueue(id, _) =>
      if IndexOf(h.items, id) < |h.items| then h
      else History(items, h.claims[id := 0], h.retries[id := 0])
    case ClaimReady(now) =>
      var i := FirstReady(h.items, now);
      if i == |h.items| then h
      else h.(items := items, claims := h.claims[h.items[i].id := Tally(h.claims, h.items[i].id) + 1])
    case RetryFailed(id) =>
      var i := IndexOf(h.items, id);
      if i == |h.items| || h.items[i].state != Failed then h
      else h.(items := items, retries := h.retries[id := Tally(h.retries, id) + 1])
    case _ => h.(items := items)
  }

  function Run(policy: RetryPolicy, ops: seq<Op>): History {
    if ops == [] then History([], map[], map[]) else
      Do(policy, Run(policy, ops[..|ops| - 1]), ops[|ops| - 1])
  }

  ghost predicate Unique(items: seq<QueueItem>) {
    forall i, j :: 0 <= i < j < |items| ==> items[i].id != items[j].id
  }

  /** `claims` and `retries` of one item against its state. */
  predicate ItemInv(policy: RetryPolicy, x: QueueItem, claims: nat, retries: nat) {
    var most := Max(policy.maxAttempts, 1);
    && x.progress <= 100
    && (x.state == Sending ==> x.progress <= 99)
    && (x.state == Delivered ==> x.progress == 100)
    && claims <= most + retries
    && (x.state == Queued ==> claims + 1 <= most + retries)
    && (x.attempts < U32_MAX ==>
          claims <= x.attempts + retries + (if x.state == Sending || x.state == Delivered then 1 else 0))
  }

  ghost predicate Inv(policy: RetryPolicy, h: History) {
    && Unique(h.items)
    && forall i :: 0 <= i < |h.items| ==>
         ItemInv(policy, h.items[i], Tally(h.claims, h.items[i].id), Tally(h.retries, h.items[i].id))
  }

  lemma FailureKeeps(policy: RetryPolicy, x: QueueItem, error: string, now: u64, claims: nat, retries: nat)
    requires ItemInv(policy, x, claims, retries)
    ensures ItemInv(policy, Failure(x, error, policy, now), claims, retries)
  {
    hide RetryDelay;
  }

  lemma {:induction false} UndeliveredMembers(items: seq<QueueItem>)
    ensures forall x :: x in Undelivered(items) <==> x in items && x.state != Delivered
  {
    if items != [] {
      UndeliveredMembers(items[1..]);
      assert forall x :: x in items <==> x == items[0] || x in items[1..];
    }
  }

  lemma {:induction false} UndeliveredUnique(items: seq<QueueItem>)
    requires Unique(items)
    ensures Unique(Undelivered(items))
  {
    if items != [] {
      UndeliveredUnique(items[1..]);
      UndeliveredMembers(items[1..]);
      var rest := Undelivered(items[1..]);
      forall j | 0 <= j < |rest|
        ensures items[0].id != rest[j].id
      {
        assert rest[j] in rest && rest[j] in items[1..];
      }
    }
  }

  /** Replacing one item, and the counts of its id, keeps the invariant if the item's own holds. */
  lemma UpdateKeeps(policy: RetryPolicy, h: History, i: nat, h': History)
    requires Inv(policy, h) && i < |h.items| && |h'.items| == |h.items|
    requires h'.items == h.items[i := h'.items[i]] && h'.items[i].id == h.items[i].id
    requires forall id :: id != h.items[i].id ==>
               Tally(h'.claims, id) == Tally(h.claims, id) && Tally(h'.retries, id) == Tally(h.retries, id)
    requires ItemInv(policy, h'.items[i], Tally(h'.claims, h.items[i].id), Tally(h'.retries, h.items[i].id))
    ensures Inv(policy, h')
  {
    hide ItemInv;
  }

  /** The item operations change one item, and nothing but the counts of its id. */
  lemma ItemStepKeeps(policy: RetryPolicy, h: History, op: Op, i: nat)
    requires Inv(policy, h) && !op.Enqueue? && !op.RemoveDelivered? && i < |h.items|
    requires i == if op.ClaimReady? then FirstReady(h.items, op.now) else IndexOf(h.items, op.id)
    ensures Inv(policy, Do(policy, h, op))
  {
    InvAt(policy, h, i);
    hide Inv, Failure, RetryDelay;
    var h' := Do(policy, h, op);
    if op.MarkFailed? {
      FailureKeeps(policy, h.items[i], op.error, op.now, Tally(h.claims, op.id), Tally(h.retries, op.id));
      FailureId(h.items[i], op.error, policy, op.now);
    }
    UpdateKeeps(policy, h, i, h');
  }

  lemma StepKeeps(policy: RetryPolicy, h: History, op: Op)
    requires Inv(policy, h)
    ensures Inv(policy, Do(policy, h, op))
  {
    if op.RemoveDelivered? {
      UndeliveredUnique(h.items);
      UndeliveredMembers(h.items);
      hide ItemInv, Undelivered;
      assert forall i :: 0 <= i < |Do(policy, h, op).items| ==> Do(policy, h, op).items[i] in h.items;
    } else if !op.Enqueue? {
      var i := if op.ClaimReady? then FirstReady(h.items, op.now) else IndexOf(h.items, op.id);
      hide ItemInv, Failure;
      if i < |h.items| {
        ItemStepKeeps(policy, h, op, i);
      }
    }
  }

  lemma InvAt(policy: RetryPolicy, h: History, i: nat)
    requires Inv(policy, h) && i < |h.items|
    ensures ItemInv(policy, h.items[i], Tally(h.claims, h.items[i].id), Tally(h.retries, h.items[i].id))
  {
  }

  lemma FailureId(x: QueueItem, error: string, policy: RetryPolicy, now: u64)
    ensures Failure(x, error, policy, now).id == x.id
  {
  }

  lemma {:induction false} RunKeeps(policy: RetryPolicy, ops: seq<Op>)
    ensures Inv(policy, Run(policy, ops))
  {
    if ops != [] {
      RunKeeps(policy, ops[..|ops| - 1]);
      StepKeeps(policy, Run(policy, ops[..|ops| - 1]), ops[|ops| - 1]);
      hide Do, Inv;
    }
  }

  /**
    Over every sequence of operations: ids stay unique, progress matches the state, and an item is
    claimed at most max(max_attempts, 1) times plus once for each manual retry.
  */
  lemma RetriesAreBounded(policy: RetryPolicy, ops: seq<Op>)
    ensures var h := Run(policy, ops);
            && Unique(h.items)
            && forall x :: x in h.items ==>
                 && (x.state == Sending ==> x.progress <= 99)
                 && (x.state == Delivered ==> x.progress == 100)
                 && Tally(h.claims, x.id) <= Max(policy.maxAttempts, 1) + Tally(h.retries, x.id)
  {
    RunKeeps(policy, ops);
    hide Run;
  }

  // What the operations mean for the items.

  /** The item an operation is about, or the length. */
  function Target(items: seq<QueueItem>, op: Op): nat
    requires !op.Enqueue? && !op.RemoveDelivered?
  {
    if op.ClaimReady? then FirstReady(items, op.now) else IndexOf(items, op.id)
  }

  /** Every operation on an item leaves all other items, and the order, alone. */
  lemma OthersAreLeftAlone(policy: RetryPolicy, items: seq<QueueItem>, op: Op, j: nat)
    requires !op.Enqueue? && !op.RemoveDelivered? && j < |items|
    ensures |After(policy, items, op)| == |items|
    ensures After(policy, items, op)[j].id == items[j].id && After(policy, items, op)[j].payload == items[j].payload
    ensures j != Target(items, op) ==> After(policy, items, op)[j] == items[j]
  {
    hide RetryDelay;
  }

  predicate Due(x: QueueItem, now: u64) {
    x.state == Queued && x.nextAttempt <= now
  }

  ghost predicate FreshItem(x: QueueItem, id: string, payload: string) {
    x.id == id && x.payload == payload && x.attempts == 0 && forall now :: Due(x, now)
  }

  /** Enqueueing refuses a known id, and otherwise puts a fresh item behind all others. */
  lemma EnqueueAppends(policy: RetryPolicy, items: seq<QueueItem>, id: string, payload: string)
    ensures var after := After(policy, items, Enqueue(id, payload));
            if exists x :: x in items && x.id == id then after == items
            else |after| == |items| + 1 && after[..|items|] == items && FreshItem(after[|items|], id, payload)
  {
    var i := IndexOf(items, id);
    if i < |items| {
      assert items[i] in items;
    } else {
      assert forall x :: x in items ==> x.id != id;
    }
  }

  /** A claim takes the first item that is due, if any is, and only that. */
  lemma ClaimTakesTheFirstDue(policy: RetryPolicy, items: seq<QueueItem>, now: u64)
    ensures var i, after := FirstReady(items, now), After(policy, items, ClaimReady(now));
            && (forall j :: 0 <= j < i ==> !Due(items[j], now))
            && (i == |items| ==> after == items)
            && (i < |items| ==>
                  && Due(items[i], now) && |after| == |items|
                  && after[i].state == Sending && after[i].attempts == items[i].attempts
                  && after[i].progress == Min(items[i].progress, 99) && after[i].error == None)
  {
  }

  /** Delivery is final for claims, counts as complete, and forgets the error. */
  lemma DeliveredIsDone(policy: RetryPolicy, items: seq<QueueItem>, id: string)
    requires IndexOf(items, id) < |items|
    ensures var x, y := items[IndexOf(items, id)], After(policy, items, MarkDelivered(id))[IndexOf(items, id)];
            && y.state == Delivered && y.progress == 100 && y.error == None && y.attempts == x.attempts
            && forall now :: !Due(y, now)
  {
  }

  /** A failure keeps its error, counts, and is due again only after its delay, or not at all. */
  lemma FailedWaits(policy: RetryPolicy, items: seq<QueueItem>, id: string, error: string, now: u64, later: u64)
    requires IndexOf(items, id) < |items|
    ensures var x, y := items[IndexOf(items, id)], After(policy, items, MarkFailed(id, error, now))[IndexOf(items, id)];
            && y.error == Some(error) && y.progress == x.progress && y.attempts == Min(x.attempts + 1, U32_MAX)
            && (Due(y, later) <==> x.attempts + 1 < policy.maxAttempts && later >= DueTime(policy, x.attempts, now))
  {
    hide Failure, DueTime;
    FailureIsDue(items[IndexOf(items, id)], error, policy, now, later);
  }

  /** A failed item that is retried by hand is due at once, whatever the time, with its attempts kept. */
  lemma RetriedIsDue(policy: RetryPolicy, items: seq<QueueItem>, id: string)
    requires IndexOf(items, id) < |items|
    ensures var x, y := items[IndexOf(items, id)], After(policy, items, RetryFailed(id))[IndexOf(items, id)];
            if x.state == Failed
            then (forall now :: Due(y, now)) && y.attempts == x.attempts && y.progress == x.progress && y.error == None
            else y == x
  {
  }

  /** Progress moves only while an item is being sent, and never to the end. */
  lemma ProgressMoves(policy: RetryPolicy, items: seq<QueueItem>, id: string, percent: u8)
    requires IndexOf(items, id) < |items|
    ensures var x, y := items[IndexOf(items, id)], After(policy, items, UpdateProgress(id, percent))[IndexOf(items, id)];
            y == x.(progress := if x.state != Sending then x.progress else if percent <= 99 then percent else 99)
  {
  }

  /** Exactly the delivered items go, and the others keep their order: removal works part by part. */
  lemma {:induction false} RemovalKeepsOrder(a: seq<QueueItem>, b: seq<QueueItem>, x: QueueItem)
    ensures Undelivered(a + b) == Undelivered(a) + Undelivered(b)
    ensures Undelivered([x]) == if x.state == Delivered then [] else [x]
  {
    assert [x][1..] == [] && Undelivered([x]) == (if x.state != Delivered then [x] else []) + Undelivered([]);
    if a == [] {
      assert a + b == b;
    } else {
      RemovalKeepsOrder(a[1..], b, x);
      assert (a + b)[1..] == a[1..] + b;
    }
  }

  /** The payload that an id was last enqueued with. */
  function Enqueued(policy: RetryPolicy, ops: seq<Op>, id: string): Option<string> {
    if ops == [] then None else
      var front, op := ops[..|ops| - 1], ops[|ops| - 1];
      if op.Enqueue? && op.id == id && IndexOf(Run(policy, front).items, id) == |Run(policy, front).items|
      then Some(op.payload) else Enqueued(policy, front, id)
  }

  lemma AfterIsRun(policy: RetryPolicy, h: History, op: Op)
    ensures Do(policy, h, op).items == After(policy, h.items, op)
  {
    hide Failure, Claimed, Undelivered;
  }

  /** Over every sequence of operations, an item keeps the payload it was enqueued with. */
  lemma {:induction false} PayloadsAreKept(policy: RetryPolicy, ops: seq<Op>, x: QueueItem)
    requires x in Run(policy, ops).items
    ensures Enqueued(policy, ops, x.id) == Some(x.payload)
  {
    if ops != [] {
      var front, op := ops[..|ops| - 1], ops[|ops| - 1];
      var items := Run(policy, front).items;
      AfterIsRun(policy, Run(policy, front), op);
      PayloadComesFrom(policy, items, op, x);
      hide Run, After, Do;
      if op.Enqueue? && op.id == x.id && IndexOf(items, op.id) == |items| {
      } else {
        var y :| y in items && y.id == x.id && y.payload == x.payload;
        PayloadsAreKept(policy, front, y);
      }
    }
  }

  lemma PayloadComesFrom(policy: RetryPolicy, items: seq<QueueItem>, op: Op, x: QueueItem)
    requires x in After(policy, items, op)
    ensures if op.Enqueue? && op.id == x.id && IndexOf(items, op.id) == |items| then x.payload == op.payload
            else exists y :: y in items && y.id == x.id && y.payload == x.payload
  {
    if op.RemoveDelivered? {
      UndeliveredMembers(items);
      assert x in items;
    } else if op.Enqueue? {
      hide IndexOf;
      IndexIsFirst(items, op.id);
    } else {
      var j :| 0 <= j < |After(policy, items, op)| && After(policy, items, op)[j] == x;
      AfterLength(policy, items, op);
      OthersAreLeftAlone(policy, items, op, j);
      assert items[j] in items;
    }
  }

  lemma AfterLength(policy: RetryPolicy, items: seq<QueueItem>, op: Op)
    requires !op.Enqueue? && !op.RemoveDelivered?
    ensures |After(policy, items, op)| == |items|
  {
    hide RetryDelay;
  }

  lemma IndexIsFirst(items: seq<QueueItem>, id: string)
    ensures IndexOf(items, id) == |items| ==> forall x :: x in items ==> x.id != id
  {
  }

  class Queue {
    var items: seq<QueueItem>

    constructor ()
      ensures items == []
    {
      items := [];
    }

    method Find(id: string) returns (i: nat)
      ensures i == IndexOf(items, id)
    {
      i := 0;
      while i < |items| && items[i].id != id
        invariant 0 <= i <= |items|
        invariant IndexOf(items, id) == i + IndexOf(items[i..], id)
      {
        assert items[i..][1..] == items[i + 1..];
        i := i + 1;
      }
    }

    method Enqueue(item: QueueItem) returns (r: Result<()>)
      modifies this
      ensures r.Err? <==> IndexOf(old(items), item.id) < |old(items)|
      ensures items == if r.Ok? then old(items) + [item] else old(items)
    {
      var i := Find(item.id);
      if i < |items| {
        return Err;
      }
      items := items + [item];
      r := Ok(());
    }

    method ClaimReady(now: u64) returns (claimed: Option<string>)
      modifies this
      ensures forall policy :: items == After(policy, old(items), Op.ClaimReady(now))
      ensures var i := FirstReady(old(items), now);
              claimed == if i == |old(items)| then None else Some(old(items)[i].id)
    {
      var i := 0;
      while i < |items| && !(items[i].state == Queued && items[i].nextAttempt <= now)
        invariant 0 <= i <= |items|
        invariant FirstReady(items, now) == i + FirstReady(items[i..], now)
      {
        assert items[i..][1..] == items[i + 1..];
        i := i + 1;
      }
      if i == |items| {
        return None;
      }
      claimed := Some(items[i].id);
      items := items[i := items[i].(state := Sending)];
      items := items[i := items[i].(progress := Min(items[i].progress, 99))];
      items := items[i := items[i].(error := None)];
    }

    method UpdateProgress(id: string, percent: u8) returns (changed: bool)
      modifies this
      ensures forall policy :: items == After(policy, old(items), Op.UpdateProgress(id, percent))
      ensures var i := IndexOf(old(items), id); changed <==> i < |old(items)| && old(items)[i].state == Sending
    {
      var i := Find(id);
      if i == |items| {
        return false;
      }
      if items[i].state != Sending {
        return false;
      }
      items := items[i := items[i].(progress := Min(percent, 99))];
      changed := true;
    }

    method MarkDelivered(id: string) returns (found: bool)
      modifies this
      ensures forall policy :: items == After(policy, old(items), Op.MarkDelivered(id))
      ensures found <==> IndexOf(old(items), id) < |old(items)|
    {
      var i := Find(id);
      if i == |items| {
        return false;
      }
      items := items[i := items[i].(state := Delivered, progress := 100, error := None)];
      found := true;
    }

    method MarkFailed(id: string, error: string, policy: RetryPolicy, now: u64) returns (found: bool)
      modifies this
      ensures items == After(policy, old(items), Op.MarkFailed(id, error, now))
      ensures found <==> IndexOf(old(items), id) < |old(items)|
    {
      var i := Find(id);
      if i == |items| {
        return false;
      }
      var x := items[i];
      x := x.(attempts := if x.attempts == U32_MAX then U32_MAX else x.attempts + 1);
      x := x.(error := Some(error));
      if x.attempts >= policy.maxAttempts {
        x := x.(state := Failed, nextAttempt := 0);
      } else {
        x := x.(state := Queued);
        var exponent := Min(x.attempts - 1, 31);
        var delay := Min(Saturate(policy.initialDelay * Pow2(exponent)), policy.maxDelay);
        x := x.(nextAttempt := Saturate(now + delay));
      }
      items := items[i := x];
      found := true;
    }

    method RetryFailed(id: string) returns (changed: bool)
      modifies this
      ensures forall policy :: items == After(policy, old(items), Op.RetryFailed(id))
      ensures var i := IndexOf(old(items), id); changed <==> i < |old(items)| && old(items)[i].state == Failed
    {
      var i := Find(id);
      if i == |items| {
        return false;
      }
      if items[i].state != Failed {
        return false;
      }
      items := items[i := items[i].(state := Queued, nextAttempt := 0, error := None)];
      changed := true;
    }

    method RemoveDelivered()
      modifies this
      ensures items == Undelivered(old(items))
    {
      var kept: seq<QueueItem> := [];
      var i := 0;
      while i < |items|
        invariant 0 <= i <= |items| && items == old(items)
        invariant kept + Undelivered(items[i..]) == Undelivered(items)
      {
        assert items[i..][1..] == items[i + 1..];
        ghost var rest := Undelivered(items[i + 1..]);
        assert kept + ([items[i]] + rest) == kept + [items[i]] + rest && kept + ([] + rest) == kept + rest;
        if items[i].state != Delivered {
          kept := kept + [items[i]];
        }
        i := i + 1;
      }
      assert kept + [] == kept;
      items := kept;
    }
  }
}
