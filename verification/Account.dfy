/** The reconnecting account client of `src/account.rs`: generations, and the request retry loop. */
module Account {
  import opened Bytes

  const WRAP: nat := 0x1_0000_0000

  /** A published connection; clients are told apart by number. */
  datatype Conn = Conn(generation: u64, client: nat)

  /** The holder of `connect_lock`: re-checking, connecting, with a client, with a generation. */
  datatype Connector = Free | Entered | Connecting | Connected(client: nat) | Counted(conn: Conn)

  /**
    `closed` holds the clients whose connection is gone; `made` counts clients; `using` is what each
    request in progress obtained from `connected`; `published` is every value ever stored in `current`.
  */
  datatype State = State(
    current: Option<Conn>, counter: u32, connector: Connector, closed: set<nat>, made: nat,
    using: map<nat, Conn>, published: seq<Conn>)

  function Init(): State {
    State(None, 0, Free, {}, 0, map[], [])
  }

  datatype Step =
    | Reuse(request: nat)             // the unlocked look at `current`, or the one under the lock
    | Enter                           // take `connect_lock`
    | Recheck                         // nothing live is published: go on to connect
    | MakeClient                      // connected and authenticated
    | Count                           // the generation counter, a wrapping 32-bit atomic
    | Publish(request: nat)
    | Leave                           // failure, or a dropped future
    | Invalidate(request: nat)        // a request failed: take its generation out
    | TakeAny                         // `close`, or changed credentials
    | Dies(client: nat)               // a connection fails on its own

  predicate Live(s: State, c: Option<Conn>) {
    c.Some? && c.value.client !in s.closed
  }

  function Do(s: State, step: Step): State {
    match step
    case Reuse(request) =>
      if Live(s, s.current) then s.(using := s.using[request := s.current.value]) else s
    case Enter => if s.connector.Free? then s.(connector := Entered) else s
    case Recheck =>
      if s.connector.Entered? then s.(connector := if Live(s, s.current) then Free else Connecting) else s
    case MakeClient =>
      if s.connector.Connecting? then s.(connector := Connected(s.made), made := s.made + 1) else s
    case Count =>
      if s.connector.Connected? then
        var counter := (s.counter + 1) % WRAP;
        s.(counter := counter, connector := Counted(Conn(counter, s.connector.client)))
      else s
    case Publish(request) =>
      if s.connector.Counted? then
        var conn := s.connector.conn;
        s.(current := Some(conn), connector := Free, published := s.published + [conn],
           using := s.using[request := conn])
      else s
    case Leave =>
      if s.connector.Counted? then s else s.(connector := Free)
    case Invalidate(request) =>
      if request in s.using && s.current.Some? && s.current.value.generation == s.using[request].generation
      then s.(current := None, closed := s.closed + {s.current.value.client}) else s
    case TakeAny =>
      if s.current.Some? then s.(current := None, closed := s.closed + {s.current.value.client}) else s
    case Dies(client) => s.(closed := s.closed + {client})
  }

  function Run(steps: seq<Step>): State {
    if steps == [] then Init() else Do(Run(steps[..|steps| - 1]), steps[|steps| - 1])
  }

  /** Generations are the publication numbers, up to the width of the counter. */
  ghost predicate Numbered(s: State) {
    && (forall i :: 0 <= i < |s.published| ==> s.published[i].generation == (i + 1) % WRAP)
    && (forall i, j :: 0 <= i < j < |s.published| ==> s.published[i].client != s.published[j].client)
    && (forall i :: 0 <= i < |s.published| ==> s.published[i].client < s.made)
    && s.counter == (|s.published| + (if s.connector.Counted? then 1 else 0)) % WRAP
  }

  ghost predicate Inv(s: State) {
    && Numbered(s)
    && (s.current.Some? ==> s.current.value in s.published)
    && (forall r :: r in s.using ==> s.using[r] in s.published)
    && (match s.connector
        case Free => true
        case Entered => true
        case Connecting => !Live(s, s.current)
        case Connected(client) => !Live(s, s.current) && Unpublished(s, client)
        case Counted(conn) =>
          !Live(s, s.current) && Unpublished(s, conn.client) && conn.generation == s.counter)
  }

  ghost predicate Unpublished(s: State, client: nat) {
    client < s.made && forall i :: 0 <= i < |s.published| ==> s.published[i].client != client
  }

  lemma StepKeeps(s: State, step: Step)
    requires Inv(s)
    ensures Inv(Do(s, step))
  {
    if step.Publish? && s.connector.Counted? {
      PublishKeeps(s, step.request);
    } else if step.Count? && s.connector.Connected? {
      CountKeeps(s);
    } else {
      OtherStepsKeep(s, step);
    }
  }

  lemma CountKeeps(s: State)
    requires Inv(s) && s.connector.Connected?
    ensures Inv(Do(s, Count))
  {
    assert (|s.published| % WRAP + 1) % WRAP == (|s.published| + 1) % WRAP;
  }

  lemma OtherStepsKeep(s: State, step: Step)
    requires Inv(s)
    requires !(step.Publish? && s.connector.Counted?) && !(step.Count? && s.connector.Connected?)
    ensures Inv(Do(s, step))
  {
    var s' := Do(s, step);
    assert s'.published == s.published && s'.counter == s.counter && s.made <= s'.made;
    assert s'.connector.Counted? <==> s.connector.Counted?;
    assert Numbered(s');
    hide Numbered;
    assert s'.current.Some? ==> s'.current == s.current;
    assert forall r :: r in s'.using ==> s'.using[r] in s.published;
  }

  lemma PublishKeeps(s: State, request: nat)
    requires Inv(s) && s.connector.Counted?
    ensures Inv(Do(s, Publish(request)))
  {
    var s', conn := Do(s, Publish(request)), s.connector.conn;
    assert conn in s'.published && forall c :: c in s.published ==> c in s'.published;
    forall i | 0 <= i < |s'.published|
      ensures s'.published[i].generation == (i + 1) % WRAP && s'.published[i].client < s'.made
    {
      assert i < |s.published| ==> s'.published[i] == s.published[i];
    }
  }

  lemma {:induction false} RunKeeps(steps: seq<Step>)
    ensures Inv(Run(steps))
  {
    if steps != [] {
      RunKeeps(steps[..|steps| - 1]);
      StepKeeps(Run(steps[..|steps| - 1]), steps[|steps| - 1]);
      hide Do, Inv;
    }
  }

  ghost predicate Increasing(published: seq<Conn>) {
    forall i, j :: 0 <= i < j < |published| ==> published[i].generation < published[j].generation
  }

  /** Published generations strictly increase, exactly as long as there are fewer than 2^32 of them. */
  lemma GenerationsIncrease(steps: seq<Step>)
    ensures Increasing(Run(steps).published) <==> |Run(steps).published| < WRAP
  {
    RunKeeps(steps);
    var published := Run(steps).published;
    hide Run;
    if |published| >= WRAP {
      assert published[WRAP - 2].generation == WRAP - 1 && published[WRAP - 1].generation == 0;
    }
  }

  lemma RunStep(steps: seq<Step>, step: Step)
    ensures Run(steps + [step]) == Do(Run(steps), step)
  {
    assert (steps + [step])[..|steps|] == steps;
  }

  /** A run that connects anew `n` times, dropping what was published before. */
  function Connects(n: nat): seq<Step> {
    if n == 0 then [] else
      Connects(n - 1) + [TakeAny] + [Enter] + [Recheck] + [MakeClient] + [Count] + [Publish(0)]
  }

  lemma DropsCurrent(s: State)
    requires s.connector.Free?
    ensures var t := Do(Do(Do(s, TakeAny), Enter), Recheck);
            t.connector.Connecting? && t.published == s.published
  {
  }

  lemma ConnectsAnew(s: State)
    requires s.connector.Connecting?
    ensures var t := Do(Do(Do(s, MakeClient), Count), Publish(0));
            t.connector.Free? && |t.published| == |s.published| + 1
  {
  }

  lemma ConnectsStep(n: nat)
    requires n > 0
    ensures Connects(n)
         == Connects(n - 1) + [TakeAny] + [Enter] + [Recheck] + [MakeClient] + [Count] + [Publish(0)]
  {
  }

  lemma NoConnects()
    ensures Run(Connects(0)) == Init()
  {
  }

  /** Any number of connections can be published, so the counter does wrap in some run. */
  lemma {:induction false} AnyNumberIsPublished(n: nat)
    ensures |Run(Connects(n)).published| == n && Run(Connects(n)).connector.Free?
  {
    hide Run, Do, Connects;
    if n == 0 {
      NoConnects();
    } else {
      AnyNumberIsPublished(n - 1);
      ConnectsStep(n);
      var a := Connects(n - 1);
      RunStep(a, TakeAny);
      RunStep(a + [TakeAny], Enter);
      RunStep(a + [TakeAny] + [Enter], Recheck);
      DropsCurrent(Run(a));
      var b := a + [TakeAny] + [Enter] + [Recheck];
      RunStep(b, MakeClient);
      RunStep(b + [MakeClient], Count);
      RunStep(b + [MakeClient] + [Count], Publish(0));
      ConnectsAnew(Run(b));
    }
  }

  /** A connect never overwrites a live connection. */
  lemma PublishOverwritesNothingLive(steps: seq<Step>, request: nat)
    ensures var s := Run(steps);
            Do(s, Publish(request)).current == s.current || !Live(s, s.current)
  {
    RunKeeps(steps);
    hide Run;
  }

  lemma OneConnPerGeneration(s: State, a: Conn, b: Conn)
    requires Numbered(s) && |s.published| < WRAP && a in s.published && b in s.published
    requires a.generation == b.generation
    ensures a == b
  {
    var i :| 0 <= i < |s.published| && s.published[i] == a;
    var j :| 0 <= j < |s.published| && s.published[j] == b;
    assert (i + 1) % WRAP == i + 1 && (j + 1) % WRAP == j + 1;
  }

  /**
    A request that failed takes out the connection it used, and only that: before the counter wraps,
    it removes and closes what is published if and only if that is the very connection it used.
  */
  lemma InvalidateTakesExactlyItsOwn(steps: seq<Step>, request: nat)
    requires |Run(steps).published| < WRAP
    ensures var s := Run(steps);
            Do(s, Invalidate(request))
            == if request in s.using && s.current == Some(s.using[request])
               then s.(current := None, closed := s.closed + {s.using[request].client}) else s
  {
    RunKeeps(steps);
    var s := Run(steps);
    hide Run;
    hide Numbered;
    if request in s.using && s.current.Some? && s.current.value.generation == s.using[request].generation {
      OneConnPerGeneration(s, s.current.value, s.using[request]);
    }
  }

  /** A request is given what is published exactly while that is live. */
  lemma RequestUsesTheLive(steps: seq<Step>, request: nat)
    ensures var s := Run(steps);
            && (Live(s, s.current) ==> Do(s, Reuse(request)) == s.(using := s.using[request := s.current.value]))
            && (!Live(s, s.current) ==> Do(s, Reuse(request)) == s)
            && (s.connector.Entered? && Live(s, s.current) ==> Do(s, Recheck) == s.(connector := Free))
  {
  }

  /** A connection that died, or was taken out, is given to no request and makes way for a new one. */
  lemma DeadMakesWay(steps: seq<Step>, request: nat)
    requires Run(steps).current.Some?
    ensures var s := Run(steps);
            var dead, taken := Do(s, Dies(s.current.value.client)), Do(s, TakeAny);
            && Do(dead, Reuse(request)) == dead && Do(taken, Reuse(request)) == taken
            && taken.current.None? && s.current.value.client in taken.closed && s.current.value.client in dead.closed
            && (s.connector.Entered? ==> Do(dead, Recheck).connector.Connecting? && Do(taken, Recheck).connector.Connecting?)
  {
  }

  /** What a connect publishes is new, is what everybody finds, and is what its request uses. */
  lemma PublishedIsCurrent(steps: seq<Step>, request: nat)
    requires Run(steps).connector.Counted?
    ensures var s, t := Run(steps), Do(Run(steps), Publish(request));
            && t.current.Some? && request in t.using && t.using[request] == t.current.value
            && t.published == s.published + [t.current.value] && t.connector.Free?
            && t.current.value.generation == (|s.published| + 1) % WRAP
            && forall c :: c in s.published ==> c.client != t.current.value.client
  {
    RunKeeps(steps);
    hide Run;
  }

  // The retry loop.

  const COMMAND: byte := 2

  type Nonce = n: bytes | |n| == 16 witness Zeros(16)

  /** What one turn of the loop meets: a failed connect, or a sent request and its outcome. */
  datatype Turn = ConnectFails(final: bool) | Sent(ok: bool, final: bool)

  datatype Attempt = Attempt(kind: byte, nonce: Option<Nonce>, payload: bytes)

  /** The number of turns that get as far as sending, up to and including the first that ends the loop. */
  function Sends(turns: seq<Turn>): nat {
    if turns == [] then 0
    else match turns[0]
         case ConnectFails(final) => if final then 0 else Sends(turns[1..])
         case Sent(ok, final) => 1 + (if ok || final then 0 else Sends(turns[1..]))
  }

  /** Some turn brings an answer, and every turn before it allows another. */
  predicate Answered(turns: seq<Turn>) {
    exists i :: 0 <= i < |turns| && turns[i].Sent? && turns[i].ok && forall j :: 0 <= j < i ==> Retried(turns[j])
  }

  predicate Retried(t: Turn) {
    !t.final && (t.Sent? ==> !t.ok)
  }

  lemma AnsweredStep(turns: seq<Turn>)
    requires turns != []
    ensures Answered(turns) <==> (turns[0].Sent? && turns[0].ok) || (Retried(turns[0]) && Answered(turns[1..]))
  {
    var rest := turns[1..];
    if Retried(turns[0]) && Answered(rest) {
      var i :| 0 <= i < |rest| && rest[i].Sent? && rest[i].ok && forall j :: 0 <= j < i ==> Retried(rest[j]);
      assert turns[i + 1] == rest[i];
      assert forall j :: 0 <= j < i + 1 ==> Retried(turns[j]) by {
        forall j | 0 <= j < i + 1 ensures Retried(turns[j]) {
          assert j > 0 ==> turns[j] == rest[j - 1];
        }
      }
    }
    if Answered(turns) && !(turns[0].Sent? && turns[0].ok) {
      var i :| 0 <= i < |turns| && turns[i].Sent? && turns[i].ok && forall j :: 0 <= j < i ==> Retried(turns[j]);
      assert rest[i - 1] == turns[i];
      assert forall j :: 0 <= j < i - 1 ==> rest[j] == turns[j + 1];
    }
  }

  lemma NoTurns()
    ensures !Answered([])
  {
  }

  /**
    `request_cbor`, over the turns its surroundings offer: every attempt carries the same kind,
    payload and nonce; a COMMAND submitted without a nonce gets one non-zero nonce for all of them.
  */
  method RequestCbor(kind: byte, payload: bytes, given: Option<Nonce>, random: Nonce, turns: seq<Turn>)
    returns (attempts: seq<Attempt>, nonce: Option<Nonce>, answered: bool)
    ensures |attempts| == Sends(turns)
    ensures forall i :: 0 <= i < |attempts| ==> attempts[i] == Attempt(kind, nonce, payload)
    ensures if kind == COMMAND && given.None?
            then nonce.Some? && nonce.value != Zeros(16) && (random != Zeros(16) ==> nonce.value == random)
            else nonce == given
    ensures answered <==> Answered(turns)
  {
    hide Answered;
    NoTurns();
    nonce := given;
    if kind == COMMAND && nonce.None? {
      var drawn := random;
      if drawn == Zeros(16) {
        drawn := drawn[0 := 1];
        assert drawn[0] != Zeros(16)[0];
      }
      nonce := Some(drawn);
    }
    attempts, answered := [], false;
    var i := 0;
    while i < |turns|
      invariant 0 <= i <= |turns|
      invariant |attempts| + Sends(turns[i..]) == Sends(turns)
      invariant !answered && Answered(turns[i..]) == Answered(turns)
      invariant forall k :: 0 <= k < |attempts| ==> attempts[k] == Attempt(kind, nonce, payload)
    {
      assert turns[i..][0] == turns[i] && turns[i..][1..] == turns[i + 1..];
      AnsweredStep(turns[i..]);
      match turns[i]
      case ConnectFails(final) =>
        if final {
          return;
        }
        i := i + 1;
      case Sent(ok, final) =>
        attempts := attempts + [Attempt(kind, nonce, payload)];
        if ok {
          answered := true;
          return;
        }
        if final {
          return;
        }
        i := i + 1;
    }
    assert turns[i..] == [];
  }
}
