/**
  The HTTP tunnel loops of `src/m5oh.rs`. The local socket, the HTTP requests and the reconnects are
  scripts that the loops consume; a loop whose script runs out is suspended at that point.
*/
module Tunnel {
  import opened Bytes
  import TunnelTarget

  datatype Status = Finished | Failed | Suspended

  /** One read of the local socket: some bytes if any are left and the end otherwise, a pause, or an error. */
  datatype Read = Offer(most: nat) | Pause | Break

  /** One HTTP request or connect: a reply, a reply that closes the connection, or a failure. */
  datatype Net = Fine | FineClose | Lost

  /** An upload request as it is sent, whether or not it arrives. */
  datatype Sent = Sent(sequence: u64, payload: bytes, eof: bool)

  /** The payloads in order of their numbers, each number once. */
  function Stream(log: seq<Sent>): bytes {
    if log == [] then []
    else
      var n := |log| - 1;
      if n > 0 && log[n - 1].sequence == log[n].sequence then Stream(log[..n])
      else Stream(log[..n]) + log[n].payload
  }

  function LastNumber(log: seq<Sent>): nat {
    if log == [] then 0 else log[|log| - 1].sequence
  }

  /**
    Numbers run contiguously from 1; a number is bound to one payload and one end flag, is sent at
    most twice, fits the request, is empty only with the end flag, and nothing follows that flag.
  */
  ghost predicate WellNumbered(log: seq<Sent>) {
    && (log != [] ==> log[0].sequence == 1)
    && (forall i :: 0 <= i < |log| ==> Sound(log[i]))
    && (forall i, j :: 0 <= i < j < |log| ==> Follows(log[i], log[j], j - i))
  }

  predicate Sound(x: Sent) {
    |x.payload| <= TunnelTarget.UPLOAD_CHUNK && (x.payload == [] ==> x.eof)
  }

  /** What two requests, `gap` places apart, must have to do with each other. */
  predicate Follows(a: Sent, b: Sent, gap: nat) {
    && a.sequence <= b.sequence
    && (gap == 1 ==> b.sequence <= a.sequence + 1)
    && (a.sequence == b.sequence ==> gap == 1 && a == b)
    && (a.eof ==> a == b)
  }

  ghost predicate Open(log: seq<Sent>) {
    forall i :: 0 <= i < |log| ==> !log[i].eof
  }

  lemma Append(log: seq<Sent>, y: Sent)
    requires WellNumbered(log) && Sound(y) && (log == [] ==> y.sequence == 1)
    requires forall i :: 0 <= i < |log| ==> Follows(log[i], y, |log| - i)
    ensures WellNumbered(log + [y])
  {
    hide Follows;
    var log' := log + [y];
    forall i, j | 0 <= i < j < |log'|
      ensures Follows(log'[i], log'[j], j - i)
    {
      assert log'[i] == log[i];
    }
  }

  /** A new number extends a well-numbered log that is still open. */
  lemma NumberJoins(log: seq<Sent>, x: Sent)
    requires WellNumbered(log) && Open(log)
    requires x.sequence == LastNumber(log) + 1 && Sound(x)
    ensures WellNumbered(log + [x]) && Stream(log + [x]) == Stream(log) + x.payload
    ensures !x.eof ==> Open(log + [x])
  {
    assert (log + [x])[..|log|] == log;
    assert Stream(log + [x]) == Stream(log) + x.payload;
    hide Stream;
    forall i | 0 <= i < |log|
      ensures Follows(log[i], x, |log| - i)
    {
      assert i < |log| - 1 ==> Follows(log[i], log[|log| - 1], |log| - 1 - i);
    }
    Append(log, x);
  }

  lemma StreamTwice(log: seq<Sent>, x: Sent)
    requires log != [] && log[|log| - 1].sequence == x.sequence
    ensures Stream(log + [x]) == Stream(log)
  {
    assert (log + [x])[..|log|] == log;
  }

  /** The last request may follow itself. */
  lemma FollowsAgain(log: seq<Sent>, x: Sent, i: nat)
    requires WellNumbered(log + [x]) && Open(log) && x.sequence == LastNumber(log) + 1 && i <= |log|
    ensures Follows((log + [x])[i], x, |log| + 1 - i)
  {
    var once := log + [x];
    assert once[|log|] == x;
    if i < |log| {
      assert Follows(once[i], once[|log|], |log| - i) && once[i] == log[i];
      assert i < |log| - 1 ==> Follows(once[i], once[|log| - 1], |log| - 1 - i);
    }
  }

  /** So does one retry of the last number. */
  lemma RetryJoins(log: seq<Sent>, x: Sent)
    requires WellNumbered(log) && Open(log)
    requires x.sequence == LastNumber(log) + 1 && Sound(x)
    ensures WellNumbered(log + [x] + [x]) && Stream(log + [x] + [x]) == Stream(log + [x])
    ensures !x.eof ==> Open(log + [x] + [x])
  {
    hide Stream, WellNumbered, Follows, LastNumber;
    NumberJoins(log, x);
    var once := log + [x];
    StreamTwice(once, x);
    forall i | 0 <= i < |once|
      ensures Follows(once[i], x, |once| - i)
    {
      FollowsAgain(log, x, i);
    }
    Append(once, x);
  }

  /** Reading into the buffer: the first read waits, the following ones only coalesce. */
  method Gather(source: bytes, start: nat, inputs: seq<Read>, from: nat)
    returns (count: nat, eof: bool, next: nat, status: Status)
    requires start <= |source| && from <= |inputs|
    ensures from <= next <= |inputs|
    ensures count <= TunnelTarget.UPLOAD_CHUNK && start + count <= |source|
    ensures eof ==> start + count == |source|
    ensures match status
            case Finished =>
              next > from && (eof || (count > 0 && (count == TunnelTarget.UPLOAD_CHUNK || inputs[next - 1].Pause?)))
            case Failed => next > from && inputs[next - 1].Break?
            case Suspended => next == |inputs|
    ensures forall k :: from <= k < next && inputs[k].Break? ==> k == next - 1 && status.Failed?
  {
    count, eof, next, status := 0, false, from, Suspended;
    while next < |inputs| && inputs[next].Pause?
      invariant from <= next <= |inputs|
      invariant forall k :: from <= k < next ==> !inputs[k].Break?
    {
      next := next + 1;
    }
    if next == |inputs| {
      return;
    }
    if inputs[next].Break? {
      next, status := next + 1, Failed;
      return;
    }
    count := Min(Min(Max(inputs[next].most, 1), TunnelTarget.UPLOAD_CHUNK), |source| - start);
    next := next + 1;
    eof := count == 0;
    while !eof && count < TunnelTarget.UPLOAD_CHUNK
      invariant from < next <= |inputs|
      invariant count <= TunnelTarget.UPLOAD_CHUNK && start + count <= |source| && (eof || count > 0)
      invariant eof ==> start + count == |source|
      invariant forall k :: from <= k < next ==> !inputs[k].Break?
      invariant status.Suspended?
      decreases |inputs| - next, !eof
    {
      if next == |inputs| {
        return;
      }
      match inputs[next]
      case Break =>
        next, status := next + 1, Failed;
        return;
      case Pause =>
        next := next + 1;
        break;
      case Offer(most) =>
        var more := Min(Min(Max(most, 1), TunnelTarget.UPLOAD_CHUNK - count), |source| - start - count);
        next := next + 1;
        if more == 0 {
          eof := true;
        } else {
          count := count + more;
        }
    }
    status := Finished;
  }

  /** Where the reply that counts is: that of the retry, if the first request was lost. */
  function Decisive(net: seq<Net>, from: nat): nat {
    if from < |net| && net[from].Lost? then from + 2 else from
  }

  /** The request got through: at once, or after one reconnect and one retry. */
  predicate Through(net: seq<Net>, from: nat) {
    var d := Decisive(net, from);
    d < |net| && !net[d].Lost? && (d > from ==> !net[from + 1].Lost?)
  }

  /** The reconnect that a closing reply asks for, if it does. */
  predicate Reopened(net: seq<Net>, from: nat) {
    var d := Decisive(net, from);
    d < |net| && (net[d].FineClose? ==> d + 1 < |net| && !net[d + 1].Lost?)
  }

  /** One sequence number: a request, and on failure a reconnect and one retry of the same request. */
  method Send(x: Sent, net: seq<Net>, from: nat, log: seq<Sent>)
    returns (next: nat, log': seq<Sent>, status: Status)
    requires from <= |net|
    ensures from <= next <= |net|
    ensures log' == if from == |net| then log
                    else if net[from].Lost? && from + 2 < |net| && !net[from + 1].Lost? then log + [x] + [x]
                    else log + [x]
    ensures status.Finished? <==> Through(net, from) && Reopened(net, from)
    ensures match status
            case Finished =>
              next == Decisive(net, from) + (if net[Decisive(net, from)].FineClose? then 2 else 1)
            case Failed => next > from + 1 && net[next - 1].Lost?
            case Suspended => next == |net|
  {
    next, log', status := from, log, Suspended;
    if next == |net| {
      return;
    }
    log' := log + [x];
    var outcome := net[next];
    next := next + 1;
    if outcome.Lost? {
      if next == |net| {
        return;
      }
      var connected := net[next];
      next := next + 1;
      if connected.Lost? {
        status := Failed;
        return;
      }
      if next == |net| {
        return;
      }
      log' := log + [x] + [x];
      outcome := net[next];
      next := next + 1;
      if outcome.Lost? {
        status := Failed;
        return;
      }
    }
    if outcome.FineClose? {
      if next == |net| {
        return;
      }
      var connected := net[next];
      next := next + 1;
      if connected.Lost? {
        status := Failed;
        return;
      }
    }
    status := Finished;
  }

  /**
    `upload_loop`: under any pattern of pauses, failures and reconnects the requests are well
    numbered and their payloads form a prefix of the local bytes; success means all of them, closed
    by an end flag. It fails only where the `r` reads and `n` exchanges used up end in a failure.
  */
  method UploadLoop(source: bytes, inputs: seq<Read>, net: seq<Net>)
    returns (log: seq<Sent>, r: nat, n: nat, status: Status)
    ensures WellNumbered(log) && Stream(log) <= source
    ensures r <= |inputs| && n <= |net|
    ensures match status
            case Finished => Stream(log) == source && log != [] && log[|log| - 1].eof
            case Failed => (n > 0 && net[n - 1].Lost?) || (r > 0 && inputs[r - 1].Break?) || LastNumber(log) == U64_MAX
            case Suspended => r == |inputs| || n == |net|
    ensures forall k :: 0 <= k < r && inputs[k].Break? ==> k == r - 1 && status.Failed?
    ensures net != [] && net[0].Lost? ==> status.Failed? && log == []
  {
    log, r, n, status := [], 0, 0, Suspended;
    if net == [] {
      return;
    }
    n := 1;
    if net[0].Lost? {
      status := Failed;
      return;
    }
    hide WellNumbered, Stream, Open, LastNumber, Extends;
    var sequence: u64 := 1;
    var start: nat := 0;
    EmptyLog(source);
    ExtendsMeans(log, source, start);
    while r < |inputs|
      invariant r <= |inputs| && n <= |net|
      invariant Extends(log, source, start) && Open(log) && LastNumber(log) + 1 == sequence
      invariant WellNumbered(log) && Stream(log) <= source && status.Suspended?
      invariant forall k :: 0 <= k < r ==> !inputs[k].Break?
    {
      var eof;
      log, start, eof, r, n, status := UploadOne(source, start, inputs, r, net, n, log, sequence);
      if !status.Finished? {
        return;
      }
      if sequence == U64_MAX {
        status := Failed;
        return;
      }
      sequence := sequence + 1;
      if eof {
        return;
      }
      status := Suspended;
    }
  }

  /** One turn of the loop: one sequence number, bound to what was gathered for it. */
  method UploadOne(source: bytes, start: nat, inputs: seq<Read>, r: nat, net: seq<Net>, n: nat,
                   log: seq<Sent>, sequence: u64)
    returns (log': seq<Sent>, end: nat, eof: bool, r': nat, n': nat, status: Status)
    requires r <= |inputs| && n <= |net|
    requires Extends(log, source, start) && Open(log) && LastNumber(log) + 1 == sequence
    ensures r <= r' <= |inputs| && n <= n' <= |net|
    ensures forall k :: r <= k < r' && inputs[k].Break? ==> k == r' - 1 && status.Failed?
    ensures WellNumbered(log') && Stream(log') <= source
    ensures match status
            case Finished =>
              && r' > r && Extends(log', source, end) && LastNumber(log') == sequence
              && (if eof then Stream(log') == source && log' != [] && log'[|log'| - 1].eof else Open(log'))
            case Failed => (n' > 0 && net[n' - 1].Lost?) || (r' > 0 && inputs[r' - 1].Break?)
            case Suspended => r' == |inputs| || n' == |net|
  {
    hide WellNumbered, Stream, Open, LastNumber, Extends;
    log', end, n' := log, start, n;
    ExtendsMeans(log, source, start);
    var count;
    count, eof, r', status := Gather(source, start, inputs, r);
    if !status.Finished? {
      return;
    }
    end := start + count;
    var x := Sent(sequence, source[start..end], eof);
    Joins(log, source, start, x);
    n', log', status := Send(x, net, n, log);
    if log' != log {
      ExtendsMeans(log', source, end);
    }
  }

  /** The requests so far carry exactly the first `start` local bytes. */
  ghost predicate Extends(log: seq<Sent>, source: bytes, start: nat) {
    start <= |source| && WellNumbered(log) && Stream(log) == source[..start] && Stream(log) <= source
  }

  /** `log` ends in request `x` and carries the local bytes up to `end`. */
  ghost predicate Joined(log: seq<Sent>, source: bytes, end: nat, x: Sent) {
    && Extends(log, source, end) && LastNumber(log) == x.sequence
    && log != [] && log[|log| - 1] == x && (!x.eof ==> Open(log))
  }

  lemma EmptyLog(source: bytes)
    ensures Extends([], source, 0) && Open([]) && LastNumber([]) == 0
  {
  }

  lemma ExtendsMeans(log: seq<Sent>, source: bytes, start: nat)
    requires Extends(log, source, start)
    ensures start <= |source| && WellNumbered(log) && Stream(log) <= source
    ensures start == |source| ==> Stream(log) == source
  {
  }

  lemma Joins(log: seq<Sent>, source: bytes, start: nat, x: Sent)
    requires Extends(log, source, start) && Open(log) && x.sequence == LastNumber(log) + 1
    requires start + |x.payload| <= |source| && x.payload == source[start..start + |x.payload|]
    requires Sound(x)
    ensures Joined(log + [x], source, start + |x.payload|, x)
    ensures Joined(log + [x] + [x], source, start + |x.payload|, x)
  {
    NumberJoins(log, x);
    RetryJoins(log, x);
    hide WellNumbered, Stream;
    assert source[..start] + x.payload == source[..start + |x.payload|];
  }

  /** A download reply: lost, or the numbered body, of which the local socket may take only a part. */
  datatype Reply = Missing | Body(last: bool, close: bool) | Cut(taken: nat)

  /** The replies whose whole body reached the local socket. */
  function Answers(replies: seq<Reply>): nat {
    if replies == [] then 0
    else Answers(replies[..|replies| - 1]) + (if replies[|replies| - 1].Body? then 1 else 0)
  }

  lemma AnswersNext(replies: seq<Reply>, i: nat)
    requires i < |replies|
    ensures Answers(replies[..i + 1]) == Answers(replies[..i]) + (if replies[i].Body? then 1 else 0)
  {
    assert replies[..i + 1][..i] == replies[..i];
  }

  /** The bodies of the numbers below `n`, in order. */
  function Bodies(content: u64 -> bytes, n: nat): bytes
    requires n <= U64_MAX + 1
  {
    if n == 0 then [] else Bodies(content, n - 1) + content(n - 1)
  }

  /** Numbers asked for, in order: contiguous from 0, each at most twice. */
  ghost predicate AskedInOrder(asked: seq<u64>) {
    && (asked != [] ==> asked[0] == 0)
    && (forall i, j :: 0 <= i < j < |asked| ==> AskedNext(asked[i], asked[j], j - i))
  }

  predicate AskedNext(a: u64, b: u64, gap: nat) {
    a <= b && (gap == 1 ==> b - a <= 1) && (a == b ==> gap == 1)
  }

  /** Every number below `n` has been asked for, and none from there on. */
  ghost predicate AskedUpTo(asked: seq<u64>, n: nat) {
    && AskedInOrder(asked)
    && (forall k :: 0 <= k < |asked| ==> asked[k] < n)
    && (if n == 0 then asked == [] else asked != [] && asked[|asked| - 1] == n - 1)
  }

  lemma AskJoins(asked: seq<u64>, n: u64)
    requires AskedUpTo(asked, n)
    ensures AskedUpTo(asked + [n], n + 1) && AskedUpTo(asked + [n] + [n], n + 1)
  {
    var once, twice, k := asked + [n], asked + [n] + [n], |asked|;
    forall i | 0 <= i < k
      ensures AskedNext(asked[i], n, k - i) && AskedNext(asked[i], n, k + 1 - i)
    {
      assert asked[k - 1] == n - 1;
    }
    forall i, j | 0 <= i < j < |twice|
      ensures AskedNext(twice[i], twice[j], j - i)
    {
      assert i < k ==> twice[i] == asked[i];
      assert j < k ==> AskedNext(asked[i], asked[j], j - i);
    }
    assert forall i :: 0 <= i < |once| ==> once[i] == twice[i];
    hide AskedNext;
  }

  lemma EmptyAsked()
    ensures AskedUpTo([], 0)
  {
  }

  /** The connects that replies cost: one for each lost reply and each closing one but the last. */
  function Reconnects(replies: seq<Reply>): nat {
    if replies == [] then 0 else
      var n := |replies| - 1;
      Reconnects(replies[..n]) + (if Costs(replies[n]) then 1 else 0)
  }

  predicate Costs(r: Reply) {
    r.Missing? || (r.Body? && r.close && !r.last)
  }

  lemma ReconnectsNext(replies: seq<Reply>, i: nat)
    requires i < |replies|
    ensures Reconnects(replies[..i + 1]) == Reconnects(replies[..i]) + (if Costs(replies[i]) then 1 else 0)
  {
    assert replies[..i + 1][..i] == replies[..i];
  }

  /** From reply `i` and connect `c` on: the reply, or a reconnect and the reply behind a lost one. */
  predicate Fetched(replies: seq<Reply>, i: nat, connects: seq<bool>, c: nat, i': nat, c': nat, status: Status)
    requires i < |replies| && c <= |connects|
  {
    if !replies[i].Missing? then status.Finished? && i' == i + 1 && c' == c
    else if c == |connects| then status.Suspended? && i' == i + 1 && c' == c
    else if !connects[c] then status.Failed? && i' == i + 1 && c' == c + 1
    else if i + 1 == |replies| then status.Suspended? && i' == i + 1 && c' == c + 1
    else i' == i + 2 && c' == c + 1 && status == if replies[i + 1].Missing? then Failed else Finished
  }

  /** One number asked for, and once more after a reconnect if the reply was lost. */
  method Fetch(replies: seq<Reply>, i: nat, connects: seq<bool>, c: nat)
    returns (reply: Reply, i': nat, c': nat, status: Status)
    requires i < |replies| && c <= |connects|
    ensures Fetched(replies, i, connects, c, i', c', status)
    ensures status.Finished? ==> reply == replies[i' - 1] && !reply.Missing?
  {
    reply, i', c', status := replies[i], i + 1, c, Finished;
    if reply.Missing? {
      if c == |connects| {
        status := Suspended;
        return;
      }
      c' := c + 1;
      if !connects[c] {
        status := Failed;
        return;
      }
      if i' == |replies| {
        status := Suspended;
        return;
      }
      reply := replies[i'];
      i' := i' + 1;
      if reply.Missing? {
        status := Failed;
      }
    }
  }

  /** What the loop has seen while it goes on: nothing final, no double loss, and every connect good. */
  ghost predicate GoingOn(replies: seq<Reply>, i: nat, connects: seq<bool>, c: nat)
    requires i <= |replies| && c <= |connects|
  {
    && (forall k :: 0 <= k < i ==> replies[k].Missing? || (replies[k].Body? && !replies[k].last))
    && (i > 0 ==> !replies[i - 1].Missing?)
    && (forall k, l :: 0 <= k < i && l == k + 1 && l < i ==> !(replies[k].Missing? && replies[l].Missing?))
    && (forall k :: 0 <= k < c ==> connects[k])
    && c == 1 + Reconnects(replies[..i])
  }

  /** Where the loop may stop, and that it does stop there: at a final body, a cut, a double loss, a bad connect. */
  ghost predicate StopsWhereItMust(replies: seq<Reply>, i: nat, connects: seq<bool>, c: nat, next: nat, status: Status)
    requires i <= |replies| && c <= |connects|
  {
    && (forall k :: 0 <= k < i && replies[k].Body? && replies[k].last ==>
          k == i - 1 && (status.Finished? || next == U64_MAX + 1))
    && (forall k :: 0 <= k < i && replies[k].Cut? ==> k == i - 1 && status.Failed?)
    && (forall k, l :: 0 <= k < i && l == k + 1 && l < i && replies[k].Missing? && replies[l].Missing? ==>
          l == i - 1 && status.Failed?)
    && (forall k :: 0 <= k < c && !connects[k] ==> k == c - 1 && status.Failed?)
    && (if c == 0 then connects == [] && i == 0 else c <= 1 + Reconnects(replies[..i]) <= c + 1)
    && (status.Finished? || (status.Suspended? && c < |connects|) ==> c == 1 + Reconnects(replies[..i]))
  }

  lemma FetchStops(replies: seq<Reply>, i: nat, connects: seq<bool>, c: nat, i': nat, c': nat,
                   status: Status, next: nat)
    requires i < |replies| && c <= |connects| && GoingOn(replies, i, connects, c)
    requires Fetched(replies, i, connects, c, i', c', status) && !status.Finished?
    ensures StopsWhereItMust(replies, i', connects, c', next, status)
  {
    FetchCosts(replies, i);
    hide Reconnects, Answers;
  }

  /** With a reply in hand, the loop goes on or stops as the reply says. */
  lemma ReplyDecides(replies: seq<Reply>, i: nat, connects: seq<bool>, c: nat, i': nat, c': nat, next: nat)
    requires i < |replies| && c <= |connects| && GoingOn(replies, i, connects, c)
    requires Fetched(replies, i, connects, c, i', c', Finished)
    ensures var reply := replies[i' - 1];
            && (reply.Cut? || (reply.Body? && next == U64_MAX + 1) ==>
                  StopsWhereItMust(replies, i', connects, c', next, Failed))
            && (reply.Body? && reply.last ==> StopsWhereItMust(replies, i', connects, c', next, Finished))
            && (reply.Body? && !reply.last && !reply.close ==> GoingOn(replies, i', connects, c'))
  {
    FetchCosts(replies, i);
    hide Reconnects, Answers;
  }

  lemma CloseDecides(replies: seq<Reply>, i: nat, connects: seq<bool>, c: nat, i': nat, c': nat, next: nat)
    requires i < |replies| && c <= |connects| && GoingOn(replies, i, connects, c)
    requires Fetched(replies, i, connects, c, i', c', Finished)
    requires replies[i' - 1].Body? && !replies[i' - 1].last && replies[i' - 1].close
    ensures if c' == |connects| then StopsWhereItMust(replies, i', connects, c', next, Suspended)
            else if !connects[c'] then StopsWhereItMust(replies, i', connects, c' + 1, next, Failed)
            else GoingOn(replies, i', connects, c' + 1)
  {
    FetchCosts(replies, i);
    hide Reconnects, Answers;
  }

  lemma EndStops(replies: seq<Reply>, connects: seq<bool>, c: nat, next: nat)
    requires c <= |connects| && GoingOn(replies, |replies|, connects, c)
    ensures StopsWhereItMust(replies, |replies|, connects, c, next, Suspended)
  {
    hide Reconnects;
  }

  lemma StartStops(replies: seq<Reply>, connects: seq<bool>)
    ensures connects == [] ==> StopsWhereItMust(replies, 0, connects, 0, 0, Suspended)
    ensures connects != [] && !connects[0] ==> StopsWhereItMust(replies, 0, connects, 1, 0, Failed)
    ensures connects != [] && connects[0] ==> GoingOn(replies, 0, connects, 1)
    ensures AskedFor([], replies, 0) && Answers(replies[..0]) == 0
  {
    assert replies[..0] == [];
    NoAnswers();
  }

  /** The requests made are one for each reply, each for the number that the bodies so far leave next. */
  ghost predicate AskedFor(asked: seq<u64>, replies: seq<Reply>, i: nat)
    requires i <= |replies|
  {
    |asked| == i && forall k :: 0 <= k < i ==> asked[k] == Answers(replies[..k])
  }

  /**
    `download_loop` against a server that keeps `content(k)` for number k: whatever is lost or
    repeated, what reaches the local socket is content(0), content(1), ... each exactly once, as many
    as there were replies, and at most a part of the next one if the socket breaks. It finishes with
    the last body, and stops nowhere else than it must.
  */
  method DownloadLoop(content: u64 -> bytes, replies: seq<Reply>, connects: seq<bool>)
    returns (written: bytes, asked: seq<u64>, next: nat, i: nat, c: nat, status: Status)
    ensures i <= |replies| && c <= |connects|
    ensures next == Answers(replies[..i]) <= U64_MAX + 1
    ensures written == Bodies(content, next)
         || (i > 0 && replies[i - 1].Cut? && next <= U64_MAX
             && Bodies(content, next) <= written <= Bodies(content, next + 1))
    ensures AskedFor(asked, replies, i)
    ensures AskedUpTo(asked, next) || AskedUpTo(asked, next + 1)
    ensures StopsWhereItMust(replies, i, connects, c, next, status)
    ensures match status
            case Finished => AskedUpTo(asked, next) && i > 0 && replies[i - 1].Body? && replies[i - 1].last
            case Failed =>
              || (i > 0 && !replies[i - 1].Body?) || (c > 0 && !connects[c - 1]) || next == U64_MAX + 1
            case Suspended => i == |replies| || c == |connects|
  {
    EmptyAsked();
    StartStops(replies, connects);
    hide AskedUpTo, AskedFor, Answers, Reconnects, GoingOn, StopsWhereItMust;
    written, asked, next, i, c, status := [], [], 0, 0, 0, Suspended;
    if connects == [] {
      return;
    }
    c := 1;
    if !connects[0] {
      status := Failed;
      return;
    }
    while i < |replies|
      invariant i <= |replies| && c <= |connects| && next == Answers(replies[..i]) <= U64_MAX
      invariant written == Bodies(content, next)
      invariant AskedUpTo(asked, next) && AskedFor(asked, replies, i) && status.Suspended?
      invariant GoingOn(replies, i, connects, c)
      decreases |replies| - i
    {
      AskJoins(asked, next);
      AskForNext(asked, replies, i, next);
      FetchCosts(replies, i);
      var reply, i', c', fetched := Fetch(replies, i, connects, c);
      asked := if i' == i + 1 then asked + [next] else asked + [next] + [next];
      if !fetched.Finished? {
        FetchStops(replies, i, connects, c, i', c', fetched, next);
        i, c, status := i', c', fetched;
        return;
      }
      ReplyDecides(replies, i, connects, c, i', c', if reply.Cut? then next else next + 1);
      if reply.Body? && !reply.last && reply.close {
        CloseDecides(replies, i, connects, c, i', c', next + 1);
      }
      i, c := i', c';
      var body := content(next);
      if reply.Cut? {
        assert Bodies(content, next + 1) == written + body;
        written := written + body[..Min(reply.taken, |body|)];
        status := Failed;
        return;
      }
      written := written + body;
      next := next + 1;
      if next > U64_MAX {
        status := Failed;
        return;
      }
      if reply.last {
        status := Finished;
        return;
      }
      if reply.close {
        if c == |connects| {
          return;
        }
        c := c + 1;
        if !connects[c - 1] {
          status := Failed;
          return;
        }
      }
    }
    EndStops(replies, connects, c, next);
  }

  /** The counts over one or two more replies. */
  lemma FetchCosts(replies: seq<Reply>, i: nat)
    requires i < |replies|
    ensures Answers(replies[..i + 1]) == Answers(replies[..i]) + (if replies[i].Body? then 1 else 0)
    ensures Reconnects(replies[..i + 1]) == Reconnects(replies[..i]) + (if Costs(replies[i]) then 1 else 0)
    ensures i + 1 < |replies| ==>
              && Answers(replies[..i + 2]) == Answers(replies[..i + 1]) + (if replies[i + 1].Body? then 1 else 0)
              && Reconnects(replies[..i + 2])
              == Reconnects(replies[..i + 1]) + (if Costs(replies[i + 1]) then 1 else 0)
  {
    AnswersNext(replies, i);
    ReconnectsNext(replies, i);
    if i + 1 < |replies| {
      AnswersNext(replies, i + 1);
      ReconnectsNext(replies, i + 1);
    }
  }

  lemma AskForNext(asked: seq<u64>, replies: seq<Reply>, i: nat, next: u64)
    requires i < |replies| && AskedFor(asked, replies, i) && next == Answers(replies[..i])
    ensures AskedFor(asked + [next], replies, i + 1)
    ensures replies[i].Missing? && i + 1 < |replies| ==> AskedFor(asked + [next] + [next], replies, i + 2)
  {
    AnswersNext(replies, i);
    hide Answers;
  }

  lemma NoAnswers()
    ensures Answers([]) == 0 && Reconnects([]) == 0
  {
  }
}
