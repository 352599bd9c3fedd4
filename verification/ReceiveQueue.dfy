/** asyncio.Queue, reduced to what its callers observe between two awaits. */
module AsyncQueue {
  import opened Wrappers

  /** A non-positive `maxsize` means unbounded. */
  predicate Full<T>(q: seq<T>, maxsize: int) {
    0 < maxsize <= |q|
  }

  predicate Within<T>(q: seq<T>, maxsize: int) {
    maxsize <= 0 || |q| <= maxsize
  }

  /** `put_nowait`; None is QueueFull. */
  function PutNowait<T>(q: seq<T>, maxsize: int, x: T): Option<seq<T>> {
    if Full(q, maxsize) then None else Some(q + [x])
  }

  /** `put_nowait` with QueueFull suppressed. */
  function TryPut<T>(q: seq<T>, maxsize: int, x: T): seq<T> {
    match PutNowait(q, maxsize, x)
    case Some(r) => r
    case None => q
  }
}

/** The bounded receive queue of a data channel: drop-oldest arrivals, `recv`, and a
    close sentinel that every reader puts back. */
module ReceiveQueue {
  import opened Wrappers
  import opened AsyncQueue
  import opened Subsequences

  datatype Item<+M> = Message(m: M) | ClosedSentinel

  /** `_handle_message`. */
  function HandleMessage<M>(q: seq<Item<M>>, cap: int, m: M): (r: seq<Item<M>>)
    ensures Within(q, cap) ==> Within(r, cap)
    ensures Within(q, cap) ==> r == (if Full(q, cap) then q[1..] else q) + [Message(m)]
  {
    match PutNowait(q, cap, Message(m))
    case Some(r) => r
    case None =>
      var rest := if q == [] then q else q[1..];
      TryPut(rest, cap, Message(m))
  }

  datatype Answer<+M> =
    | Got(m: M)
    | Closed         // ConnectionClosedError
    | Waits          // parked in get()
    | PutWaits       // parked putting the sentinel back

  /** `recv`, up to its first suspension. */
  function Recv<M>(q: seq<Item<M>>, cap: int): (seq<Item<M>>, Answer<M>) {
    if q == [] then (q, Waits)
    else match q[0]
         case Message(m) => (q[1..], Got(m))
         case ClosedSentinel =>
           match PutNowait(q[1..], cap, ClosedSentinel)
           case Some(r) => (r, Closed)
           case None => (q[1..], PutWaits)
  }

  /** Putting the sentinel back never waits. */
  lemma ReinjectionNeverWaits<M>(q: seq<Item<M>>, cap: int)
    requires Within(q, cap)
    ensures Within(Recv(q, cap).0, cap)
    ensures !Recv(q, cap).1.PutWaits?
    ensures Recv(q, cap).1.Closed? ==> ClosedSentinel in Recv(q, cap).0
  {
    if q != [] && q[0].ClosedSentinel? {
      assert (q[1..] + [ClosedSentinel])[|q| - 1] == ClosedSentinel;
    }
  }

  // ---- Traces ------------------------------------------------------------

  datatype Op<M> = Arrive(m: M) | TakeNext | PushClosed

  /** A message that left the queue, and whether `recv` returned it or it was dropped. */
  datatype Departure<M> = Departure(m: M, delivered: bool)

  /** `left` lists the departures, oldest first. */
  datatype Rx<M> = Rx(queue: seq<Item<M>>, left: seq<Departure<M>>, answers: seq<Answer<M>>)

  function Apply<M>(rx: Rx<M>, cap: int, op: Op<M>): Rx<M> {
    match op
    case Arrive(m) =>
      Rx(HandleMessage(rx.queue, cap, m),
         if Full(rx.queue, cap) && rx.queue[0].Message? then rx.left + [Departure(rx.queue[0].m, false)] else rx.left,
         rx.answers)
    case TakeNext =>
      var (q, a) := Recv(rx.queue, cap);
      Rx(q, if a.Got? then rx.left + [Departure(a.m, true)] else rx.left, rx.answers + [a])
    case PushClosed => rx.(queue := TryPut(rx.queue, cap, ClosedSentinel))
  }

  function Run<M>(rx: Rx<M>, cap: int, ops: seq<Op<M>>): Rx<M>
    decreases |ops|
  {
    if ops == [] then rx else Run(Apply(rx, cap, ops[0]), cap, ops[1..])
  }

  function Arrivals<M>(ops: seq<Op<M>>): seq<M> {
    if ops == [] then []
    else (if ops[0].Arrive? then [ops[0].m] else []) + Arrivals(ops[1..])
  }

  function Messages<M>(q: seq<Item<M>>): seq<M> {
    if q == [] then [] else (if q[0].Message? then [q[0].m] else []) + Messages(q[1..])
  }

  function Delivered<M>(answers: seq<Answer<M>>): seq<M> {
    if answers == [] then []
    else
      var last := |answers| - 1;
      Delivered(answers[..last]) + (if answers[last].Got? then [answers[last].m] else [])
  }

  function All<M>(left: seq<Departure<M>>): (r: seq<M>)
    ensures |r| == |left|
  {
    if left == [] then [] else All(left[..|left| - 1]) + [left[|left| - 1].m]
  }

  /** The departures with flag `delivered`, in order. */
  function Pick<M>(left: seq<Departure<M>>, delivered: bool): seq<M> {
    if left == [] then []
    else
      var d := left[|left| - 1];
      Pick(left[..|left| - 1], delivered) + (if d.delivered == delivered then [d.m] else [])
  }

  lemma {:induction false} PickIsSubsequence<M>(left: seq<Departure<M>>, delivered: bool)
    ensures Subsequence(Pick(left, delivered), All(left))
  {
    if left == [] {
      assert Embeds([], Pick(left, delivered), All(left));
    } else {
      var front, d := left[..|left| - 1], left[|left| - 1];
      PickIsSubsequence(front, delivered);
      if d.delivered == delivered {
        SubsequenceTake(Pick(front, delivered), All(front), d.m);
      } else {
        SubsequenceSkip(Pick(front, delivered), All(front), d.m);
        assert Pick(left, delivered) == Pick(front, delivered);
      }
    }
  }

  lemma {:induction false} PickPartitions<M>(left: seq<Departure<M>>)
    ensures multiset(Pick(left, true)) + multiset(Pick(left, false)) == multiset(All(left))
  {
    if left != [] { PickPartitions(left[..|left| - 1]); }
  }

  lemma LeftAppend<M>(left: seq<Departure<M>>, d: Departure<M>)
    ensures All(left + [d]) == All(left) + [d.m]
    ensures forall b :: Pick(left + [d], b) == Pick(left, b) + (if d.delivered == b then [d.m] else [])
  {
    assert (left + [d])[..|left|] == left;
  }

  lemma {:induction false} MessagesAppend<M>(q: seq<Item<M>>, x: Item<M>)
    ensures Messages(q + [x]) == Messages(q) + (if x.Message? then [x.m] else [])
  {
    if q == [] {
      assert q + [x] == [x] && [x][1..] == [];
    } else {
      MessagesAppend(q[1..], x);
      assert (q + [x])[1..] == q[1..] + [x];
    }
  }

  // ---- Refinement --------------------------------------------------------

  /** What left the queue, followed by what is queued, is the arrival log; what `recv`
      returned are the delivered departures. */
  predicate Tracks<M(==)>(rx: Rx<M>, cap: int, log: seq<M>) {
    && Within(rx.queue, cap)
    && All(rx.left) + Messages(rx.queue) == log
    && Delivered(rx.answers) == Pick(rx.left, true)
  }

  lemma ArriveTracks<M>(rx: Rx<M>, cap: int, log: seq<M>, m: M)
    requires Tracks(rx, cap, log)
    ensures Tracks(Apply(rx, cap, Arrive(m)), cap, log + [m])
  {
    var q := rx.queue;
    if Full(q, cap) {
      MessagesAppend(q[1..], Message(m));
      if q[0].Message? { LeftAppend(rx.left, Departure(q[0].m, false)); }
    } else {
      MessagesAppend(q, Message(m));
    }
  }

  lemma TakeTracks<M>(rx: Rx<M>, cap: int, log: seq<M>)
    requires Tracks(rx, cap, log)
    ensures Tracks(Apply(rx, cap, TakeNext), cap, log)
  {
    var q := rx.queue;
    ReinjectionNeverWaits(q, cap);
    DeliveredAppend(rx.answers, Recv(q, cap).1);
    if q != [] {
      if q[0].Message? {
        var m := q[0].m;
        LeftAppend(rx.left, Departure(m, true));
        Assoc(All(rx.left), [m], Messages(q[1..]));
      } else {
        MessagesAppend(q[1..], ClosedSentinel);
      }
    }
  }

  lemma DeliveredAppend<M>(answers: seq<Answer<M>>, a: Answer<M>)
    ensures Delivered(answers + [a]) == Delivered(answers) + (if a.Got? then [a.m] else [])
  {
    assert (answers + [a])[..|answers|] == answers;
  }

  lemma Assoc<T>(a: seq<T>, b: seq<T>, c: seq<T>)
    ensures a + b + c == a + (b + c)
  {
  }

  lemma ApplyTracks<M>(rx: Rx<M>, cap: int, log: seq<M>, op: Op<M>)
    requires Tracks(rx, cap, log)
    ensures Tracks(Apply(rx, cap, op), cap, log + (if op.Arrive? then [op.m] else []))
  {
    assert log + [] == log;
    match op
    case Arrive(m) => ArriveTracks(rx, cap, log, m);
    case TakeNext => TakeTracks(rx, cap, log);
    case PushClosed => MessagesAppend(rx.queue, ClosedSentinel);
  }

  lemma {:induction false} RunTracks<M>(rx: Rx<M>, cap: int, log: seq<M>, ops: seq<Op<M>>)
    requires Tracks(rx, cap, log)
    ensures Tracks(Run(rx, cap, ops), cap, log + Arrivals(ops))
    decreases |ops|
  {
    if ops == [] {
      assert log + [] == log;
    } else {
      var first := if ops[0].Arrive? then [ops[0].m] else [];
      ApplyTracks(rx, cap, log, ops[0]);
      RunTracks(Apply(rx, cap, ops[0]), cap, log + first, ops[1..]);
      Assoc(log, first, Arrivals(ops[1..]));
    }
  }

  /** From any queue, for every sequence of arrivals, receives and closes, with the messages
      queued at the start counted among the arrivals: the queue holds exactly the latest
      arrivals; delivered messages are an order-preserving subsequence of the arrivals; and
      arrivals = delivered + dropped + still queued. */
  lemma ReceiveRefinesLog<M>(start: seq<Item<M>>, cap: int, ops: seq<Op<M>>) returns (dropped: seq<M>)
    requires Within(start, cap)
    ensures var r := Run(Rx(start, [], []), cap, ops);
            var log := Messages(start) + Arrivals(ops);
            && Within(r.queue, cap)
            && |Messages(r.queue)| <= |log| && Messages(r.queue) == log[|log| - |Messages(r.queue)|..]
            && Subsequence(Delivered(r.answers), log)
            && dropped == Pick(r.left, false)
            && multiset(log) == multiset(Delivered(r.answers)) + multiset(dropped) + multiset(Messages(r.queue))
  {
    var s := Rx(start, [], []);
    assert All(s.left) + Messages(start) == Messages(start);
    RunTracks(s, cap, Messages(start), ops);
    var r := Run(s, cap, ops);
    dropped := Pick(r.left, false);
    PickPartitions(r.left);
    PickIsSubsequence(r.left, true);
    SubsequenceWiden(Delivered(r.answers), All(r.left), Messages(r.queue));
  }

  // ---- When nothing is lost ----------------------------------------------

  /** No message ever arrives at a full queue. */
  predicate BacklogFits<M>(rx: Rx<M>, cap: int, ops: seq<Op<M>>)
    decreases |ops|
  {
    ops == [] || ((ops[0].Arrive? ==> !Full(rx.queue, cap)) && BacklogFits(Apply(rx, cap, ops[0]), cap, ops[1..]))
  }

  predicate NothingDropped<M>(rx: Rx<M>) {
    forall i :: 0 <= i < |rx.left| ==> rx.left[i].delivered
  }

  lemma {:induction false} DropsAreRemembered<M>(rx: Rx<M>, cap: int, ops: seq<Op<M>>)
    ensures rx.left <= Run(rx, cap, ops).left
    decreases |ops|
  {
    if ops != [] { DropsAreRemembered(Apply(rx, cap, ops[0]), cap, ops[1..]); }
  }

  /** On an open channel something is dropped exactly when a message arrives while
      `cap` messages are waiting. */
  lemma {:induction false} NothingLostIff<M>(rx: Rx<M>, cap: int, ops: seq<Op<M>>)
    requires Within(rx.queue, cap) && PushClosed !in ops
    requires NothingDropped(rx) && ClosedSentinel !in rx.queue
    ensures NothingDropped(Run(rx, cap, ops)) <==> BacklogFits(rx, cap, ops)
    decreases |ops|
  {
    if ops != [] {
      var next := Apply(rx, cap, ops[0]);
      ReinjectionNeverWaits(rx.queue, cap);
      if ops[0].Arrive? && Full(rx.queue, cap) {
        assert rx.queue[0] in rx.queue;
        assert !next.left[|rx.left|].delivered;
        DropsAreRemembered(next, cap, ops[1..]);
        assert next.left[|rx.left|] == Run(rx, cap, ops).left[|rx.left|];
      } else {
        assert ops[0] in ops;
        NothingLostIff(next, cap, ops[1..]);
      }
    }
  }
}
