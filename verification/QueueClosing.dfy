/** What becomes of the close sentinel in a data channel's receive queue. */
module QueueClosing {
  import opened AsyncQueue
  import opened ReceiveQueue

  // ---- Closing -----------------------------------------------------------

  function Sentinels<M>(k: nat): seq<Item<M>> {
    seq(k, i => ClosedSentinel)
  }

  function Wrap<M>(ms: seq<M>): (q: seq<Item<M>>) {
    seq(|ms|, i requires 0 <= i < |ms| => Message(ms[i]))
  }

  function TakeCount<M>(ops: seq<Op<M>>): nat {
    if ops == [] then 0 else (if ops[0].TakeNext? then 1 else 0) + TakeCount(ops[1..])
  }

  /** The `i`-th answer of a reader of a closed channel with `ms` still queued. */
  function StickyAnswer<M>(ms: seq<M>, i: nat): Answer<M> {
    if i < |ms| then Got(ms[i]) else Closed
  }

  function DropFirst<T>(s: seq<T>): seq<T> {
    if s == [] then [] else s[1..]
  }

  /** Messages, then `k` sentinels. */
  function Closing<M>(ms: seq<M>, k: nat): (q: seq<Item<M>>)
    ensures |q| == |ms| + k
  {
    Wrap(ms) + Sentinels(k)
  }

  lemma TakeFromClosing<M>(q: seq<Item<M>>, cap: int, ms: seq<M>, k: nat)
    requires q == Closing(ms, k) && k > 0 && Within(q, cap)
    ensures Recv(q, cap) == (Closing(DropFirst(ms), k), StickyAnswer(ms, 0))
  {
    if ms == [] {
      assert q[0] == ClosedSentinel;
      assert q[1..] + [ClosedSentinel] == Closing(ms, k);
    } else {
      assert q[0] == Message(ms[0]);
      assert q[1..] == Closing(ms[1..], k);
    }
  }

  lemma PushOntoClosing<M>(ms: seq<M>, k: nat, cap: int)
    ensures TryPut(Closing(ms, k), cap, ClosedSentinel) == Closing(ms, if Full(Closing(ms, k), cap) then k else k + 1)
  {
    assert Closing(ms, k) + [ClosedSentinel] == Closing(ms, k + 1);
  }

  /** `r` extends `earlier` by the first `n` sticky answers. */
  ghost predicate Answered<M>(r: seq<Answer<M>>, earlier: seq<Answer<M>>, ms: seq<M>, n: nat) {
    && |r| == |earlier| + n && earlier <= r
    && forall i :: 0 <= i < n ==> r[|earlier| + i] == StickyAnswer(ms, i)
  }

  lemma AnsweredOneMore<M>(r: seq<Answer<M>>, earlier: seq<Answer<M>>, ms: seq<M>, n: nat)
    requires Answered(r, earlier + [StickyAnswer(ms, 0)], DropFirst(ms), n)
    ensures Answered(r, earlier, ms, n + 1)
  {
    var next := earlier + [StickyAnswer(ms, 0)];
    forall i | 0 <= i < n + 1 ensures r[|earlier| + i] == StickyAnswer(ms, i) {
      if i == 0 {
        assert r[|earlier|] == next[|earlier|];
      } else {
        assert r[|next| + (i - 1)] == StickyAnswer(DropFirst(ms), i - 1);
      }
    }
  }

  /** Once a sentinel sits behind the remaining messages, every `recv` answers at once:
      first those messages in order, then `ConnectionClosedError` forever, however many
      further close handlers run. */
  lemma {:induction false} CloseSticks<M>(rx: Rx<M>, cap: int, ms: seq<M>, k: nat, ops: seq<Op<M>>)
    requires rx.queue == Closing(ms, k) && k > 0 && Within(rx.queue, cap)
    requires Arrivals(ops) == []
    ensures Answered(Run(rx, cap, ops).answers, rx.answers, ms, TakeCount(ops))
    decreases |ops|
  {
    if ops != [] {
      var next := Apply(rx, cap, ops[0]);
      var rest := ops[1..];
      if ops[0].TakeNext? {
        TakeFromClosing(rx.queue, cap, ms, k);
        CloseSticks(next, cap, DropFirst(ms), k, rest);
        AnsweredOneMore(Run(next, cap, rest).answers, rx.answers, ms, TakeCount(rest));
      } else {
        PushOntoClosing(ms, k, cap);
        CloseSticks(next, cap, ms, if Full(rx.queue, cap) then k else k + 1, rest);
      }
    }
  }

  /** `n` receives in a row. */
  function Takes<M>(n: nat): seq<Op<M>> {
    seq(n, i => TakeNext)
  }

  lemma {:induction false} DrainAll<M>(rx: Rx<M>, cap: int, ms: seq<M>)
    requires rx.queue == Wrap(ms)
    ensures Run(rx, cap, Takes(|ms|)).queue == []
    decreases |ms|
  {
    if ms != [] {
      var next := Apply(rx, cap, TakeNext);
      assert rx.queue[0] == Message(ms[0]) && next.queue == Wrap(ms[1..]);
      assert Takes<M>(|ms|)[1..] == Takes<M>(|ms| - 1);
      DrainAll(next, cap, ms[1..]);
    }
  }

  // ---- Whether a close is seen -------------------------------------------

  /** A queue reduced to counts: the messages before each sentinel, then those behind the
      last one. */
  function Gaps<M>(q: seq<Item<M>>): (gaps: seq<nat>)
    ensures gaps != []
  {
    if q == [] then [0]
    else
      var rest := Gaps(q[1..]);
      if q[0].Message? then Bump(rest) else [0] + rest
  }

  /** One more message in front. */
  function Bump(gaps: seq<nat>): (r: seq<nat>)
    requires gaps != []
    ensures |r| == |gaps|
  {
    [gaps[0] + 1] + gaps[1..]
  }

  function Length(gaps: seq<nat>): nat {
    if gaps == [] then 0
    else if |gaps| == 1 then gaps[0]
    else gaps[0] + 1 + Length(gaps[1..])
  }

  function DropHead(gaps: seq<nat>): (r: seq<nat>)
    ensures gaps != [] ==> r != []
  {
    if gaps == [] then []
    else if gaps[0] > 0 then [gaps[0] - 1] + gaps[1..]
    else if |gaps| > 1 then gaps[1..]
    else gaps
  }

  function AddMessage(gaps: seq<nat>): (r: seq<nat>)
    ensures gaps != [] ==> r != []
  {
    if gaps == [] then [] else gaps[|gaps| - 1 := gaps[|gaps| - 1] + 1]
  }

  predicate GapsFull(gaps: seq<nat>, cap: int) {
    0 < cap <= Length(gaps)
  }

  predicate SentinelFirst(gaps: seq<nat>) {
    |gaps| > 1 && gaps[0] == 0
  }

  /** What one operation does to the counts; the messages themselves do not matter. */
  function GapsAfter<M>(gaps: seq<nat>, cap: int, op: Op<M>): (r: seq<nat>)
    ensures gaps != [] ==> r != []
  {
    match op
    case Arrive(_) => AddMessage(if GapsFull(gaps, cap) then DropHead(gaps) else gaps)
    case TakeNext => if SentinelFirst(gaps) then gaps[1..] + [0] else DropHead(gaps)
    case PushClosed => if GapsFull(gaps, cap) then gaps else gaps + [0]
  }

  lemma {:induction false} GapsLength<M>(q: seq<Item<M>>)
    ensures Length(Gaps(q)) == |q|
    ensures |Gaps(q)| > 1 <==> ClosedSentinel in q
  {
    if q != [] {
      GapsLength(q[1..]);
      assert q == [q[0]] + q[1..];
      if q[0].Message? {
        assert Bump(Gaps(q[1..]))[1..] == Gaps(q[1..])[1..];
      } else {
        assert ([0] + Gaps(q[1..]))[1..] == Gaps(q[1..]);
      }
    }
  }

  lemma {:induction false} GapsAppend<M>(q: seq<Item<M>>, x: Item<M>)
    ensures Gaps(q + [x]) == if x.Message? then AddMessage(Gaps(q)) else Gaps(q) + [0]
  {
    if q == [] {
      assert q + [x] == [x] && [x][1..] == [];
    } else {
      GapsAppend(q[1..], x);
      assert (q + [x])[1..] == q[1..] + [x] && (q + [x])[0] == q[0];
      BackAndFront(Gaps(q[1..]));
    }
  }

  /** Changes at the back commute with changes in front. */
  lemma BackAndFront(gaps: seq<nat>)
    requires gaps != []
    ensures AddMessage(Bump(gaps)) == Bump(AddMessage(gaps)) && Bump(gaps) + [0] == Bump(gaps + [0])
    ensures AddMessage([0] + gaps) == [0] + AddMessage(gaps) && ([0] + gaps) + [0] == [0] + (gaps + [0])
  {
  }

  lemma GapsTail<M>(q: seq<Item<M>>)
    requires q != []
    ensures Gaps(q[1..]) == DropHead(Gaps(q))
    ensures SentinelFirst(Gaps(q)) <==> q[0].ClosedSentinel?
  {
    var rest := Gaps(q[1..]);
    assert DropHead(Bump(rest)) == rest && DropHead([0] + rest) == rest;
  }

  lemma GapsTrack<M>(rx: Rx<M>, cap: int, op: Op<M>)
    requires Within(rx.queue, cap)
    ensures Within(Apply(rx, cap, op).queue, cap)
    ensures Gaps(Apply(rx, cap, op).queue) == GapsAfter(Gaps(rx.queue), cap, op)
  {
    var q := rx.queue;
    GapsLength(q);
    ReinjectionNeverWaits(q, cap);
    if q != [] {
      GapsTail(q);
      GapsAppend(q[1..], if op.Arrive? then Message(op.m) else ClosedSentinel);
    }
    GapsAppend(q, if op.Arrive? then Message(op.m) else ClosedSentinel);
  }

  /** An arrival that meets a full queue whose only sentinel stands first drops it. */
  predicate PushesCloseOut<M>(gaps: seq<nat>, cap: int, op: Op<M>) {
    op.Arrive? && GapsFull(gaps, cap) && SentinelFirst(gaps) && |gaps| == 2
  }

  predicate NeverPushedOut<M>(gaps: seq<nat>, cap: int, ops: seq<Op<M>>)
    decreases |ops|
  {
    ops == [] || (!PushesCloseOut(gaps, cap, ops[0]) && NeverPushedOut(GapsAfter(gaps, cap, ops[0]), cap, ops[1..]))
  }

  ghost predicate ClosedThroughout<M>(rx: Rx<M>, cap: int, ops: seq<Op<M>>)
    decreases |ops|
  {
    ClosedSentinel in rx.queue && (ops == [] || ClosedThroughout(Apply(rx, cap, ops[0]), cap, ops[1..]))
  }

  /** A queued close stays queued, whatever arrivals, receives and further closes follow,
      exactly as long as no arrival meets a full queue with the only sentinel in front; and
      unless another close is pushed, what is lost stays lost. */
  lemma {:induction false} CloseSurvivesIff<M>(rx: Rx<M>, cap: int, ops: seq<Op<M>>)
    requires Within(rx.queue, cap) && ClosedSentinel in rx.queue
    ensures ClosedThroughout(rx, cap, ops) <==> NeverPushedOut(Gaps(rx.queue), cap, ops)
    ensures PushClosed !in ops ==>
              (ClosedSentinel in Run(rx, cap, ops).queue <==> NeverPushedOut(Gaps(rx.queue), cap, ops))
    decreases |ops|
  {
    if ops != [] {
      var next := Apply(rx, cap, ops[0]);
      GapsTrack(rx, cap, ops[0]);
      GapsLength(rx.queue);
      GapsLength(next.queue);
      KeepsASentinel(Gaps(rx.queue), cap, ops[0]);
      if ClosedSentinel in next.queue {
        CloseSurvivesIff(next, cap, ops[1..]);
      } else if PushClosed !in ops {
        LostStaysLost(next, cap, ops[1..]);
      }
    }
  }

  lemma KeepsASentinel<M>(gaps: seq<nat>, cap: int, op: Op<M>)
    requires |gaps| > 1
    ensures |GapsAfter(gaps, cap, op)| > 1 <==> !PushesCloseOut(gaps, cap, op)
  {
  }

  lemma {:induction false} LostStaysLost<M>(rx: Rx<M>, cap: int, ops: seq<Op<M>>)
    requires ClosedSentinel !in rx.queue && PushClosed !in ops
    ensures ClosedSentinel !in Run(rx, cap, ops).queue
    ensures Closed in Run(rx, cap, ops).answers <==> Closed in rx.answers
    decreases |ops|
  {
    if ops != [] {
      assert ops[0] in ops;
      LostStaysLost(Apply(rx, cap, ops[0]), cap, ops[1..]);
    }
  }

  /** Some `recv` finds a sentinel in front. */
  predicate Reached<M>(gaps: seq<nat>, cap: int, ops: seq<Op<M>>)
    decreases |ops|
  {
    ops != []
    && ((ops[0].TakeNext? && SentinelFirst(gaps)) || Reached(GapsAfter(gaps, cap, ops[0]), cap, ops[1..]))
  }

  /** `recv` raises ConnectionClosedError exactly when the counts bring a sentinel in front
      of a reader, for every trace. */
  lemma {:induction false} ClosedIsAnsweredIff<M>(rx: Rx<M>, cap: int, ops: seq<Op<M>>)
    requires Within(rx.queue, cap)
    ensures Closed in Run(rx, cap, ops).answers <==> Closed in rx.answers || Reached(Gaps(rx.queue), cap, ops)
    decreases |ops|
  {
    if ops != [] {
      var next := Apply(rx, cap, ops[0]);
      GapsTrack(rx, cap, ops[0]);
      ClosedIsAnsweredIff(next, cap, ops[1..]);
      AnswersClosed(rx, cap, ops[0]);
    }
  }

  lemma AnswersClosed<M>(rx: Rx<M>, cap: int, op: Op<M>)
    requires Within(rx.queue, cap)
    ensures Closed in Apply(rx, cap, op).answers <==>
              Closed in rx.answers || (op.TakeNext? && SentinelFirst(Gaps(rx.queue)))
  {
    ReinjectionNeverWaits(rx.queue, cap);
    if rx.queue != [] { GapsTail(rx.queue); }
  }

  lemma {:induction false} GapsOfMessages<M>(ms: seq<M>)
    ensures Gaps(Wrap(ms)) == [|ms|]
  {
    if ms != [] {
      GapsOfMessages(ms[1..]);
      assert Wrap(ms)[1..] == Wrap(ms[1..]);
    }
  }

  /** The close push is suppressed on a full queue.  Exactly then is the close lost: no
      later `recv` ever raises for it, and after the waiting messages are read the next one
      parks.  With room, the counts (messages ahead, messages behind) tell which `recv`
      raises, whatever arrives meanwhile. */
  lemma CloseSeenIffRoom<M>(ms: seq<M>, cap: int, ops: seq<Op<M>>)
    requires Within(Wrap(ms), cap) && PushClosed !in ops
    ensures var closed := Rx(TryPut(Wrap(ms), cap, ClosedSentinel), [], []);
            var next := Recv(Run(closed, cap, Takes(|ms|)).queue, cap).1;
            && (next == Closed <==> !Full(Wrap(ms), cap))
            && (next == Waits <==> Full(Wrap(ms), cap))
            && (Closed in Run(closed, cap, ops).answers <==>
                  !Full(Wrap(ms), cap) && Reached([|ms|, 0], cap, ops))
  {
    var closed := Rx(TryPut(Wrap(ms), cap, ClosedSentinel), [], []);
    CloseSeenAfterTakes(ms, cap);
    if Full(Wrap(ms), cap) {
      LostStaysLost(closed, cap, ops);
    } else {
      GapsOnceClosed(ms);
      ClosedIsAnsweredIff(closed, cap, ops);
    }
  }

  lemma GapsOnceClosed<M>(ms: seq<M>)
    ensures Gaps(Wrap(ms) + [ClosedSentinel]) == [|ms|, 0]
  {
    GapsOfMessages(ms);
    GapsAppend(Wrap(ms), ClosedSentinel);
    assert [|ms|] + [0] == [|ms|, 0];
  }

  lemma CloseSeenAfterTakes<M>(ms: seq<M>, cap: int)
    requires Within(Wrap(ms), cap)
    ensures var closed := Rx(TryPut(Wrap(ms), cap, ClosedSentinel), [], []);
            var next := Recv(Run(closed, cap, Takes(|ms|)).queue, cap).1;
            && (next == Closed <==> !Full(Wrap(ms), cap))
            && (next == Waits <==> Full(Wrap(ms), cap))
  {
    var closed := Rx(TryPut(Wrap(ms), cap, ClosedSentinel), [], []);
    if Full(Wrap(ms), cap) {
      DrainAll(closed, cap, ms);
    } else {
      PushOntoClosing(ms, 0, cap);
      assert Closing(ms, 0) == Wrap(ms);
      TakesToSentinel(closed, cap, ms);
    }
  }

  lemma {:induction false} TakesToSentinel<M>(rx: Rx<M>, cap: int, ms: seq<M>)
    requires rx.queue == Closing(ms, 1) && Within(rx.queue, cap)
    ensures Run(rx, cap, Takes(|ms|)).queue == Sentinels(1)
    decreases |ms|
  {
    if ms != [] {
      TakeFromClosing(rx.queue, cap, ms, 1);
      assert Takes<M>(|ms|)[1..] == Takes<M>(|ms| - 1);
      TakesToSentinel(Apply(rx, cap, TakeNext), cap, ms[1..]);
    } else {
      assert rx.queue == Sentinels(1);
    }
  }

  function HandleAll<M>(q: seq<Item<M>>, cap: int, ms: seq<M>): seq<Item<M>>
    decreases |ms|
  {
    if ms == [] then q else HandleAll(HandleMessage(q, cap, ms[0]), cap, ms[1..])
  }

  /** The last `cap` items; a non-positive `cap` keeps everything. */
  function Latest<T>(s: seq<T>, cap: int): seq<T> {
    if Within(s, cap) then s else s[|s| - cap..]
  }

  lemma ArrivalKeepsLatest<M>(q: seq<Item<M>>, cap: int, m: M)
    requires Within(q, cap)
    ensures HandleMessage(q, cap, m) == Latest(q + [Message(m)], cap)
    ensures Within(HandleMessage(q, cap, m), cap)
  {
  }

  /** A burst of arrivals leaves the last `cap` items, whatever they are. */
  lemma {:induction false} BurstKeepsLatest<M>(q: seq<Item<M>>, cap: int, ms: seq<M>)
    requires Within(q, cap)
    ensures HandleAll(q, cap, ms) == Latest(q + Wrap(ms), cap)
    decreases |ms|
  {
    if ms == [] {
      assert q + Wrap(ms) == q;
    } else {
      var x := [Message(ms[0])];
      ArrivalKeepsLatest(q, cap, ms[0]);
      BurstKeepsLatest(HandleMessage(q, cap, ms[0]), cap, ms[1..]);
      LatestOfSuffix(q + x, Wrap(ms[1..]), cap);
      assert q + x + Wrap(ms[1..]) == q + Wrap(ms) by {
        assert Wrap(ms) == x + Wrap(ms[1..]);
        Assoc(q, x, Wrap(ms[1..]));
      }
    }
  }

  lemma LatestOfSuffix<T>(a: seq<T>, b: seq<T>, cap: int)
    ensures Latest(Latest(a, cap) + b, cap) == Latest(a + b, cap)
  {
  }

  /** A burst handled after the close, with no `recv` in between: in a bounded queue the
      sentinel survives exactly fewer than `cap` messages. */
  lemma BurstPushesCloseOutIff<M>(before: seq<M>, cap: int, later: seq<M>)
    requires Within(Wrap(before) + [ClosedSentinel], cap)
    ensures ClosedSentinel in HandleAll(Wrap(before) + [ClosedSentinel], cap, later) <==> cap <= 0 || |later| < cap
  {
    var q := Wrap(before) + [ClosedSentinel];
    var all := q + Wrap(later);
    BurstKeepsLatest(q, cap, later);
    assert all[|before|] == ClosedSentinel;
    assert forall i :: 0 <= i < |all| && all[i] == ClosedSentinel ==> i == |before|;
    if cap > 0 && |later| < cap < |all| {
      assert Latest(all, cap)[|before| - (|all| - cap)] == ClosedSentinel;
    }
  }
}
