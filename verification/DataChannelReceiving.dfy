/** The receive queue inside the whole data channel. */
module DataChannelReceiving {
  import opened Wrappers
  import opened AsyncQueue
  import opened ReceiveQueue
  import opened DataChannelModel
  import Subsequences

  // ---- The receive queue inside the system -------------------------------

  function HandledMessages(ran: seq<Ran>): seq<Payload> {
    if ran == [] then []
    else
      var last := |ran| - 1;
      HandledMessages(ran[..last])
      + (if RanMessage(ran[last]) then [ran[last].h.payload] else [])
  }

  lemma {:induction false} RunAppend(rx: Rx<Payload>, cap: int, ops: seq<Op<Payload>>, op: Op<Payload>)
    ensures ReceiveQueue.Run(rx, cap, ops + [op]) == ReceiveQueue.Apply(ReceiveQueue.Run(rx, cap, ops), cap, op)
    decreases |ops|
  {
    if ops == [] {
      assert ops + [op] == [op] && [op][1..] == [];
    } else {
      RunAppend(ReceiveQueue.Apply(rx, cap, ops[0]), cap, ops[1..], op);
      assert (ops + [op])[1..] == ops[1..] + [op];
    }
  }

  lemma {:induction false} ArrivalsAppend(ops: seq<Op<Payload>>, op: Op<Payload>)
    ensures Arrivals(ops + [op]) == Arrivals(ops) + (if op.Arrive? then [op.m] else [])
  {
    if ops == [] {
      assert ops + [op] == [op] && [op][1..] == [];
    } else {
      ArrivalsAppend(ops[1..], op);
      assert (ops + [op])[1..] == ops[1..] + [op];
    }
  }

  predicate QueueTracked(s: System, queue0: seq<Item<Payload>>) {
    var rx := ReceiveQueue.Run(Rx(queue0, [], []), s.f.cap, s.log.queueOps);
    && rx.queue == s.f.queue && rx.answers == s.log.answers
    && Arrivals(s.log.queueOps) == HandledMessages(s.log.ran)
  }

  predicate RanMessage(r: Ran) { r.FromLoop? && r.h.OnMessage? }

  /** How one step may touch the queue, its readers and the handled messages: at most one
      queue operation `op` and at most one handler `r`. */
  predicate QueueStep(s: System, s': System, op: Option<Op<Payload>>, r: Option<Ran>) {
    && s'.f.cap == s.f.cap
    && s'.log.ran == s.log.ran + (if r.Some? then [r.value] else [])
    && s'.log.queueOps == s.log.queueOps + (if op.Some? then [op.value] else [])
    && (r.Some? && RanMessage(r.value) <==> op.Some? && op.value.Arrive?)
    && (op.Some? && op.value.Arrive? ==> r.value == FromLoop(OnMessage(op.value.m)))
    && if op.None? then s'.f.queue == s.f.queue && s'.log.answers == s.log.answers
       else
         var rx := ReceiveQueue.Apply(Rx(s.f.queue, [], s.log.answers), s.f.cap, op.value);
         s'.f.queue == rx.queue && s'.log.answers == rx.answers
  }

  lemma NativeIsQueueStep(s: System, a: Action)
    ensures QueueStep(s, NativeStep(s, a), None, None)
  {
  }

  lemma LoopIsQueueStep(s: System, a: Action) returns (op: Option<Op<Payload>>, r: Option<Ran>)
    requires s.segment.Between?
    ensures QueueStep(s, LoopStep(s, a), op, r)
  {
    op, r := None, None;
    if a.RunReady? && s.ready != [] {
      r := Some(FromLoop(s.ready[0]));
      op := QueueOpOf(s.ready[0]);
    } else if a.RecvOnce? {
      op := Some(TakeNext);
    } else if a.RequestClose? && !s.f.closeRequested {
      op := Some(PushClosed);
    } else if IsCancel(a) {
      r := CancelIsQueueStep(s, a);
    }
  }

  lemma CancelIsQueueStep(s: System, a: Action) returns (r: Option<Ran>)
    requires s.segment.Between? && IsCancel(a)
    ensures QueueStep(s, LoopStep(s, a), None, r)
  {
    CancelFrame(s, a);
    var ran := LoopStep(s, a).log.ran;
    r := if ran == s.log.ran then None else Some(ran[|s.log.ran|]);
    assert s.log.queueOps + [] == s.log.queueOps && (ran == s.log.ran ==> s.log.ran + [] == ran);
  }

  lemma SegmentIsQueueStep(s: System, a: Action) returns (op: Option<Op<Payload>>, r: Option<Ran>)
    ensures QueueStep(s, SegmentStep(s, a), op, r)
  {
    op, r := None, None;
    if s.segment.AtFinish? && a.FinishDestroy? {
      op, r := Some(PushClosed), Some(FromDestroy(s.segment.byTeardown));
    }
  }

  lemma StepIsQueueStep(s: System, a: Action) returns (op: Option<Op<Payload>>, r: Option<Ran>)
    ensures QueueStep(s, Step(s, a), op, r)
  {
    op, r := None, None;
    if IsNative(a) {
      NativeIsQueueStep(s, a);
    } else if s.segment.Between? {
      op, r := LoopIsQueueStep(s, a);
    } else {
      op, r := SegmentIsQueueStep(s, a);
    }
  }

  lemma HandledAppend(ran: seq<Ran>, r: Ran)
    ensures HandledMessages(ran + [r]) == HandledMessages(ran) + (if RanMessage(r) then [r.h.payload] else [])
  {
    assert (ran + [r])[..|ran|] == ran;
  }

  lemma QueueStepTracked(s: System, s': System, op: Option<Op<Payload>>, r: Option<Ran>, queue0: seq<Item<Payload>>)
    requires QueueStep(s, s', op, r) && QueueTracked(s, queue0)
    ensures QueueTracked(s', queue0)
  {
    if r.Some? {
      HandledAppend(s.log.ran, r.value);
    } else {
      assert s'.log.ran == s.log.ran;
    }
    if op.Some? {
      RunAppend(Rx(queue0, [], []), s.f.cap, s.log.queueOps, op.value);
      ArrivalsAppend(s.log.queueOps, op.value);
    } else {
      assert s'.log.queueOps == s.log.queueOps;
    }
  }

  lemma RunQueueTracked(s: System, actions: seq<Action>, queue0: seq<Item<Payload>>)
    requires QueueTracked(s, queue0)
    ensures var r := DataChannelModel.Run(s, actions);
            QueueTracked(r, queue0) && r.f.cap == s.f.cap
  {
    var cap := s.f.cap;
    var inv := (t: System) => QueueTracked(t, queue0) && t.f.cap == cap;
    forall t, a | inv(t) ensures inv(Step(t, a)) {
      var op, r := StepIsQueueStep(t, a);
      QueueStepTracked(t, Step(t, a), op, r, queue0);
    }
    RunInvariant(s, actions, inv);
  }

  ghost predicate ReceivedInOrder(r: System) {
    var handled, queued := HandledMessages(r.log.ran), Messages(r.f.queue);
    && Subsequences.Subsequence(Delivered(r.log.answers), handled)
    && |queued| <= |handled| && queued == handled[|handled| - |queued|..]
  }

  lemma TrackedIsInOrder(r: System, start: seq<Item<Payload>>)
    requires QueueTracked(r, start) && Within(start, r.f.cap) && Messages(start) == []
    ensures ReceivedInOrder(r)
  {
    var dropped := ReceiveRefinesLog(start, r.f.cap, r.log.queueOps);
    assert Messages(start) + Arrivals(r.log.queueOps) == HandledMessages(r.log.ran);
  }

  lemma InitTracked(s: System)
    requires s.log == History([], [], [])
    ensures QueueTracked(s, s.f.queue)
  {
  }

  /** In every run of the whole channel, closed from the start or not, the queue behaves as
      ReceiveQueue says: it holds the latest handled messages, and `recv` returned an
      in-order subsequence of them. */
  lemma ChannelReceivesInOrder(cap: int, threshold: nat, isOpen: bool, isClosed: bool, ready: seq<Handler>,
                               actions: seq<Action>)
    requires OnClosed in ready ==> isClosed
    ensures ReceivedInOrder(DataChannelModel.Run(Init(cap, threshold, isOpen, isClosed, ready), actions))
  {
    var s := Init(cap, threshold, isOpen, isClosed, ready);
    InitTracked(s);
    RunQueueTracked(s, actions, s.f.queue);
    TrackedIsInOrder(DataChannelModel.Run(s, actions), s.f.queue);
  }

  // ---- Before anything arrives -------------------------------------------

  lemma {:induction false} NothingArrives(queue: seq<Item<Payload>>, cap: int, ops: seq<Op<Payload>>,
                                          rx: Rx<Payload>)
    requires forall i :: 0 <= i < |ops| ==> ops[i].TakeNext?
    requires rx.queue == queue && (queue == [] || (queue == [ClosedSentinel] && Within(queue, cap)))
    ensures var r := ReceiveQueue.Run(rx, cap, ops);
            && |r.answers| == |rx.answers| + |ops| && rx.answers <= r.answers
            && forall i :: |rx.answers| <= i < |r.answers| ==> r.answers[i] == if queue == [] then Waits else Closed
    decreases |ops|
  {
    if ops != [] {
      var next := ReceiveQueue.Apply(rx, cap, ops[0]);
      assert next.queue == queue && next.answers == rx.answers + [if queue == [] then Waits else Closed];
      NothingArrives(queue, cap, ops[1..], next);
    }
  }

  /** As long as neither a message nor a close has reached the queue, `recv` parks on a channel
      that was not closed when it was wrapped, and raises on one that was. */
  lemma FirstReceives(cap: int, threshold: nat, isOpen: bool, isClosed: bool, ready: seq<Handler>,
                      actions: seq<Action>)
    requires OnClosed in ready ==> isClosed
    requires var r := DataChannelModel.Run(Init(cap, threshold, isOpen, isClosed, ready), actions);
             forall i :: 0 <= i < |r.log.queueOps| ==> r.log.queueOps[i].TakeNext?
    ensures var r := DataChannelModel.Run(Init(cap, threshold, isOpen, isClosed, ready), actions);
            && |r.log.answers| == |r.log.queueOps|
            && forall i :: 0 <= i < |r.log.answers| ==> r.log.answers[i] == if isClosed then Closed else Waits
  {
    var s := Init(cap, threshold, isOpen, isClosed, ready);
    var r := DataChannelModel.Run(s, actions);
    InitTracked(s);
    RunQueueTracked(s, actions, s.f.queue);
    NothingArrives(s.f.queue, cap, r.log.queueOps, Rx(s.f.queue, [], []));
  }

  // ---- Nothing native is lost on the way to the loop ---------------------

  /** What a native event puts on the loop while the handle is live. */
  function Fires(s: System, a: Action): seq<Handler> {
    if !s.native.live then []
    else
      match a
      case NativeOpen => [OnOpen]
      case NativeClose => [OnClosed]
      case NativeError(message) => [OnError(message)]
      case NativeMessage(p) => [OnMessage(p)]
      case NativeDrain(left) => if s.native.buffered > s.native.threshold >= left then [OnBufferedLow] else []
      case _ => []
  }

  function Fired(s: System, actions: seq<Action>): seq<Handler>
    decreases |actions|
  {
    if actions == [] then [] else Fires(s, actions[0]) + Fired(Step(s, actions[0]), actions[1..])
  }

  /** The scheduled handlers that have run. */
  function HandledEvents(ran: seq<Ran>): seq<Handler> {
    if ran == [] then []
    else
      var last := ran[|ran| - 1];
      HandledEvents(ran[..|ran| - 1]) + (if last.FromLoop? then [last.h] else [])
  }

  lemma HandledEventsAppend(ran: seq<Ran>, r: Ran)
    ensures HandledEvents(ran + [r]) == HandledEvents(ran) + (if r.FromLoop? then [r.h] else [])
  {
    assert (ran + [r])[..|ran|] == ran;
  }

  function OnTheWay(s: System): seq<Handler> {
    HandledEvents(s.log.ran) + s.ready
  }

  lemma NativeFires(s: System, a: Action)
    ensures OnTheWay(NativeStep(s, a)) == OnTheWay(s) + Fires(s, a)
  {
    Assoc(HandledEvents(s.log.ran), s.ready, Fires(s, a));
    assert NativeStep(s, a).log == s.log && NativeStep(s, a).ready == s.ready + Fires(s, a);
  }

  lemma LoopFires(s: System, a: Action)
    requires s.segment.Between?
    ensures OnTheWay(LoopStep(s, a)) == OnTheWay(s)
  {
    if a.RunReady? && s.ready != [] {
      HandledEventsAppend(s.log.ran, FromLoop(s.ready[0]));
      Assoc(HandledEvents(s.log.ran), [s.ready[0]], s.ready[1..]);
    } else if IsCancel(a) {
      CancelFires(s, a);
    } else {
      assert LoopStep(s, a).log.ran == s.log.ran && LoopStep(s, a).ready == s.ready;
    }
  }

  lemma CancelFires(s: System, a: Action)
    requires s.segment.Between? && IsCancel(a)
    ensures OnTheWay(LoopStep(s, a)) == OnTheWay(s)
  {
    CancelFrame(s, a);
    var ran := LoopStep(s, a).log.ran;
    if ran != s.log.ran {
      var r :| IsCancelled(r) && ran == s.log.ran + [r];
      HandledEventsAppend(s.log.ran, r);
      assert HandledEvents(s.log.ran) + [] == HandledEvents(s.log.ran);
    }
  }

  lemma SegmentFires(s: System, a: Action)
    ensures OnTheWay(SegmentStep(s, a)) == OnTheWay(s)
  {
    if s.segment.AtFinish? && a.FinishDestroy? {
      HandledEventsAppend(s.log.ran, FromDestroy(s.segment.byTeardown));
      assert HandledEvents(s.log.ran) + [] == HandledEvents(s.log.ran);
    } else {
      assert SegmentStep(s, a).log.ran == s.log.ran && SegmentStep(s, a).ready == s.ready;
    }
  }

  lemma StepFires(s: System, a: Action)
    ensures OnTheWay(Step(s, a)) == OnTheWay(s) + Fires(s, a)
  {
    assert OnTheWay(s) + [] == OnTheWay(s);
    if IsNative(a) {
      NativeFires(s, a);
    } else if s.segment.Between? {
      LoopFires(s, a);
    } else {
      SegmentFires(s, a);
    }
  }

  lemma {:induction false} RunFires(s: System, actions: seq<Action>)
    ensures OnTheWay(DataChannelModel.Run(s, actions)) == OnTheWay(s) + Fired(s, actions)
    decreases |actions|
  {
    if actions == [] {
      assert OnTheWay(s) + [] == OnTheWay(s);
    } else {
      StepFires(s, actions[0]);
      RunFires(Step(s, actions[0]), actions[1..]);
      Assoc(OnTheWay(s), Fires(s, actions[0]), Fired(Step(s, actions[0]), actions[1..]));
    }
  }

  /** In every run the handlers that ran, then those scheduled, are in order the ones
      scheduled at the start and then one for each native event while the handle was live:
      each opening, closing, error and message, and each drain across the threshold. */
  lemma NativeEventsReachTheLoop(cap: int, threshold: nat, isOpen: bool, isClosed: bool, ready: seq<Handler>,
                                 actions: seq<Action>)
    requires OnClosed in ready ==> isClosed
    ensures var s := Init(cap, threshold, isOpen, isClosed, ready);
            var r := DataChannelModel.Run(s, actions);
            HandledEvents(r.log.ran) + r.ready == ready + Fired(s, actions)
  {
    var s := Init(cap, threshold, isOpen, isClosed, ready);
    RunFires(s, actions);
    assert OnTheWay(s) == ready;
  }
}
