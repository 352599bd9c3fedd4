/** One data channel as a transition system: native threads, the event loop's FIFO of
    scheduled handlers, and any number of senders, receivers and owned tasks.

    Code on the loop thread between two awaits is a segment: no other coroutine and no
    handler runs inside it.  Native threads do, so segments that look at native state in
    several places are cut there. */
module DataChannelModel {
  import opened Wrappers
  import opened FutureSlots
  import opened AsyncQueue
  import opened ReceiveQueue

  datatype Payload = Bytes(data: seq<bv8>) | Text(text: string)

  datatype ChannelError = ConnectionClosed | RtcError(message: string)

  type Slot = Outcome<(), ChannelError>

  // ---- The wrapper's fields and its handlers -----------------------------

  datatype Fields = Fields(
    destroyed: bool,
    closeRequested: bool,
    open: Slot,
    closed: Slot,
    low: bool,                     // _buffered_low_event
    queue: seq<Item<Payload>>,
    cap: int,
    lastError: Option<string>)

  /** What the native callbacks schedule on the loop. */
  datatype Handler =
    | OnOpen
    | OnClosed
    | OnError(message: string)
    | OnMessage(payload: Payload)
    | OnBufferedLow

  function HandleClosed(f: Fields): Fields {
    f.(closed := SetOutcome(f.closed, ()),
       open := FailOutcome(f.open, ConnectionClosed),
       low := true,
       queue := TryPut(f.queue, f.cap, ClosedSentinel))
  }

  function HandleError(f: Fields, message: string): Fields {
    f.(lastError := Some(message), open := FailOutcome(f.open, RtcError(message)))
  }

  function Handle(f: Fields, h: Handler): Fields {
    match h
    case OnOpen => f.(open := SetOutcome(f.open, ()))
    case OnClosed => HandleClosed(f)
    case OnError(message) => HandleError(f, message)
    case OnMessage(p) => f.(queue := ReceiveQueue.HandleMessage(f.queue, f.cap, p))
    case OnBufferedLow => f.(low := true)
  }

  /** What `send` decides before it touches the native channel. */
  datatype Gate = Refused | MustWait | Clear

  function SendGate(f: Fields, nativeClosed: bool, waitForDrain: bool): Gate {
    if f.destroyed || nativeClosed then Refused
    else if waitForDrain && !f.low then MustWait
    else Clear
  }

  /** The end of `send` when nothing drains between the read and the clear. */
  function AfterSend(f: Fields, buffered: nat): Fields {
    if f.low && buffered > 0 then f.(low := false) else f
  }

  function RequestCloseFields(f: Fields): Fields {
    if f.closeRequested then f
    else f.(closeRequested := true, queue := TryPut(f.queue, f.cap, ClosedSentinel))
  }

  function InitFields(cap: int, isOpen: bool, isClosed: bool): Fields {
    Fields(false, false,
           if isOpen then Result(()) else Pending,
           if isClosed then Result(()) else Pending,
           true,
           if isClosed then [ClosedSentinel] else [],
           cap, None)
  }

  // ---- The system --------------------------------------------------------

  /** Where the loop thread stands inside a segment that is cut at native calls. */
  datatype Segment =
    | Between
    | AtSend(id: nat)     // guards passed, about to call the native send
    | AtRead(id: nat)     // sent, about to read the buffered amount
    | AtClear(id: nat)    // read a positive amount, about to clear the event
    | AtDelete(byTeardown: bool)   // flagged destroyed, about to delete the native handle
    | AtFinish(byTeardown: bool)   // deleted, about to run the close handler

  datatype Sender = Parked | Woken | RaisedClosed | NativeFailed | Sent

  datatype Teardown = NotStarted | Scheduled | Gathering(awaited: set<nat>) | Destroying | Finished | Abandoned

  /** What has happened on the loop so far to the two futures: scheduled handlers, the
      close handler at the end of `_destroy`, cancelled awaiters, and the `finally` of a
      cancelled teardown. */
  datatype Ran =
    | FromLoop(h: Handler)
    | FromDestroy(byTeardown: bool)
    | OpenAwaiterCancelled
    | ClosedAwaiterCancelled
    | TeardownGaveUp

  /** The native channel; `live` while its handle exists and its callbacks are set. */
  datatype Native = Native(closed: bool, live: bool, buffered: nat, threshold: nat, deletes: nat)

  datatype Tasks = Tasks(owned: set<nat>, running: set<nat>, teardown: Teardown, teardowns: nat)

  /** What happened so far. */
  datatype History = History(ran: seq<Ran>, queueOps: seq<Op<Payload>>, answers: seq<Answer<Payload>>)

  datatype System = System(
    f: Fields,
    segment: Segment,
    native: Native,
    ready: seq<Handler>,        // the loop's FIFO
    senders: map<nat, Sender>,
    issued: nat,                // native sends issued
    tasks: Tasks,
    log: History)

  datatype Action =
    // native threads, at any moment
    | NativeOpen
    | NativeClose
    | NativeError(message: string)
    | NativeMessage(payload: Payload)
    | NativeDrain(left: nat)
    // the loop, between segments
    | RunReady
    | SendStart(id: nat, waitForDrain: bool)
    | SendResume(id: nat)
    | RecvOnce
    | SpawnTask(task: nat)
    | TaskEnds(task: nat)
    | TaskForgotten(task: nat)
    | RequestClose
    | TeardownRuns
    | OwnerDestroys
    | CancelOpenAwaiter      // a coroutine in `wait_open`
    | CancelClosedAwaiter    // a coroutine in `wait_closed` or `aclose`
    | CancelTeardown         // the cancellation is delivered: a gather first waits for its tasks
    // the rest of a running segment
    | NativeSend(grows: Option<nat>)   // None: the native call failed
    | ReadAmount
    | ClearLow
    | NativeDelete
    | FinishDestroy

  predicate SendSegment(g: Segment) { g.AtSend? || g.AtRead? || g.AtClear? }

  predicate DestroySegment(g: Segment) { g.AtDelete? || g.AtFinish? }

  /** Registering callbacks on a channel already in use may have scheduled handlers. */
  function Init(cap: int, threshold: nat, isOpen: bool, isClosed: bool, ready: seq<Handler>): System
    requires OnClosed in ready ==> isClosed
  {
    System(InitFields(cap, isOpen, isClosed), Between, Native(isClosed, true, 0, threshold, 0),
           ready, map[], 0, Tasks({}, {}, NotStarted, 0), History([], [], []))
  }

  function Schedule(s: System, h: Handler): System {
    if s.native.live then s.(ready := s.ready + [h]) else s
  }

  /** asyncio.Event.set wakes every waiter. */
  function WakeAll(senders: map<nat, Sender>): (r: map<nat, Sender>)
    ensures r.Keys == senders.Keys
    ensures forall id :: id in r ==> r[id] == (if senders[id].Parked? then Woken else senders[id])
  {
    map id | id in senders :: if senders[id].Parked? then Woken else senders[id]
  }

  function LogRan(log: History, r: Ran, op: Option<Op<Payload>>): History {
    log.(ran := log.ran + [r], queueOps := log.queueOps + (if op.Some? then [op.value] else []))
  }

  function QueueOpOf(h: Handler): Option<Op<Payload>> {
    match h
    case OnMessage(p) => Some(Arrive(p))
    case OnClosed => Some(PushClosed)
    case _ => None
  }

  function RunHandler(s: System): System
    requires s.ready != []
  {
    var h := s.ready[0];
    s.(f := Handle(s.f, h),
       ready := s.ready[1..],
       senders := if h.OnClosed? || h.OnBufferedLow? then WakeAll(s.senders) else s.senders,
       log := LogRan(s.log, FromLoop(h), QueueOpOf(h)))
  }

  predicate SeesClosed(s: System) { s.f.destroyed || s.native.closed }

  function SetSender(s: System, id: nat, sender: Sender): System {
    s.(senders := s.senders[id := sender])
  }

  function ProceedToSend(s: System, id: nat): System {
    s.(segment := AtSend(id), issued := s.issued + 1)
  }

  function BeginSend(s: System, id: nat, waitForDrain: bool): System {
    match SendGate(s.f, s.native.closed, waitForDrain)
    case Refused => SetSender(s, id, RaisedClosed)
    case MustWait => SetSender(s, id, Parked)
    case Clear => ProceedToSend(s, id)
  }

  /** After the wait only the close flags are looked at again. */
  function ResumeSend(s: System, id: nat): System {
    if SendGate(s.f, s.native.closed, false).Refused? then SetSender(s, id, RaisedClosed) else ProceedToSend(s, id)
  }

  function EndSend(s: System, id: nat, outcome: Sender): System {
    SetSender(s, id, outcome).(segment := Between)
  }

  function BeginDestroy(s: System, byTeardown: bool): System {
    var teardown := if !byTeardown then s.tasks.teardown else if s.f.destroyed then Finished else Destroying;
    var s' := s.(tasks := s.tasks.(teardown := teardown));
    if !s.f.destroyed then s'.(f := s.f.(destroyed := true), segment := AtDelete(byTeardown))
    else if byTeardown then s'.(f := s.f.(closed := SetOutcome(s.f.closed, ())))
    else s'
  }

  function EndDestroy(s: System, byTeardown: bool): System {
    s.(f := HandleClosed(s.f),
       senders := WakeAll(s.senders),
       segment := Between,
       tasks := s.tasks.(teardown := if byTeardown then Finished else s.tasks.teardown),
       log := LogRan(s.log, FromDestroy(byTeardown), Some(PushClosed)))
  }

  /** Cancelled before its first turn the teardown never enters its `try`; cancelled while
      it gathers, it resolves the slot once the gathered tasks are done. */
  function AbandonTeardown(s: System): System {
    match s.tasks.teardown
    case Scheduled => s.(tasks := s.tasks.(teardown := Abandoned))
    case Gathering(awaited) =>
      if awaited !! s.tasks.running then
        s.(f := s.f.(closed := SetOutcome(s.f.closed, ())),
           tasks := s.tasks.(teardown := Abandoned),
           log := LogRan(s.log, TeardownGaveUp, None))
      else s
    case _ => s
  }

  /** An action that is not enabled leaves the system as it is. */
  function Step(s: System, a: Action): System {
    if IsNative(a) then NativeStep(s, a)
    else if s.segment.Between? then LoopStep(s, a)
    else SegmentStep(s, a)
  }

  predicate IsNative(a: Action) {
    a.NativeOpen? || a.NativeClose? || a.NativeError? || a.NativeMessage? || a.NativeDrain?
  }

  /** Native threads run at any moment. */
  function NativeStep(s: System, a: Action): System {
    match a
    case NativeOpen => Schedule(s, OnOpen)
    case NativeClose => Schedule(s.(native := s.native.(closed := true)), OnClosed)
    case NativeError(message) => Schedule(s, OnError(message))
    case NativeMessage(p) => Schedule(s, OnMessage(p))
    case NativeDrain(left) =>
      if left >= s.native.buffered then s
      else
        var s' := s.(native := s.native.(buffered := left));
        if s.native.buffered > s.native.threshold >= left then Schedule(s', OnBufferedLow) else s'
    case _ => s
  }

  /** The rest of a segment that native threads interleave with. */
  function SegmentStep(s: System, a: Action): System {
    match (s.segment, a)
    case (AtSend(id), NativeSend(grows)) =>
      if grows.None? || s.native.closed then EndSend(s, id, NativeFailed)
      else s.(native := s.native.(buffered := s.native.buffered + grows.value), segment := AtRead(id))
    case (AtRead(id), ReadAmount) =>
      if s.f.low && s.native.buffered > 0 then s.(segment := AtClear(id)) else EndSend(s, id, Sent)
    case (AtClear(id), ClearLow) => EndSend(s.(f := s.f.(low := false)), id, Sent)
    case (AtDelete(byTeardown), NativeDelete) =>
      s.(native := s.native.(live := false, deletes := s.native.deletes + 1), segment := AtFinish(byTeardown))
    case (AtFinish(byTeardown), FinishDestroy) => EndDestroy(s, byTeardown)
    case _ => s
  }

  /** Coroutines and handlers start only between segments. */
  function LoopStep(s: System, a: Action): System {
    match a
    case RunReady => if s.ready == [] then s else RunHandler(s)
    case SendStart(id, waitForDrain) => if id in s.senders then s else BeginSend(s, id, waitForDrain)
    case SendResume(id) => if id in s.senders && s.senders[id].Woken? then ResumeSend(s, id) else s
    case RecvOnce =>
      var (q, answer) := Recv(s.f.queue, s.f.cap);
      s.(f := s.f.(queue := q),
         log := s.log.(queueOps := s.log.queueOps + [TakeNext], answers := s.log.answers + [answer]))
    case RequestClose =>
      if s.f.closeRequested then s
      else s.(f := RequestCloseFields(s.f),
              tasks := s.tasks.(teardown := Scheduled, teardowns := s.tasks.teardowns + 1),
              log := s.log.(queueOps := s.log.queueOps + [PushClosed]))
    case OwnerDestroys => BeginDestroy(s, false)
    case CancelOpenAwaiter =>
      s.(f := s.f.(open := CancelOutcome(s.f.open)), log := LogRan(s.log, OpenAwaiterCancelled, None))
    case CancelClosedAwaiter =>
      s.(f := s.f.(closed := CancelOutcome(s.f.closed)), log := LogRan(s.log, ClosedAwaiterCancelled, None))
    case CancelTeardown => AbandonTeardown(s)
    case TeardownRuns =>
      if TasksAwaited(s.tasks) then BeginDestroy(s, true) else s.(tasks := TaskStep(s.tasks, s.f.closeRequested, a))
    case _ => s.(tasks := TaskStep(s.tasks, s.f.closeRequested, a))
  }

  /** `_teardown` has nothing (left) to gather. */
  predicate TasksAwaited(t: Tasks) {
    (t.teardown.Scheduled? && t.owned == {}) || (t.teardown.Gathering? && t.teardown.awaited !! t.running)
  }

  function TaskStep(t: Tasks, closeRequested: bool, a: Action): Tasks {
    match a
    case SpawnTask(id) =>
      if closeRequested || id in t.owned || id in t.running then t
      else t.(owned := t.owned + {id}, running := t.running + {id})
    case TaskEnds(id) => t.(running := t.running - {id})
    case TaskForgotten(id) => if id in t.running then t else t.(owned := t.owned - {id})
    case TeardownRuns => if t.teardown.Scheduled? then t.(teardown := Gathering(t.owned)) else t
    case _ => t
  }

  function Run(s: System, actions: seq<Action>): System
    decreases |actions|
  {
    if actions == [] then s else Run(Step(s, actions[0]), actions[1..])
  }

  lemma {:induction false} RunConcat(s: System, a: seq<Action>, b: seq<Action>)
    ensures Run(s, a + b) == Run(Run(s, a), b)
    decreases |a|
  {
    if a == [] {
      assert a + b == b;
    } else {
      RunConcat(Step(s, a[0]), a[1..], b);
      assert (a + b)[1..] == a[1..] + b;
    }
  }

  /** What every step keeps holds after every run. */
  lemma {:induction false} RunInvariant(s: System, actions: seq<Action>, inv: System -> bool)
    requires inv(s)
    requires forall t, a :: inv(t) ==> inv(Step(t, a))
    ensures inv(Run(s, actions))
    decreases |actions|
  {
    if actions != [] {
      RunInvariant(Step(s, actions[0]), actions[1..], inv);
    }
  }

  /** A run through given states. */
  lemma {:induction false} RunPasses(states: seq<System>, actions: seq<Action>)
    requires |states| == |actions| + 1
    requires forall i :: 0 <= i < |actions| ==> Step(states[i], actions[i]) == states[i + 1]
    ensures Run(states[0], actions) == states[|actions|]
    decreases |actions|
  {
    if actions != [] {
      assert forall i :: 0 <= i < |actions| - 1 ==> Step(states[1..][i], actions[1..][i]) == states[1..][i + 1];
      RunPasses(states[1..], actions[1..]);
    }
  }

  // ---- Invariant ---------------------------------------------------------

  predicate CloseRan(s: System) {
    FromLoop(OnClosed) in s.log.ran || FromDestroy(true) in s.log.ran || FromDestroy(false) in s.log.ran
  }

  /** A close handler is scheduled or `_destroy` is about to run it. */
  predicate ClosePending(s: System) {
    OnClosed in s.ready || DestroySegment(s.segment)
  }

  /** Something will still set the drain event. */
  predicate WakeupDue(s: System) {
    s.native.buffered > 0 || OnBufferedLow in s.ready || ClosePending(s)
  }

  predicate NoneParked(s: System) {
    forall id :: id in s.senders ==> !s.senders[id].Parked?
  }

  predicate Lifecycle(s: System) {
    && (SendSegment(s.segment) ==> !s.f.destroyed)
    && (DestroySegment(s.segment) ==> s.f.destroyed)
    && (s.native.live <==> !s.f.destroyed || s.segment.AtDelete?)
    && s.native.deletes == (if s.native.live then 0 else 1)
    && (OnClosed in s.ready ==> s.native.closed)
  }

  /** What a close handler leaves behind for good. */
  predicate Settled(s: System) {
    && s.f.low && SeesClosed(s) && !SendSegment(s.segment)
    && !s.f.open.Pending? && !s.f.closed.Pending?
  }

  predicate CloseSettles(s: System) {
    && (CloseRan(s) ==> Settled(s))
    && (s.f.destroyed && !DestroySegment(s.segment) ==> CloseRan(s))
  }

  predicate LowMeansNoneParked(s: System) {
    s.f.low ==> NoneParked(s)
  }

  predicate Consistent(s: System) {
    Lifecycle(s) && CloseSettles(s) && LowMeansNoneParked(s)
  }

  predicate Backpressure(s: System) {
    s.native.threshold == 0 ==>
      && (!s.f.low ==> WakeupDue(s))
      && (s.segment.AtClear? ==> WakeupDue(s))
  }

  lemma NativeLifecycle(s: System, a: Action)
    requires Lifecycle(s)
    ensures Lifecycle(NativeStep(s, a))
  {
  }

  lemma LoopLifecycle(s: System, a: Action)
    requires Lifecycle(s) && s.segment.Between?
    ensures Lifecycle(LoopStep(s, a))
  {
  }

  lemma SegmentLifecycle(s: System, a: Action)
    requires Lifecycle(s)
    ensures Lifecycle(SegmentStep(s, a))
  {
  }

  lemma StepLifecycle(s: System, a: Action)
    requires Lifecycle(s)
    ensures Lifecycle(Step(s, a))
  {
    if IsNative(a) {
      NativeLifecycle(s, a);
    } else if s.segment.Between? {
      LoopLifecycle(s, a);
    } else {
      SegmentLifecycle(s, a);
    }
  }

  lemma OtherStepsKeepRan(s: System, a: Action)
    requires !(s.segment.Between? && a.RunReady? && s.ready != [])
    requires !(s.segment.AtFinish? && a.FinishDestroy?)
    requires !IsCancel(a)
    ensures Step(s, a).log.ran == s.log.ran
  {
  }

  predicate IsCancel(a: Action) { a.CancelOpenAwaiter? || a.CancelClosedAwaiter? || a.CancelTeardown? }

  predicate IsCancelled(r: Ran) { r.OpenAwaiterCancelled? || r.ClosedAwaiterCancelled? || r.TeardownGaveUp? }

  /** A cancellation touches nothing but the two futures and the teardown's progress. */
  lemma CancelFrame(s: System, a: Action)
    requires IsCancel(a) && s.segment.Between?
    ensures var s' := LoopStep(s, a);
            && s' == s.(f := s.f.(open := s'.f.open, closed := s'.f.closed), tasks := s'.tasks,
                        log := s.log.(ran := s'.log.ran))
            && (s.f.open.Pending? || s'.f.open == s.f.open) && (s.f.closed.Pending? || s'.f.closed == s.f.closed)
            && (s'.log.ran == s.log.ran || exists r :: IsCancelled(r) && s'.log.ran == s.log.ran + [r])
  {
    assert s.log.queueOps + [] == s.log.queueOps;
    assert s.log.ran + [OpenAwaiterCancelled] == s.log.ran + [OpenAwaiterCancelled];
  }

  lemma NativeCloseSettles(s: System, a: Action)
    requires Lifecycle(s) && CloseSettles(s)
    ensures CloseSettles(NativeStep(s, a))
  {
  }

  lemma CancelSettles(s: System, a: Action)
    requires CloseSettles(s) && IsCancel(a) && s.segment.Between?
    ensures CloseSettles(LoopStep(s, a))
  {
    CancelFrame(s, a);
    var s' := LoopStep(s, a);
    if s'.log.ran != s.log.ran {
      var r :| IsCancelled(r) && s'.log.ran == s.log.ran + [r];
      RanAppend(s, s', r);
    }
  }

  lemma LoopCloseSettles(s: System, a: Action)
    requires Lifecycle(s) && CloseSettles(s) && s.segment.Between?
    ensures CloseSettles(LoopStep(s, a))
  {
    if a.RunReady? && s.ready != [] {
      RanAppend(s, RunHandler(s), FromLoop(s.ready[0]));
    } else if IsCancel(a) {
      CancelSettles(s, a);
    } else {
      assert LoopStep(s, a).log.ran == s.log.ran;
    }
  }

  lemma SegmentCloseSettles(s: System, a: Action)
    requires Lifecycle(s) && CloseSettles(s)
    ensures CloseSettles(SegmentStep(s, a))
  {
    if s.segment.AtFinish? && a.FinishDestroy? {
      RanAppend(s, EndDestroy(s, s.segment.byTeardown), FromDestroy(s.segment.byTeardown));
    } else {
      assert SegmentStep(s, a).log.ran == s.log.ran;
    }
  }

  lemma StepCloseSettles(s: System, a: Action)
    requires Lifecycle(s) && CloseSettles(s)
    ensures CloseSettles(Step(s, a))
  {
    if IsNative(a) {
      NativeCloseSettles(s, a);
    } else if s.segment.Between? {
      LoopCloseSettles(s, a);
    } else {
      SegmentCloseSettles(s, a);
    }
  }

  lemma RanAppend(s: System, s': System, r: Ran)
    requires s'.log.ran == s.log.ran + [r]
    ensures CloseRan(s') <==> CloseRan(s) || r == FromLoop(OnClosed) || r.FromDestroy?
  {
    assert forall q :: q in s'.log.ran <==> q in s.log.ran || q == r;
  }

  lemma NativeLowWakes(s: System, a: Action)
    requires LowMeansNoneParked(s)
    ensures LowMeansNoneParked(NativeStep(s, a))
  {
  }

  lemma LoopLowWakes(s: System, a: Action)
    requires LowMeansNoneParked(s) && s.segment.Between?
    ensures LowMeansNoneParked(LoopStep(s, a))
  {
  }

  lemma SegmentLowWakes(s: System, a: Action)
    requires LowMeansNoneParked(s)
    ensures LowMeansNoneParked(SegmentStep(s, a))
  {
  }

  lemma StepLowWakes(s: System, a: Action)
    requires LowMeansNoneParked(s)
    ensures LowMeansNoneParked(Step(s, a))
  {
    if IsNative(a) {
      NativeLowWakes(s, a);
    } else if s.segment.Between? {
      LoopLowWakes(s, a);
    } else {
      SegmentLowWakes(s, a);
    }
  }

  lemma StepConsistent(s: System, a: Action)
    requires Consistent(s)
    ensures Consistent(Step(s, a))
  {
    StepLifecycle(s, a);
    StepCloseSettles(s, a);
    StepLowWakes(s, a);
  }

  lemma NativeBackpressure(s: System, a: Action)
    requires Consistent(s) && Backpressure(s)
    ensures Backpressure(NativeStep(s, a))
  {
  }

  lemma LoopBackpressure(s: System, a: Action)
    requires Consistent(s) && Backpressure(s) && s.segment.Between?
    ensures Backpressure(LoopStep(s, a))
  {
  }

  lemma SegmentBackpressure(s: System, a: Action)
    requires Consistent(s) && Backpressure(s)
    ensures Backpressure(SegmentStep(s, a))
  {
  }

  lemma StepBackpressure(s: System, a: Action)
    requires Consistent(s) && Backpressure(s)
    ensures Backpressure(Step(s, a))
  {
    if IsNative(a) {
      NativeBackpressure(s, a);
    } else if s.segment.Between? {
      LoopBackpressure(s, a);
    } else {
      SegmentBackpressure(s, a);
    }
  }

  lemma RunConsistent(s: System, actions: seq<Action>)
    requires Consistent(s)
    ensures Consistent(Run(s, actions))
    ensures Backpressure(s) ==> Backpressure(Run(s, actions))
  {
    var keep := Backpressure(s);
    var inv := (t: System) => Consistent(t) && (keep ==> Backpressure(t));
    forall t, a | inv(t) ensures inv(Step(t, a)) {
      StepConsistent(t, a);
      if keep { StepBackpressure(t, a); }
    }
    RunInvariant(s, actions, inv);
  }

  lemma ThresholdIsFixed(s: System, actions: seq<Action>)
    ensures Run(s, actions).native.threshold == s.native.threshold
  {
    var threshold := s.native.threshold;
    RunInvariant(s, actions, (t: System) => t.native.threshold == threshold);
  }

  predicate Fits(isClosed: bool, ready: seq<Handler>) {
    OnClosed in ready ==> isClosed
  }
}
