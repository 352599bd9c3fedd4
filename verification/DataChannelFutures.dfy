/** The two futures of a data channel, which every awaiter shares. */
module DataChannelFutures {
  import opened Wrappers
  import opened FutureSlots
  import opened DataChannelModel

  // ---- Latched futures ---------------------------------------------------

  /** What decides the open slot, by the loop's own handlers. */
  function OpenEvent(r: Ran): Slot {
    match r
    case FromLoop(OnOpen) => Result(())
    case FromLoop(OnError(message)) => Failed(RtcError(message))
    case FromLoop(OnClosed) => Failed(ConnectionClosed)
    case FromDestroy(_) => Failed(ConnectionClosed)
    case _ => Pending
  }

  function OpenDecision(r: Ran): Slot {
    if r.OpenAwaiterCancelled? then Cancelled else OpenEvent(r)
  }

  function ClosedDecision(r: Ran): Slot {
    match r
    case FromLoop(OnClosed) => Result(())
    case FromDestroy(_) => Result(())
    case TeardownGaveUp => Result(())
    case ClosedAwaiterCancelled => Cancelled
    case _ => Pending
  }

  /** The first decision in loop order. */
  function First(ran: seq<Ran>, decide: Ran -> Slot): Slot {
    if ran == [] then Pending
    else if decide(ran[0]).Pending? then First(ran[1..], decide)
    else decide(ran[0])
  }

  lemma {:induction false} FirstAppend(ran: seq<Ran>, r: Ran, decide: Ran -> Slot)
    ensures First(ran + [r], decide) == (if First(ran, decide).Pending? then decide(r) else First(ran, decide))
  {
    if ran == [] {
      assert ran + [r] == [r] && [r][1..] == [];
    } else {
      FirstAppend(ran[1..], r, decide);
      assert (ran + [r])[1..] == ran[1..] + [r];
    }
  }

  lemma {:induction false} FirstPendingIff(ran: seq<Ran>, decide: Ran -> Slot)
    ensures First(ran, decide).Pending? <==> forall r :: r in ran ==> decide(r).Pending?
  {
    if ran != [] { FirstPendingIff(ran[1..], decide); }
  }

  /** What decides the closed slot other than a cancelled awaiter. */
  function ClosedEvent(r: Ran): Slot {
    if r.ClosedAwaiterCancelled? then Pending else ClosedDecision(r)
  }

  predicate IgnoresCancel(decided: Slot, reported: Slot) {
    decided == Cancelled && reported == Pending
  }

  /** Two readings that differ on cancellations only agree unless a cancellation is first. */
  lemma {:induction false} EventsDecideIff(ran: seq<Ran>, decide: Ran -> Slot, event: Ran -> Slot)
    requires forall r :: event(r) != Cancelled && (decide(r) == event(r) || IgnoresCancel(decide(r), event(r)))
    ensures First(ran, decide) == First(ran, event) <==> First(ran, decide) != Cancelled
    ensures First(ran, event) != Cancelled
  {
    if ran != [] { EventsDecideIff(ran[1..], decide, event); }
  }

  predicate SlotsLatched(s: System, isOpen: bool, isClosed: bool) {
    && s.f.open == (if isOpen then Result(()) else First(s.log.ran, OpenDecision))
    && s.f.closed == (if isClosed then Result(()) else First(s.log.ran, ClosedDecision))
  }

  function Effect(f: Fields, r: Ran): Fields {
    match r
    case FromLoop(h) => Handle(f, h)
    case FromDestroy(_) => HandleClosed(f)
    case OpenAwaiterCancelled => f.(open := CancelOutcome(f.open))
    case ClosedAwaiterCancelled => f.(closed := CancelOutcome(f.closed))
    case TeardownGaveUp => f.(closed := SetOutcome(f.closed, ()))
  }

  /** How one step may touch the history and the two slots. */
  ghost predicate SlotStep(s: System, s': System) {
    || (s'.log.ran == s.log.ran && s'.f.open == s.f.open && s'.f.closed == s.f.closed)
    || (exists r :: s'.f == Effect(s.f, r) && s'.log.ran == s.log.ran + [r])
  }

  lemma NativeIsSlotStep(s: System, a: Action)
    requires Consistent(s)
    ensures SlotStep(s, NativeStep(s, a))
  {
  }

  lemma LoopIsSlotStep(s: System, a: Action)
    requires Consistent(s) && s.segment.Between?
    ensures SlotStep(s, LoopStep(s, a))
  {
    if a.RunReady? && s.ready != [] {
      assert RunHandler(s).f == Effect(s.f, FromLoop(s.ready[0]));
    } else if a.CancelOpenAwaiter? {
      assert LoopStep(s, a).f == Effect(s.f, OpenAwaiterCancelled);
    } else if a.CancelClosedAwaiter? {
      assert LoopStep(s, a).f == Effect(s.f, ClosedAwaiterCancelled);
    } else if a.CancelTeardown? && AbandonTeardown(s).log != s.log {
      assert LoopStep(s, a).f == Effect(s.f, TeardownGaveUp);
    }
  }

  lemma SegmentIsSlotStep(s: System, a: Action)
    requires Consistent(s)
    ensures SlotStep(s, SegmentStep(s, a))
  {
    if s.segment.AtFinish? && a.FinishDestroy? {
      assert EndDestroy(s, s.segment.byTeardown).f == Effect(s.f, FromDestroy(s.segment.byTeardown));
    }
  }

  lemma StepIsSlotStep(s: System, a: Action)
    requires Consistent(s)
    ensures SlotStep(s, Step(s, a))
  {
    if IsNative(a) {
      NativeIsSlotStep(s, a);
    } else if s.segment.Between? {
      LoopIsSlotStep(s, a);
    } else {
      SegmentIsSlotStep(s, a);
    }
  }

  /** A pending slot takes what the entry decides, a decided one keeps its outcome. */
  lemma EffectDecides(f: Fields, r: Ran)
    ensures Effect(f, r).open == (if f.open.Pending? then OpenDecision(r) else f.open)
    ensures Effect(f, r).closed == (if f.closed.Pending? then ClosedDecision(r) else f.closed)
  {
  }

  lemma SlotStepLatched(s: System, s': System, isOpen: bool, isClosed: bool)
    requires SlotStep(s, s') && SlotsLatched(s, isOpen, isClosed)
    ensures SlotsLatched(s', isOpen, isClosed)
  {
    if s'.log.ran != s.log.ran {
      var r :| s'.f == Effect(s.f, r) && s'.log.ran == s.log.ran + [r];
      EffectDecides(s.f, r);
      FirstAppend(s.log.ran, r, OpenDecision);
      FirstAppend(s.log.ran, r, ClosedDecision);
    }
  }

  lemma RunSlotsLatched(s: System, actions: seq<Action>, isOpen: bool, isClosed: bool)
    requires Consistent(s) && SlotsLatched(s, isOpen, isClosed)
    ensures SlotsLatched(Run(s, actions), isOpen, isClosed)
  {
    var inv := (t: System) => Consistent(t) && SlotsLatched(t, isOpen, isClosed);
    forall t, a | inv(t) ensures inv(Step(t, a)) {
      StepConsistent(t, a);
      StepIsSlotStep(t, a);
      SlotStepLatched(t, Step(t, a), isOpen, isClosed);
    }
    RunInvariant(s, actions, inv);
  }

  /** Over every run: `wait_open` is decided by the first open, error, close or cancelled
      awaiter in loop order (unless the channel was open from the start); `_closed_slot`
      is done exactly when the channel began closed, some close handler ran, one of its
      awaiters was cancelled or a cancelled teardown gave up; once `_destroy` is through,
      both are done. */
  lemma FuturesLatch(cap: int, threshold: nat, isOpen: bool, isClosed: bool, ready: seq<Handler>, actions: seq<Action>)
    requires OnClosed in ready ==> isClosed
    ensures var r := Run(Init(cap, threshold, isOpen, isClosed, ready), actions);
            && r.f.open == (if isOpen then Result(()) else First(r.log.ran, OpenDecision))
            && r.f.closed == (if isClosed then Result(()) else First(r.log.ran, ClosedDecision))
            && (!r.f.closed.Pending? <==>
                  isClosed || CloseRan(r) || ClosedAwaiterCancelled in r.log.ran || TeardownGaveUp in r.log.ran)
            && (r.f.destroyed && !DestroySegment(r.segment) ==> !r.f.open.Pending? && !r.f.closed.Pending?)
  {
    var s := Init(cap, threshold, isOpen, isClosed, ready);
    RunConsistent(s, actions);
    RunSlotsLatched(s, actions, isOpen, isClosed);
    FirstPendingIff(Run(s, actions).log.ran, ClosedDecision);
  }

  /** This action cancels a coroutine in `wait_open` before the outcome is decided. */
  predicate CutsOpen(s: System, a: Action) {
    a.CancelOpenAwaiter? && s.segment.Between? && s.f.open.Pending?
  }

  predicate NeverCutsOpen(s: System, actions: seq<Action>)
    decreases |actions|
  {
    actions == [] || (!CutsOpen(s, actions[0]) && NeverCutsOpen(Step(s, actions[0]), actions[1..]))
  }

  lemma CancelledByCutOnly(s: System, a: Action)
    ensures Step(s, a).f.open.Cancelled? <==> s.f.open.Cancelled? || CutsOpen(s, a)
  {
    if IsNative(a) {
      assert NativeStep(s, a).f == s.f;
    } else if s.segment.Between? {
      assert LoopStep(s, a).f.open.Cancelled? <==> s.f.open.Cancelled? || CutsOpen(s, a);
    } else {
      assert SegmentStep(s, a).f.open.Cancelled? <==> s.f.open.Cancelled?;
    }
  }

  lemma {:induction false} RunCancelledIff(s: System, actions: seq<Action>)
    ensures Run(s, actions).f.open.Cancelled? <==> s.f.open.Cancelled? || !NeverCutsOpen(s, actions)
    decreases |actions|
  {
    if actions != [] {
      CancelledByCutOnly(s, actions[0]);
      RunCancelledIff(Step(s, actions[0]), actions[1..]);
    }
  }

  /** The first open, error or close decides what `wait_open` reports exactly when no
      coroutine awaiting it is cancelled while the outcome is pending: a timeout in one
      awaiter decides it for all. */
  lemma OpenDecidedByEventsIff(cap: int, threshold: nat, isOpen: bool, isClosed: bool, ready: seq<Handler>,
                               actions: seq<Action>)
    requires OnClosed in ready ==> isClosed
    ensures var s := Init(cap, threshold, isOpen, isClosed, ready);
            var r := Run(s, actions);
            r.f.open == (if isOpen then Result(()) else First(r.log.ran, OpenEvent)) <==> NeverCutsOpen(s, actions)
  {
    var s := Init(cap, threshold, isOpen, isClosed, ready);
    RunConsistent(s, actions);
    RunSlotsLatched(s, actions, isOpen, isClosed);
    RunCancelledIff(s, actions);
    EventsDecideIff(Run(s, actions).log.ran, OpenDecision, OpenEvent);
  }

  // ---- The same for the closed slot --------------------------------------

  /** This action cancels a coroutine in `wait_closed` or `aclose` before the outcome is
      decided. */
  predicate CutsClosed(s: System, a: Action) {
    a.CancelClosedAwaiter? && s.segment.Between? && s.f.closed.Pending?
  }

  predicate NeverCutsClosed(s: System, actions: seq<Action>)
    decreases |actions|
  {
    actions == [] || (!CutsClosed(s, actions[0]) && NeverCutsClosed(Step(s, actions[0]), actions[1..]))
  }

  lemma ClosedCancelledByCutOnly(s: System, a: Action)
    ensures Step(s, a).f.closed.Cancelled? <==> s.f.closed.Cancelled? || CutsClosed(s, a)
  {
    if IsNative(a) {
      assert NativeStep(s, a).f == s.f;
    } else if s.segment.Between? {
      assert LoopStep(s, a).f.closed.Cancelled? <==> s.f.closed.Cancelled? || CutsClosed(s, a);
    } else {
      assert SegmentStep(s, a).f.closed.Cancelled? <==> s.f.closed.Cancelled?;
    }
  }

  lemma {:induction false} RunClosedCancelledIff(s: System, actions: seq<Action>)
    ensures Run(s, actions).f.closed.Cancelled? <==> s.f.closed.Cancelled? || !NeverCutsClosed(s, actions)
    decreases |actions|
  {
    if actions != [] {
      ClosedCancelledByCutOnly(s, actions[0]);
      RunClosedCancelledIff(Step(s, actions[0]), actions[1..]);
    }
  }

  /** The first close handler (or the end of a cancelled teardown) decides what `wait_closed`
      and `aclose` report exactly when no coroutine awaiting the slot is cancelled while it
      is pending. */
  lemma ClosedDecidedByEventsIff(cap: int, threshold: nat, isOpen: bool, isClosed: bool, ready: seq<Handler>,
                                 actions: seq<Action>)
    requires OnClosed in ready ==> isClosed
    ensures var s := Init(cap, threshold, isOpen, isClosed, ready);
            var r := Run(s, actions);
            r.f.closed == (if isClosed then Result(()) else First(r.log.ran, ClosedEvent)) <==>
            NeverCutsClosed(s, actions)
  {
    var s := Init(cap, threshold, isOpen, isClosed, ready);
    RunConsistent(s, actions);
    RunSlotsLatched(s, actions, isOpen, isClosed);
    RunClosedCancelledIff(s, actions);
    EventsDecideIff(Run(s, actions).log.ran, ClosedDecision, ClosedEvent);
  }

  // ---- The last error ----------------------------------------------------

  function ErrorOf(r: Ran): Option<string> {
    if r.FromLoop? && r.h.OnError? then Some(r.h.message) else None
  }

  /** The message of the last error handled. */
  function LastError(ran: seq<Ran>): Option<string> {
    if ran == [] then None
    else
      var last := ErrorOf(ran[|ran| - 1]);
      if last.Some? then last else LastError(ran[..|ran| - 1])
  }

  predicate ErrorKept(s: System) {
    s.f.lastError == LastError(s.log.ran)
  }

  lemma StepKeepsError(s: System, a: Action)
    requires Consistent(s) && ErrorKept(s)
    ensures ErrorKept(Step(s, a))
  {
    var s' := Step(s, a);
    StepIsSlotStep(s, a);
    if s'.log.ran != s.log.ran {
      var r :| s'.f == Effect(s.f, r) && s'.log.ran == s.log.ran + [r];
      LastErrorAppend(s.log.ran, r);
      EffectKeepsError(s.f, r);
    } else {
      OthersKeepError(s, a);
    }
  }

  lemma LastErrorAppend(ran: seq<Ran>, r: Ran)
    ensures LastError(ran + [r]) == (if ErrorOf(r).Some? then ErrorOf(r) else LastError(ran))
  {
    assert (ran + [r])[..|ran|] == ran;
  }

  lemma EffectKeepsError(f: Fields, r: Ran)
    ensures Effect(f, r).lastError == (if ErrorOf(r).Some? then ErrorOf(r) else f.lastError)
  {
  }

  lemma OthersKeepError(s: System, a: Action)
    requires Step(s, a).log.ran == s.log.ran
    ensures Step(s, a).f.lastError == s.f.lastError
  {
    if IsNative(a) {
      assert NativeStep(s, a).f == s.f;
    } else if s.segment.Between? {
      if a.RunReady? && s.ready != [] { HandlerIsLogged(s); }
      assert LoopStep(s, a).f.lastError == s.f.lastError;
    } else {
      assert SegmentStep(s, a).f.lastError == s.f.lastError;
    }
  }

  lemma HandlerIsLogged(s: System)
    requires s.ready != []
    ensures |RunHandler(s).log.ran| == |s.log.ran| + 1
  {
  }

  /** What a closed `recv` reports is the last error handled, if any. */
  lemma LastErrorIsKept(cap: int, threshold: nat, isOpen: bool, isClosed: bool, ready: seq<Handler>,
                        actions: seq<Action>)
    requires OnClosed in ready ==> isClosed
    ensures var r := Run(Init(cap, threshold, isOpen, isClosed, ready), actions);
            r.f.lastError == LastError(r.log.ran)
  {
    var inv := (t: System) => Consistent(t) && ErrorKept(t);
    forall t, a | inv(t) ensures inv(Step(t, a)) {
      StepConsistent(t, a);
      StepKeepsError(t, a);
    }
    RunInvariant(Init(cap, threshold, isOpen, isClosed, ready), actions, inv);
  }

  // ---- A run -------------------------------------------------------------

  /** A timed-out `wait_open` followed by the channel opening, and a timed-out `wait_closed`:
      everybody else sees the cancellation, on a live channel. */
  lemma TimeoutDecidesForAll(cap: int, threshold: nat)
    ensures var r := Run(Init(cap, threshold, false, false, []), TimeoutRun());
            && r.f.open == Cancelled && FromLoop(OnOpen) in r.log.ran
            && r.f.closed == Cancelled && r.native.live && !CloseRan(r) && !r.f.closeRequested
  {
    var s := Init(cap, threshold, false, false, []);
    TimeoutPasses(s);
    var ran := Run(s, TimeoutRun()).log.ran;
    assert ran == [OpenAwaiterCancelled, FromLoop(OnOpen), ClosedAwaiterCancelled];
    assert ran[1] == FromLoop(OnOpen);
    assert FromLoop(OnClosed) !in ran && FromDestroy(true) !in ran && FromDestroy(false) !in ran;
  }

  function TimeoutRun(): seq<Action> {
    [CancelOpenAwaiter, NativeOpen, RunReady, CancelClosedAwaiter]
  }

  function WithRan(s: System, ran: seq<Ran>): System {
    s.(log := s.log.(ran := ran))
  }

  lemma TimeoutPasses(s: System)
    requires s.segment.Between? && s.f.open.Pending? && s.f.closed.Pending? && s.native.live && s.ready == []
    ensures Run(s, TimeoutRun()) ==
            WithRan(s.(f := s.f.(open := Cancelled, closed := Cancelled)),
                    s.log.ran + [OpenAwaiterCancelled] + [FromLoop(OnOpen)] + [ClosedAwaiterCancelled])
  {
    var s1 := WithRan(s.(f := s.f.(open := Cancelled)), s.log.ran + [OpenAwaiterCancelled]);
    var s2 := s1.(ready := [OnOpen]);
    var s3 := WithRan(s1, s1.log.ran + [FromLoop(OnOpen)]);
    var s4 := WithRan(s3.(f := s3.f.(closed := Cancelled)), s3.log.ran + [ClosedAwaiterCancelled]);
    CutStep(s, s1);
    OpenSteps(s1, s2, s3);
    CutClosedStep(s3, s4);
    FourSteps(s, s1, s2, s3, s4);
  }

  lemma FourSteps(s0: System, s1: System, s2: System, s3: System, s4: System)
    requires Step(s0, CancelOpenAwaiter) == s1 && Step(s1, NativeOpen) == s2
    requires Step(s2, RunReady) == s3 && Step(s3, CancelClosedAwaiter) == s4
    ensures Run(s0, TimeoutRun()) == s4
  {
    RunPasses([s0, s1, s2, s3, s4], TimeoutRun());
  }

  lemma CutStep(s: System, s': System)
    requires s.segment.Between? && s.f.open.Pending?
    requires s' == WithRan(s.(f := s.f.(open := Cancelled)), s.log.ran + [OpenAwaiterCancelled])
    ensures Step(s, CancelOpenAwaiter) == s'
  {
    assert s.log.queueOps + [] == s.log.queueOps;
  }

  lemma CutClosedStep(s: System, s': System)
    requires s.segment.Between? && s.f.closed.Pending?
    requires s' == WithRan(s.(f := s.f.(closed := Cancelled)), s.log.ran + [ClosedAwaiterCancelled])
    ensures Step(s, CancelClosedAwaiter) == s'
  {
    assert s.log.queueOps + [] == s.log.queueOps;
  }

  lemma OpenSteps(s: System, s1: System, s2: System)
    requires s.segment.Between? && !s.f.open.Pending? && s.native.live && s.ready == []
    requires s1 == s.(ready := [OnOpen]) && s2 == WithRan(s, s.log.ran + [FromLoop(OnOpen)])
    ensures Step(s, NativeOpen) == s1 && Step(s1, RunReady) == s2
  {
    assert s.log.queueOps + [] == s.log.queueOps;
    assert LoopStep(s1, RunReady) == RunHandler(s1);
  }
}
