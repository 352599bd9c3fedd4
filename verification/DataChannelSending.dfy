/** Backpressure and close as the senders of a data channel see them. */
module DataChannelSending {
  import opened Wrappers
  import opened DataChannelModel

  // ---- What a sender decides ---------------------------------------------

  /** A new `send` raises exactly on a closed channel, parks exactly when it is to wait and
      the event is clear, and otherwise goes on to the native send. */
  lemma SendStartDecides(s: System, id: nat, waitForDrain: bool)
    requires s.segment.Between? && id !in s.senders
    ensures var r := Step(s, SendStart(id, waitForDrain));
            var closed := s.f.destroyed || s.native.closed;
            && (closed <==> id in r.senders && r.senders[id] == RaisedClosed)
            && (!closed && waitForDrain && !s.f.low <==> id in r.senders && r.senders[id] == Parked)
            && (!closed && (!waitForDrain || s.f.low) <==> r.segment == AtSend(id) && r.issued == s.issued + 1)
            && r == s.(senders := r.senders, segment := r.segment, issued := r.issued)
            && r.senders - {id} == s.senders
            && (r.segment != AtSend(id) ==> r.segment.Between? && r.issued == s.issued)
  {
  }

  /** A woken sender looks at the close flags only: it raises or goes on, and never parks
      again. */
  lemma SendResumeDecides(s: System, id: nat)
    requires s.segment.Between? && id in s.senders && s.senders[id].Woken?
    ensures var r := Step(s, SendResume(id));
            var closed := s.f.destroyed || s.native.closed;
            && (closed <==> r == s.(senders := s.senders[id := RaisedClosed]))
            && (!closed <==> r == s.(segment := AtSend(id), issued := s.issued + 1))
  {
  }

  /** A native send that fails, or finds the channel closed meanwhile, raises and touches
      neither the event nor the native buffer. */
  lemma FailedSendRaises(s: System, id: nat, grows: Option<nat>)
    requires s.segment == AtSend(id) && (grows.None? || s.native.closed)
    ensures Step(s, NativeSend(grows)) == s.(segment := Between, senders := s.senders[id := NativeFailed])
  {
  }

  // ---- No lost wakeup ----------------------------------------------------

  /** As long as a sender is parked something will still wake it. */
  predicate NoLostWakeup(s: System) {
    NoneParked(s) || WakeupDue(s)
  }

  lemma NoLostWakeupAtZero(s: System, actions: seq<Action>)
    requires s.native.threshold == 0 && Consistent(s) && Backpressure(s)
    ensures NoLostWakeup(Run(s, actions))
  {
    RunConsistent(s, actions);
    ThresholdIsFixed(s, actions);
  }

  /** Undisturbed by native threads, the rest of a `send` amounts to AfterSend. */
  lemma SendUndisturbed(s: System, id: nat, grows: nat)
    requires s.segment == AtSend(id) && !s.native.closed
    ensures Run(s, [NativeSend(Some(grows)), ReadAmount, ClearLow]) ==
            s.(f := AfterSend(s.f, s.native.buffered + grows),
               segment := Between,
               native := s.native.(buffered := s.native.buffered + grows),
               senders := s.senders[id := Sent])
  {
    SendSteps(s, id, grows);
    RunPasses([s, SentOut(s, id, grows), AmountRead(s, id, grows), SendDone(s, id, grows)],
              [NativeSend(Some(grows)), ReadAmount, ClearLow]);
  }

  function SentOut(s: System, id: nat, grows: nat): System {
    s.(native := s.native.(buffered := s.native.buffered + grows), segment := AtRead(id))
  }

  function AmountRead(s: System, id: nat, grows: nat): System {
    if s.f.low && s.native.buffered + grows > 0 then SentOut(s, id, grows).(segment := AtClear(id))
    else SendDone(s, id, grows)
  }

  function SendDone(s: System, id: nat, grows: nat): System {
    s.(f := AfterSend(s.f, s.native.buffered + grows),
       segment := Between,
       native := s.native.(buffered := s.native.buffered + grows),
       senders := s.senders[id := Sent])
  }

  lemma SendSteps(s: System, id: nat, grows: nat)
    requires s.segment == AtSend(id) && !s.native.closed
    ensures Step(s, NativeSend(Some(grows))) == SentOut(s, id, grows)
    ensures Step(SentOut(s, id, grows), ReadAmount) == AmountRead(s, id, grows)
    ensures Step(AmountRead(s, id, grows), ClearLow) == SendDone(s, id, grows)
  {
    assert SegmentStep(s, NativeSend(Some(grows))) == SentOut(s, id, grows);
    assert SegmentStep(SentOut(s, id, grows), ReadAmount) == AmountRead(s, id, grows);
  }

  lemma StartsSending(s: System, id: nat)
    requires s.segment.Between? && s.f.low && !SeesClosed(s) && id !in s.senders
    ensures Step(s, SendStart(id, true)) == ProceedToSend(s, id)
  {
  }

  lemma ParksUndrained(s: System, id: nat)
    requires s.segment.Between? && !s.f.low && !SeesClosed(s) && id !in s.senders
    ensures Step(s, SendStart(id, true)) == SetSender(s, id, Parked)
  {
  }

  lemma DrainsUnnoticed(s: System)
    requires 0 < s.native.buffered <= s.native.threshold
    ensures Step(s, NativeDrain(0)) == s.(native := s.native.(buffered := 0))
  {
  }

  /** A run that leaves a sender parked with nothing under way to wake it when the
      threshold is positive: one byte is sent and drained, which never crosses it. */
  function LostWakeupRun(): seq<Action> {
    [SendStart(0, true), NativeSend(Some(1)), ReadAmount, ClearLow, NativeDrain(0), SendStart(1, true)]
  }

  lemma LostWakeupPasses(s: System) returns (r: System)
    requires s.segment.Between? && s.f.low && !SeesClosed(s) && s.senders == map[]
    requires s.native.buffered == 0 && s.native.threshold > 0
    ensures r == Run(s, LostWakeupRun())
    ensures 1 in r.senders && r.senders[1].Parked?
    ensures r.native.buffered == 0 && r.ready == s.ready && r.segment.Between?
  {
    var s1 := ProceedToSend(s, 0);
    var s4 := SendDone(s1, 0, 1);
    var s5 := s4.(native := s4.native.(buffered := 0));
    StartsSending(s, 0);
    SendSteps(s1, 0, 1);
    DrainsUnnoticed(s4);
    ParksUndrained(s5, 1);
    r := SetSender(s5, 1, Parked);
    RunPasses([s, s1, SentOut(s1, 0, 1), AmountRead(s1, 0, 1), s4, s5, r], LostWakeupRun());
  }

  lemma LostWakeupAbove(threshold: nat, cap: int, isOpen: bool)
    requires threshold > 0
    ensures var r := Run(Init(cap, threshold, isOpen, false, []), LostWakeupRun());
            1 in r.senders && r.senders[1].Parked? && !WakeupDue(r)
  {
    var r := LostWakeupPasses(Init(cap, threshold, isOpen, false, []));
  }

  /** Backpressure is free of lost wakeups exactly when the low threshold is 0, because
      `send` tests for a positive amount rather than for one above the threshold. */
  lemma NoLostWakeupIffZeroThreshold(threshold: nat, cap: int)
    ensures threshold == 0 <==>
              forall isOpen, isClosed, ready: seq<Handler>, actions: seq<Action> ::
                Fits(isClosed, ready) ==> NoLostWakeup(Run(Init(cap, threshold, isOpen, isClosed, ready), actions))
  {
    if threshold == 0 {
      forall isOpen, isClosed, ready: seq<Handler>, actions: seq<Action> | Fits(isClosed, ready)
        ensures NoLostWakeup(Run(Init(cap, threshold, isOpen, isClosed, ready), actions))
      {
        NoLostWakeupAtZero(Init(cap, threshold, isOpen, isClosed, ready), actions);
      }
    } else {
      LostWakeupAbove(threshold, cap, false);
      assert Fits(false, []);
      var r := Run(Init(cap, threshold, false, false, []), LostWakeupRun());
      assert !NoLostWakeup(r) by {
        assert 1 in r.senders && r.senders[1].Parked?;
      }
    }
  }

  /** The loop empties its ready FIFO. */
  function RunAllReady(n: nat): seq<Action> {
    seq(n, i => RunReady)
  }

  lemma {:induction false} ReadyHandlersSetLow(s: System)
    requires s.segment.Between?
    requires s.f.low || OnBufferedLow in s.ready || OnClosed in s.ready
    ensures Run(s, RunAllReady(|s.ready|)).f.low
    ensures Run(s, RunAllReady(|s.ready|)).ready == []
    decreases |s.ready|
  {
    if s.ready != [] {
      var s' := Step(s, RunReady);
      assert RunAllReady(|s.ready|)[1..] == RunAllReady(|s'.ready|);
      ReadyHandlersSetLow(s');
    }
  }

  /** Liveness: from every reachable point between segments, once the native buffer has
      drained and the loop has run what is scheduled, no sender is left parked. */
  lemma DrainingWakesEverySender(s: System, actions: seq<Action>)
    requires s.native.threshold == 0 && Consistent(s) && Backpressure(s)
    requires Run(s, actions).segment.Between?
    ensures var drained := Step(Run(s, actions), NativeDrain(0));
            NoneParked(Run(drained, RunAllReady(|drained.ready|)))
  {
    RunConsistent(s, actions);
    ThresholdIsFixed(s, actions);
    var drained := Step(Run(s, actions), NativeDrain(0));
    StepConsistent(Run(s, actions), NativeDrain(0));
    StepBackpressure(Run(s, actions), NativeDrain(0));
    ReadyHandlersSetLow(drained);
    RunConsistent(drained, RunAllReady(|drained.ready|));
  }

  // ---- Send against close ------------------------------------------------

  /** No send is issued between `s` and `r`, and every sender that moved raised. */
  predicate ClosedFor(s: System, r: System) {
    && CloseRan(r) && r.issued == s.issued
    && forall id :: id in r.senders && (id !in s.senders || s.senders[id] != r.senders[id]) ==>
                      r.senders[id] == RaisedClosed
  }

  lemma RanGrows(s: System, r: System)
    requires CloseRan(s) && s.log.ran <= r.log.ran
    ensures CloseRan(r)
  {
    assert forall x :: x in s.log.ran ==> x in r.log.ran;
  }

  lemma NativeAfterClose(s: System, a: Action)
    requires Consistent(s) && CloseRan(s)
    ensures ClosedFor(s, NativeStep(s, a))
  {
  }

  lemma LoopAfterClose(s: System, a: Action)
    requires Consistent(s) && CloseRan(s) && s.segment.Between?
    ensures ClosedFor(s, LoopStep(s, a))
  {
    RanGrows(s, LoopStep(s, a));
  }

  lemma SegmentAfterClose(s: System, a: Action)
    requires Consistent(s) && CloseRan(s)
    ensures ClosedFor(s, SegmentStep(s, a))
  {
    RanGrows(s, SegmentStep(s, a));
  }

  lemma StepAfterClose(s: System, a: Action)
    requires Consistent(s) && CloseRan(s)
    ensures ClosedFor(s, Step(s, a))
  {
    if IsNative(a) {
      NativeAfterClose(s, a);
    } else if s.segment.Between? {
      LoopAfterClose(s, a);
    } else {
      SegmentAfterClose(s, a);
    }
  }

  /** A woken sender's next step, and a new `send`, is to raise. */
  predicate EverySenderRaises(s: System, id: nat, waitForDrain: bool) {
    && (id in s.senders && s.senders[id].Woken? ==> Step(s, SendResume(id)).senders[id] == RaisedClosed)
    && (id !in s.senders ==>
          id in Step(s, SendStart(id, waitForDrain)).senders
          && Step(s, SendStart(id, waitForDrain)).senders[id] == RaisedClosed)
  }

  lemma SendersRaiseAfterClose(s: System, id: nat, waitForDrain: bool)
    requires Consistent(s) && CloseRan(s) && s.segment.Between?
    ensures EverySenderRaises(s, id, waitForDrain)
  {
  }

  /** Once a close handler has run the drain event is set for good, no native send is ever
      issued again, no sender parks, whatever a sender did since was to raise
      `ConnectionClosedError`, and whatever it does next is that too. */
  lemma {:induction false} ClosedForSenders(s: System, actions: seq<Action>, id: nat, waitForDrain: bool)
    requires Consistent(s) && CloseRan(s)
    ensures var r := Run(s, actions);
            && r.f.low && r.issued == s.issued && NoneParked(r)
            && (forall i :: i in r.senders && (i !in s.senders || s.senders[i] != r.senders[i]) ==>
                              r.senders[i] == RaisedClosed)
            && (r.segment.Between? ==> EverySenderRaises(r, id, waitForDrain))
    decreases |actions|
  {
    if actions != [] {
      StepConsistent(s, actions[0]);
      StepAfterClose(s, actions[0]);
      ClosedForSenders(Step(s, actions[0]), actions[1..], id, waitForDrain);
    } else if s.segment.Between? {
      SendersRaiseAfterClose(s, id, waitForDrain);
    }
  }
}
