/** Owned tasks, teardown and what `aclose` waits for. */
module DataChannelTeardown {
  import opened DataChannelModel
  import opened DataChannelFutures

  // ---- Owned tasks and teardown ------------------------------------------

  predicate TeardownTracked(s: System) {
    && (DestroySegment(s.segment) ==> s.f.destroyed)
    && (s.f.closeRequested <==> !s.tasks.teardown.NotStarted?)
    && s.tasks.teardowns == (if s.f.closeRequested then 1 else 0)
    && (s.tasks.teardown.Destroying? <==> DestroySegment(s.segment) && s.segment.byTeardown)
    && (s.tasks.teardown.Finished? ==> s.f.destroyed && !DestroySegment(s.segment))
  }

  predicate TeardownRecorded(s: System) {
    FromDestroy(true) in s.log.ran ==> s.tasks.teardown.Finished?
  }

  predicate TasksTracked(s: System) {
    && s.tasks.running <= s.tasks.owned
    && (s.tasks.teardown.Gathering? ==> s.tasks.running <= s.tasks.teardown.awaited)
    && (s.tasks.teardown.Destroying? || s.tasks.teardown.Finished? ==> s.tasks.running == {})
  }

  lemma NativeTeardownTracked(s: System, a: Action)
    requires TeardownTracked(s)
    ensures TeardownTracked(NativeStep(s, a))
  {
  }

  lemma LoopTeardownTracked(s: System, a: Action)
    requires TeardownTracked(s) && s.segment.Between?
    ensures TeardownTracked(LoopStep(s, a))
  {
  }

  lemma SegmentTeardownTracked(s: System, a: Action)
    requires TeardownTracked(s)
    ensures TeardownTracked(SegmentStep(s, a))
  {
  }

  lemma StepTeardownTracked(s: System, a: Action)
    requires TeardownTracked(s)
    ensures TeardownTracked(Step(s, a))
  {
    if IsNative(a) {
      NativeTeardownTracked(s, a);
    } else if s.segment.Between? {
      LoopTeardownTracked(s, a);
    } else {
      SegmentTeardownTracked(s, a);
    }
  }

  lemma CancelRecorded(s: System, a: Action)
    requires TeardownRecorded(s) && IsCancel(a)
    ensures TeardownRecorded(Step(s, a))
  {
    if s.segment.Between? {
      CancelFrame(s, a);
      assert LoopStep(s, a).tasks.teardown == s.tasks.teardown || !s.tasks.teardown.Finished?;
    }
  }

  lemma StepTeardownRecorded(s: System, a: Action)
    requires TeardownTracked(s) && TeardownRecorded(s)
    ensures TeardownRecorded(Step(s, a))
  {
    var s' := Step(s, a);
    if s.segment.Between? && a.RunReady? && s.ready != [] {
      assert FromDestroy(true) in s'.log.ran <==> FromDestroy(true) in s.log.ran;
    } else if s.segment.AtFinish? && a.FinishDestroy? {
      assert s'.tasks.teardown == if s.segment.byTeardown then Finished else s.tasks.teardown;
    } else if IsCancel(a) {
      CancelRecorded(s, a);
    } else {
      OtherStepsKeepRan(s, a);
      assert s.tasks.teardown.Finished? ==> s'.tasks.teardown.Finished?;
    }
  }

  lemma LoopTasksTracked(s: System, a: Action)
    requires TeardownTracked(s) && TasksTracked(s) && s.segment.Between?
    ensures TasksTracked(LoopStep(s, a))
  {
  }

  lemma SegmentTasksTracked(s: System, a: Action)
    requires TeardownTracked(s) && TasksTracked(s)
    ensures TasksTracked(SegmentStep(s, a))
  {
  }

  lemma StepTasksTracked(s: System, a: Action)
    requires TeardownTracked(s) && TasksTracked(s)
    ensures TasksTracked(Step(s, a))
  {
    if IsNative(a) {
      assert NativeStep(s, a).tasks == s.tasks;
    } else if s.segment.Between? {
      LoopTasksTracked(s, a);
    } else {
      SegmentTasksTracked(s, a);
    }
  }

  lemma RunTasksTracked(s: System, actions: seq<Action>)
    requires TeardownTracked(s) && TeardownRecorded(s) && TasksTracked(s)
    ensures TeardownTracked(Run(s, actions)) && TeardownRecorded(Run(s, actions)) && TasksTracked(Run(s, actions))
  {
    var inv := (t: System) => TeardownTracked(t) && TeardownRecorded(t) && TasksTracked(t);
    forall t, a | inv(t) ensures inv(Step(t, a)) {
      StepTeardownTracked(t, a);
      StepTeardownRecorded(t, a);
      StepTasksTracked(t, a);
    }
    RunInvariant(s, actions, inv);
  }

  /** Over every run: `close` starts one teardown at most, the native handle is deleted at
      most once, and a finished teardown leaves no owned task running and the handle
      deleted.  A resolved closed slot means the same unless something else resolved it. */
  lemma TeardownBarrier(cap: int, threshold: nat, isOpen: bool, isClosed: bool, ready: seq<Handler>,
                        actions: seq<Action>)
    requires OnClosed in ready ==> isClosed
    ensures var r := Run(Init(cap, threshold, isOpen, isClosed, ready), actions);
            && r.tasks.teardowns <= 1 && r.native.deletes <= 1
            && (r.tasks.teardown.Finished? ==> r.tasks.running == {} && r.native.deletes == 1)
            && (!r.f.closed.Pending? ==>
                  isClosed || FromLoop(OnClosed) in r.log.ran || FromDestroy(false) in r.log.ran
                  || ClosedAwaiterCancelled in r.log.ran || TeardownGaveUp in r.log.ran
                  || (r.tasks.teardown.Finished? && r.tasks.running == {} && r.native.deletes == 1))
  {
    var s := Init(cap, threshold, isOpen, isClosed, ready);
    RunConsistent(s, actions);
    RunTasksTracked(s, actions);
    FuturesLatch(cap, threshold, isOpen, isClosed, ready, actions);
  }

  // ---- When `aclose` is a barrier ----------------------------------------

  predicate TornDown(s: System) {
    s.tasks.running == {} && s.native.deletes == 1
  }

  /** `aclose` returns here only to a channel that is torn down. */
  predicate BarrierHolds(s: System) {
    s.f.closeRequested && !s.f.closed.Pending? ==> TornDown(s)
  }

  predicate BarrierThroughout(s: System, actions: seq<Action>)
    decreases |actions|
  {
    BarrierHolds(s) && (actions == [] || BarrierThroughout(Step(s, actions[0]), actions[1..]))
  }

  /** The steps that let `aclose` return early. */
  predicate OpensEarly(s: System, a: Action) {
    match a
    case RequestClose =>       // the slot was resolved before, with a task or the handle left
      s.segment.Between? && !s.f.closeRequested && !s.f.closed.Pending? && !TornDown(s)
    case RunReady =>           // the native close is handled first
      s.segment.Between? && s.ready != [] && s.ready[0].OnClosed? && AwaitsTeardown(s)
    case CancelClosedAwaiter => // another awaiter is cancelled
      s.segment.Between? && AwaitsTeardown(s)
    case CancelTeardown =>     // the teardown is cancelled while it gathers
      s.segment.Between? && AwaitsTeardown(s)
      && s.tasks.teardown.Gathering? && s.tasks.teardown.awaited !! s.tasks.running
    case FinishDestroy =>      // the owner destroyed the channel under running tasks
      s.segment == AtFinish(false) && AwaitsTeardown(s) && s.tasks.running != {}
    case _ => false
  }

  predicate AwaitsTeardown(s: System) {
    s.f.closeRequested && s.f.closed.Pending?
  }

  predicate NeverOpensEarly(s: System, actions: seq<Action>)
    decreases |actions|
  {
    actions == [] || (!OpensEarly(s, actions[0]) && NeverOpensEarly(Step(s, actions[0]), actions[1..]))
  }

  predicate TeardownInv(s: System) {
    Consistent(s) && TeardownTracked(s) && TasksTracked(s)
  }

  lemma StepTeardownInv(s: System, a: Action)
    requires TeardownInv(s)
    ensures TeardownInv(Step(s, a))
  {
    StepConsistent(s, a);
    StepTeardownTracked(s, a);
    StepTasksTracked(s, a);
  }

  lemma NativeBarrier(s: System, a: Action)
    requires TeardownInv(s) && BarrierHolds(s) && IsNative(a)
    ensures BarrierHolds(NativeStep(s, a)) <==> !OpensEarly(s, a)
  {
  }

  lemma LoopBarrier(s: System, a: Action)
    requires TeardownInv(s) && BarrierHolds(s) && s.segment.Between? && !IsNative(a)
    ensures BarrierHolds(LoopStep(s, a)) <==> !OpensEarly(s, a)
  {
    if AwaitsTeardown(s) {
      assert s.native.deletes == 0;
    }
  }

  lemma SegmentBarrier(s: System, a: Action)
    requires TeardownInv(s) && BarrierHolds(s) && !s.segment.Between? && !IsNative(a)
    ensures BarrierHolds(SegmentStep(s, a)) <==> !OpensEarly(s, a)
  {
  }

  lemma StepBarrier(s: System, a: Action)
    requires TeardownInv(s) && BarrierHolds(s)
    ensures BarrierHolds(Step(s, a)) <==> !OpensEarly(s, a)
  {
    if IsNative(a) {
      NativeBarrier(s, a);
    } else if s.segment.Between? {
      LoopBarrier(s, a);
    } else {
      SegmentBarrier(s, a);
    }
  }

  lemma {:induction false} RunBarrierIff(s: System, actions: seq<Action>)
    requires TeardownInv(s) && BarrierHolds(s)
    ensures BarrierThroughout(s, actions) <==> NeverOpensEarly(s, actions)
    decreases |actions|
  {
    if actions != [] {
      var s' := Step(s, actions[0]);
      StepTeardownInv(s, actions[0]);
      StepBarrier(s, actions[0]);
      if BarrierHolds(s') { RunBarrierIff(s', actions[1..]); }
    }
  }

  /** Whenever `aclose` may return, every owned task is done and the handle is deleted:
      throughout a run exactly when none of the five steps of OpensEarly occurs in it. */
  lemma AcloseIsBarrierIff(cap: int, threshold: nat, isOpen: bool, isClosed: bool, ready: seq<Handler>,
                           actions: seq<Action>)
    requires OnClosed in ready ==> isClosed
    ensures var s := Init(cap, threshold, isOpen, isClosed, ready);
            BarrierThroughout(s, actions) <==> NeverOpensEarly(s, actions)
  {
    RunBarrierIff(Init(cap, threshold, isOpen, isClosed, ready), actions);
  }

  // ---- When `wait_closed` is a barrier -----------------------------------

  /** `wait_closed` returns here only for a channel that is torn down. */
  predicate ClosedMeansTornDown(s: System) {
    !s.f.closed.Pending? ==> TornDown(s)
  }

  predicate TornDownThroughout(s: System, actions: seq<Action>)
    decreases |actions|
  {
    ClosedMeansTornDown(s) && (actions == [] || TornDownThroughout(Step(s, actions[0]), actions[1..]))
  }

  /** The steps after which `wait_closed` may have returned on a channel that is not torn
      down. */
  predicate ReportsEarly(s: System, a: Action) {
    match a
    case RunReady =>            // the native close is handled before the teardown
      s.segment.Between? && s.ready != [] && s.ready[0].OnClosed? && s.f.closed.Pending?
    case CancelClosedAwaiter => // another awaiter is cancelled
      s.segment.Between? && s.f.closed.Pending?
    case CancelTeardown =>      // the teardown is cancelled while it gathers
      s.segment.Between? && s.f.closed.Pending?
      && s.tasks.teardown.Gathering? && s.tasks.teardown.awaited !! s.tasks.running
    case FinishDestroy =>       // the owner destroyed the channel under running tasks
      s.segment == AtFinish(false) && s.f.closed.Pending? && s.tasks.running != {}
    case SpawnTask(task) =>     // nobody asked the channel to close, so it still takes tasks
      s.segment.Between? && !s.f.closed.Pending? && !s.f.closeRequested
      && task !in s.tasks.owned && task !in s.tasks.running
    case _ => false
  }

  predicate NeverReportsEarly(s: System, actions: seq<Action>)
    decreases |actions|
  {
    actions == [] || (!ReportsEarly(s, actions[0]) && NeverReportsEarly(Step(s, actions[0]), actions[1..]))
  }

  lemma NativeReports(s: System, a: Action)
    requires TeardownInv(s) && ClosedMeansTornDown(s) && IsNative(a)
    ensures ClosedMeansTornDown(NativeStep(s, a)) <==> !ReportsEarly(s, a)
  {
  }

  lemma LoopReports(s: System, a: Action)
    requires TeardownInv(s) && ClosedMeansTornDown(s) && s.segment.Between? && !IsNative(a)
    ensures ClosedMeansTornDown(LoopStep(s, a)) <==> !ReportsEarly(s, a)
  {
    if a.SpawnTask? && ReportsEarly(s, a) {
      assert a.task in LoopStep(s, a).tasks.running;
    }
  }

  lemma SegmentReports(s: System, a: Action)
    requires TeardownInv(s) && ClosedMeansTornDown(s) && !s.segment.Between? && !IsNative(a)
    ensures ClosedMeansTornDown(SegmentStep(s, a)) <==> !ReportsEarly(s, a)
  {
  }

  lemma StepReports(s: System, a: Action)
    requires TeardownInv(s) && ClosedMeansTornDown(s)
    ensures ClosedMeansTornDown(Step(s, a)) <==> !ReportsEarly(s, a)
  {
    if IsNative(a) {
      NativeReports(s, a);
    } else if s.segment.Between? {
      LoopReports(s, a);
    } else {
      SegmentReports(s, a);
    }
  }

  lemma {:induction false} RunReportsIff(s: System, actions: seq<Action>)
    requires TeardownInv(s) && ClosedMeansTornDown(s)
    ensures TornDownThroughout(s, actions) <==> NeverReportsEarly(s, actions)
    decreases |actions|
  {
    if actions != [] {
      var s' := Step(s, actions[0]);
      StepTeardownInv(s, actions[0]);
      StepReports(s, actions[0]);
      if ClosedMeansTornDown(s') { RunReportsIff(s', actions[1..]); }
    }
  }

  /** `wait_closed` is documented to block until teardown is complete: whenever the slot is
      resolved every owned task is done and the handle is deleted, throughout a run, exactly
      when the channel was not closed from the start and none of the five steps of
      ReportsEarly occurs. */
  lemma WaitClosedIsBarrierIff(cap: int, threshold: nat, isOpen: bool, isClosed: bool, ready: seq<Handler>,
                               actions: seq<Action>)
    requires OnClosed in ready ==> isClosed
    ensures var s := Init(cap, threshold, isOpen, isClosed, ready);
            TornDownThroughout(s, actions) <==> !isClosed && NeverReportsEarly(s, actions)
  {
    var s := Init(cap, threshold, isOpen, isClosed, ready);
    if !isClosed { RunReportsIff(s, actions); }
  }

  /** A remote close resolves the slot `aclose` waits for while an owned task still runs
      and the native handle still exists. */
  lemma RemoteCloseOpensTheBarrier(cap: int, threshold: nat, task: nat)
    ensures var r := Run(Init(cap, threshold, true, false, []), [SpawnTask(task), NativeClose, RunReady, RequestClose]);
            && r.f.closeRequested && !r.f.closed.Pending?
            && task in r.tasks.running && r.native.live && r.tasks.teardown.Scheduled?
  {
    var s0 := Init(cap, threshold, true, false, []);
    var s1 := s0.(tasks := Tasks({task}, {task}, NotStarted, 0));
    var s2 := s1.(native := s1.native.(closed := true), ready := [OnClosed]);
    var s3 := RunHandler(s2);
    assert LoopStep(s0, SpawnTask(task)) == s1;
    assert NativeStep(s1, NativeClose) == s2;
    HandlesClose(s2);
    ClosesAfterwards(s3);
    RunPasses([s0, s1, s2, s3, LoopStep(s3, RequestClose)], [SpawnTask(task), NativeClose, RunReady, RequestClose]);
  }

  lemma HandlesClose(s: System)
    requires s.segment.Between? && s.ready == [OnClosed]
    ensures Step(s, RunReady) == RunHandler(s)
    ensures var r := RunHandler(s);
            r.segment.Between? && !r.f.closed.Pending? && r.f.closeRequested == s.f.closeRequested
            && r.native == s.native && r.tasks == s.tasks
  {
  }

  lemma ClosesAfterwards(s: System)
    requires s.segment.Between? && !s.f.closed.Pending? && !s.f.closeRequested
    ensures var r := LoopStep(s, RequestClose);
            && Step(s, RequestClose) == r
            && r.f.closeRequested && !r.f.closed.Pending? && r.native == s.native
            && r.tasks == s.tasks.(teardown := Scheduled, teardowns := s.tasks.teardowns + 1)
  {
  }

  // ---- Progress ----------------------------------------------------------

  const TEARDOWN_TURNS := [TeardownRuns, TeardownRuns, NativeDelete, FinishDestroy]

  /** The teardown's first turns: it gathers, or goes on at once. */
  lemma TwoTurnsDestroy(s: System)
    requires TeardownInv(s) && s.segment.Between? && s.f.closeRequested && s.tasks.running == {}
    requires !s.tasks.teardown.Abandoned?
    ensures var r := Step(Step(s, TeardownRuns), TeardownRuns);
            && r.f.closeRequested
            && (r.segment == AtDelete(true) || (r.segment.Between? && r.tasks.teardown.Finished?))
  {
    if s.tasks.teardown.Scheduled? && s.tasks.owned != {} {
      var gathering := s.(tasks := s.tasks.(teardown := Gathering(s.tasks.owned)));
      assert LoopStep(s, TeardownRuns) == gathering;
      assert LoopStep(gathering, TeardownRuns) == BeginDestroy(gathering, true);
    } else if s.tasks.teardown.Finished? {
      assert LoopStep(s, TeardownRuns) == s;
    } else {
      assert LoopStep(s, TeardownRuns) == BeginDestroy(s, true);
      BegunStays(BeginDestroy(s, true));
    }
  }

  lemma BegunStays(s: System)
    requires s.segment == AtDelete(true) || (s.segment.Between? && s.tasks.teardown.Finished?)
    ensures Step(s, TeardownRuns) == s
  {
  }

  lemma DeletionFinishes(s: System)
    requires TeardownInv(s)
    requires s.segment == AtDelete(true) || (s.segment.Between? && s.tasks.teardown.Finished?)
    ensures Step(Step(s, NativeDelete), FinishDestroy).tasks.teardown.Finished?
  {
  }

  lemma TurnsFinish(s: System)
    requires TeardownInv(s) && s.segment.Between? && s.f.closeRequested && s.tasks.running == {}
    requires !s.tasks.teardown.Abandoned?
    ensures TeardownInv(Run(s, TEARDOWN_TURNS)) && Run(s, TEARDOWN_TURNS).tasks.teardown.Finished?
  {
    var s1 := Step(s, TeardownRuns);
    var s2 := Step(s1, TeardownRuns);
    var s3 := Step(s2, NativeDelete);
    TwoTurnsDestroy(s);
    StepTeardownInv(s, TeardownRuns);
    StepTeardownInv(s1, TeardownRuns);
    DeletionFinishes(s2);
    StepTeardownInv(s2, NativeDelete);
    StepTeardownInv(s3, FinishDestroy);
    RunPasses([s, s1, s2, s3, Step(s3, FinishDestroy)], TEARDOWN_TURNS);
  }

  /** The owner's destroy needs only its own steps: it deletes the handle once, leaves both
      futures done and the event set, and is idempotent. */
  lemma OwnerDestroyCompletes(s: System)
    requires TeardownInv(s) && s.segment.Between?
    ensures var r := Run(s, [OwnerDestroys, NativeDelete, FinishDestroy]);
            && r.segment.Between? && r.f.destroyed && r.native.deletes == 1 && !r.native.live
            && !r.f.open.Pending? && !r.f.closed.Pending? && r.f.low && NoneParked(r)
            && (s.f.destroyed ==> r == s)
  {
    var s1 := Step(s, OwnerDestroys);
    var s2 := Step(s1, NativeDelete);
    var s3 := Step(s2, FinishDestroy);
    RunPasses([s, s1, s2, s3], [OwnerDestroys, NativeDelete, FinishDestroy]);
    StepTeardownInv(s, OwnerDestroys);
    StepTeardownInv(s1, NativeDelete);
    StepTeardownInv(s2, FinishDestroy);
    OwnerSteps(s);
  }

  lemma OwnerSteps(s: System)
    requires TeardownInv(s) && s.segment.Between?
    ensures var s1 := Step(s, OwnerDestroys);
            var s3 := Step(Step(s1, NativeDelete), FinishDestroy);
            s3.segment.Between? && s3.f.destroyed && (s.f.destroyed ==> s3 == s)
  {
    if !s.f.destroyed {
      assert LoopStep(s, OwnerDestroys).segment == AtDelete(false);
    } else {
      assert LoopStep(s, OwnerDestroys) == s;
    }
  }

  /** Progress: from every reachable point between segments, once close was requested and
      the owned tasks are done, the teardown needs only its own turns to finish; then the
      slot is resolved and the channel torn down. */
  lemma TeardownCompletes(cap: int, threshold: nat, isOpen: bool, isClosed: bool, ready: seq<Handler>,
                          actions: seq<Action>)
    requires OnClosed in ready ==> isClosed
    requires var r := Run(Init(cap, threshold, isOpen, isClosed, ready), actions);
             && r.segment.Between? && r.f.closeRequested && r.tasks.running == {}
             && !r.tasks.teardown.Abandoned?
    ensures var r := Run(Run(Init(cap, threshold, isOpen, isClosed, ready), actions), TEARDOWN_TURNS);
            r.tasks.teardown.Finished? && !r.f.closed.Pending? && TornDown(r)
  {
    var s := Init(cap, threshold, isOpen, isClosed, ready);
    RunTeardownInv(s, actions);
    TurnsFinish(Run(s, actions));
    FinishedIsTornDown(Run(Run(s, actions), TEARDOWN_TURNS));
  }

  lemma FinishedIsTornDown(s: System)
    requires TeardownInv(s) && s.tasks.teardown.Finished?
    ensures TornDown(s) && !s.f.closed.Pending?
  {
  }

  lemma RunTeardownInv(s: System, actions: seq<Action>)
    requires TeardownInv(s)
    ensures TeardownInv(Run(s, actions))
  {
    forall t, a | TeardownInv(t) ensures TeardownInv(Step(t, a)) { StepTeardownInv(t, a); }
    RunInvariant(s, actions, TeardownInv);
  }

  // ---- Whether `aclose` returns by itself --------------------------------

  /** The teardown is cancelled before its first turn. */
  predicate Strands(s: System, a: Action) {
    a.CancelTeardown? && s.segment.Between? && s.tasks.teardown.Scheduled?
  }

  predicate NeverStrands(s: System, actions: seq<Action>)
    decreases |actions|
  {
    actions == [] || (!Strands(s, actions[0]) && NeverStrands(Step(s, actions[0]), actions[1..]))
  }

  /** What the tasks, the teardown and the segments under way do by themselves: no native
      event, no owner and no further cancellation. */
  predicate OwnTurn(a: Action) {
    a.TaskEnds? || a.TeardownRuns? || a.NativeDelete? || a.FinishDestroy?
  }

  predicate OwnTurns(actions: seq<Action>) {
    forall i :: 0 <= i < |actions| ==> OwnTurn(actions[i])
  }

  predicate Stranded(s: System) {
    s.tasks.teardown.Abandoned? && s.f.closed.Pending?
  }

  lemma LoopStrands(s: System, a: Action)
    requires TeardownInv(s) && s.segment.Between? && !IsNative(a)
    ensures LoopStep(s, a).tasks.teardown.Abandoned? && !s.tasks.teardown.Abandoned? ==>
              Strands(s, a) || !LoopStep(s, a).f.closed.Pending?
    ensures Strands(s, a) || s.tasks.teardown.Abandoned? ==> LoopStep(s, a).tasks.teardown.Abandoned?
    ensures !s.f.closed.Pending? ==> !LoopStep(s, a).f.closed.Pending?
  {
  }

  lemma SegmentStrands(s: System, a: Action)
    requires TeardownInv(s) && !s.segment.Between? && !IsNative(a)
    ensures s.tasks.teardown.Abandoned? <==> SegmentStep(s, a).tasks.teardown.Abandoned?
    ensures !s.f.closed.Pending? ==> !SegmentStep(s, a).f.closed.Pending?
  {
  }

  lemma StepStrands(s: System, a: Action)
    requires TeardownInv(s)
    ensures Step(s, a).tasks.teardown.Abandoned? && !s.tasks.teardown.Abandoned? ==>
              Strands(s, a) || !Step(s, a).f.closed.Pending?
    ensures Strands(s, a) || s.tasks.teardown.Abandoned? ==> Step(s, a).tasks.teardown.Abandoned?
    ensures !s.f.closed.Pending? ==> !Step(s, a).f.closed.Pending?
  {
    if IsNative(a) {
      assert NativeStep(s, a).tasks == s.tasks && NativeStep(s, a).f == s.f;
    } else if s.segment.Between? {
      LoopStrands(s, a);
    } else {
      SegmentStrands(s, a);
    }
  }

  /** A run that starts unstranded ends with a pending slot and an abandoned teardown only
      if some cancellation came before the first turn, and then the teardown is abandoned. */
  lemma {:induction false} RunStrands(s: System, actions: seq<Action>)
    requires TeardownInv(s)
    ensures !Stranded(s) && Stranded(Run(s, actions)) ==> !NeverStrands(s, actions)
    ensures s.tasks.teardown.Abandoned? || !NeverStrands(s, actions) ==> Run(s, actions).tasks.teardown.Abandoned?
    ensures !s.f.closed.Pending? ==> !Run(s, actions).f.closed.Pending?
    decreases |actions|
  {
    if actions != [] {
      StepTeardownInv(s, actions[0]);
      StepStrands(s, actions[0]);
      RunStrands(Step(s, actions[0]), actions[1..]);
    }
  }

  /** The steps that resolve the slot of an abandoned teardown: somebody else's. */
  predicate Resolves(s: System, a: Action) {
    match a
    case RunReady => s.segment.Between? && s.ready != [] && s.ready[0].OnClosed?
    case CancelClosedAwaiter => s.segment.Between?
    case FinishDestroy => s.segment.AtFinish?
    case _ => false
  }

  predicate NobodyResolves(s: System, actions: seq<Action>)
    decreases |actions|
  {
    actions == [] || (!Resolves(s, actions[0]) && NobodyResolves(Step(s, actions[0]), actions[1..]))
  }

  lemma StrandedStep(s: System, a: Action)
    requires TeardownInv(s) && Stranded(s)
    ensures Stranded(Step(s, a)) <==> !Resolves(s, a)
  {
    StepStrands(s, a);
    if IsNative(a) {
      assert NativeStep(s, a).f == s.f;
    } else if s.segment.Between? {
      assert LoopStep(s, a).f.closed.Pending? <==> !Resolves(s, a);
    } else {
      assert SegmentStep(s, a).f.closed.Pending? <==> !Resolves(s, a);
    }
  }

  /** After a cancellation before the first turn, a pending slot is resolved exactly when a
      close handler runs, a destroy begun by the owner ends, or another awaiter is
      cancelled: never by the teardown. */
  lemma {:induction false} StrandedResolvedIff(s: System, actions: seq<Action>)
    requires TeardownInv(s) && Stranded(s)
    ensures Run(s, actions).f.closed.Pending? <==> NobodyResolves(s, actions)
    decreases |actions|
  {
    if actions != [] {
      var s' := Step(s, actions[0]);
      StepTeardownInv(s, actions[0]);
      StrandedStep(s, actions[0]);
      if Stranded(s') {
        StrandedResolvedIff(s', actions[1..]);
      } else {
        StepStrands(s, actions[0]);
        RunStrands(s', actions[1..]);
      }
    }
  }

  lemma OwnTurnIdles(s: System, a: Action)
    requires TeardownInv(s) && Stranded(s) && s.segment.Between? && OwnTurn(a)
    ensures Stranded(Step(s, a)) && Step(s, a).segment.Between?
  {
    assert LoopStep(s, a).f == s.f && LoopStep(s, a).segment == s.segment;
  }

  lemma {:induction false} OwnTurnsIdle(s: System, more: seq<Action>)
    requires TeardownInv(s) && Stranded(s) && s.segment.Between? && OwnTurns(more)
    ensures Stranded(Run(s, more))
    decreases |more|
  {
    if more != [] {
      assert OwnTurn(more[0]);
      assert forall i :: 0 <= i < |more[1..]| ==> more[1..][i] == more[i + 1];
      OwnTurnIdles(s, more[0]);
      StepTeardownInv(s, more[0]);
      OwnTurnsIdle(Step(s, more[0]), more[1..]);
    }
  }

  /** Every running task ends. */
  lemma {:induction false} TasksEnd(s: System) returns (more: seq<Action>)
    requires s.segment.Between?
    ensures OwnTurns(more)
    ensures Run(s, more) == s.(tasks := s.tasks.(running := {}))
    decreases |s.tasks.running|
  {
    if s.tasks.running == {} {
      more := [];
    } else {
      var id :| id in s.tasks.running;
      var s' := s.(tasks := s.tasks.(running := s.tasks.running - {id}));
      assert LoopStep(s, TaskEnds(id)) == s';
      var rest := TasksEnd(s');
      more := [TaskEnds(id)] + rest;
      assert more[1..] == rest;
    }
  }

  lemma TornDownByItself(s: System) returns (more: seq<Action>)
    requires TeardownInv(s) && s.segment.Between? && s.f.closeRequested && !s.tasks.teardown.Abandoned?
    ensures OwnTurns(more) && !Run(s, more).f.closed.Pending?
  {
    var ends := TasksEnd(s);
    RunTeardownInv(s, ends);
    TurnsFinish(Run(s, ends));
    FinishedIsTornDown(Run(Run(s, ends), TEARDOWN_TURNS));
    RunConcat(s, ends, TEARDOWN_TURNS);
    more := ends + TEARDOWN_TURNS;
  }

  /** `aclose` returns without help, from every reachable point between segments at which
      close was requested: with only the tasks' and the teardown's own turns the slot gets
      resolved exactly when it already is, or no cancellation hit the teardown before its
      first turn. */
  lemma AcloseReturnsByItselfIff(cap: int, threshold: nat, isOpen: bool, isClosed: bool, ready: seq<Handler>,
                                 actions: seq<Action>)
    requires OnClosed in ready ==> isClosed
    requires var r := Run(Init(cap, threshold, isOpen, isClosed, ready), actions);
             r.segment.Between? && r.f.closeRequested
    ensures var s := Init(cap, threshold, isOpen, isClosed, ready);
            var r := Run(s, actions);
            (exists more :: OwnTurns(more) && !Run(r, more).f.closed.Pending?) <==>
            !r.f.closed.Pending? || NeverStrands(s, actions)
  {
    var s := Init(cap, threshold, isOpen, isClosed, ready);
    RunTeardownInv(s, actions);
    RunStrands(s, actions);
    ReturnsByItself(Run(s, actions));
  }

  lemma ReturnsByItself(r: System)
    requires TeardownInv(r) && r.segment.Between? && r.f.closeRequested
    ensures (exists more :: OwnTurns(more) && !Run(r, more).f.closed.Pending?) <==> !Stranded(r)
  {
    if Stranded(r) {
      forall more | OwnTurns(more) ensures Run(r, more).f.closed.Pending? {
        OwnTurnsIdle(r, more);
      }
    } else if !r.f.closed.Pending? {
      assert OwnTurns([]) && Run(r, []) == r;
    } else {
      var more := TornDownByItself(r);
    }
  }
}
