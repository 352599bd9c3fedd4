/** Shutdown of a peer connection: `close`, `aclose`, owned tasks, the channels it keeps,
    the sweep and the native deletion on an executor thread, in any interleaving. */
module Shutdown {

  /** A channel the connection keeps; it may also be closed and torn down on its own. */
  datatype Channel = Channel(destroyed: bool, closeRequested: bool, deletes: nat)

  datatype Teardown =
    | NotStarted
    | Scheduled
    | Gathering(awaited: set<nat>)
    | Deleting           // channels swept, waiting for the executor
    | Finished
    | Cancelled

  datatype Waiter = Waiting | Returned

  datatype State = State(
    closed: bool,
    closedEvent: bool,
    teardown: Teardown,
    teardowns: nat,                 // history: teardown tasks created
    owned: set<nat>,                // _tasks
    running: set<nat>,
    spawned: set<nat>,              // history
    channels: seq<Channel>,         // _data_channels, only ever appended to
    atClose: nat,                   // history: how many there were when `close` ran
    swept: nat,                     // history: how many of them the sweep saw
    nativeDeletes: nat,
    jobPending: bool,               // native.destroy is with the executor
    waiters: map<nat, Waiter>)      // aclose calls

  datatype Action =
    | Spawn(task: nat)
    | TaskEnds(task: nat)
    | TaskForgotten(task: nat)      // the done-callback discards it
    | AddChannel
    | CloseChannel(i: nat)
    | DestroyChannel(i: nat)        // the channel's own teardown
    | Close
    | Aclose(waiter: nat)
    | WaiterResumes(waiter: nat)
    | TeardownRuns
    | ExecutorRuns
    | TeardownResumes
    | CancelTeardown(started: bool)   // the cancellation is delivered; `started`: the executor had begun the job

  const INIT := State(false, false, NotStarted, 0, {}, {}, {}, [], 0, 0, 0, false, map[])

  function Destroyed(c: Channel): Channel {
    if c.destroyed then c else c.(destroyed := true, deletes := c.deletes + 1)
  }

  function SweepAll(cs: seq<Channel>): (r: seq<Channel>)
    ensures |r| == |cs|
    ensures forall i :: 0 <= i < |cs| ==> r[i] == Destroyed(cs[i])
  {
    if cs == [] then [] else [Destroyed(cs[0])] + SweepAll(cs[1..])
  }

  function DoClose(s: State): State {
    if s.closed then s
    else s.(closed := true, teardown := Scheduled, teardowns := s.teardowns + 1, atClose := |s.channels|)
  }

  function Sweep(s: State): State {
    s.(channels := SweepAll(s.channels), swept := |s.channels|, teardown := Deleting, jobPending := true)
  }

  /** Cancelled before its first turn the teardown never enters its `try`.  Cancelled while
      it gathers, it ends once the gathered tasks are done.  Cancelled while it waits for
      the executor, it ends at once and takes back a job not yet begun. */
  function Step(s: State, a: Action): State {
    match a
    case Spawn(t) =>
      if s.closed || t in s.spawned then s
      else s.(owned := s.owned + {t}, running := s.running + {t}, spawned := s.spawned + {t})
    case TaskEnds(t) => s.(running := s.running - {t})
    case TaskForgotten(t) => if t in s.running then s else s.(owned := s.owned - {t})
    case AddChannel => s.(channels := s.channels + [Channel(false, false, 0)])
    case CloseChannel(i) =>
      if i >= |s.channels| then s else s.(channels := s.channels[i := s.channels[i].(closeRequested := true)])
    case DestroyChannel(i) =>
      if i >= |s.channels| || !s.channels[i].closeRequested then s
      else s.(channels := s.channels[i := Destroyed(s.channels[i])])
    case Close => DoClose(s)
    case Aclose(w) =>
      if w in s.waiters then s
      else
        var s' := DoClose(s);
        s'.(waiters := s.waiters[w := if s'.closedEvent then Returned else Waiting])
    case WaiterResumes(w) =>
      if w in s.waiters && s.closedEvent then s.(waiters := s.waiters[w := Returned]) else s
    case TeardownRuns =>
      (match s.teardown
       case Scheduled => if s.owned == {} then Sweep(s) else s.(teardown := Gathering(s.owned))
       case Gathering(awaited) => if awaited !! s.running then Sweep(s) else s
       case _ => s)
    case ExecutorRuns =>
      if s.jobPending then s.(jobPending := false, nativeDeletes := s.nativeDeletes + 1) else s
    case TeardownResumes =>
      if s.teardown.Deleting? && !s.jobPending then s.(teardown := Finished, closedEvent := true) else s
    case CancelTeardown(started) =>
      (match s.teardown
       case Scheduled => s.(teardown := Cancelled)
       case Gathering(awaited) => if awaited !! s.running then s.(teardown := Cancelled, closedEvent := true) else s
       case Deleting => s.(teardown := Cancelled, closedEvent := true, jobPending := s.jobPending && started)
       case _ => s)
  }

  function Run(s: State, actions: seq<Action>): State
    decreases |actions|
  {
    if actions == [] then s else Run(Step(s, actions[0]), actions[1..])
  }

  // ---- Invariant ---------------------------------------------------------

  predicate TasksTracked(s: State) {
    && s.running <= s.owned <= s.spawned
    && (s.closed <==> !s.teardown.NotStarted?)
    && s.teardowns == (if s.closed then 1 else 0)
    && (s.teardown.Gathering? ==> s.running <= s.teardown.awaited)
    && (s.teardown.Deleting? || s.teardown.Finished? ==> s.running == {})
  }

  predicate ChannelsTracked(s: State) {
    && s.swept <= |s.channels| && s.atClose <= |s.channels|
    && (s.teardown.Deleting? || s.teardown.Finished? ==> s.atClose <= s.swept)
    && (forall i :: 0 <= i < |s.channels| ==> s.channels[i].deletes == (if s.channels[i].destroyed then 1 else 0))
    && (forall i :: 0 <= i < s.swept ==> s.channels[i].destroyed)
  }

  predicate EventTracked(s: State) {
    && (s.closedEvent ==> s.teardown.Finished? || s.teardown.Cancelled?)
    && (s.teardown.Finished? ==> s.closedEvent && !s.jobPending)
    && s.nativeDeletes <= 1
    && (s.jobPending ==> s.nativeDeletes == 0 && (s.teardown.Deleting? || s.teardown.Cancelled?))
    && (s.teardown.Deleting? || s.teardown.Finished? ==> s.jobPending || s.nativeDeletes == 1)
    && (s.teardown.NotStarted? || s.teardown.Scheduled? || s.teardown.Gathering? ==> s.nativeDeletes == 0)
    && (forall w :: w in s.waiters ==> s.closed && (s.waiters[w].Returned? ==> s.closedEvent))
  }

  predicate Inv(s: State) {
    TasksTracked(s) && ChannelsTracked(s) && EventTracked(s)
  }

  lemma StepTasks(s: State, a: Action)
    requires TasksTracked(s)
    ensures TasksTracked(Step(s, a))
  {
  }

  lemma StepChannels(s: State, a: Action)
    requires TasksTracked(s) && ChannelsTracked(s)
    ensures ChannelsTracked(Step(s, a))
  {
  }

  lemma StepEvent(s: State, a: Action)
    requires TasksTracked(s) && EventTracked(s)
    ensures EventTracked(Step(s, a))
  {
  }

  lemma StepKeeps(s: State, a: Action)
    requires Inv(s)
    ensures Inv(Step(s, a))
  {
    StepTasks(s, a);
    StepChannels(s, a);
    StepEvent(s, a);
  }

  lemma {:induction false} RunKeeps(s: State, actions: seq<Action>)
    requires Inv(s)
    ensures Inv(Run(s, actions))
    decreases |actions|
  {
    if actions != [] {
      StepKeeps(s, actions[0]);
      RunKeeps(Step(s, actions[0]), actions[1..]);
    }
  }

  // ---- Main results ------------------------------------------------------

  /** Teardown has done all its work: every task ever spawned is done, every channel kept
      at the sweep (at least those there when `close` ran) is destroyed with exactly one
      native deletion, and the connection's own handle was deleted exactly once. */
  predicate TornDown(s: State) {
    && s.running == {}
    && s.atClose <= s.swept <= |s.channels|
    && (forall i :: 0 <= i < s.swept ==> s.channels[i].destroyed && s.channels[i].deletes == 1)
    && s.nativeDeletes == 1
  }

  lemma {:induction false} CancelledOnlyByCancel(s: State, actions: seq<Action>)
    requires NoCancels(actions) && !s.teardown.Cancelled?
    ensures !Run(s, actions).teardown.Cancelled?
    decreases |actions|
  {
    if actions != [] {
      assert !actions[0].CancelTeardown?;
      assert forall k :: 0 <= k < |actions[1..]| ==> actions[1..][k] == actions[k + 1];
      NotCancelledStep(s, actions[0]);
      CancelledOnlyByCancel(Step(s, actions[0]), actions[1..]);
    }
  }

  predicate NoCancels(actions: seq<Action>) {
    forall k :: 0 <= k < |actions| ==> !actions[k].CancelTeardown?
  }

  lemma NotCancelledStep(s: State, a: Action)
    requires !s.teardown.Cancelled? && !a.CancelTeardown?
    ensures !Step(s, a).teardown.Cancelled?
  {
  }

  /** The barrier, for every interleaving in which nobody cancels the teardown task: once
      the closed event is set, and so whenever any `aclose` has returned, the connection is
      torn down by its only teardown task and accepts no further task. */
  lemma ShutdownBarrier(actions: seq<Action>, task: nat)
    requires NoCancels(actions)
    ensures var r := Run(INIT, actions);
            && r.teardowns <= 1
            && ((exists w :: w in r.waiters && r.waiters[w].Returned?) ==> r.closedEvent)
            && (r.closedEvent ==> TornDown(r) && r.teardowns == 1 && Step(r, Spawn(task)) == r)
  {
    RunKeeps(INIT, actions);
    CancelledOnlyByCancel(INIT, actions);
  }

  // ---- Exactly when the barrier holds ------------------------------------

  predicate BarrierHolds(s: State) {
    s.closedEvent ==> TornDown(s)
  }

  predicate BarrierThroughout(s: State, actions: seq<Action>)
    decreases |actions|
  {
    BarrierHolds(s) && (actions == [] || BarrierThroughout(Step(s, actions[0]), actions[1..]))
  }

  /** The teardown is cancelled after its first turn and before its work is done. */
  predicate CutsTeardown(s: State, a: Action) {
    && a.CancelTeardown?
    && ((s.teardown.Gathering? && s.teardown.awaited !! s.running) || (s.teardown.Deleting? && s.jobPending))
  }

  predicate NeverCutsTeardown(s: State, actions: seq<Action>)
    decreases |actions|
  {
    actions == [] || (!CutsTeardown(s, actions[0]) && NeverCutsTeardown(Step(s, actions[0]), actions[1..]))
  }

  lemma TornDownStays(s: State, a: Action)
    requires Inv(s) && s.closedEvent && TornDown(s)
    ensures Step(s, a).closedEvent && TornDown(Step(s, a))
  {
    StepKeeps(s, a);
  }

  lemma StepBarrier(s: State, a: Action)
    requires Inv(s) && BarrierHolds(s)
    ensures BarrierHolds(Step(s, a)) <==> !CutsTeardown(s, a)
  {
    if s.closedEvent {
      TornDownStays(s, a);
    } else if a.CancelTeardown? {
      assert s.teardown.Gathering? ==> s.nativeDeletes == 0;
    } else {
      StepKeeps(s, a);
      assert Step(s, a).closedEvent ==> Step(s, a).teardown.Finished?;
    }
  }

  lemma {:induction false} RunBarrierIff(s: State, actions: seq<Action>)
    requires Inv(s) && BarrierHolds(s)
    ensures BarrierThroughout(s, actions) <==> NeverCutsTeardown(s, actions)
    decreases |actions|
  {
    if actions != [] {
      var s' := Step(s, actions[0]);
      StepKeeps(s, actions[0]);
      StepBarrier(s, actions[0]);
      if BarrierHolds(s') { RunBarrierIff(s', actions[1..]); }
    }
  }

  /** A set event, and so a returned `aclose`, means torn down throughout a run exactly when
      no cancellation ends the teardown between its first turn and the executor's deletion.
      A cancellation before `close`, before the first turn, after the deletion or after the
      end does no harm to the barrier. */
  lemma ShutdownBarrierIff(actions: seq<Action>)
    ensures BarrierThroughout(INIT, actions) <==> NeverCutsTeardown(INIT, actions)
  {
    RunBarrierIff(INIT, actions);
  }

  /** Whatever happens, cancellation included: at most one teardown task, at most one native
      deletion of the connection and of each channel. */
  lemma DeletedAtMostOnce(actions: seq<Action>, i: nat)
    ensures var r := Run(INIT, actions);
            r.teardowns <= 1 && r.nativeDeletes <= 1 && (i < |r.channels| ==> r.channels[i].deletes <= 1)
  {
    RunKeeps(INIT, actions);
  }

  /** A run through given states. */
  lemma {:induction false} RunPasses(states: seq<State>, actions: seq<Action>)
    requires |states| == |actions| + 1
    requires forall i :: 0 <= i < |actions| ==> Step(states[i], actions[i]) == states[i + 1]
    ensures Run(states[0], actions) == states[|actions|]
    decreases |actions|
  {
    if actions != [] {
      assert forall i :: 0 <= i < |actions| - 1 ==> Step(states[1..][i], actions[1..][i]) == states[1..][i + 1];
      RunPasses(states[1..], actions[1..]);
    }
  }

  lemma {:induction false} RunConcat(s: State, a: seq<Action>, b: seq<Action>)
    ensures Run(s, a + b) == Run(Run(s, a), b)
    decreases |a|
  {
    if a == [] {
      assert a + b == b;
    } else {
      RunConcat(Step(s, a[0]), a[1..], b);
      assert (a + b)[1..] == a[1..] + b;
    }
  }

  /** The barrier is only as good as the teardown task: cancelling it while it gathers sets
      the event with nothing swept and nothing deleted. */
  lemma CancellationOpensTheBarrier(task: nat, started: bool)
    ensures var r := Run(INIT, [Spawn(task), AddChannel, Close, TeardownRuns, TaskEnds(task), CancelTeardown(started)]);
            && r.closedEvent && r.teardown.Cancelled?
            && |r.channels| == 1 && !r.channels[0].destroyed && r.nativeDeletes == 0
  {
    var s1 := Step(INIT, Spawn(task));
    var s2 := Step(s1, AddChannel);
    var s3 := Step(s2, Close);
    var s4 := Step(s3, TeardownRuns);
    var s5 := Step(s4, TaskEnds(task));
    var s6 := Step(s5, CancelTeardown(started));
    assert s4.teardown == Gathering({task}) by { assert task in s3.owned; }
    assert s5.running == {};
    RunPasses([INIT, s1, s2, s3, s4, s5, s6],
              [Spawn(task), AddChannel, Close, TeardownRuns, TaskEnds(task), CancelTeardown(started)]);
  }

  // ---- Whether `aclose` returns ------------------------------------------

  /** Cancelled before its first turn, the teardown never reaches its `finally`: the event
      stays clear and no `aclose` ever returns. */
  lemma {:induction false} CancelledBeforeStartNeverOpens(s: State, actions: seq<Action>)
    requires Inv(s) && s.teardown.Cancelled? && !s.closedEvent
    ensures var r := Run(s, actions);
            !r.closedEvent && forall w :: w in r.waiters ==> r.waiters[w].Waiting?
    decreases |actions|
  {
    if actions != [] {
      StepKeeps(s, actions[0]);
      CancelledBeforeStartNeverOpens(Step(s, actions[0]), actions[1..]);
    }
  }

  /** Such a run: closed, cancelled at once; then every `aclose` waits forever. */
  lemma AcloseMayWaitForever(started: bool, actions: seq<Action>)
    ensures var r := Run(INIT, [Close, CancelTeardown(started)] + actions);
            !r.closedEvent && forall w :: w in r.waiters ==> r.waiters[w].Waiting?
  {
    var s1 := Step(INIT, Close);
    var s2 := Step(s1, CancelTeardown(started));
    RunPasses([INIT, s1, s2], [Close, CancelTeardown(started)]);
    RunConcat(INIT, [Close, CancelTeardown(started)], actions);
    StepKeeps(INIT, Close);
    StepKeeps(s1, CancelTeardown(started));
    CancelledBeforeStartNeverOpens(s2, actions);
  }

  lemma TwoTurnsSweep(s: State)
    requires Inv(s) && s.closed && s.running == {} && !s.teardown.Cancelled?
    ensures var t := Step(Step(s, TeardownRuns), TeardownRuns).teardown; t.Deleting? || t.Finished?
  {
  }

  lemma ExecutorFinishes(s: State)
    requires Inv(s) && (s.teardown.Deleting? || s.teardown.Finished?)
    ensures Step(Step(s, ExecutorRuns), TeardownResumes).closedEvent
  {
  }

  const TEARDOWN_TURNS := [TeardownRuns, TeardownRuns, ExecutorRuns, TeardownResumes]

  lemma TurnsOpen(s: State)
    requires Inv(s) && s.closed && s.running == {} && !s.teardown.Cancelled?
    ensures Run(s, TEARDOWN_TURNS).closedEvent
  {
    var s1 := Step(s, TeardownRuns);
    var s2 := Step(s1, TeardownRuns);
    var s3 := Step(s2, ExecutorRuns);
    TwoTurnsSweep(s);
    StepKeeps(s, TeardownRuns);
    StepKeeps(s1, TeardownRuns);
    ExecutorFinishes(s2);
    RunPasses([s, s1, s2, s3, Step(s3, TeardownResumes)], TEARDOWN_TURNS);
  }

  /** Progress: once closed and with the owned tasks finished, a teardown that was not
      cancelled needs only its own turns and the executor's to open the barrier. */
  lemma TeardownCompletes(actions: seq<Action>)
    requires Run(INIT, actions).closed && Run(INIT, actions).running == {}
    requires !Run(INIT, actions).teardown.Cancelled?
    ensures Run(Run(INIT, actions), TEARDOWN_TURNS).closedEvent
  {
    RunKeeps(INIT, actions);
    TurnsOpen(Run(INIT, actions));
  }

  /** The teardown is cancelled before its first turn. */
  predicate Strands(s: State, a: Action) {
    a.CancelTeardown? && s.teardown.Scheduled?
  }

  predicate NeverStrands(s: State, actions: seq<Action>)
    decreases |actions|
  {
    actions == [] || (!Strands(s, actions[0]) && NeverStrands(Step(s, actions[0]), actions[1..]))
  }

  predicate Stranded(s: State) {
    s.teardown.Cancelled? && !s.closedEvent
  }

  lemma StepStrands(s: State, a: Action)
    requires Inv(s)
    ensures Stranded(Step(s, a)) <==> Stranded(s) || Strands(s, a)
  {
  }

  lemma {:induction false} RunStrandsIff(s: State, actions: seq<Action>)
    requires Inv(s)
    ensures Stranded(Run(s, actions)) <==> Stranded(s) || !NeverStrands(s, actions)
    decreases |actions|
  {
    if actions != [] {
      StepKeeps(s, actions[0]);
      StepStrands(s, actions[0]);
      RunStrandsIff(Step(s, actions[0]), actions[1..]);
    }
  }

  /** Every running task ends. */
  lemma {:induction false} TasksEnd(s: State) returns (more: seq<Action>)
    ensures NoCancels(more) && Run(s, more) == s.(running := {})
    decreases |s.running|
  {
    if s.running == {} {
      more := [];
    } else {
      var t :| t in s.running;
      var rest := TasksEnd(s.(running := s.running - {t}));
      more := [TaskEnds(t)] + rest;
      assert more[1..] == rest;
    }
  }

  /** From any state whose teardown is not stranded some continuation sets the event. */
  lemma SomeRunOpens(s: State) returns (more: seq<Action>)
    requires Inv(s) && !Stranded(s)
    ensures NoCancels(more) && Run(s, more).closedEvent
  {
    if s.closedEvent {
      return [];
    }
    var closed := Step(s, Close);
    var ends := TasksEnd(closed);
    StepKeeps(s, Close);
    RunKeeps(closed, ends);
    TurnsOpen(Run(closed, ends));
    RunConcat(closed, ends, TEARDOWN_TURNS);
    more := [Close] + (ends + TEARDOWN_TURNS);
    assert more[1..] == ends + TEARDOWN_TURNS;
  }

  /** After any run, some continuation lets `aclose` return exactly when no cancellation hit
      the teardown before its first turn; then one without any cancellation does, otherwise
      none ever does. */
  lemma AcloseCanReturnIff(actions: seq<Action>)
    ensures var r := Run(INIT, actions);
            && ((exists more :: Run(r, more).closedEvent) <==> NeverStrands(INIT, actions))
            && ((exists more :: NoCancels(more) && Run(r, more).closedEvent) <==> NeverStrands(INIT, actions))
  {
    RunKeeps(INIT, actions);
    RunStrandsIff(INIT, actions);
    var r := Run(INIT, actions);
    if Stranded(r) {
      forall more ensures !Run(r, more).closedEvent {
        CancelledBeforeStartNeverOpens(r, more);
      }
    } else {
      var more := SomeRunOpens(r);
    }
  }

  /** Once the event is set, each waiting `aclose` returns with its next turn and each later
      one returns at once; before that none does. */
  lemma WaitersReturnIff(actions: seq<Action>, w: nat)
    ensures var r := Run(INIT, actions);
            && (w in r.waiters ==>
                  (Step(r, WaiterResumes(w)).waiters[w].Returned? <==> r.closedEvent))
            && (w !in r.waiters ==>
                  && w in Step(r, Aclose(w)).waiters
                  && (Step(r, Aclose(w)).waiters[w].Returned? <==> r.closedEvent))
  {
    RunKeeps(INIT, actions);
  }

  // ---- Cancelled while the executor is busy ------------------------------

  lemma {:induction false} CancelledStateDeletes(s: State, actions: seq<Action>)
    requires Inv(s) && s.teardown.Cancelled?
    ensures Run(s, actions).nativeDeletes ==
            s.nativeDeletes + (if s.jobPending && ExecutorRuns in actions then 1 else 0)
    decreases |actions|
  {
    if actions != [] {
      assert actions == [actions[0]] + actions[1..];
      StepKeeps(s, actions[0]);
      CancelledStateDeletes(Step(s, actions[0]), actions[1..]);
    }
  }

  /** A teardown cancelled while its deletion is with the executor still deletes the handle
      exactly when the executor had begun the job. */
  lemma CancelledDeletionIff(s: State, started: bool, actions: seq<Action>)
    requires Inv(s) && s.teardown.Deleting? && s.jobPending
    ensures var r := Run(Step(s, CancelTeardown(started)), actions);
            r.closedEvent && (r.nativeDeletes == 1 <==> started && ExecutorRuns in actions)
  {
    var s1 := Step(s, CancelTeardown(started));
    StepKeeps(s, CancelTeardown(started));
    CancelledStateDeletes(s1, actions);
    EventStays(s1, actions);
  }

  lemma {:induction false} EventStays(s: State, actions: seq<Action>)
    requires s.closedEvent
    ensures Run(s, actions).closedEvent
    decreases |actions|
  {
    if actions != [] { EventStays(Step(s, actions[0]), actions[1..]); }
  }

  // ---- Channels ----------------------------------------------------------

  /** A kept channel tears itself down once it was closed, and only then; no later sweep or
      teardown deletes it again. */
  lemma ChannelTearsItselfDown(s: State, i: nat, actions: seq<Action>)
    requires Inv(s) && i < |s.channels| && !s.channels[i].destroyed
    ensures !s.channels[i].closeRequested ==> Step(s, DestroyChannel(i)) == s
    ensures var r := Run(Step(Step(s, CloseChannel(i)), DestroyChannel(i)), actions);
            i < |r.channels| && r.channels[i].destroyed && r.channels[i].deletes == 1
  {
    var s1 := Step(s, CloseChannel(i));
    var s2 := Step(s1, DestroyChannel(i));
    StepKeeps(s, CloseChannel(i));
    StepKeeps(s1, DestroyChannel(i));
    RunKeeps(s2, actions);
    DestroyedStays(s2, actions, i);
  }

  lemma {:induction false} DestroyedStays(s: State, actions: seq<Action>, i: nat)
    requires i < |s.channels| && s.channels[i].destroyed
    ensures i < |Run(s, actions).channels| && Run(s, actions).channels[i].destroyed
    decreases |actions|
  {
    if actions != [] {
      DestroyedStep(s, actions[0], i);
      DestroyedStays(Step(s, actions[0]), actions[1..], i);
    }
  }

  lemma DestroyedStep(s: State, a: Action, i: nat)
    requires i < |s.channels| && s.channels[i].destroyed
    ensures i < |Step(s, a).channels| && Step(s, a).channels[i].destroyed
  {
  }
}
