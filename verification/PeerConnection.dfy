/** The PeerConnection object: handlers, iterators, remote candidates and shutdown, as they
    update its fields in place.  RemoteCandidates, ConsumerQueue and Shutdown carry the
    properties of whole runs. */
module PeerConnectionObject {
  import opened Wrappers
  import opened FutureSlots
  import opened DataChannelObject
  import opened RemoteCandidates
  import Model = DataChannelModel
  import Queue = ConsumerQueue

  datatype RTCState = New | Connecting | Connected | Disconnected | FailedState | ClosedState

  datatype GatheringState = NotGathering | InProgress | Complete

  datatype Description = Description(sdp: string, kind: string)

  datatype ConnectionError = PeerConnectionClosed

  datatype Event =
    | LocalDescriptionEvent(description: Description)
    | LocalCandidateEvent(candidate: Candidate)
    | StateChangeEvent(state: RTCState)
    | GatheringStateChangeEvent(gathering: GatheringState)
    | DataChannelEvent(channel: DataChannel)

  /** One turn of an iterator over a queue closed by None. */
  datatype Next<+T> = Yield(value: T) | Stop | MustWait

  function NextOf<T>(q: seq<Option<T>>): (seq<Option<T>>, Next<T>) {
    if q == [] then (q, MustWait)
    else match q[0]
         case Some(v) => (q[1..], Yield(v))
         case None => (q[1..] + [None], Stop)
  }

  /** An iterator's turn keeps the sentinels and yields the oldest value. */
  lemma NextKeepsSentinels<T>(q: seq<Option<T>>)
    ensures var (q', next) := NextOf(q);
            && Queue.Sentinels(q') == Queue.Sentinels(q)
            && Queue.Values(q) == (if next.Yield? then [next.value] else []) + Queue.Values(q')
            && (next.MustWait? <==> q == [])
            && (next.Stop? ==> Queue.Sentinels(q) > 0)
  {
    if q != [] && q[0].None? {
      Queue.QueueAppend(q[1..], None);
    }
  }

  /** An iterator's turn is what ConsumerQueue's consumers do with the queue. */
  lemma TakeFollowsNext<T>(s: Queue.State<T>, i: nat)
    requires i < |s.consumers| && s.queue != [] && Queue.Listed(s) && !s.consumers[i].phase.Parked?
    ensures var (q, next) := NextOf(s.queue);
            var s' := Queue.Take(s, i);
            && s'.queue == q
            && s'.left == s.left + (if next.Yield? then [Queue.Delivered(i, next.value)] else [])
            && (next.Stop? ==> Queue.Is(s', i, Queue.Finished))
  {
  }

  /** The native connection as candidate submission and teardown see it. */
  class NativePeer {
    var candidates: seq<Candidate>     // handed over, whatever the answer was
    var live: bool
    var deletes: nat

    constructor ()
      ensures candidates == [] && live && deletes == 0
    {
      candidates, live, deletes := [], true, 0;
    }

    method AddRemoteCandidate(c: Candidate, accepted: bool) returns (raised: bool)
      modifies this
      ensures candidates == old(candidates) + [c] && raised == !accepted
      ensures live == old(live) && deletes == old(deletes)
    {
      candidates := candidates + [c];
      raised := !accepted;
    }

    method Destroy()
      modifies this
      ensures !live && deletes == old(deletes) + (if old(live) then 1 else 0) && candidates == old(candidates)
    {
      if !live { return; }
      live, deletes := false, deletes + 1;
    }
  }

  /** What the sweep leaves of a channel; one already torn down is left alone. */
  function Swept(f: Model.Fields): (r: Model.Fields)
    ensures r.destroyed
  {
    if f.destroyed then f else Model.HandleClosed(f.(destroyed := true))
  }

  /** What became of the executor's deletion: done before the teardown resumed, begun when
      the teardown was cancelled, or never run because it was cancelled earlier. */
  datatype DeleteJob = Completed | Begun | NotRun

  const RECV_BUFFER := 1024

  class PeerConnection {
    const native: NativePeer
    const localDescription: FutureSlot<Description, ConnectionError>
    const gatheringComplete: FutureSlot<(), ConnectionError>
    var state: RTCState
    var gatheringState: GatheringState
    var stateEvents: set<RTCState>
    var iceCandidates: seq<Option<Candidate>>
    var incoming: seq<Option<DataChannel>>
    var events: seq<Option<Event>>
    var dataChannels: seq<DataChannel>
    var remoteDescriptionSet: bool
    var buffered: seq<Candidate>
    var closed: bool
    var closedEvent: bool
    var tasks: set<Task>
    var teardownStarted: bool

    /** Events and incoming channels hold one sentinel exactly when closed; the candidate
        queue, which gathering also closes, at least one. */
    ghost predicate Valid()
      reads this, localDescription, gatheringComplete
    {
      && localDescription.Valid() && gatheringComplete.Valid()
      && (teardownStarted <==> closed)
      && Queue.Sentinels(events) == (if closed then 1 else 0)
      && Queue.Sentinels(incoming) == (if closed then 1 else 0)
      && (closed ==> Queue.Sentinels(iceCandidates) > 0)
      && (remoteDescriptionSet ==> buffered == [])
      && (closedEvent ==> closed)
    }

    constructor (native: NativePeer)
      ensures Valid() && this.native == native && !closed && !closedEvent && !remoteDescriptionSet
      ensures iceCandidates == [] && incoming == [] && events == [] && dataChannels == [] && buffered == []
      ensures state == New && stateEvents == {New} && tasks == {}
    {
      this.native := native;
      localDescription := new FutureSlot();
      gatheringComplete := new FutureSlot();
      state, gatheringState, stateEvents := New, NotGathering, {New};
      iceCandidates, incoming, events, dataChannels := [], [], [], [];
      remoteDescriptionSet, buffered := false, [];
      closed, closedEvent, tasks, teardownStarted := false, false, {}, false;
    }

    // ---- Handlers --------------------------------------------------------

    method Emit(event: Event)
      requires Valid()
      modifies this`events
      ensures Valid() && events == old(events) + [Some(event)]
    {
      Queue.QueueAppend(events, Some(event));
      events := events + [Some(event)];
    }

    method HandleLocalDescription(d: Description)
      requires Valid()
      modifies this`events, localDescription.future
      ensures Valid() && events == old(events) + [Some(LocalDescriptionEvent(d))]
      ensures localDescription.future.outcome == SetOutcome(old(localDescription.future.outcome), d)
    {
      localDescription.Set(d);
      Emit(LocalDescriptionEvent(d));
    }

    method HandleLocalCandidate(c: Candidate)
      requires Valid()
      modifies this`events, this`iceCandidates
      ensures Valid() && events == old(events) + [Some(LocalCandidateEvent(c))]
      ensures iceCandidates == old(iceCandidates) + [Some(c)]
    {
      Queue.QueueAppend(iceCandidates, Some(c));
      iceCandidates := iceCandidates + [Some(c)];
      Emit(LocalCandidateEvent(c));
    }

    method HandleStateChange(s: RTCState)
      requires Valid()
      modifies this`state, this`stateEvents, this`events, this`iceCandidates, localDescription.future,
               gatheringComplete.future
      ensures Valid() && state == s && stateEvents == old(stateEvents) + {s}
      ensures events == old(events) + [Some(StateChangeEvent(s))]
      ensures iceCandidates == old(iceCandidates) + (if s.ClosedState? || s.FailedState? then [None] else [])
      ensures s.ClosedState? || s.FailedState? ==>
                && localDescription.future.outcome ==
                   FailOutcome(old(localDescription.future.outcome), PeerConnectionClosed)
                && gatheringComplete.future.outcome == SetOutcome(old(gatheringComplete.future.outcome), ())
      ensures !s.ClosedState? && !s.FailedState? ==>
                && localDescription.future.outcome == old(localDescription.future.outcome)
                && gatheringComplete.future.outcome == old(gatheringComplete.future.outcome)
    {
      state := s;
      stateEvents := stateEvents + {s};
      Emit(StateChangeEvent(s));
      if s.ClosedState? || s.FailedState? {
        localDescription.Fail(PeerConnectionClosed);
        gatheringComplete.Set(());
        PushIceSentinel();
      }
    }

    method HandleGatheringState(g: GatheringState)
      requires Valid()
      modifies this`gatheringState, this`events, this`iceCandidates, gatheringComplete.future
      ensures Valid() && gatheringState == g && events == old(events) + [Some(GatheringStateChangeEvent(g))]
      ensures iceCandidates == old(iceCandidates) + (if g.Complete? then [None] else [])
      ensures g.Complete? ==> gatheringComplete.future.outcome == SetOutcome(old(gatheringComplete.future.outcome), ())
      ensures !g.Complete? ==> gatheringComplete.future.outcome == old(gatheringComplete.future.outcome)
    {
      gatheringState := g;
      Emit(GatheringStateChangeEvent(g));
      if g.Complete? {
        gatheringComplete.Set(());
        PushIceSentinel();
      }
    }

    method PushIceSentinel()
      requires Valid()
      modifies this`iceCandidates
      ensures Valid() && iceCandidates == old(iceCandidates) + [None]
      ensures Queue.Sentinels(iceCandidates) == Queue.Sentinels(old(iceCandidates)) + 1
    {
      Queue.QueueAppend(iceCandidates, None);
      iceCandidates := iceCandidates + [None];
    }

    /** A remotely opened channel: wrapped, kept, queued and announced. */
    method HandleIncoming(handle: NativeHandle, isOpen: bool) returns (dc: DataChannel)
      requires Valid() && handle.live && handle.deletes == 0
      modifies this`dataChannels, this`incoming, this`events
      ensures Valid() && fresh(dc) && fresh(dc.repr - {handle}) && dc.Valid() && dc.native == handle
      ensures dc.View() == Model.InitFields(1024, isOpen, handle.closed)
      ensures dataChannels == old(dataChannels) + [dc]
      ensures incoming == old(incoming) + [Some(dc)] && events == old(events) + [Some(DataChannelEvent(dc))]
    {
      dc := new DataChannel(handle, RECV_BUFFER, isOpen);
      dataChannels := dataChannels + [dc];
      Queue.QueueAppend(incoming, Some(dc));
      incoming := incoming + [Some(dc)];
      Emit(DataChannelEvent(dc));
    }

    // ---- Iterators -------------------------------------------------------

    method NextIceCandidate() returns (next: Next<Candidate>)
      requires Valid()
      modifies this`iceCandidates
      ensures Valid() && (iceCandidates, next) == NextOf(old(iceCandidates))
      ensures old(closed) ==> !next.MustWait?
    {
      NextKeepsSentinels(iceCandidates);
      if iceCandidates == [] {
        return MustWait;
      }
      var item := iceCandidates[0];
      iceCandidates := iceCandidates[1..];
      match item {
        case None =>
          iceCandidates := iceCandidates + [None];
          next := Stop;
        case Some(c) =>
          next := Yield(c);
      }
    }

    /** Also what `accept_data_channel` does with its single item; Stop is its
        ConnectionClosedError. */
    method NextIncoming() returns (next: Next<DataChannel>)
      requires Valid()
      modifies this`incoming
      ensures Valid() && (incoming, next) == NextOf(old(incoming))
      ensures old(closed) ==> !next.MustWait?
    {
      NextKeepsSentinels(incoming);
      if incoming == [] {
        return MustWait;
      }
      var item := incoming[0];
      incoming := incoming[1..];
      match item {
        case None =>
          incoming := incoming + [None];
          next := Stop;
        case Some(dc) =>
          next := Yield(dc);
      }
    }

    method NextEvent() returns (next: Next<Event>)
      requires Valid()
      modifies this`events
      ensures Valid() && (events, next) == NextOf(old(events))
      ensures old(closed) ==> !next.MustWait?
    {
      NextKeepsSentinels(events);
      if events == [] {
        return MustWait;
      }
      var item := events[0];
      events := events[1..];
      match item {
        case None =>
          events := events + [None];
          next := Stop;
        case Some(e) =>
          next := Yield(e);
      }
    }

    // ---- Remote candidates -----------------------------------------------

    /** `add_remote_candidate`; `raised` is the native error, which only an unbuffered call
        reports. */
    method AddRemoteCandidate(c: Candidate, accepted: bool) returns (raised: bool)
      requires Valid()
      modifies this`buffered, native
      ensures Valid()
      ensures (buffered, remoteDescriptionSet) == Accept(remoteDescriptionSet, old(buffered), c)
      ensures native.candidates == old(native.candidates) + (if remoteDescriptionSet then [c] else [])
      ensures raised == (remoteDescriptionSet && !accepted)
      ensures native.live == old(native.live) && native.deletes == old(native.deletes)
    {
      raised := false;
      if !remoteDescriptionSet {
        buffered := buffered + [c];
        return;
      }
      raised := native.AddRemoteCandidate(c, accepted);
    }

    /** `set_remote_description` resumed after the native call succeeded: the segment up to
        its next await, which decides what this call will submit. */
    method TakeBuffer() returns (todo: seq<Candidate>)
      requires Valid()
      modifies this`remoteDescriptionSet, this`buffered
      ensures Valid() && remoteDescriptionSet && buffered == [] && todo == old(buffered)
      ensures ResumeMove(Applied(true), old(buffered)).next == NextDrain(todo)
    {
      remoteDescriptionSet := true;
      todo := buffered;
      buffered := [];
    }

    /** The whole rest of `set_remote_description` with nothing in between: drains the buffer
        in order; a candidate that is refused does not stop the rest. */
    method DrainBuffered(refused: set<nat>)
      requires Valid()
      modifies this`remoteDescriptionSet, this`buffered, native
      ensures Valid() && remoteDescriptionSet && buffered == []
      ensures native.candidates == old(native.candidates) + old(buffered)
      ensures native.live == old(native.live) && native.deletes == old(native.deletes)
    {
      var todo := TakeBuffer();
      for i := 0 to |todo|
        invariant Valid() && remoteDescriptionSet && buffered == []
        invariant native.candidates == old(native.candidates) + todo[..i]
        invariant native.live == old(native.live) && native.deletes == old(native.deletes)
      {
        var raised := native.AddRemoteCandidate(todo[i], i !in refused);
      }
    }

    // ---- Shutdown --------------------------------------------------------

    /** None when the connection is already closed. */
    method SpawnTask() returns (task: Option<Task>)
      requires Valid()
      modifies this`tasks
      ensures Valid() && (task.None? <==> closed)
      ensures task.Some? ==>
                fresh(task.value) && !task.value.cancelRequested && !task.value.done
                    && tasks == old(tasks) + {task.value}
      ensures task.None? ==> tasks == old(tasks)
    {
      if closed {
        return None;
      }
      var t := new Task();
      tasks := tasks + {t};
      task := Some(t);
    }

    method Close()
      requires Valid()
      modifies this`closed, this`teardownStarted, this`iceCandidates, this`incoming, this`events, tasks
      ensures Valid() && closed && teardownStarted
      ensures old(closed) ==>
                && iceCandidates == old(iceCandidates) && incoming == old(incoming) && events == old(events)
                && forall t :: t in tasks ==> t.cancelRequested == old(t.cancelRequested)
      ensures !old(closed) ==>
                && iceCandidates == old(iceCandidates) + [None]
                && incoming == old(incoming) + [None] && events == old(events) + [None]
                && forall t :: t in tasks ==> t.cancelRequested
      ensures forall t :: t in tasks ==> t.done == old(t.done)
    {
      if closed {
        return;
      }
      closed := true;
      Queue.QueueAppend(iceCandidates, None);
      Queue.QueueAppend(incoming, None);
      Queue.QueueAppend(events, None);
      iceCandidates := iceCandidates + [None];
      incoming := incoming + [None];
      events := events + [None];
      CancelAll(tasks);
      teardownStarted := true;
    }

    /** The channels are separate objects, none part of this connection. */
    ghost predicate ChannelsApart()
      reads this, dataChannels, set dc, o | dc in dataChannels && o in dc.repr :: o
    {
      && (forall i :: 0 <= i < |dataChannels| ==> dataChannels[i].Valid() && this !in dataChannels[i].repr)
      && (forall i, j :: 0 <= i < j < |dataChannels| ==> dataChannels[i].repr !! dataChannels[j].repr)
    }

    /** `_teardown` between its gather and the executor: every kept channel is destroyed. */
    method SweepChannels()
      requires Valid() && ChannelsApart()
      modifies set dc, o | dc in dataChannels && o in dc.repr :: o
      ensures ChannelsApart()
      ensures forall i :: 0 <= i < |dataChannels| ==>
                && dataChannels[i].destroyed && dataChannels[i].native.deletes == 1
                && dataChannels[i].View() == Swept(old(dataChannels[i].View()))
    {
      for i := 0 to |dataChannels|
        invariant ChannelsApart()
        invariant forall k :: 0 <= k < i ==>
                    dataChannels[k].destroyed && dataChannels[k].View() == Swept(old(dataChannels[k].View()))
        invariant forall k :: i <= k < |dataChannels| ==> dataChannels[k].View() == old(dataChannels[k].View())
      {
        DestroyKept(i);
      }
    }

    method DestroyKept(i: nat)
      requires ChannelsApart() && i < |dataChannels|
      modifies dataChannels[i].repr
      ensures ChannelsApart() && dataChannels[i].View() == Swept(old(dataChannels[i].View()))
      ensures forall k :: 0 <= k < |dataChannels| && k != i ==> dataChannels[k].View() == old(dataChannels[k].View())
    {
      dataChannels[i].Destroy();
    }

    /** The end of `_teardown`: the executor deletes the native connection, also when the
        task is cancelled after the job has begun; the closed event is set either way. */
    method FinishTeardown(job: DeleteJob)
      requires Valid() && closed
      modifies this`closedEvent, native
      ensures Valid() && closedEvent
      ensures native.live == (old(native.live) && job.NotRun?)
      ensures native.deletes == old(native.deletes) + (if old(native.live) && !job.NotRun? then 1 else 0)
    {
      if !job.NotRun? {
        native.Destroy();
      }
      closedEvent := true;
    }
  }
}
