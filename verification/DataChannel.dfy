/** The DataChannel object: its fields, updated in place by the handlers and by the
    segments of its coroutines.  Each method is proved to be the step of the same name in
    DataChannelModel, whose runs carry the properties. */
module DataChannelObject {
  import opened Wrappers
  import opened FutureSlots
  import opened ReceiveQueue
  import Model = DataChannelModel
  import opened AsyncQueue

  type Payload = Model.Payload
  type Slot = FutureSlot<(), Model.ChannelError>

  /** The native handle as `send` and `_destroy` see it. */
  class NativeHandle {
    var closed: bool
    var buffered: nat
    var sent: seq<Payload>
    var live: bool
    var deletes: nat

    constructor (closed: bool)
      ensures this.closed == closed && buffered == 0 && sent == [] && live && deletes == 0
    {
      this.closed, buffered, sent, live, deletes := closed, 0, [], true, 0;
    }

    /** rtcSendMessage: `grows` is what stays buffered, None a failure. */
    method Send(data: Payload, grows: Option<nat>) returns (ok: bool)
      modifies this
      ensures ok == (grows.Some? && !old(closed))
      ensures sent == old(sent) + (if ok then [data] else [])
      ensures buffered == old(buffered) + (if ok then grows.value else 0)
      ensures closed == old(closed) && live == old(live) && deletes == old(deletes)
    {
      ok := grows.Some? && !closed;
      if ok {
        sent := sent + [data];
        buffered := buffered + grows.value;
      }
    }

    /** The wrapper's own `destroy`: idempotent, and the handle is gone even if it raises. */
    method Destroy()
      modifies this
      ensures !live && deletes == old(deletes) + (if old(live) then 1 else 0)
      ensures closed == old(closed) && buffered == old(buffered) && sent == old(sent)
    {
      if !live { return; }
      live, deletes := false, deletes + 1;
    }
  }

  class Task {
    var cancelRequested: bool
    var done: bool

    constructor ()
      ensures !cancelRequested && !done
    {
      cancelRequested, done := false, false;
    }
  }

  method CancelAll(tasks: set<Task>)
    modifies tasks
    ensures forall t :: t in tasks ==> t.cancelRequested && t.done == old(t.done)
  {
    var todo := tasks;
    while todo != {}
      invariant todo <= tasks
      invariant forall t :: t in tasks - todo ==> t.cancelRequested
      invariant forall t :: t in tasks ==> t.done == old(t.done)
      decreases |todo|
    {
      var t :| t in todo;
      t.cancelRequested := true;
      todo := todo - {t};
    }
  }

  datatype SendResult = RaisedClosed | Waiting | RaisedNative | Sent

  class DataChannel {
    const native: NativeHandle
    const openSlot: Slot
    const closedSlot: Slot
    const cap: int
    ghost const repr: set<object>     // this object, its native handle, slots and futures
    var destroyed: bool
    var closeRequested: bool
    var bufferedLow: bool
    var recvQueue: seq<Item<Payload>>
    var lastError: Option<string>
    var tasks: set<Task>
    var teardownStarted: bool

    ghost predicate Consistent()
      reads this, repr
    {
      && this in repr && native in repr && openSlot in repr && closedSlot in repr
      && openSlot.future in repr && closedSlot.future in repr
      && openSlot != closedSlot && openSlot.future != closedSlot.future
      && openSlot.Valid() && closedSlot.Valid()
      && (teardownStarted <==> closeRequested)
    }

    /** Between segments: once destroyed, both futures are done and the native handle was
        deleted, exactly once. */
    ghost predicate Valid()
      reads this, repr
    {
      && Consistent()
      && native.deletes == (if native.live then 0 else 1)
      && (destroyed ==> !native.live && !openSlot.future.outcome.Pending? && !closedSlot.future.outcome.Pending?)
    }

    ghost function View(): Model.Fields
      reads this, openSlot, closedSlot, openSlot.future, closedSlot.future
    {
      Model.Fields(destroyed, closeRequested, openSlot.future.outcome, closedSlot.future.outcome,
                   bufferedLow, recvQueue, cap, lastError)
    }

    constructor (native: NativeHandle, cap: int, isOpen: bool)
      requires native.live && native.deletes == 0
      ensures Valid() && fresh(openSlot) && fresh(closedSlot) && fresh(openSlot.future) && fresh(closedSlot.future)
      ensures this.native == native && tasks == {} && fresh(repr - {native})
      ensures View() == Model.InitFields(cap, isOpen, native.closed)
    {
      this.native := native;
      var first: Slot := new FutureSlot();
      var second: Slot := new FutureSlot();
      openSlot, closedSlot := first, second;
      this.cap := cap;
      destroyed, closeRequested, bufferedLow := false, false, true;
      recvQueue, lastError, tasks, teardownStarted := [], None, {}, false;
      repr := {this, native, first, second, first.future, second.future};
      new;
      SyncInitial(isOpen);
    }

    /** The channel may already be open or closed when it is wrapped. */
    method SyncInitial(isOpen: bool)
      requires Valid() && recvQueue == [] && !destroyed
      modifies this`recvQueue, openSlot.future, closedSlot.future
      ensures Valid() && tasks == old(tasks)
      ensures var f := old(View());
              View() == f.(open := if isOpen then SetOutcome(f.open, ()) else f.open,
                           closed := if native.closed then SetOutcome(f.closed, ()) else f.closed,
                           queue := if native.closed then [ClosedSentinel] else [])
    {
      if isOpen {
        openSlot.Set(());
      }
      if native.closed {
        closedSlot.Set(());
        recvQueue := recvQueue + [ClosedSentinel];
      }
    }

    // ---- Handlers --------------------------------------------------------

    method HandleOpen()
      requires Valid()
      modifies openSlot.future
      ensures Valid() && View() == Model.Handle(old(View()), Model.OnOpen)
    {
      openSlot.Set(());
    }

    method HandleClosed()
      requires Consistent()
      modifies this, openSlot.future, closedSlot.future
      ensures Consistent() && !openSlot.future.outcome.Pending? && !closedSlot.future.outcome.Pending?
      ensures View() == Model.Handle(old(View()), Model.OnClosed)
      ensures tasks == old(tasks) && teardownStarted == old(teardownStarted)
    {
      closedSlot.Set(());
      if openSlot.future.outcome.Pending? {
        openSlot.Fail(Model.ConnectionClosed);
      }
      bufferedLow := true;
      recvQueue := TryPut(recvQueue, cap, ClosedSentinel);
    }

    method HandleError(message: string)
      requires Valid()
      modifies this, openSlot.future
      ensures Valid() && View() == Model.Handle(old(View()), Model.OnError(message))
      ensures tasks == old(tasks)
    {
      lastError := Some(message);
      if openSlot.future.outcome.Pending? {
        openSlot.Fail(Model.RtcError(message));
      }
    }

    method HandleMessage(data: Payload)
      requires Valid()
      modifies this`recvQueue
      ensures Valid() && View() == Model.Handle(old(View()), Model.OnMessage(data))
    {
      if !Full(recvQueue, cap) {
        recvQueue := recvQueue + [Message(data)];
      } else {
        if recvQueue != [] {
          recvQueue := recvQueue[1..];
        }
        recvQueue := TryPut(recvQueue, cap, Message(data));
      }
    }

    method HandleBufferedLow()
      requires Valid()
      modifies this`bufferedLow
      ensures Valid() && View() == Model.Handle(old(View()), Model.OnBufferedLow)
    {
      bufferedLow := true;
    }

    // ---- send and recv ---------------------------------------------------

    /** `send` up to its wait; without one it runs to the end. */
    method Send(data: Payload, waitForDrain: bool, grows: Option<nat>) returns (result: SendResult)
      requires Valid()
      modifies this`bufferedLow, native
      ensures Valid()
      ensures result.RaisedClosed? <==> old(destroyed) || old(native.closed)
      ensures result.Waiting? <==> waitForDrain && !old(bufferedLow) && !old(destroyed) && !old(native.closed)
      ensures result.Sent? <==> !result.RaisedClosed? && !result.Waiting? && grows.Some?
      ensures var gate := Model.SendGate(old(View()), old(native.closed), waitForDrain);
              (gate.Refused? <==> result.RaisedClosed?) && (gate.MustWait? <==> result.Waiting?)
      ensures native.sent == old(native.sent) + (if result.Sent? then [data] else [])
      ensures native.buffered == old(native.buffered) + (if result.Sent? then grows.value else 0)
      ensures native.closed == old(native.closed)
      ensures View() == if result.Sent? then Model.AfterSend(old(View()), native.buffered) else old(View())
      ensures result.Sent? ==> bufferedLow == (old(bufferedLow) && native.buffered == 0)
      ensures native.live == old(native.live) && native.deletes == old(native.deletes)
    {
      if destroyed || native.closed {
        return RaisedClosed;
      }
      if waitForDrain && !bufferedLow {
        return Waiting;
      }
      result := PushOut(data, grows);
    }

    /** `send` after its wait. */
    method ResumeSend(data: Payload, grows: Option<nat>) returns (result: SendResult)
      requires Valid()
      modifies this`bufferedLow, native
      ensures Valid()
      ensures result.RaisedClosed? <==> old(destroyed) || old(native.closed)
      ensures !result.Waiting? && (result.Sent? <==> !result.RaisedClosed? && grows.Some?)
      ensures native.sent == old(native.sent) + (if result.Sent? then [data] else [])
      ensures native.buffered == old(native.buffered) + (if result.Sent? then grows.value else 0)
      ensures native.closed == old(native.closed)
      ensures View() == if result.Sent? then Model.AfterSend(old(View()), native.buffered) else old(View())
      ensures result.Sent? ==> bufferedLow == (old(bufferedLow) && native.buffered == 0)
      ensures native.live == old(native.live) && native.deletes == old(native.deletes)
    {
      if destroyed || native.closed {
        return RaisedClosed;
      }
      result := PushOut(data, grows);
    }

    method PushOut(data: Payload, grows: Option<nat>) returns (result: SendResult)
      requires Valid() && !native.closed
      modifies this`bufferedLow, native
      ensures Valid() && result == (if grows.Some? then Sent else RaisedNative)
      ensures native.sent == old(native.sent) + (if result.Sent? then [data] else [])
      ensures native.buffered == old(native.buffered) + (if result.Sent? then grows.value else 0)
      ensures native.closed == old(native.closed)
      ensures View() == if result.Sent? then Model.AfterSend(old(View()), native.buffered) else old(View())
      ensures result.Sent? ==> bufferedLow == (old(bufferedLow) && native.buffered == 0)
      ensures native.live == old(native.live) && native.deletes == old(native.deletes)
    {
      var ok := native.Send(data, grows);
      if !ok {
        return RaisedNative;
      }
      if bufferedLow && native.buffered > 0 {
        bufferedLow := false;
      }
      result := Sent;
    }

    /** `recv`, up to its first suspension; `reason` is what a closed one raises with. */
    method Recv() returns (answer: Answer<Payload>, reason: string)
      requires Valid() && Within(recvQueue, cap)
      modifies this`recvQueue
      ensures Valid() && Within(recvQueue, cap)
      ensures (recvQueue, answer) == ReceiveQueue.Recv(old(recvQueue), cap)
      ensures !answer.PutWaits?
      ensures answer.Closed? && lastError.Some? && lastError.value != "" ==> reason == lastError.value
      ensures answer.Closed? && (lastError == None || lastError == Some("")) ==> reason == "channel closed"
    {
      reason := "";
      if recvQueue == [] {
        answer := Waits;
        return;
      }
      var item := recvQueue[0];
      recvQueue := recvQueue[1..];
      match item {
        case ClosedSentinel =>
          recvQueue := recvQueue + [ClosedSentinel];
          answer := Closed;
          reason := if lastError.Some? && lastError.value != "" then lastError.value else "channel closed";
        case Message(m) =>
          answer := Got(m);
      }
    }

    // ---- Owned tasks and shutdown ----------------------------------------

    /** None when the channel is already closed. */
    method SpawnTask() returns (task: Option<Task>)
      requires Valid()
      modifies this`tasks
      ensures Valid() && (task.None? <==> closeRequested)
      ensures task.Some? ==>
                fresh(task.value) && !task.value.cancelRequested && !task.value.done
                    && tasks == old(tasks) + {task.value}
      ensures task.None? ==> tasks == old(tasks)
    {
      if closeRequested {
        return None;
      }
      var t := new Task();
      tasks := tasks + {t};
      task := Some(t);
    }

    method Close()
      requires Valid()
      modifies this, tasks
      ensures Valid() && View() == Model.RequestCloseFields(old(View()))
      ensures teardownStarted && tasks == old(tasks)
      ensures !old(closeRequested) ==> forall t :: t in tasks ==> t.cancelRequested
      ensures forall t :: t in tasks ==> t.done == old(t.done)
      ensures old(closeRequested) ==> forall t :: t in tasks ==> t.cancelRequested == old(t.cancelRequested)
    {
      if closeRequested {
        return;
      }
      closeRequested := true;
      recvQueue := TryPut(recvQueue, cap, ClosedSentinel);
      CancelAll(tasks);
      teardownStarted := true;
    }

    /** `_destroy`: once, whoever calls it. */
    method Destroy()
      requires Valid()
      modifies this, native, openSlot.future, closedSlot.future
      ensures Valid() && destroyed && tasks == old(tasks)
      ensures native.closed == old(native.closed) && native.sent == old(native.sent)
      ensures old(destroyed) ==>
                View() == old(View()) && native.deletes == old(native.deletes) && native.live == old(native.live)
      ensures !old(destroyed) ==>
                && View() == Model.HandleClosed(old(View()).(destroyed := true))
                && !native.live && native.deletes == old(native.deletes) + (if old(native.live) then 1 else 0)
    {
      if destroyed {
        return;
      }
      destroyed := true;
      native.Destroy();
      HandleClosed();
    }

    /** `_teardown` from its first turn to its first await: it hands the owned tasks to a
        gather, or, with none, runs to its end. */
    method BeginTeardown() returns (awaited: set<Task>)
      requires Valid()
      modifies this, native, openSlot.future, closedSlot.future
      ensures Valid() && awaited == tasks == old(tasks)
      ensures awaited != {} ==>
                View() == old(View()) && native.live == old(native.live) && native.deletes == old(native.deletes)
      ensures awaited == {} ==> destroyed && !native.live && !closedSlot.future.outcome.Pending?
      ensures awaited == {} ==>
                View() == if old(destroyed) then old(View()) else Model.HandleClosed(old(View()).(destroyed := true))
    {
      awaited := tasks;
      if awaited == {} {
        FinishTeardown(false);
      }
    }

    /** `_teardown` after its gather, which resumes only once the awaited tasks are done, also
        when the teardown was `cancelled` meanwhile; then it skips the destroy. */
    method ResumeTeardown(awaited: set<Task>, cancelled: bool)
      requires Valid() && awaited != {} && forall t :: t in awaited ==> t.done
      modifies this, native, openSlot.future, closedSlot.future
      ensures Valid() && !closedSlot.future.outcome.Pending? && tasks == old(tasks)
      ensures destroyed == (old(destroyed) || !cancelled)
      ensures !old(destroyed) && !cancelled ==>
                !native.live && View() == Model.HandleClosed(old(View()).(destroyed := true))
      ensures old(destroyed) || cancelled ==>
                View() == old(View()).(closed := SetOutcome(old(View()).closed, ())) && native.live == old(native.live)
    {
      FinishTeardown(cancelled);
    }

    /** The rest of `_teardown`: the slot `aclose` waits for is resolved either way. */
    method FinishTeardown(cancelled: bool)
      requires Valid()
      modifies this, native, openSlot.future, closedSlot.future
      ensures Valid() && !closedSlot.future.outcome.Pending? && tasks == old(tasks)
      ensures destroyed == (old(destroyed) || !cancelled)
      ensures !old(destroyed) && !cancelled ==>
                !native.live && View() == Model.HandleClosed(old(View()).(destroyed := true))
      ensures old(destroyed) || cancelled ==>
                View() == old(View()).(closed := SetOutcome(old(View()).closed, ())) && native.live == old(native.live)
    {
      if !cancelled {
        Destroy();
      }
      if closedSlot.future.outcome.Pending? {
        closedSlot.Set(());
      }
    }

    // ---- Awaiters --------------------------------------------------------

    /** A coroutine in `wait_open` is cancelled, by a timeout for one. */
    method CancelOpenAwaiter()
      requires Valid()
      modifies openSlot.future
      ensures Valid() && View() == old(View()).(open := CancelOutcome(old(View()).open))
    {
      openSlot.CancelAwaiter();
    }

    /** A coroutine in `wait_closed` or `aclose` is cancelled. */
    method CancelClosedAwaiter()
      requires Valid()
      modifies closedSlot.future
      ensures Valid() && View() == old(View()).(closed := CancelOutcome(old(View()).closed))
    {
      closedSlot.CancelAwaiter();
    }
  }
}
