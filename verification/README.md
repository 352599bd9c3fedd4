# aiolibdatachannel: the concurrency protocol, modelled and proved

aiolibdatachannel puts an asyncio interface on libdatachannel, a multi-threaded native
WebRTC library.  Native worker threads call back into Python, the callbacks are moved onto
the event loop, and any number of coroutines send, receive, iterate, negotiate and shut
down.  This project models that protocol in Dafny and proves what holds over every run.

- `BindingLocks.dfy`, `BindingPrograms.dfy`: the lock protocol of the native binding.  The
  first states one locking discipline and proves, for any number of threads that obey it,
  mutual exclusion, deadlock freedom and termination.  The second writes the binding's
  entry points, trampolines, setters and deletions as lock programs and proves that they
  obey it; two variants that keep the GIL across a native call are shown to get stuck.
- `FutureSlots.dfy`: resettable futures that resolve at most once.
- `ReceiveQueue.dfy`, `QueueClosing.dfy`: the bounded drop-oldest queue, refined against the
  log of arrivals, and what becomes of its re-injected close sentinel over any trace.
- `DataChannelModel.dfy`, `DataChannel.dfy`: one data channel, as a transition system that
  native threads interleave with, and as the object whose methods are that system's steps.
- `DataChannelSending.dfy`, `DataChannelFutures.dfy`, `DataChannelReceiving.dfy`,
  `DataChannelTeardown.dfy`: what holds over every run of that system for senders, for the
  two futures, for receivers and for shutdown.
- `EndToEnd.dfy`: lookup, fetch, callback, loop FIFO, message handler and queue of all channels
  together.
- `RemoteCandidates.dfy`, `ConsumerQueue.dfy`, `Shutdown.dfy`, `PeerConnection.dfy`: the
  candidate buffer and its drain over an executor, the multi-consumer queues, the shutdown
  barrier, and the connection object.  `DataChannelReaders.dfy` puts the readers of a data
  channel on the same queue system.
- `RegistryModel.dfy`, `RegistryObjects.dfy`: the registry of wrappers, routing, destruction
  and the exit sweep, as a transition system in which dispatch and `destroy` interleave step
  by step, and as objects.
- `IceServerUrl.dfy`: credential URLs, with UTF-8 and percent-encoding (RFC 3629; sections
  2.1 and 2.3 of RFC 3986).

## How the model is cut

Code on the loop thread between two awaits is one segment: no other coroutine and no
handler runs inside it.  Native threads do run inside it, so `send` is cut before each of
its native calls and `_destroy` around the deletion.  A step that is not enabled leaves the
state as it is, so a statement about every sequence of actions covers every interleaving.
Names of the form `Run(INIT, actions)` stand for every reachable state.

What is assumed of the surroundings:

- Callback setters take the channel's callback mutex and may fire the callback at once on
  the calling thread; a deletion waits until no callback of the handle (or of others it
  chooses) is in flight; the plain getters that keep the GIL take no callback mutex
  (`src/_aiolibdatachannel/bindings.cpp:19-25`, `:235-249`).
- A Python lock gives the GIL up while it blocks and may be held across a GIL switch.
- Callbacks do not block: they look up a registry and append to the loop.  Replacing the
  dispatcher reference runs no Python finaliser under the dispatcher mutex.
- Handles are fresh, `is_closed` stays true, and the low-buffer callback fires when the
  buffered amount goes from above the threshold to at or below it.  The threshold is fixed.
- Owned tasks finish once cancelled or on their own; a progress statement names this.
- asyncio: cancelling a coroutine cancels the future it awaits, so all awaiters of a slot
  share the cancellation; a cancelled `gather` still waits for its tasks before it raises; a
  task cancelled before its first turn runs none of its body; cancelling a coroutine that
  waits for an executor takes back a job that has not begun.

Where the code and its documentation differ, the model follows the code:

- `DataChannel.aclose` is documented to wait for teardown, but it awaits the closed slot,
  which other steps may resolve earlier (`DataChannelTeardown.AcloseIsBarrierIff` says
  exactly which, `DataChannelTeardown.RemoteCloseOpensTheBarrier` gives a run).
- `wait_open` and `wait_closed` are documented to report the channel's state; a timeout in
  one awaiter decides the outcome for all (`DataChannelFutures.OpenDecidedByEventsIff`,
  `DataChannelFutures.ClosedDecidedByEventsIff`), and `wait_closed`, documented to last until
  teardown is complete, does so exactly as `DataChannelTeardown.WaitClosedIsBarrierIff` says.
- `send` is documented to wait while the buffer is above the low-water mark; the code
  clears the drain event whenever anything is buffered, so with a positive threshold a
  sender can stay parked (`DataChannelSending.NoLostWakeupIffZeroThreshold`).
- `recv` and the channel iterator are documented to end on close; a close that meets a full
  queue is lost, and so is one whose only sentinel has come to the front when an arrival
  finds the queue full (`QueueClosing.CloseSeenIffRoom`, `QueueClosing.CloseSurvivesIff`).
- `PeerConnection.aclose` is documented as a barrier; cancelling the teardown task at the
  wrong moment opens it early (`Shutdown.ShutdownBarrierIff` says exactly when), or, before
  that task's first turn, never (`Shutdown.AcloseCanReturnIff`, with a run in
  `Shutdown.AcloseMayWaitForever`).
- `_dispatch` and `destroy` are not exclusive: a callback fetched before `destroy` clears the
  callbacks may be called afterwards, until the native deletion
  (`RegistryModel.FetchedBeforeTheClearFiresLater`), and a message looked up while its
  channel was registered may find the callbacks cleared (`EndToEnd.LookedUpIsGivenIff`).

## Model

| member | source | states |
|---|---|---|
| BindingPrograms.BindingNeverDeadlocks | src/_aiolibdatachannel/bindings.cpp:235-255 | for any number of Python threads using the binding and native threads delivering callbacks: no reachable state is stuck, the length of every run is bounded, and a run that cannot go on has finished every thread with every lock free |
| BindingPrograms.BindingIsSafe | src/_aiolibdatachannel/bindings.cpp:235-255 | at every reachable state locks are exclusive; whoever is about to touch the interpreter (`check` included) holds the GIL alone; whoever is about to wait for a callback mutex or for callbacks in flight holds neither the GIL nor a registry lock |
| BindingPrograms.TrampolineFits | src/_aiolibdatachannel/bindings.cpp:117-139 | a trampoline run from any native context obeys the locking discipline and gives back exactly what it took, installed dispatcher or not |
| BindingPrograms.CallbackFits | src/_aiolibdatachannel/bindings.cpp:143-233 | a native thread's delivery of a callback under the channel mutex obeys the discipline |
| BindingPrograms.SetterFits | src/_aiolibdatachannel/bindings.cpp:350-398 | registration obeys the discipline also when it fires the callback synchronously |
| BindingPrograms.NoGilFits | src/_aiolibdatachannel/bindings.cpp:251-255 | whatever obeys the discipline with empty hands may be run by a thread that holds just the GIL, and the GIL is held again afterwards |
| BindingPrograms.DispatchFits | aiolibdatachannel/_core.py:111-181 | the Python dispatcher with its registry lookup fits below a callback mutex |
| BindingPrograms.OpFits | src/_aiolibdatachannel/bindings.cpp:321-342 | every binding call (registration, blocking calls, getters, the dispatcher swap, deletion with its registry removal, library cleanup) starts and ends with just the GIL |
| BindingPrograms.OpDoesItsWork | src/_aiolibdatachannel/bindings.cpp:325-398 | each binding call does what it is for: insertion takes its registry's lock, registration writes the callback (and fires it if due), deletion takes the registry's lock, clears every callback kind of such wrappers and no other and waits for the handle, cleanup waits |
| BindingPrograms.ScriptDoesItsWork | src/_aiolibdatachannel/bindings.cpp:143-233 | a Python thread performs each of its calls, a native thread delivers each of its callbacks |
| BindingPrograms.TrampolineDispatches | src/_aiolibdatachannel/bindings.cpp:117-139 | a trampoline reaches Python iff a dispatcher is installed, and then takes the lock of its kind's registry and no other |
| BindingPrograms.CallbacksOfAHandleExclude | src/_aiolibdatachannel/bindings.cpp:239-243 | in every run no two callbacks of one handle are in the interpreter at once |
| BindingPrograms.DeletionWaitsForCallbacks | src/_aiolibdatachannel/bindings.cpp:325-342 | in every run a thread that completes a deletion passed a moment within it at which nobody was inside a callback of the handle |
| BindingPrograms.SetterHoldingGilDeadlocks | src/_aiolibdatachannel/bindings.cpp:239-243 | a setter that kept the GIL would reach a stuck state with two threads |
| BindingPrograms.DeleteHoldingGilDeadlocks | src/_aiolibdatachannel/bindings.cpp:325-342 | so would a deletion that kept the GIL |
| BindingLocks.DeadlockFree | src/_aiolibdatachannel/bindings.cpp:235-249 | any programs that obey the lock ranking never reach a stuck state |
| BindingLocks.SomeoneCanMove | src/_aiolibdatachannel/bindings.cpp:235-249 | from any unfinished thread the chain of waits leads to a thread that can move |
| BindingLocks.SafeAtEveryState | src/_aiolibdatachannel/bindings.cpp:244-249 | mutual exclusion and GIL ownership at every reachable state of disciplined programs |
| BindingLocks.MaximalRunsFinish | src/_aiolibdatachannel/bindings.cpp:235-255 | every run of disciplined programs is finite, and a maximal one frees every lock |
| BindingLocks.StepDecreases | aiolibdatachannel/_core.py:65-72 | every instruction shrinks the remaining work, also the one that turns a contended Python lock into three waits |
| FutureSlots.GenerationsLatch | aiolibdatachannel/_loop.py:57-77 | over any sequence of set, fail, reset and cancelled awaiters each generation of a slot ends with the first operation applied to it, and no later value reaches it |
| FutureSlots.PastIsFixed | aiolibdatachannel/_loop.py:57-77 | decided and replaced futures never change again |
| FutureSlots.FutureSlot.Set | aiolibdatachannel/_loop.py:57-59 | resolves the current future if it is pending, in the view of all generations |
| FutureSlots.FutureSlot.Fail | aiolibdatachannel/_loop.py:61-72 | fails the current future if it is pending, in the view of all generations |
| FutureSlots.FutureSlot.Reset | aiolibdatachannel/_loop.py:74-77 | cancels a pending future and starts a fresh one; earlier ones are kept apart |
| FutureSlots.FutureSlot.CancelAwaiter | aiolibdatachannel/_loop.py:53-55 | cancelling a coroutine that awaits the slot cancels the one future all awaiters share |
| ReceiveQueue.ReceiveRefinesLog | aiolibdatachannel/data_channel.py:121-131 | from any queue, for every sequence of arrivals, receives and closes: the queue holds exactly the latest arrivals, deliveries are an in-order subsequence, and arrivals = delivered + dropped + queued |
| ReceiveQueue.NothingLostIff | aiolibdatachannel/data_channel.py:54-56 | on an open channel a message is dropped iff one arrives while the queue is full |
| ReceiveQueue.ReinjectionNeverWaits | aiolibdatachannel/data_channel.py:224-233 | putting the sentinel back never blocks, and the sentinel stays queued |
| QueueClosing.CloseSticks | aiolibdatachannel/data_channel.py:224-243 | with a sentinel behind the remaining messages every receive answers at once: those messages in order, then the closed error forever, however many further closes run |
| QueueClosing.CloseSeenIffRoom | aiolibdatachannel/data_channel.py:113-114 | after any trace without another close, `recv` has raised iff the close found room and the counts (messages ahead, behind) brought the sentinel to a reader; with no arrivals the reader behind the queued messages raises iff there was room and parks iff there was none |
| QueueClosing.ClosedIsAnsweredIff | aiolibdatachannel/data_channel.py:224-233 | from any queue and over any trace, `recv` raises iff the message counts bring a sentinel in front of a reader |
| QueueClosing.CloseSurvivesIff | aiolibdatachannel/data_channel.py:121-131 | from any queue with a close in it and over any trace of arrivals, receives and further closes: the close stays queued throughout iff no arrival meets a full queue with the only sentinel in front; unless closed again, what was pushed out stays lost |
| QueueClosing.GapsTrack | aiolibdatachannel/data_channel.py:121-131 | one operation changes the message counts around the sentinels as GapsAfter says, whatever the messages are |
| QueueClosing.BurstPushesCloseOutIff | aiolibdatachannel/data_channel.py:121-131 | messages handled after the close with no receive in between push the sentinel out iff the queue is bounded and there are at least as many of them as its capacity |
| QueueClosing.BurstKeepsLatest | aiolibdatachannel/data_channel.py:121-131 | a burst leaves exactly the latest items that fit, for every capacity |
| DataChannelSending.NoLostWakeupIffZeroThreshold | aiolibdatachannel/data_channel.py:201-222 | in every run a parked sender has a wakeup due (bytes buffered, a low or close handler scheduled, a destroy under way), for all runs iff the low threshold is 0 |
| DataChannelSending.NoLostWakeupAtZero | aiolibdatachannel/data_channel.py:219-222 | the positive half, from every consistent state, with native threads draining between the read of the buffered amount and the clear |
| DataChannelSending.SendStartDecides | aiolibdatachannel/data_channel.py:198-213 | a new `send` raises iff the channel is closed, parks iff it is to wait and the event is clear on an open channel, and otherwise issues a native send |
| DataChannelSending.SendResumeDecides | aiolibdatachannel/data_channel.py:201-213 | a woken sender raises iff the channel is closed, otherwise issues a native send, and never parks again |
| DataChannelSending.FailedSendRaises | aiolibdatachannel/data_channel.py:213-222 | a native send that fails raises and leaves the event and the buffer alone |
| DataChannelSending.DrainingWakesEverySender | aiolibdatachannel/data_channel.py:96-97 | at threshold 0, once the native buffer has drained and the loop has run what is scheduled, no sender is parked |
| DataChannelModel.StepBackpressure | aiolibdatachannel/data_channel.py:201-222 | every step keeps: a clear event, or a segment about to clear it, has a wakeup due |
| DataChannelModel.StepConsistent | aiolibdatachannel/data_channel.py:101-114 | every step keeps the life cycle, what a close handler settles for good, and that no sender is parked while the event is set |
| DataChannelSending.ClosedForSenders | aiolibdatachannel/data_channel.py:101-114 | after a close handler ran, in every continuation: the event stays set, no native send is ever issued, nobody parks, any sender that moved has raised ConnectionClosedError, and every woken or later sender's next step is to raise it |
| DataChannelSending.SendUndisturbed | aiolibdatachannel/data_channel.py:213-222 | the three native-facing steps of a `send` add up to the whole state the object method promises |
| DataChannelFutures.FuturesLatch | aiolibdatachannel/data_channel.py:76-119 | `wait_open` is decided by the first open, error, close or cancelled awaiter in loop order (unless open at the start), the closed slot by the first close handler, cancelled awaiter or given-up teardown, and is done iff one of these occurred or the channel began closed; after `_destroy` both are done |
| DataChannelFutures.OpenDecidedByEventsIff | aiolibdatachannel/data_channel.py:175-178 | the first open, error or close decides `wait_open` iff no coroutine awaiting it is cancelled while the outcome is pending |
| DataChannelFutures.ClosedDecidedByEventsIff | aiolibdatachannel/data_channel.py:180-187 | the first close handler (or the end of a cancelled teardown) decides `wait_closed` and `aclose` iff no coroutine awaiting the slot is cancelled while it is pending |
| DataChannelFutures.TimeoutDecidesForAll | aiolibdatachannel/data_channel.py:175-187 | a run in which a timed-out `wait_open` and a timed-out `wait_closed` decide both futures for everybody on a live channel that opened |
| DataChannelFutures.LastErrorIsKept | aiolibdatachannel/data_channel.py:116-119 | in every run the remembered error is the last one handled |
| DataChannelReceiving.ChannelReceivesInOrder | aiolibdatachannel/data_channel.py:121-131 | in every run of the whole channel, closed from the start or not, sends, closes and teardown included, receives return an in-order subsequence of the handled messages and the queue holds the latest |
| DataChannelReceiving.NativeEventsReachTheLoop | aiolibdatachannel/data_channel.py:84-97 | in every run the handlers that ran and those scheduled are, in order, one for each native opening, closing, error, message and drain across the threshold while the handle was live |
| DataChannelReceiving.FirstReceives | aiolibdatachannel/data_channel.py:76-80 | until something reaches the queue `recv` raises on a channel closed when wrapped and parks on any other |
| DataChannelTeardown.TeardownBarrier | aiolibdatachannel/data_channel.py:265-298 | at most one teardown and one native deletion; a finished teardown left no owned task running and the handle deleted; a resolved closed slot means the same unless a close handler, the owner, a cancelled awaiter or a cancelled teardown came first |
| DataChannelTeardown.AcloseIsBarrierIff | aiolibdatachannel/data_channel.py:300-310 | whenever `aclose` may return, every owned task is done and the handle deleted: throughout a run iff none of five steps occurs in it (close requested after the slot was resolved, a native close handled first, another awaiter cancelled, the teardown cancelled while gathering, the owner's destroy under running tasks) |
| DataChannelTeardown.WaitClosedIsBarrierIff | aiolibdatachannel/data_channel.py:180-187 | whenever `wait_closed` may return, every owned task is done and the handle deleted: throughout a run iff the channel was not closed from the start and none of five steps occurs (a native close handled while pending, another awaiter cancelled, the teardown cancelled while gathering, the owner's destroy under running tasks, a task spawned after the slot was resolved without a requested close) |
| DataChannelTeardown.AcloseReturnsByItselfIff | aiolibdatachannel/data_channel.py:289-310 | from every reachable point between segments after a requested close, the tasks' and the teardown's own turns can resolve the slot iff it already is resolved or no cancellation hit the teardown before its first turn |
| DataChannelTeardown.StrandedResolvedIff | aiolibdatachannel/data_channel.py:289-310 | after such a cancellation a pending slot is resolved iff a close handler runs, a destroy of the owner ends, or another awaiter is cancelled |
| DataChannelTeardown.TeardownCompletes | aiolibdatachannel/data_channel.py:289-298 | from every reachable point between segments, once close was requested and the owned tasks are done, a teardown that was not cancelled needs only its own turns to finish and resolve the slot |
| DataChannelTeardown.OwnerDestroyCompletes | aiolibdatachannel/data_channel.py:312-330 | the owner's destroy needs only its own steps, deletes once, decides both futures, wakes every sender, and a second one does nothing |
| DataChannelTeardown.RemoteCloseOpensTheBarrier | aiolibdatachannel/data_channel.py:300-310 | a run in which the slot `aclose` awaits is resolved with an owned task running and the handle alive |
| DataChannelObject.DataChannel.constructor | aiolibdatachannel/data_channel.py:39-80 | the whole initial state, for channels already open or closed |
| DataChannelObject.DataChannel.HandleClosed | aiolibdatachannel/data_channel.py:101-114 | the close handler is the model's step; both futures are done |
| DataChannelObject.DataChannel.HandleError | aiolibdatachannel/data_channel.py:116-119 | the error handler is the model's step |
| DataChannelObject.DataChannel.HandleMessage | aiolibdatachannel/data_channel.py:121-131 | the message handler is the model's step |
| DataChannelObject.DataChannel.Send | aiolibdatachannel/data_channel.py:189-222 | `send` raises iff the channel is destroyed or closed, waits iff it is to wait and the event is clear, otherwise hands the data over; the event is then set iff it was and nothing is buffered |
| DataChannelObject.DataChannel.ResumeSend | aiolibdatachannel/data_channel.py:201-222 | the same after the wait: only the close flags are looked at again |
| DataChannelObject.DataChannel.Recv | aiolibdatachannel/data_channel.py:224-233 | `recv` is the queue's receive, never parks on the put, and reports the last error |
| DataChannelObject.DataChannel.SpawnTask | aiolibdatachannel/data_channel.py:247-261 | refused iff close was requested, otherwise the new task is owned |
| DataChannelObject.DataChannel.Close | aiolibdatachannel/data_channel.py:265-287 | idempotent; pushes the sentinel, requests cancellation of every owned task, finishes none |
| DataChannelObject.DataChannel.Destroy | aiolibdatachannel/data_channel.py:312-330 | deletes once whoever calls it, then leaves what the close handler leaves |
| DataChannelObject.DataChannel.BeginTeardown | aiolibdatachannel/data_channel.py:289-298 | the teardown's first turn awaits exactly the owned tasks; with none it destroys and resolves the slot at once |
| DataChannelObject.DataChannel.ResumeTeardown | aiolibdatachannel/data_channel.py:289-298 | resumed with the awaited tasks done, the handle is destroyed, unless the teardown was cancelled meanwhile; the closed slot is done either way |
| DataChannelObject.DataChannel.CancelOpenAwaiter | aiolibdatachannel/data_channel.py:175-178 | a cancelled `wait_open` cancels the shared open future and nothing else |
| DataChannelObject.DataChannel.CancelClosedAwaiter | aiolibdatachannel/data_channel.py:180-187 | a cancelled `wait_closed` or `aclose` cancels the shared closed future and nothing else |
| EndToEnd.RecvFollowsDispatchOrder | aiolibdatachannel/data_channel.py:93-94 | with any number of channels created, closed and destroyed step by step: what `recv` returns is an order-preserving subsequence of the messages whose fetch found the callback, these of what was dispatched to that handle; what the handler was given, what is scheduled and what is being called back are in order exactly the former, and each was delivered, dropped, queued or is on its way |
| EndToEnd.EnteredIsLookedUpIff | aiolibdatachannel/_core.py:161-163 | a message that entered dispatch finds its wrapper iff its lookup comes before `destroy` takes the wrapper out of the registry |
| EndToEnd.LookedUpIsGivenIff | aiolibdatachannel/_core.py:161-166 | a message looked up while its wrapper was registered is given to the handler iff its fetch comes before `destroy` clears the callbacks, whatever happens in between |
| EndToEnd.DispatchedIsHeardOrMissed | aiolibdatachannel/_core.py:428-436 | every message dispatched to a handle was heard, was missed (looked up after the wrapper left the registry or fetched after the clear), or is before its fetch |
| EndToEnd.ClearedUnderTheLookup | aiolibdatachannel/_core.py:428-436 | a run in which a message looked up is lost while its wrapper is still registered |
| EndToEnd.LoopCatchesUp | aiolibdatachannel/_loop.py:27-36 | running what is scheduled gives each handler exactly its messages, in order |
| EndToEnd.ReceivesReturnAll | aiolibdatachannel/data_channel.py:224-233 | as many receives as messages are queued return them all, in order |
| EndToEnd.CloseReachesReaders | aiolibdatachannel/data_channel.py:113-114 | a close on an empty queue makes the next receive raise |
| EndToEnd.StepGives | aiolibdatachannel/_loop.py:27-36 | one step adds to what a handle was given, scheduled and called back exactly the message whose fetch finds the callback |
| RemoteCandidates.CandidatesAccounted | aiolibdatachannel/peer_connection.py:372-404 | over every interleaving with failures and cancellation: each copy of a candidate is in exactly one of buffer, a call's hands, submitted, lost; nothing is submitted before a description was accepted; until then the buffer is all that was added; one call at most drains, in arrival order |
| RemoteCandidates.DescriptionTakesEffectIff | aiolibdatachannel/peer_connection.py:372-384 | at rest a remote description is in effect iff the native side accepted more of them than had their calls cancelled; so, if no call applying one is cancelled, iff one was accepted |
| RemoteCandidates.AcceptedDescriptionDrains | aiolibdatachannel/peer_connection.py:376-404 | once a description is accepted, the call's own turns set the flag, submit the whole buffer in order whatever the native side answers, and finish the call |
| RemoteCandidates.CancelledJobRunsOnIff | aiolibdatachannel/peer_connection.py:375-404 | cancelling a call takes back its executor job iff it had not begun: a description begun may be accepted without effect, a candidate begun is submitted |
| RemoteCandidates.OtherCallsFinish | aiolibdatachannel/peer_connection.py:418-423 | a refused description changes nothing; a candidate added later is submitted by its own turns |
| RemoteCandidates.CandidatesExactlyOnce | aiolibdatachannel/peer_connection.py:384-404 | uncancelled and at rest, if one description was accepted, every candidate was submitted exactly as often as added, the early ones in arrival order whatever the native side answered |
| RemoteCandidates.CandidatesExactlyOnceIff | aiolibdatachannel/peer_connection.py:372-423 | at rest, with an accepted description whose call was not cancelled, this holds iff no cancellation hit a call that carried a candidate no executor job had begun |
| RemoteCandidates.StepOrdered | aiolibdatachannel/peer_connection.py:384-404 | every step keeps the order of the drain and that two calls never drain |
| RemoteCandidates.StepConserved | aiolibdatachannel/peer_connection.py:406-423 | every step keeps the number of copies of every candidate |
| PeerConnectionObject.PeerConnection.AddRemoteCandidate | aiolibdatachannel/peer_connection.py:406-423 | buffers before a description, submits after, and only then reports the native error |
| PeerConnectionObject.PeerConnection.TakeBuffer | aiolibdatachannel/peer_connection.py:384-387 | the segment after the native call succeeded: sets the flag and takes over the whole buffer, which decides what this call submits |
| PeerConnectionObject.PeerConnection.DrainBuffered | aiolibdatachannel/peer_connection.py:384-404 | undisturbed, all of the buffer is submitted in order past every refusal |
| ConsumerQueue.NothingLostOrDuplicated | aiolibdatachannel/peer_connection.py:473-551 | for a queue of any capacity, in every run each pushed value was delivered to exactly one consumer, dropped, or is queued, in push order, and deliveries are in push order; the queue holds exactly the sentinels accepted and not pushed out; an unbounded queue drops nothing |
| ConsumerQueue.NoStrandedConsumer | aiolibdatachannel/peer_connection.py:473-495 | while an item is queued, a parked consumer implies a woken one whose next step takes it, with cancelled getters, dropped items and suppressed closes included |
| ConsumerQueue.FirstParkedFirstWoken | aiolibdatachannel/peer_connection.py:508-515 | every step keeps parked consumers in the order they parked and wakes the earlier before the later |
| ConsumerQueue.ConsumerStopsIff | aiolibdatachannel/peer_connection.py:473-515 | over every run a consumer has stopped iff it took a sentinel, left, was cancelled, or wanted one item and took it |
| ConsumerQueue.OnceGetsOne | aiolibdatachannel/peer_connection.py:483-495 | a consumer of a single item gets at most one and is finished with it |
| ConsumerQueue.IteratorReadsAll | aiolibdatachannel/peer_connection.py:508-515 | by its own turns an iterator gets every queued value in order and keeps reading |
| ConsumerQueue.ClosedQueueLetsEveryoneFinish | aiolibdatachannel/peer_connection.py:593-598 | with a sentinel queued (always once an unbounded queue was closed) no consumer stays blocked: none can take an item iff all have finished, on a single sentinel |
| ConsumerQueue.GetsBounded | aiolibdatachannel/peer_connection.py:508-551 | after the last push all consumers together take at most (queued values + unfinished consumers) items |
| DataChannelReaders.ReadersRefine | aiolibdatachannel/data_channel.py:224-233 | several readers parked in `recv` on the bounded queue: arrivals, closes and receives are the queue system's pushes and takes, so its results hold for them |
| PeerConnectionObject.NextKeepsSentinels | aiolibdatachannel/peer_connection.py:508-515 | an iterator's turn keeps the number of sentinels, yields the oldest value, and waits iff the queue is empty |
| PeerConnectionObject.TakeFollowsNext | aiolibdatachannel/peer_connection.py:508-515 | the queue system's take leaves the queue, delivers and stops as the iterators' turn does |
| PeerConnectionObject.PeerConnection.HandleStateChange | aiolibdatachannel/peer_connection.py:261-273 | closed and failed states decide both futures and end the candidate iterators; other states touch neither |
| PeerConnectionObject.PeerConnection.HandleGatheringState | aiolibdatachannel/peer_connection.py:279-285 | completion resolves the gathering future and ends the candidate iterators |
| PeerConnectionObject.PeerConnection.HandleIncoming | aiolibdatachannel/peer_connection.py:291-295 | an incoming handle is wrapped with the default buffer, kept, queued and announced |
| PeerConnectionObject.PeerConnection.NextIncoming | aiolibdatachannel/peer_connection.py:473-495 | one turn of the incoming iterator or of `accept_data_channel`; never waits once closed |
| PeerConnectionObject.PeerConnection.NextIceCandidate | aiolibdatachannel/peer_connection.py:508-515 | one turn of the candidate iterator; never waits once closed |
| PeerConnectionObject.PeerConnection.NextEvent | aiolibdatachannel/peer_connection.py:544-551 | one turn of the event iterator; never waits once closed |
| PeerConnectionObject.PeerConnection.SpawnTask | aiolibdatachannel/peer_connection.py:555-571 | refused iff closed, otherwise the new task is owned |
| PeerConnectionObject.PeerConnection.Close | aiolibdatachannel/peer_connection.py:575-608 | idempotent; one sentinel to each queue, every owned task's cancellation requested, so that events and incoming hold one sentinel iff closed |
| PeerConnectionObject.PeerConnection.SweepChannels | aiolibdatachannel/peer_connection.py:615-616 | every kept channel ends destroyed with one native deletion and the state its close handler leaves; those already torn down are left alone |
| PeerConnectionObject.PeerConnection.FinishTeardown | aiolibdatachannel/peer_connection.py:617-619 | the native connection is deleted iff the executor began the job, also when the task is cancelled meanwhile; the closed event is set either way |
| Shutdown.ShutdownBarrier | aiolibdatachannel/peer_connection.py:586-632 | with no cancelled teardown, in any interleaving of close, aclose, spawns and channel teardowns: the closed event, and so any returned `aclose`, means every task done, every channel at the sweep destroyed once, the native handle deleted once, no further task accepted, by one teardown task |
| Shutdown.ShutdownBarrierIff | aiolibdatachannel/peer_connection.py:610-632 | the set event means torn down throughout a run iff no cancellation ends the teardown after its first turn and before the executor's deletion |
| Shutdown.DeletedAtMostOnce | aiolibdatachannel/peer_connection.py:610-619 | cancellation included, at most one teardown task and one native deletion of the connection and of each channel |
| Shutdown.TeardownCompletes | aiolibdatachannel/peer_connection.py:610-619 | once closed and with the owned tasks done, a teardown that was not cancelled needs only its own turns and the executor's to set the event |
| Shutdown.CancelledDeletionIff | aiolibdatachannel/peer_connection.py:617-619 | a teardown cancelled while its deletion is with the executor still deletes the handle iff the executor had begun the job |
| Shutdown.ChannelTearsItselfDown | aiolibdatachannel/data_channel.py:289-298 | a kept channel tears itself down once closed, and only then, and no later sweep deletes it again |
| Shutdown.CancellationOpensTheBarrier | aiolibdatachannel/peer_connection.py:618-619 | a run in which cancelling the gathering teardown sets the event with nothing swept and nothing deleted |
| Shutdown.CancelledBeforeStartNeverOpens | aiolibdatachannel/peer_connection.py:621-632 | once cancelled before its first turn, in every continuation the event stays clear and every `aclose` waits |
| Shutdown.AcloseCanReturnIff | aiolibdatachannel/peer_connection.py:610-632 | after any run some continuation (one without cancellations) lets `aclose` return iff no cancellation hit the teardown before its first turn; otherwise none ever does |
| Shutdown.WaitersReturnIff | aiolibdatachannel/peer_connection.py:621-632 | at every reachable state a waiting `aclose` returns with its next turn, and a new one at once, iff the event is set |
| Shutdown.AcloseMayWaitForever | aiolibdatachannel/peer_connection.py:621-632 | a close whose teardown is cancelled at once leads there: in every continuation no `aclose` ever returns |
| RegistryModel.RoutingIsExact | aiolibdatachannel/_core.py:111-170 | in every interleaving of lookups, fetches, calls, registrations and destructions: a handle is registered exactly until its wrapper's `destroy` removes it; while the wrapper is live a dispatch of an enabled (or being enabled) kind finds it and fetches the callback stored then; after the clear no dispatch fetches one; deletions are at most one |
| RegistryModel.FiringsBelongToTheOwner | aiolibdatachannel/_core.py:91-98 | in every interleaving, whatever is called was stored for that kind by the wrapper of that handle in the registry of that kind, was fetched before `destroy` cleared it, and is called before the native deletion |
| RegistryModel.NothingFiresAfterDeletion | aiolibdatachannel/_core.py:331-341 | once a wrapper's native handle is deleted no callback of it is called in any continuation |
| RegistryModel.FetchedBeforeTheClearFiresLater | aiolibdatachannel/_core.py:428-436 | a run in which a callback fetched before the clear is called after the wrapper was cleared and unregistered |
| RegistryModel.UndisturbedDispatchFires | aiolibdatachannel/_core.py:111-181 | with nothing in between, entry, lookup, fetch and call fire exactly what the one-step dispatch says |
| RegistryModel.DispatchFiresOnlyTheOwner | aiolibdatachannel/_core.py:65-72 | what an undisturbed `_dispatch` fires is the callback stored for that kind by the wrapper of that handle, in the registry of that kind |
| RegistryModel.StoredCallbackFires | aiolibdatachannel/_core.py:367-385 | whatever a live channel or connection wrapper registers for one of its own kinds is what the next dispatch of that kind to its handle calls |
| RegistryModel.KindsLookInTheirRegistry | aiolibdatachannel/_core.py:123-170 | the five channel kinds are looked up among the channels only, the seven connection kinds among the connections only |
| RegistryModel.DispatchFinishes | aiolibdatachannel/_core.py:91-98 | whatever a dispatch has done so far, its own steps finish it and touch no other |
| RegistryModel.DestroyFinishes | aiolibdatachannel/_core.py:331-341 | once no dispatch of the handle is under way, `destroy` needs only its own steps to delete it |
| RegistryModel.NothingBeginsAfterUninstall | aiolibdatachannel/_core.py:479-483 | once the dispatcher is cleared no dispatch begins in any continuation |
| RegistryModel.StepKeeps | aiolibdatachannel/_core.py:233-271 | every step of creation, registration, dispatch and destruction keeps the registry invariant |
| RegistryModel.StepKeepsFlights | aiolibdatachannel/_core.py:331-341 | every step keeps each dispatch under way inside a wrapper of its handle that is not deleted |
| RegistryObjects.Core.Create | aiolibdatachannel/_core.py:195-221 | a new wrapper is registered under its fresh handle |
| RegistryObjects.Core.SetOn | aiolibdatachannel/_core.py:367-385 | the Python callback is stored, then the native one enabled; a refused registration raises and leaves the callback stored |
| RegistryObjects.Core.SetOnFiring | aiolibdatachannel/_core.py:111-121 | a registration that fires synchronously finds the callback just stored |
| RegistryObjects.Core.Dispatch | aiolibdatachannel/_core.py:111-181 | with a dispatcher installed, the five channel kinds fire what the channel of that handle stored, the seven connection kinds what the connection stored, log lines the log callback; nothing otherwise |
| RegistryObjects.Core.Destroy | aiolibdatachannel/_core.py:331-341 | once flagged, cleared and unregistered exactly one native deletion follows, raising or not; a second call does nothing |
| RegistryObjects.Core.DestroyAll | aiolibdatachannel/_core.py:465-470 | one exit loop empties its registry and deletes in order, whatever raises |
| RegistryObjects.Core.AtexitDestroyAll | aiolibdatachannel/_core.py:465-483 | both registries end empty, all channels deleted before all connections, cleanup next, the dispatcher cleared last |
| IceServerUrl.UrlRoundTrip | aiolibdatachannel/config.py:29-49 | for every accepted server with a user name or a credential, splitting the URL at ':', ':' and '@' and decoding gives back scheme, user name, credential and remainder |
| IceServerUrl.UrlIsInjective | aiolibdatachannel/config.py:29-49 | equal URLs come from servers equal up to None = "" |
| IceServerUrl.UrlsCoincideIff | aiolibdatachannel/config.py:29-49 | over every pair of accepted servers, exactly which URLs coincide: plain ones pass through unchanged; with credentials, those equal up to None = ""; a plain URL meets one with credentials iff it reads as its parts and is spelled as `to_url` spells them |
| IceServerUrl.PlainUrlPasses | aiolibdatachannel/config.py:32-33 | a server with neither user name nor credential keeps its URL |
| IceServerUrl.OutputIsRejected | aiolibdatachannel/config.py:40-49 | the output, offered again with credentials, is rejected |
| IceServerUrl.NotSchemePrefixedIff | aiolibdatachannel/config.py:32-38 | which servers are refused for lack of a scheme, position by position |
| IceServerUrl.AlreadyCarriesCredentialsIff | aiolibdatachannel/config.py:40-45 | which servers are refused for credentials already in the URL, position by position |
| Percent.QuoteRoundTrip | aiolibdatachannel/config.py:47-49 | percent-decoding undoes quoting for every string |
| Percent.QuotedIsSafe | aiolibdatachannel/config.py:47-49 | quoted text holds only unreserved characters and '%' |
| Percent.ByteSpelling | aiolibdatachannel/config.py:47-49 | every unreserved character is itself, every other byte '%' and two upper-case digits |
| Utf8.EncodedIsWellFormed | aiolibdatachannel/config.py:47-49 | each character is encoded in the one well-formed, shortest way of section 4 of RFC 3629 |

## Left out

- SDP, ICE, DTLS and SCTP, and everything else inside libdatachannel; only the assumptions above stand for it.
- `create_offer`, `create_answer` and `set_local_description`: a callback scheduled before a reset can resolve the new future, so their freshness is not claimed.
- `wait_for_state`, the ICE-state and signaling-state handlers, property accessors, enums, exceptions, configuration structs and logging: single assignments or tables.
- `restart_ice` is not part of this model: only its design document is in the repository.
- `__del__` and garbage-collection timing, interpreter shutdown races, scheduling on a closed loop, and two threads inside one wrapper's unguarded destroy check.
- The binding (`bindings.cpp`) is a machine over lock programs rather than imperative Dafny: its content is the interleaving of many threads, which one method body does not show.
- The log callback's own native locks, and blocking native calls made while another callback of the calling thread is running.
- The objects run each segment without native interference; interference inside `send` and `_destroy` is in the transition system only.
- A change of the low threshold during a run, and cancellation of a parked sender (it only removes a waiter).
- Channels created after the teardown sweep are not destroyed by it, and a candidate added during the drain may overtake buffered ones: both are allowed by the model, neither is claimed otherwise.
- Lone surrogates in user names and credentials, which Dafny's characters exclude and Python's `quote` refuses.
- PeerConnectionObject.PeerConnection.DrainBuffered: the object submits the taken buffer without anything in between, because a method is one segment; RemoteCandidates has the interleavings between the awaits.
- RemoteCandidates.CandidatesExactlyOnce: submission means handing over to the native call; whether the native side accepts a candidate is its own matter, and a refused one is not retried.
