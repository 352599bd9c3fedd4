/** From native dispatch to `recv`: the registry lookup, the fetch and the call of the
    message callback, the loop's FIFO, the message handler and the bounded queue of every
    channel together, for any number of channels that are created and destroyed meanwhile. */
module EndToEnd {
  import opened Wrappers
  import opened Subsequences
  import opened ReceiveQueue

  datatype Dispatched<M> = Dispatched(handle: int, m: M)

  /** A dispatch under way; the channel's callback mutex admits one per handle. */
  datatype Flight<M> = Entered(m: M) | Looked(m: M) | Fetched(m: M)

  /** A wrapper as `_dispatch` sees it: in the registry, its message callback ever stored,
      its callbacks cleared by `destroy`. */
  datatype Handle<M> = Handle(registered: bool, stored: bool, cleared: bool, flight: Option<Flight<M>>)

  /** A channel object; `arrivals` is what its message handler was given so far. */
  datatype Channel<M> = Channel(cap: int, rx: Rx<M>, arrivals: seq<M>)

  datatype State<M> = State(
    handles: map<int, Handle<M>>,        // every handle ever made
    channels: map<int, Channel<M>>,      // their channel objects
    fifo: seq<Dispatched<M>>,            // message handlers scheduled on the loop
    dispatched: seq<Dispatched<M>>)      // history: native dispatches, in order

  datatype Action<M> =
    | Create(handle: int, cap: int)
    | Store(handle: int)                 // set_on_message
    | NativeMessage(handle: int, m: M)   // a dispatch takes the mutex and enters
    | Look(handle: int)
    | Fetch(handle: int)
    | CallBack(handle: int)              // the callback schedules the handler
    | Clear(handle: int)                 // `destroy` clears the callbacks,
    | Pop(handle: int)                   // then leaves the registry
    | RunScheduled
    | RecvOn(handle: int)
    | CloseOn(handle: int)

  function Init<M>(): State<M> { State(map[], map[], [], []) }

  predicate CallbackStored<M>(x: Handle<M>) { x.stored && !x.cleared }

  /** What an action does to the handle it names.  The native side fires only what was
      registered with it, so no message enters before the callback was stored. */
  function HandleAfter<M>(x: Handle<M>, a: Action<M>): Handle<M> {
    match a
    case Store(_) => if x.cleared then x else x.(stored := true)
    case NativeMessage(_, m) => if Enters(x) then x.(flight := Some(Entered(m))) else x
    case Look(_) =>
      if x.flight.None? || !x.flight.value.Entered? then x
      else x.(flight := if x.registered then Some(Looked(x.flight.value.m)) else None)
    case Fetch(_) =>
      if x.flight.None? || !x.flight.value.Looked? then x
      else x.(flight := if CallbackStored(x) then Some(Fetched(x.flight.value.m)) else None)
    case CallBack(_) => if Calls(x) then x.(flight := None) else x
    case Clear(_) => x.(cleared := true)
    case Pop(_) => if x.cleared then x.(registered := false) else x
    case _ => x
  }

  predicate Enters<M>(x: Handle<M>) { x.stored && x.flight.None? }

  predicate Calls<M>(x: Handle<M>) { x.flight.Some? && x.flight.value.Fetched? }

  function OnChannel<M>(c: Channel<M>, op: Op<M>): Channel<M> {
    Channel(c.cap, Apply(c.rx, c.cap, op), c.arrivals + (if op.Arrive? then [op.m] else []))
  }

  function Update<M>(s: State<M>, h: int, op: Op<M>): State<M> {
    if h in s.channels then s.(channels := s.channels[h := OnChannel(s.channels[h], op)]) else s
  }

  predicate OnHandle<M>(a: Action<M>) {
    a.Store? || a.NativeMessage? || a.Look? || a.Fetch? || a.CallBack? || a.Clear? || a.Pop?
  }

  function HandleStep<M>(s: State<M>, h: int, a: Action<M>): State<M> {
    if h !in s.handles then s
    else
      var x := s.handles[h];
      s.(handles := s.handles[h := HandleAfter(x, a)],
         fifo := if a.CallBack? && Calls(x) then s.fifo + [Dispatched(h, x.flight.value.m)] else s.fifo,
         dispatched := if a.NativeMessage? && Enters(x) then s.dispatched + [Dispatched(h, a.m)] else s.dispatched)
  }

  function Step<M>(s: State<M>, a: Action<M>): State<M> {
    match a
    case Create(h, cap) =>
      if h in s.handles then s
      else s.(handles := s.handles[h := Handle(true, false, false, None)],
              channels := s.channels[h := Channel(cap, Rx([], [], []), [])])
    case RunScheduled =>
      if s.fifo == [] then s
      else Update(s.(fifo := s.fifo[1..]), s.fifo[0].handle, Arrive(s.fifo[0].m))
    case RecvOn(h) => Update(s, h, TakeNext)
    case CloseOn(h) => Update(s, h, PushClosed)
    case _ => HandleStep(s, a.handle, a)
  }

  function Run<M>(s: State<M>, actions: seq<Action<M>>): State<M>
    decreases |actions|
  {
    if actions == [] then s else Run(Step(s, actions[0]), actions[1..])
  }

  /** The messages of one handle, in order. */
  function For<M>(ds: seq<Dispatched<M>>, h: int): seq<M> {
    if ds == [] then [] else (if ds[0].handle == h then [ds[0].m] else []) + For(ds[1..], h)
  }

  lemma {:induction false} ForAppend<M>(ds: seq<Dispatched<M>>, d: Dispatched<M>, h: int)
    ensures For(ds + [d], h) == For(ds, h) + (if d.handle == h then [d.m] else [])
  {
    if ds == [] {
      assert ds + [d] == [d] && [d][1..] == [];
    } else {
      ForAppend(ds[1..], d, h);
      assert (ds + [d])[1..] == ds[1..] + [d];
    }
  }

  // ---- Invariant ---------------------------------------------------------

  /** Every handle has its channel object, only they have anything scheduled, a wrapper
      leaves the registry only once cleared, and each channel's queue refines what its
      handler was given. */
  predicate Inv<M(==)>(s: State<M>) {
    && s.handles.Keys == s.channels.Keys
    && (forall i :: 0 <= i < |s.fifo| ==> s.fifo[i].handle in s.channels)
    && (forall h :: h in s.handles ==> HandleOk(s.handles[h]))
    && (forall h :: h in s.channels ==> Tracks(s.channels[h].rx, s.channels[h].cap, s.channels[h].arrivals))
  }

  predicate HandleOk<M>(x: Handle<M>) {
    (x.registered || x.cleared) && (x.flight.Some? ==> x.stored)
  }

  lemma UpdateKeeps<M>(s: State<M>, h: int, op: Op<M>)
    requires Inv(s)
    ensures Inv(Update(s, h, op))
  {
    if h in s.channels {
      var c := s.channels[h];
      ApplyTracks(c.rx, c.cap, c.arrivals, op);
      assert c.arrivals + [] == c.arrivals;
    }
  }

  lemma HandleStepKeeps<M>(s: State<M>, h: int, a: Action<M>)
    requires Inv(s)
    ensures Inv(HandleStep(s, h, a))
  {
    if h in s.handles {
      HandleAfterOk(s.handles[h], a);
      var s' := HandleStep(s, h, a);
      assert s'.handles.Keys == s.handles.Keys && s'.channels == s.channels;
      assert forall k :: k in s'.handles ==> HandleOk(s'.handles[k]);
    }
  }

  lemma HandleAfterOk<M>(x: Handle<M>, a: Action<M>)
    requires HandleOk(x)
    ensures HandleOk(HandleAfter(x, a))
  {
  }

  lemma StepKeeps<M>(s: State<M>, a: Action<M>)
    requires Inv(s)
    ensures Inv(Step(s, a))
  {
    match a
    case Create(h, cap) =>
      var none: seq<M> := [];
      assert Tracks(Rx<M>.Rx([], [], []), cap, none);
    case RunScheduled =>
      if s.fifo != [] { UpdateKeeps(s.(fifo := s.fifo[1..]), s.fifo[0].handle, Arrive(s.fifo[0].m)); }
    case RecvOn(h) => UpdateKeeps(s, h, TakeNext);
    case CloseOn(h) => UpdateKeeps(s, h, PushClosed);
    case _ => HandleStepKeeps(s, a.handle, a);
  }

  lemma {:induction false} RunKeeps<M>(s: State<M>, actions: seq<Action<M>>)
    requires Inv(s)
    ensures Inv(Run(s, actions))
    decreases |actions|
  {
    if actions != [] {
      StepKeeps(s, actions[0]);
      RunKeeps(Step(s, actions[0]), actions[1..]);
    }
  }

  // ---- What the actions say about one handle -----------------------------

  /** The wrapper of `h`, followed through the actions alone; None until it is made. */
  function Watch<M>(x: Option<Handle<M>>, a: Action<M>, h: int): Option<Handle<M>> {
    if a.Create? && a.handle == h && x.None? then Some(Handle(true, false, false, None))
    else if x.Some? && OnHandle(a) && a.handle == h then Some(HandleAfter(x.value, a))
    else x
  }

  function Of<M>(s: State<M>, h: int): Option<Handle<M>> {
    if h in s.handles then Some(s.handles[h]) else None
  }

  lemma StepWatches<M>(s: State<M>, a: Action<M>, h: int)
    ensures Of(Step(s, a), h) == Watch(Of(s, h), a, h)
  {
  }

  /** The message whose fetch finds the callback now. */
  function HeardNow<M>(x: Option<Handle<M>>, a: Action<M>, h: int): seq<M> {
    if a == Fetch(h) && Fetches(x) && CallbackStored(x.value) then [x.value.flight.value.m] else []
  }

  /** The message that is lost now: looked up after the wrapper left the registry, or
      fetched after its callbacks were cleared. */
  function MissedNow<M>(x: Option<Handle<M>>, a: Action<M>, h: int): seq<M> {
    if a == Fetch(h) && Fetches(x) && !CallbackStored(x.value) then [x.value.flight.value.m]
    else if a == Look(h) && Looks(x) && !x.value.registered then [x.value.flight.value.m]
    else []
  }

  predicate Fetches<M>(x: Option<Handle<M>>) { x.Some? && x.value.flight.Some? && x.value.flight.value.Looked? }

  predicate Looks<M>(x: Option<Handle<M>>) { x.Some? && x.value.flight.Some? && x.value.flight.value.Entered? }

  function Heard<M>(actions: seq<Action<M>>, h: int, x: Option<Handle<M>>): seq<M>
    decreases |actions|
  {
    if actions == [] then []
    else HeardNow(x, actions[0], h) + Heard(actions[1..], h, Watch(x, actions[0], h))
  }

  function Missed<M>(actions: seq<Action<M>>, h: int, x: Option<Handle<M>>): seq<M>
    decreases |actions|
  {
    if actions == [] then []
    else MissedNow(x, actions[0], h) + Missed(actions[1..], h, Watch(x, actions[0], h))
  }

  /** A dispatch that has not fetched its callback yet. */
  function Undecided<M>(x: Option<Handle<M>>): seq<M> {
    if Looks(x) || Fetches(x) then [x.value.flight.value.m] else []
  }

  /** A dispatch that has its callback but has not called it yet. */
  function Calling<M>(x: Option<Handle<M>>): seq<M> {
    if x.Some? && Calls(x.value) then [x.value.flight.value.m] else []
  }

  function Arrived<M>(s: State<M>, h: int): seq<M> {
    if h in s.channels then s.channels[h].arrivals else []
  }

  /** What the handler of `h` was given, then what is scheduled for it, then what is being
      called back. */
  function Given<M>(s: State<M>, h: int): seq<M> {
    Arrived(s, h) + For(s.fifo, h) + Calling(Of(s, h))
  }

  // ---- Nothing reordered, nothing skipped --------------------------------

  lemma StepGives<M>(s: State<M>, a: Action<M>, h: int)
    requires Inv(s)
    ensures Given(Step(s, a), h) == Given(s, h) + HeardNow(Of(s, h), a, h)
  {
    match a
    case CallBack(k) => CallBackGives(s, k, h);
    case RunScheduled => if s.fifo != [] { RunScheduledGives(s, h); }
    case RecvOn(k) => UpdateGives(s, k, TakeNext, h);
    case CloseOn(k) => UpdateGives(s, k, PushClosed, h);
    case Create(k, cap) => CreateGives(s, k, cap, h);
    case _ => HandleGives(s, a, h);
  }

  lemma CreateGives<M>(s: State<M>, k: int, cap: int, h: int)
    requires Inv(s)
    ensures Given(Step(s, Create(k, cap)), h) == Given(s, h)
  {
  }

  lemma HandleGives<M>(s: State<M>, a: Action<M>, h: int)
    requires OnHandle(a) && !a.CallBack?
    ensures Given(Step(s, a), h) == Given(s, h) + HeardNow(Of(s, h), a, h)
  {
    var x, x' := Of(s, h), Of(Step(s, a), h);
    assert Step(s, a).fifo == s.fifo && Arrived(Step(s, a), h) == Arrived(s, h);
    StepWatches(s, a, h);
    assert Calling(x') == Calling(x) + HeardNow(x, a, h);
    Assoc(Arrived(s, h) + For(s.fifo, h), Calling(x), HeardNow(x, a, h));
  }

  lemma UpdateGives<M>(s: State<M>, k: int, op: Op<M>, h: int)
    requires !op.Arrive?
    ensures Given(Update(s, k, op), h) == Given(s, h)
  {
    if k in s.channels { assert OnChannel(s.channels[k], op).arrivals == s.channels[k].arrivals; }
  }

  lemma CallBackGives<M>(s: State<M>, k: int, h: int)
    ensures Given(Step(s, CallBack(k)), h) == Given(s, h)
  {
    if k in s.handles && Calls(s.handles[k]) {
      var m := s.handles[k].flight.value.m;
      ForAppend(s.fifo, Dispatched(k, m), h);
      if k == h {
        Assoc(Arrived(s, h), For(s.fifo, h), [m]);
      } else {
        assert For(s.fifo, h) + [] == For(s.fifo, h);
      }
    }
  }

  lemma RunScheduledGives<M>(s: State<M>, h: int)
    requires s.fifo != [] && s.fifo[0].handle in s.channels
    ensures Given(Step(s, RunScheduled), h) == Given(s, h)
  {
    if s.fifo[0].handle == h {
      Assoc(s.channels[h].arrivals, [s.fifo[0].m], For(s.fifo[1..], h));
    } else {
      assert For(s.fifo, h) == For(s.fifo[1..], h);
    }
  }

  lemma {:induction false} RunGives<M>(s: State<M>, actions: seq<Action<M>>, h: int)
    requires Inv(s)
    ensures Given(Run(s, actions), h) == Given(s, h) + Heard(actions, h, Of(s, h))
    decreases |actions|
  {
    if actions != [] {
      var a, s' := actions[0], Step(s, actions[0]);
      StepKeeps(s, a);
      StepGives(s, a, h);
      StepWatches(s, a, h);
      RunGives(s', actions[1..], h);
      Assoc(Given(s, h), HeardNow(Of(s, h), a, h), Heard(actions[1..], h, Of(s', h)));
    }
  }

  function EnteredNow<M>(x: Option<Handle<M>>, a: Action<M>, h: int): seq<M> {
    if a.NativeMessage? && a.handle == h && x.Some? && Enters(x.value) then [a.m] else []
  }

  lemma StepDispatches<M>(s: State<M>, a: Action<M>, h: int)
    ensures For(Step(s, a).dispatched, h) == For(s.dispatched, h) + EnteredNow(Of(s, h), a, h)
  {
    if a.NativeMessage? && a.handle in s.handles && Enters(s.handles[a.handle]) {
      ForAppend(s.dispatched, Dispatched(a.handle, a.m), h);
    } else {
      assert Step(s, a).dispatched == s.dispatched;
    }
  }

  /** One step settles an undecided dispatch one way or the other, or lets one enter. */
  lemma StepSettles<M>(x: Option<Handle<M>>, a: Action<M>, h: int)
    ensures HeardNow(x, a, h) + MissedNow(x, a, h) + Undecided(Watch(x, a, h)) == Undecided(x) + EnteredNow(x, a, h)
  {
  }

  lemma SettledCount<T>(heard: seq<T>, missed: seq<T>, open': seq<T>, open: seq<T>, entered: seq<T>, y: T)
    requires heard + missed + open' == open + entered
    ensures multiset(heard)[y] + multiset(missed)[y] + multiset(open')[y] == multiset(open)[y] + multiset(entered)[y]
  {
    assert multiset(heard + missed + open')[y] == multiset(open + entered)[y];
  }

  lemma CountConcat<T>(a: seq<T>, b: seq<T>, y: T)
    ensures multiset(a + b)[y] == multiset(a)[y] + multiset(b)[y]
  {
  }

  /** Along a run every copy of a message that enters is heard, missed, or undecided. */
  lemma {:induction false} RunSettles<M>(s: State<M>, actions: seq<Action<M>>, h: int, y: M)
    ensures multiset(For(s.dispatched, h))[y] + multiset(Heard(actions, h, Of(s, h)))[y]
            + multiset(Missed(actions, h, Of(s, h)))[y] + multiset(Undecided(Of(Run(s, actions), h)))[y]
            == multiset(For(Run(s, actions).dispatched, h))[y] + multiset(Undecided(Of(s, h)))[y]
    decreases |actions|
  {
    if actions != [] {
      var a, s', rest := actions[0], Step(s, actions[0]), actions[1..];
      var x, x' := Of(s, h), Of(s', h);
      StepWatches(s, a, h);
      StepDispatches(s, a, h);
      StepSettles(x, a, h);
      SettledCount(HeardNow(x, a, h), MissedNow(x, a, h), Undecided(x'), Undecided(x), EnteredNow(x, a, h), y);
      RunSettles(s', rest, h, y);
      CountConcat(For(s.dispatched, h), EnteredNow(x, a, h), y);
      CountConcat(HeardNow(x, a, h), Heard(rest, h, x'), y);
      CountConcat(MissedNow(x, a, h), Missed(rest, h, x'), y);
    }
  }

  /** What was given and the dispatch not yet settled follow the dispatch order. */
  ghost predicate InOrder<M>(s: State<M>, h: int) {
    Subsequence(Given(s, h) + Undecided(Of(s, h)), For(s.dispatched, h))
  }

  lemma StepInOrder<M>(s: State<M>, a: Action<M>, h: int)
    requires Inv(s) && InOrder(s, h)
    ensures InOrder(Step(s, a), h)
  {
    var x, x' := Of(s, h), Watch(Of(s, h), a, h);
    StepGives(s, a, h);
    StepDispatches(s, a, h);
    StepWatches(s, a, h);
    StepSettles(x, a, h);
    OrderKept(Given(s, h), Undecided(x), For(s.dispatched, h),
              HeardNow(x, a, h), MissedNow(x, a, h), Undecided(x'), EnteredNow(x, a, h));
  }

  lemma OrderKept<T>(given: seq<T>, open: seq<T>, sent: seq<T>, heard: seq<T>, missed: seq<T>, open': seq<T>,
                     entered: seq<T>)
    requires Subsequence(given + open, sent) && heard + missed + open' == open + entered
    requires |open| <= 1 && |entered| <= 1 && |open + entered| <= 1
    ensures Subsequence(given + heard + open', sent + entered)
  {
    assert given + [] == given && sent + [] == sent && [] + entered == entered && open + [] == open;
    SubsequencePrefix(given, open, sent);
    if entered != [] {
      assert entered == [entered[0]] && open == [];
      if missed == [] {
        SubsequenceTake(given, sent, entered[0]);
        assert given + heard + open' == given + entered;
      } else {
        SubsequenceSkip(given, sent, entered[0]);
        assert heard == [] && open' == [];
      }
    } else if missed == [] {
      assert given + heard + open' == given + open;
    } else {
      assert heard == [] && open' == [];
    }
  }

  lemma {:induction false} RunInOrder<M>(s: State<M>, actions: seq<Action<M>>, h: int)
    requires Inv(s) && InOrder(s, h)
    ensures InOrder(Run(s, actions), h)
    decreases |actions|
  {
    if actions != [] {
      StepKeeps(s, actions[0]);
      StepInOrder(s, actions[0], h);
      RunInOrder(Step(s, actions[0]), actions[1..], h);
    }
  }

  // ---- Main results ------------------------------------------------------

  /** The messages given to the handler of `c` were delivered in order, dropped by the full
      queue, or are queued. */
  lemma ChannelAccounts<M>(c: Channel<M>, later: seq<M>, heard: seq<M>)
    requires Tracks(c.rx, c.cap, c.arrivals) && heard == c.arrivals + later
    ensures Subsequence(Delivered(c.rx.answers), heard)
    ensures multiset(heard) == multiset(Delivered(c.rx.answers)) + multiset(Pick(c.rx.left, false))
                               + multiset(Messages(c.rx.queue)) + multiset(later)
  {
    PickIsSubsequence(c.rx.left, true);
    PickPartitions(c.rx.left);
    SubsequenceWiden(Delivered(c.rx.answers), All(c.rx.left), Messages(c.rx.queue));
    SubsequenceWiden(Delivered(c.rx.answers), c.arrivals, later);
    assert multiset(c.arrivals) == multiset(All(c.rx.left)) + multiset(Messages(c.rx.queue));
  }

  lemma StateAccounts<M>(r: State<M>, h: int, heard: seq<M>) returns (dropped: seq<M>)
    requires Inv(r) && h in r.channels && Given(r, h) == heard && InOrder(r, h)
    ensures var c := r.channels[h];
            var later := For(r.fifo, h) + Calling(Of(r, h));
            && Subsequence(Delivered(c.rx.answers), heard) && Subsequence(heard, For(r.dispatched, h))
            && c.arrivals + later == heard
            && dropped == Pick(c.rx.left, false)
            && multiset(heard) == multiset(Delivered(c.rx.answers)) + multiset(dropped)
                                  + multiset(Messages(c.rx.queue)) + multiset(later)
  {
    var c := r.channels[h];
    dropped := Pick(c.rx.left, false);
    Assoc(c.arrivals, For(r.fifo, h), Calling(Of(r, h)));
    ChannelAccounts(c, For(r.fifo, h) + Calling(Of(r, h)), heard);
    SubsequencePrefix(heard, Undecided(Of(r, h)), For(r.dispatched, h));
  }

  lemma InitGives<M>(h: int)
    ensures var s := Init<M>(); Inv(s) && Given(s, h) == [] && InOrder(s, h) && Of(s, h) == None
  {
    assert Embeds([], Given(Init<M>(), h) + Undecided(Of(Init<M>(), h)), For(Init<M>().dispatched, h));
  }

  lemma StartsEmpty<T>(none: seq<T>, rest: seq<T>)
    requires none == []
    ensures none + rest == rest
  {
  }

  /** What `recv` returned on a channel is an order-preserving subsequence of the messages
      whose fetch found the callback, and these of what the native side dispatched to that
      handle: nothing reordered, nothing twice, nothing from another handle, whatever is
      created and destroyed meanwhile.  Of the messages whose fetch found the callback none
      is skipped: what the handler was given, what is scheduled for it and what is being
      called back are, in this order, exactly they; and each of them was delivered, dropped
      by the full queue, is queued, or is on its way. */
  lemma RecvFollowsDispatchOrder<M>(actions: seq<Action<M>>, h: int) returns (dropped: seq<M>)
    requires h in Run(Init<M>(), actions).channels
    ensures var r := Run(Init<M>(), actions);
            var c := r.channels[h];
            var heard := Heard(actions, h, None);
            var later := For(r.fifo, h) + Calling(Of(r, h));
            && Subsequence(Delivered(c.rx.answers), heard) && Subsequence(heard, For(r.dispatched, h))
            && c.arrivals + later == heard
            && dropped == Pick(c.rx.left, false)
            && multiset(heard) == multiset(Delivered(c.rx.answers)) + multiset(dropped)
                                  + multiset(Messages(c.rx.queue)) + multiset(later)
  {
    var s := Init<M>();
    InitGives<M>(h);
    RunKeeps(s, actions);
    RunGives(s, actions, h);
    RunInOrder(s, actions, h);
    StartsEmpty(Given(s, h), Heard(actions, h, None));
    dropped := StateAccounts(Run(s, actions), h, Heard(actions, h, None));
  }

  /** Every message dispatched to a handle was heard, was missed (looked up after the
      wrapper left the registry, or fetched after its callbacks were cleared), or is under
      way before its fetch. */
  lemma DispatchedIsHeardOrMissed<M>(actions: seq<Action<M>>, h: int)
    ensures var r := Run(Init<M>(), actions);
            multiset(For(r.dispatched, h)) ==
            multiset(Heard(actions, h, None)) + multiset(Missed(actions, h, None)) + multiset(Undecided(Of(r, h)))
  {
    var open := Undecided(Of(Run(Init<M>(), actions), h));
    forall y {
      InitSettles(actions, h, y);
    }
    SameCopies(multiset(For(Run(Init<M>(), actions).dispatched, h)),
               multiset(Heard(actions, h, None)), multiset(Missed(actions, h, None)), multiset(open));
  }

  lemma InitSettles<M>(actions: seq<Action<M>>, h: int, y: M)
    ensures var r := Run(Init<M>(), actions);
            multiset(For(r.dispatched, h))[y] ==
            multiset(Heard(actions, h, None))[y] + multiset(Missed(actions, h, None))[y]
                + multiset(Undecided(Of(r, h)))[y]
  {
    InitGives<M>(h);
    RunSettles(Init<M>(), actions, h, y);
  }

  lemma SameCopies<T>(all: multiset<T>, a: multiset<T>, b: multiset<T>, c: multiset<T>)
    requires forall y :: all[y] == a[y] + b[y] + c[y]
    ensures all == a + b + c
  {
  }

  // ---- Which messages are heard ------------------------------------------

  ghost predicate LookedUp<M>(s: State<M>, h: int, m: M) {
    h in s.handles && s.handles[h].flight == Some(Looked(m))
  }

  lemma {:induction false} LookupWaits<M>(s: State<M>, actions: seq<Action<M>>, h: int, m: M)
    requires LookedUp(s, h, m) && Fetch(h) !in actions
    ensures LookedUp(Run(s, actions), h, m)
    ensures Run(s, actions).handles[h].cleared <==> s.handles[h].cleared || Clear(h) in actions
    decreases |actions|
  {
    if actions != [] {
      assert actions[0] in actions && actions == [actions[0]] + actions[1..];
      LookupStep(s, actions[0], h, m);
      LookupWaits(Step(s, actions[0]), actions[1..], h, m);
    }
  }

  lemma LookupStep<M>(s: State<M>, a: Action<M>, h: int, m: M)
    requires LookedUp(s, h, m) && a != Fetch(h)
    ensures LookedUp(Step(s, a), h, m)
    ensures Step(s, a).handles[h].cleared <==> s.handles[h].cleared || a == Clear(h)
  {
    StepWatches(s, a, h);
  }

  /** A message looked up while its wrapper was registered is given to the handler exactly
      when its fetch comes before `destroy` clears the callbacks, whatever happens between
      lookup and fetch; otherwise it is lost, though the wrapper may still be registered. */
  lemma LookedUpIsGivenIff<M>(before: seq<Action<M>>, between: seq<Action<M>>, h: int, m: M)
    requires LookedUp(Run(Init<M>(), before), h, m) && Fetch(h) !in between
    ensures var r0 := Run(Init<M>(), before);
            var r1 := Run(r0, between);
            var r2 := Step(r1, Fetch(h));
            && Undecided(Of(r2, h)) == []
            && (Given(r2, h) == Given(r1, h) + [m] <==> !r0.handles[h].cleared && Clear(h) !in between)
            && (Given(r2, h) == Given(r1, h) <==> r0.handles[h].cleared || Clear(h) in between)
  {
    var r0 := Run(Init<M>(), before);
    var r1 := Run(r0, between);
    InitGives<M>(h);
    RunKeeps(Init<M>(), before);
    RunKeeps(r0, between);
    LookupWaits(r0, between, h, m);
    FetchDecides(r1, h, m);
  }

  lemma FetchDecides<M>(s: State<M>, h: int, m: M)
    requires Inv(s) && LookedUp(s, h, m)
    ensures var r := Step(s, Fetch(h));
            && Undecided(Of(r, h)) == []
            && Given(r, h) == Given(s, h) + (if s.handles[h].cleared then [] else [m])
  {
    var x := Of(s, h);
    StepGives(s, Fetch(h), h);
    StepWatches(s, Fetch(h), h);
    assert HandleOk(x.value);
    assert HeardNow(x, Fetch(h), h) == if x.value.cleared then [] else [m];
    assert Undecided(Watch(x, Fetch(h), h)) == [];
  }

  ghost predicate HasEntered<M>(s: State<M>, h: int, m: M) {
    h in s.handles && s.handles[h].flight == Some(Entered(m))
  }

  /** Among these actions `destroy` takes the wrapper out of the registry. */
  predicate Unregisters<M>(actions: seq<Action<M>>, h: int, cleared: bool)
    decreases |actions|
  {
    actions != []
    && ((cleared && actions[0].Pop? && actions[0].handle == h)
        || Unregisters(actions[1..], h, cleared || (actions[0].Clear? && actions[0].handle == h)))
  }

  lemma EntryStep<M>(s: State<M>, a: Action<M>, h: int, m: M)
    requires HasEntered(s, h, m) && a != Look(h)
    ensures HasEntered(Step(s, a), h, m)
    ensures var x, x' := s.handles[h], Step(s, a).handles[h];
            && (x'.cleared <==> x.cleared || a == Clear(h))
            && (x'.registered <==> x.registered && !(a == Pop(h) && x.cleared))
  {
    StepWatches(s, a, h);
  }

  lemma {:induction false} EntryWaits<M>(s: State<M>, actions: seq<Action<M>>, h: int, m: M)
    requires HasEntered(s, h, m) && Look(h) !in actions
    ensures HasEntered(Run(s, actions), h, m)
    ensures Run(s, actions).handles[h].registered <==>
              s.handles[h].registered && !Unregisters(actions, h, s.handles[h].cleared)
    decreases |actions|
  {
    if actions != [] {
      assert actions[0] in actions && actions == [actions[0]] + actions[1..];
      EntryStep(s, actions[0], h, m);
      EntryWaits(Step(s, actions[0]), actions[1..], h, m);
    }
  }

  /** A message that entered dispatch finds its wrapper exactly when its lookup comes before
      `destroy` takes the wrapper out of the registry. */
  lemma EnteredIsLookedUpIff<M>(before: seq<Action<M>>, between: seq<Action<M>>, h: int, m: M)
    requires HasEntered(Run(Init<M>(), before), h, m) && Look(h) !in between
    ensures var r0 := Run(Init<M>(), before);
            var r2 := Step(Run(r0, between), Look(h));
            && (LookedUp(r2, h, m) <==>
                  r0.handles[h].registered && !Unregisters(between, h, r0.handles[h].cleared))
            && (Undecided(Of(r2, h)) == [] <==>
                  !r0.handles[h].registered || Unregisters(between, h, r0.handles[h].cleared))
  {
    var r0 := Run(Init<M>(), before);
    EntryWaits(r0, between, h, m);
    LookDecides(Run(r0, between), h, m);
  }

  lemma LookDecides<M>(s: State<M>, h: int, m: M)
    requires HasEntered(s, h, m)
    ensures LookedUp(Step(s, Look(h)), h, m) <==> s.handles[h].registered
    ensures Undecided(Of(Step(s, Look(h)), h)) == [] <==> !s.handles[h].registered
  {
    StepWatches(s, Look(h), h);
  }

  /** Such a loss with the wrapper still registered. */
  lemma ClearedUnderTheLookup<M>(h: int, cap: int, m: M)
    ensures var r := Run(Init<M>(), [Create(h, cap), Store(h), NativeMessage(h, m), Look(h), Clear(h), Fetch(h)]);
            && h in r.handles && r.handles[h].registered && For(r.dispatched, h) == [m] && Given(r, h) == []
  {
    var looked := Handle(true, true, false, Some(Looked(m)));
    var s1 := Step(Init<M>(), Create(h, cap));
    var s2 := Step(s1, Store(h));
    var s3 := Step(s2, NativeMessage(h, m));
    var s4 := Step(s3, Look(h));
    var s5 := Step(s4, Clear(h));
    var s6 := Step(s5, Fetch(h));
    RunPasses([Init<M>(), s1, s2, s3, s4, s5, s6],
              [Create(h, cap), Store(h), NativeMessage(h, m), Look(h), Clear(h), Fetch(h)]);
    assert s4.handles[h] == looked;
  }

  /** A run through given states. */
  lemma {:induction false} RunPasses<M>(states: seq<State<M>>, actions: seq<Action<M>>)
    requires |states| == |actions| + 1
    requires forall i :: 0 <= i < |actions| ==> Step(states[i], actions[i]) == states[i + 1]
    ensures Run(states[0], actions) == states[|actions|]
    decreases |actions|
  {
    if actions != [] {
      assert forall i :: 0 <= i < |actions| - 1 ==> Step(states[1..][i], actions[1..][i]) == states[1..][i + 1];
      RunPasses(states[1..], actions[1..]);
    }
  }

  // ---- Progress ----------------------------------------------------------

  function Repeat<M>(a: Action<M>, n: nat): (r: seq<Action<M>>)
    ensures |r| == n && forall i :: 0 <= i < n ==> r[i] == a
  {
    seq(n, i => a)
  }

  /** The loop works its FIFO off; then everything called back has been given. */
  lemma {:induction false} LoopCatchesUp<M>(s: State<M>, h: int)
    requires Inv(s)
    ensures var r := Run(s, Repeat(RunScheduled, |s.fifo|));
            r.fifo == [] && Of(r, h) == Of(s, h) && Arrived(r, h) == Arrived(s, h) + For(s.fifo, h)
    decreases |s.fifo|
  {
    if s.fifo == [] {
      assert Arrived(s, h) + [] == Arrived(s, h);
    } else {
      var s' := Step(s, RunScheduled);
      assert Repeat<M>(RunScheduled, |s.fifo|)[1..] == Repeat<M>(RunScheduled, |s'.fifo|);
      StepKeeps(s, RunScheduled);
      StepWatches(s, RunScheduled, h);
      LoopCatchesUp(s', h);
      ScheduledArrives(s, h);
      Assoc(Arrived(s, h), if s.fifo[0].handle == h then [s.fifo[0].m] else [], For(s.fifo[1..], h));
    }
  }

  lemma ScheduledArrives<M>(s: State<M>, h: int)
    requires Inv(s) && s.fifo != []
    ensures Arrived(Step(s, RunScheduled), h) ==
            Arrived(s, h) + (if s.fifo[0].handle == h then [s.fifo[0].m] else [])
  {
    assert Arrived(s, h) + [] == Arrived(s, h);
  }

  /** Receives return the queued messages one by one. */
  lemma {:induction false} ReceivesReturnAll<M>(s: State<M>, h: int, ms: seq<M>)
    requires h in s.channels && s.channels[h].rx.queue == Queued(ms)
    ensures var r := Run(s, Repeat(RecvOn(h), |ms|));
            && h in r.channels && r.channels[h].rx.queue == []
            && Delivered(r.channels[h].rx.answers) == Delivered(s.channels[h].rx.answers) + ms
    decreases |ms|
  {
    if ms == [] {
      assert Delivered(s.channels[h].rx.answers) + ms == Delivered(s.channels[h].rx.answers);
    } else {
      var s' := Step(s, RecvOn(h));
      var rx := s.channels[h].rx;
      assert rx.queue[0] == Message(ms[0]) && s'.channels[h].rx.queue == Queued(ms[1..]);
      DeliveredAppend(rx.answers, Got(ms[0]));
      assert Repeat<M>(RecvOn(h), |ms|)[1..] == Repeat<M>(RecvOn(h), |ms| - 1);
      ReceivesReturnAll(s', h, ms[1..]);
      Assoc(Delivered(rx.answers), [ms[0]], ms[1..]);
      assert [ms[0]] + ms[1..] == ms;
    }
  }

  function Queued<M>(ms: seq<M>): (q: seq<Item<M>>)
    ensures |q| == |ms| && forall i :: 0 <= i < |ms| ==> q[i] == Message(ms[i])
  {
    seq(|ms|, i requires 0 <= i < |ms| => Message(ms[i]))
  }

  /** A close reaches the readers of an empty queue: the next `recv` raises. */
  lemma CloseReachesReaders<M>(s: State<M>, h: int)
    requires Inv(s) && h in s.channels && s.channels[h].rx.queue == []
    ensures var r := Run(s, [CloseOn(h), RecvOn(h)]);
            && h in r.channels
            && r.channels[h].rx.answers == s.channels[h].rx.answers + [Closed]
  {
    var s1 := Step(s, CloseOn(h));
    RunPasses([s, s1, Step(s1, RecvOn(h))], [CloseOn(h), RecvOn(h)]);
  }
}
