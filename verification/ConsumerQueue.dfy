/** A queue read by any number of consumers, closed by a sentinel (None) that every consumer
    puts back before it stops.  Consumers park and wake as asyncio.Queue makes them: a put
    wakes one parked getter, a woken getter looks again.  The queue may be bounded; then a
    value that meets it full drops the oldest item, and a close that meets it full is
    suppressed. */
module ConsumerQueue {
  import opened Wrappers
  import opened Subsequences
  import opened AsyncQueue

  datatype Phase = Active | Parked | Woken | Finished

  /** An iterator keeps reading; `once` marks a consumer that wants a single item. */
  datatype Consumer = Consumer(phase: Phase, once: bool)

  /** How a value left the queue. */
  datatype Departure<V> = Delivered(consumer: nat, value: V) | Dropped(value: V)

  datatype State<V> = State(
    cap: int,
    queue: seq<Option<V>>,
    waiting: seq<nat>,                 // parked getters, first to wake first
    consumers: seq<Consumer>,
    left: seq<Departure<V>>,           // history of departures
    pushed: seq<V>,                    // history of values
    sentinels: nat,                    // history: sentinels accepted from outside,
    pushedOut: nat)                    // and those dropped as the oldest item

  datatype Action<V> =
    | Push(value: V)
    | PushSentinel
    | Get(consumer: nat)
    | Resume(consumer: nat)
    | Leave(consumer: nat)
    | Cancel(consumer: nat)

  function Init<V>(cap: int, consumers: seq<bool>): State<V> {
    var all := seq(|consumers|, i requires 0 <= i < |consumers| => Consumer(Active, consumers[i]));
    State(cap, [], [], all, [], [], 0, 0)
  }

  function SetPhase<V>(s: State<V>, i: nat, phase: Phase): State<V>
    requires i < |s.consumers|
  {
    s.(consumers := s.consumers[i := s.consumers[i].(phase := phase)])
  }

  function WakeNext<V>(s: State<V>): State<V> {
    if s.waiting == [] || s.waiting[0] >= |s.consumers| then s
    else SetPhase(s, s.waiting[0], Woken).(waiting := s.waiting[1..])
  }

  function Put<V>(s: State<V>, item: Option<V>): State<V> {
    WakeNext(s.(queue := s.queue + [item]))
  }

  function DropOldest<V>(s: State<V>): State<V> {
    if s.queue == [] then s
    else
      match s.queue[0]
      case Some(v) => s.(queue := s.queue[1..], left := s.left + [Dropped(v)])
      case None => s.(queue := s.queue[1..], pushedOut := s.pushedOut + 1)
  }

  function PushValue<V>(s: State<V>, v: V): State<V> {
    Put((if Full(s.queue, s.cap) then DropOldest(s) else s).(pushed := s.pushed + [v]), Some(v))
  }

  function PushClose<V>(s: State<V>): State<V> {
    if Full(s.queue, s.cap) then s else Put(s.(sentinels := s.sentinels + 1), None)
  }

  /** What a consumer does with the item it took. */
  function Take<V>(s: State<V>, i: nat): State<V>
    requires i < |s.consumers| && s.queue != []
  {
    var rest := s.(queue := s.queue[1..]);
    match s.queue[0]
    case Some(v) =>
      SetPhase(rest, i, if s.consumers[i].once then Finished else Active).(
        left := s.left + [Delivered(i, v)])
    case None => Put(SetPhase(rest, i, Finished), None)
  }

  function Park<V>(s: State<V>, i: nat): State<V>
    requires i < |s.consumers|
  {
    SetPhase(s, i, Parked).(waiting := s.waiting + [i])
  }

  function TakeOrPark<V>(s: State<V>, i: nat): State<V>
    requires i < |s.consumers|
  {
    if s.queue == [] then Park(s, i) else Take(s, i)
  }

  predicate Is<V>(s: State<V>, i: nat, phase: Phase) {
    i < |s.consumers| && s.consumers[i].phase == phase
  }

  function Step<V>(s: State<V>, a: Action<V>): State<V> {
    match a
    case Push(v) => PushValue(s, v)
    case PushSentinel => PushClose(s)
    case Get(i) => if Is(s, i, Active) then TakeOrPark(s, i) else s
    case Resume(i) => if Is(s, i, Woken) then TakeOrPark(s, i) else s
    case Leave(i) => if Is(s, i, Active) then SetPhase(s, i, Finished) else s
    case Cancel(i) => if i < |s.consumers| then StepCancel(s, i) else s
  }

  /** A cancelled getter that had been woken hands the wakeup on. */
  function StepCancel<V>(s: State<V>, i: nat): State<V>
    requires i < |s.consumers|
  {
    match s.consumers[i].phase
    case Active => SetPhase(s, i, Finished)
    case Parked => SetPhase(s, i, Finished).(waiting := Without(s.waiting, i))
    case Woken => if s.queue == [] then SetPhase(s, i, Finished) else WakeNext(SetPhase(s, i, Finished))
    case Finished => s
  }

  function Run<V>(s: State<V>, actions: seq<Action<V>>): State<V>
    decreases |actions|
  {
    if actions == [] then s else Run(Step(s, actions[0]), actions[1..])
  }

  // ---- Conservation ------------------------------------------------------

  function Values<V>(q: seq<Option<V>>): seq<V> {
    if q == [] then [] else (if q[0].Some? then [q[0].value] else []) + Values(q[1..])
  }

  function Sentinels<V>(q: seq<Option<V>>): nat {
    if q == [] then 0 else (if q[0].None? then 1 else 0) + Sentinels(q[1..])
  }

  function LeftValues<V>(ds: seq<Departure<V>>): (vs: seq<V>)
    ensures |vs| == |ds|
  {
    if ds == [] then [] else LeftValues(ds[..|ds| - 1]) + [ds[|ds| - 1].value]
  }

  /** The values the consumers got, in the order they got them. */
  function DeliveredValues<V>(ds: seq<Departure<V>>): seq<V> {
    if ds == [] then []
    else
      var last := ds[|ds| - 1];
      DeliveredValues(ds[..|ds| - 1]) + (if last.Delivered? then [last.value] else [])
  }

  lemma {:induction false} DeliveredInOrder<V>(ds: seq<Departure<V>>)
    ensures Subsequence(DeliveredValues(ds), LeftValues(ds))
  {
    if ds == [] {
      assert Embeds([], DeliveredValues(ds), LeftValues(ds));
    } else {
      var front, last := ds[..|ds| - 1], ds[|ds| - 1];
      DeliveredInOrder(front);
      if last.Delivered? {
        SubsequenceTake(DeliveredValues(front), LeftValues(front), last.value);
      } else {
        SubsequenceSkip(DeliveredValues(front), LeftValues(front), last.value);
        assert DeliveredValues(ds) == DeliveredValues(front);
      }
    }
  }

  lemma {:induction false} QueueAppend<V>(q: seq<Option<V>>, x: Option<V>)
    ensures Values(q + [x]) == Values(q) + (if x.Some? then [x.value] else [])
    ensures Sentinels(q + [x]) == Sentinels(q) + (if x.None? then 1 else 0)
  {
    if q == [] {
      assert q + [x] == [x] && [x][1..] == [];
    } else {
      QueueAppend(q[1..], x);
      assert (q + [x])[1..] == q[1..] + [x];
    }
  }

  /** The values that left, then those queued, are the ones pushed; `n` sentinels are
      queued. */
  predicate Balanced<V(==)>(queue: seq<Option<V>>, left: seq<Departure<V>>, pushed: seq<V>, n: int) {
    LeftValues(left) + Values(queue) == pushed && Sentinels(queue) == n
  }

  predicate Conserved<V(==)>(s: State<V>) {
    && Within(s.queue, s.cap)
    && Balanced(s.queue, s.left, s.pushed, s.sentinels - s.pushedOut)
    && (s.cap <= 0 ==> s.pushedOut == 0 && forall k :: 0 <= k < |s.left| ==> s.left[k].Delivered?)
  }

  lemma BalancedPut<V>(q: seq<Option<V>>, left: seq<Departure<V>>, pushed: seq<V>, n: int, x: Option<V>)
    requires Balanced(q, left, pushed, n)
    ensures Balanced(q + [x], left, pushed + (if x.Some? then [x.value] else []), n + (if x.None? then 1 else 0))
  {
    QueueAppend(q, x);
    var extra := if x.Some? then [x.value] else [];
    assert LeftValues(left) + (Values(q) + extra) == pushed + extra;
  }

  /** The oldest item leaves, one way or another. */
  lemma BalancedLeave<V>(q: seq<Option<V>>, left: seq<Departure<V>>, pushed: seq<V>, n: int)
    requires Balanced(q, left, pushed, n) && q != []
    ensures q[0].Some? ==>
              forall d: Departure<V> :: d.value == q[0].value ==> Balanced(q[1..], left + [d], pushed, n)
    ensures q[0].None? ==> Balanced(q[1..], left, pushed, n - 1)
  {
    if q[0].Some? {
      forall d: Departure<V> | d.value == q[0].value ensures Balanced(q[1..], left + [d], pushed, n) {
        assert (left + [d])[..|left|] == left;
        assert LeftValues(left) + ([d.value] + Values(q[1..])) == LeftValues(left) + [d.value] + Values(q[1..]);
      }
    }
  }

  predicate SameData<V(==)>(s: State<V>, s': State<V>) {
    && s'.cap == s.cap && s'.queue == s.queue && s'.left == s.left && s'.pushed == s.pushed
    && s'.sentinels == s.sentinels && s'.pushedOut == s.pushedOut
  }

  /** Steps that neither push nor take leave queue, departures and history alone. */
  lemma OtherStepsKeepData<V>(s: State<V>, a: Action<V>)
    requires !a.Push? && !a.PushSentinel? && !Takes(s, a)
    ensures SameData(s, Step(s, a))
  {
  }

  lemma TakeConserved<V>(s: State<V>, i: nat)
    requires Conserved(s) && i < |s.consumers| && s.queue != []
    ensures Conserved(Take(s, i))
  {
    BalancedLeave(s.queue, s.left, s.pushed, s.sentinels - s.pushedOut);
    match s.queue[0]
    case Some(v) =>
      assert Balanced(s.queue[1..], s.left + [Delivered(i, v)], s.pushed, s.sentinels - s.pushedOut);
    case None => ReinjectConserved(s, i);
  }

  lemma ReinjectConserved<V>(s: State<V>, i: nat)
    requires Conserved(s) && i < |s.consumers| && s.queue != [] && s.queue[0] == None
    requires Balanced(s.queue[1..], s.left, s.pushed, s.sentinels - s.pushedOut - 1)
    ensures Conserved(Take(s, i))
  {
    ReinjectData(s, i);
    BalancedPut(s.queue[1..], s.left, s.pushed, s.sentinels - s.pushedOut - 1, None);
    assert s.pushed + [] == s.pushed;
  }

  lemma ReinjectData<V>(s: State<V>, i: nat)
    requires i < |s.consumers| && s.queue != [] && s.queue[0] == None
    ensures SameData(s.(queue := s.queue[1..] + [None]), Take(s, i))
  {
  }

  lemma DropConserved<V>(s: State<V>)
    requires Conserved(s) && s.cap > 0
    ensures Conserved(DropOldest(s))
  {
    if s.queue != [] {
      BalancedLeave(s.queue, s.left, s.pushed, s.sentinels - s.pushedOut);
      if s.queue[0].Some? {
        var d := Dropped(s.queue[0].value);
        assert Balanced(s.queue[1..], s.left + [d], s.pushed, s.sentinels - s.pushedOut);
      }
    }
  }

  lemma PutConserved<V>(s: State<V>, s0: State<V>, x: Option<V>)
    requires Conserved(s) && !Full(s.queue, s.cap)
    requires s0.cap == s.cap && s0.queue == s.queue && s0.left == s.left && s0.pushedOut == s.pushedOut
    requires s0.pushed == s.pushed + (if x.Some? then [x.value] else [])
    requires s0.sentinels == s.sentinels + (if x.None? then 1 else 0)
    ensures Conserved(Put(s0, x))
  {
    BalancedPut(s.queue, s.left, s.pushed, s.sentinels - s.pushedOut, x);
  }

  lemma PushConserved<V>(s: State<V>, v: V)
    requires Conserved(s)
    ensures Conserved(PushValue(s, v))
  {
    var room := if Full(s.queue, s.cap) then DropOldest(s) else s;
    if Full(s.queue, s.cap) { DropConserved(s); }
    PutConserved(room, room.(pushed := s.pushed + [v]), Some(v));
  }

  lemma StepConserved<V>(s: State<V>, a: Action<V>)
    requires Conserved(s)
    ensures Conserved(Step(s, a))
  {
    if a.Push? {
      PushConserved(s, a.value);
    } else if a.PushSentinel? {
      assert s.pushed + [] == s.pushed;
      if !Full(s.queue, s.cap) { PutConserved(s, s.(sentinels := s.sentinels + 1), None); }
    } else if Takes(s, a) {
      TakeConserved(s, a.consumer);
      assert Step(s, a) == Take(s, a.consumer);
    } else {
      OtherStepsKeepData(s, a);
    }
  }

  /** The consumer of this action takes an item now. */
  predicate Takes<V>(s: State<V>, a: Action<V>) {
    && s.queue != []
    && ((a.Get? && Is(s, a.consumer, Active)) || (a.Resume? && Is(s, a.consumer, Woken)))
  }

  // ---- Wakeups -----------------------------------------------------------

  function Count(cs: seq<Consumer>, phase: Phase): nat {
    if cs == [] then 0 else (if cs[0].phase == phase then 1 else 0) + Count(cs[1..], phase)
  }

  lemma {:induction false} CountUpdate(cs: seq<Consumer>, i: nat, c: Consumer, phase: Phase)
    requires i < |cs|
    ensures Count(cs[i := c], phase)
            == Count(cs, phase) - (if cs[i].phase == phase then 1 else 0) + (if c.phase == phase then 1 else 0)
  {
    if i == 0 {
      assert cs[i := c][1..] == cs[1..];
    } else {
      CountUpdate(cs[1..], i - 1, c, phase);
      assert cs[i := c][1..] == cs[1..][i - 1 := c];
    }
  }

  lemma {:induction false} CountPositive(cs: seq<Consumer>, phase: Phase) returns (i: nat)
    requires Count(cs, phase) > 0
    ensures i < |cs| && cs[i].phase == phase
  {
    if cs[0].phase == phase {
      i := 0;
    } else {
      i := CountPositive(cs[1..], phase);
      i := i + 1;
    }
  }

  /** The waiting list is exactly the parked consumers, each once. */
  predicate Listed<V>(s: State<V>) {
    && (forall k :: 0 <= k < |s.waiting| ==> Is(s, s.waiting[k], Parked))
    && Distinct(s.waiting)
    && (forall i :: 0 <= i < |s.consumers| && s.consumers[i].phase.Parked? ==> i in s.waiting)
  }

  /** As long as somebody is parked, there is a woken getter for every queued item. */
  predicate WakeupsCover<V>(s: State<V>) {
    s.waiting != [] ==> Count(s.consumers, Woken) >= |s.queue|
  }

  lemma SetPhaseCount<V>(s: State<V>, i: nat, phase: Phase)
    requires i < |s.consumers|
    ensures Count(SetPhase(s, i, phase).consumers, Woken)
            == Count(s.consumers, Woken) - (if s.consumers[i].phase.Woken? then 1 else 0)
                + (if phase.Woken? then 1 else 0)
  {
    CountUpdate(s.consumers, i, s.consumers[i].(phase := phase), Woken);
  }

  lemma WakeNextKeeps<V>(s: State<V>)
    requires Listed(s)
    ensures Listed(WakeNext(s))
    ensures s.waiting != [] ==>
              && |WakeNext(s).waiting| == |s.waiting| - 1
              && Count(WakeNext(s).consumers, Woken) == Count(s.consumers, Woken) + 1
    ensures s.waiting == [] ==> WakeNext(s) == s
  {
    if s.waiting != [] {
      var i := s.waiting[0];
      assert Is(s, i, Parked);
      SetPhaseCount(s, i, Woken);
      var r := WakeNext(s);
      forall j | 0 <= j < |r.consumers| && r.consumers[j].phase.Parked? ensures j in r.waiting {
        assert j in s.waiting && j != i;
      }
    }
  }

  lemma NotParkedKeepsListed<V>(s: State<V>, i: nat, phase: Phase)
    requires Listed(s) && i < |s.consumers| && !s.consumers[i].phase.Parked? && !phase.Parked?
    ensures Listed(SetPhase(s, i, phase))
  {
  }

  lemma TakeKeeps<V>(s: State<V>, i: nat)
    requires Listed(s) && WakeupsCover(s)
    requires i < |s.consumers| && s.queue != [] && (s.consumers[i].phase.Active? || s.consumers[i].phase.Woken?)
    ensures Listed(Take(s, i)) && WakeupsCover(Take(s, i))
  {
    var rest := s.(queue := s.queue[1..]);
    var phase := if s.queue[0].Some? && !s.consumers[i].once then Active else Finished;
    NotParkedKeepsListed(rest, i, phase);
    SetPhaseCount(rest, i, phase);
    if s.queue[0].None? {
      WakeNextKeeps(SetPhase(rest, i, Finished).(queue := s.queue[1..] + [None]));
    }
  }

  lemma ParkKeeps<V>(s: State<V>, i: nat)
    requires Listed(s) && i < |s.consumers| && s.queue == [] && !s.consumers[i].phase.Parked?
    ensures Listed(Park(s, i)) && WakeupsCover(Park(s, i))
  {
    var r := Park(s, i);
    assert r.waiting[|s.waiting|] == i;
    forall j | 0 <= j < |r.consumers| && r.consumers[j].phase.Parked? ensures j in r.waiting {
      if j != i { assert j in s.waiting; }
    }
  }

  lemma CancelKeeps<V>(s: State<V>, i: nat)
    requires Listed(s) && WakeupsCover(s) && i < |s.consumers|
    ensures Listed(StepCancel(s, i)) && WakeupsCover(StepCancel(s, i))
  {
    SetPhaseCount(s, i, Finished);
    if s.consumers[i].phase.Parked? {
      WithoutRemoves(s.waiting, i);
      var r := StepCancel(s, i);
      forall k | 0 <= k < |r.waiting| ensures Is(r, r.waiting[k], Parked) {
        assert r.waiting[k] in r.waiting;
        assert r.waiting[k] in s.waiting;
      }
    } else {
      NotParkedKeepsListed(s, i, Finished);
      WakeNextKeeps(SetPhase(s, i, Finished));
    }
  }

  lemma PutKeeps<V>(s: State<V>, s0: State<V>, x: Option<V>)
    requires Listed(s) && WakeupsCover(s)
    requires s0.waiting == s.waiting && s0.consumers == s.consumers && |s0.queue| <= |s.queue|
    ensures Listed(Put(s0, x)) && WakeupsCover(Put(s0, x))
  {
    WakeNextKeeps(s0.(queue := s0.queue + [x]));
  }

  lemma PushKeeps<V>(s: State<V>, v: V)
    requires Listed(s) && WakeupsCover(s)
    ensures Listed(PushValue(s, v)) && WakeupsCover(PushValue(s, v))
  {
    var room := if Full(s.queue, s.cap) then DropOldest(s) else s;
    PutKeeps(s, room.(pushed := s.pushed + [v]), Some(v));
  }

  lemma StepKeeps<V>(s: State<V>, a: Action<V>)
    requires Listed(s) && WakeupsCover(s)
    ensures Listed(Step(s, a)) && WakeupsCover(Step(s, a))
  {
    match a
    case Push(v) => PushKeeps(s, v);
    case PushSentinel => if !Full(s.queue, s.cap) { PutKeeps(s, s.(sentinels := s.sentinels + 1), None); }
    case Get(i) => if Is(s, i, Active) { if s.queue == [] { ParkKeeps(s, i); } else { TakeKeeps(s, i); } }
    case Resume(i) => if Is(s, i, Woken) { if s.queue == [] { ParkKeeps(s, i); } else { TakeKeeps(s, i); } }
    case Leave(i) =>
      if Is(s, i, Active) {
        NotParkedKeepsListed(s, i, Finished);
        SetPhaseCount(s, i, Finished);
      }
    case Cancel(i) => if i < |s.consumers| { CancelKeeps(s, i); }
  }

  predicate Inv<V(==)>(s: State<V>) {
    Conserved(s) && Listed(s) && WakeupsCover(s)
  }

  lemma StepFrame<V>(s: State<V>, a: Action<V>)
    ensures |Step(s, a).consumers| == |s.consumers| && Step(s, a).cap == s.cap
    ensures !a.Push? && !a.PushSentinel? ==> Step(s, a).sentinels == s.sentinels && Step(s, a).pushedOut == s.pushedOut
  {
  }

  lemma {:induction false} RunKeeps<V>(s: State<V>, actions: seq<Action<V>>)
    requires Inv(s)
    ensures Inv(Run(s, actions))
    ensures |Run(s, actions).consumers| == |s.consumers| && Run(s, actions).cap == s.cap
    decreases |actions|
  {
    if actions != [] {
      var s' := Step(s, actions[0]);
      StepInv(s, actions[0]);
      StepFrame(s, actions[0]);
      RunKeeps(s', actions[1..]);
    }
  }

  lemma StepInv<V>(s: State<V>, a: Action<V>)
    requires Inv(s)
    ensures Inv(Step(s, a))
  {
    StepConserved(s, a);
    StepKeeps(s, a);
  }

  // ---- Main results ------------------------------------------------------

  /** Over every run: each pushed value was delivered to exactly one consumer, was dropped,
      or is still queued, in push order, and deliveries are in push order; the queue holds
      exactly the sentinels accepted and not pushed out, however many consumers took one and
      put it back; and an unbounded queue drops nothing. */
  lemma NothingLostOrDuplicated<V>(cap: int, consumers: seq<bool>, actions: seq<Action<V>>)
    ensures var r := Run(Init(cap, consumers), actions);
            && LeftValues(r.left) + Values(r.queue) == r.pushed
            && Subsequence(DeliveredValues(r.left), r.pushed)
            && Sentinels(r.queue) + r.pushedOut == r.sentinels
            && Within(r.queue, cap)
            && (cap <= 0 ==> r.pushedOut == 0 && forall k :: 0 <= k < |r.left| ==> r.left[k].Delivered?)
  {
    InitInv<V>(cap, consumers);
    RunKeeps(Init(cap, consumers), actions);
    var r := Run(Init(cap, consumers), actions);
    DeliveredInOrder(r.left);
    SubsequenceWiden(DeliveredValues(r.left), LeftValues(r.left), Values(r.queue));
  }

  lemma InitInv<V>(cap: int, consumers: seq<bool>)
    ensures Inv(Init<V>(cap, consumers))
  {
  }

  /** While an item is queued nobody is parked without somebody being on the way to take
      it, also when items are dropped and closes suppressed. */
  lemma NoStrandedConsumer<V>(cap: int, consumers: seq<bool>, actions: seq<Action<V>>, i: nat) returns (j: nat)
    requires var r := Run(Init(cap, consumers), actions); Is(r, i, Parked) && r.queue != []
    ensures var r := Run(Init(cap, consumers), actions); Is(r, j, Woken) && Step(r, Resume(j)) == Take(r, j)
  {
    InitInv<V>(cap, consumers);
    RunKeeps(Init(cap, consumers), actions);
    j := SomeoneWoken(Run(Init(cap, consumers), actions), i);
  }

  lemma SomeoneWoken<V>(s: State<V>, i: nat) returns (j: nat)
    requires Listed(s) && WakeupsCover(s) && Is(s, i, Parked) && s.queue != []
    ensures Is(s, j, Woken)
  {
    assert i in s.waiting;
    j := CountPositive(s.consumers, Woken);
  }

  // ---- Termination after close -------------------------------------------

  function TakeCount<V>(s: State<V>, actions: seq<Action<V>>): nat
    decreases |actions|
  {
    if actions == [] then 0 else (if Takes(s, actions[0]) then 1 else 0) + TakeCount(Step(s, actions[0]), actions[1..])
  }

  predicate NoPushes<V>(actions: seq<Action<V>>) {
    forall k :: 0 <= k < |actions| ==> !actions[k].Push? && !actions[k].PushSentinel?
  }

  function Unfinished(cs: seq<Consumer>): nat { |cs| - FinishedCount(cs) }

  function FinishedCount(cs: seq<Consumer>): (n: nat)
    ensures n <= |cs|
  {
    if cs == [] then 0 else (if cs[0].phase.Finished? then 1 else 0) + FinishedCount(cs[1..])
  }

  /** Gets still possible: one per queued value, one sentinel get per consumer. */
  function Remaining<V>(s: State<V>): nat {
    |Values(s.queue)| + Unfinished(s.consumers)
  }

  lemma {:induction false} FinishedUpdate(cs: seq<Consumer>, i: nat, c: Consumer)
    requires i < |cs|
    ensures FinishedCount(cs[i := c])
            == FinishedCount(cs) - (if cs[i].phase.Finished? then 1 else 0) + (if c.phase.Finished? then 1 else 0)
  {
    if i == 0 {
      assert cs[i := c][1..] == cs[1..];
    } else {
      FinishedUpdate(cs[1..], i - 1, c);
      assert cs[i := c][1..] == cs[1..][i - 1 := c];
    }
  }

  lemma WakeKeepsFinished<V>(s: State<V>)
    requires Listed(s)
    ensures FinishedCount(WakeNext(s).consumers) == FinishedCount(s.consumers)
  {
    if s.waiting != [] {
      assert Is(s, s.waiting[0], Parked);
      FinishedUpdate(s.consumers, s.waiting[0], s.consumers[s.waiting[0]].(phase := Woken));
    }
  }

  lemma TakeDecreases<V>(s: State<V>, i: nat)
    requires Listed(s) && i < |s.consumers| && s.queue != []
    requires s.consumers[i].phase.Active? || s.consumers[i].phase.Woken?
    ensures Remaining(Take(s, i)) < Remaining(s)
  {
    var rest := s.(queue := s.queue[1..]);
    var phase := if s.queue[0].Some? && !s.consumers[i].once then Active else Finished;
    FinishedUpdate(s.consumers, i, s.consumers[i].(phase := phase));
    if s.queue[0].None? {
      NotParkedKeepsListed(rest, i, Finished);
      WakeKeepsFinished(SetPhase(rest, i, Finished).(queue := s.queue[1..] + [None]));
      QueueAppend(s.queue[1..], None);
    }
  }

  lemma QuietStep<V>(s: State<V>, a: Action<V>)
    requires Inv(s) && Sentinels(s.queue) > 0 && !a.Push? && !a.PushSentinel?
    ensures Remaining(Step(s, a)) + (if Takes(s, a) then 1 else 0) <= Remaining(s)
  {
    assert s.queue != [];
    match a
    case Get(i) => if Is(s, i, Active) { TakeDecreases(s, i); }
    case Resume(i) => if Is(s, i, Woken) { TakeDecreases(s, i); }
    case Leave(i) => if Is(s, i, Active) { FinishedUpdate(s.consumers, i, s.consumers[i].(phase := Finished)); }
    case Cancel(i) =>
      if i < |s.consumers| {
        FinishedUpdate(s.consumers, i, s.consumers[i].(phase := Finished));
        if s.consumers[i].phase.Woken? {
          NotParkedKeepsListed(s, i, Finished);
          WakeKeepsFinished(SetPhase(s, i, Finished));
        }
      }
    case _ =>
  }

  /** Once a sentinel is queued and nobody pushes any more, all consumers together take at
      most (queued values + unfinished consumers) items. */
  lemma {:induction false} GetsBounded<V>(s: State<V>, actions: seq<Action<V>>)
    requires Inv(s) && Sentinels(s.queue) > 0 && NoPushes(actions)
    ensures TakeCount(s, actions) + Remaining(Run(s, actions)) <= Remaining(s)
    decreases |actions|
  {
    if actions != [] {
      assert !actions[0].Push? && !actions[0].PushSentinel?;
      assert forall k :: 0 <= k < |actions[1..]| ==> actions[1..][k] == actions[k + 1];
      StepInv(s, actions[0]);
      StepFrame(s, actions[0]);
      QuietStep(s, actions[0]);
      GetsBounded(Step(s, actions[0]), actions[1..]);
    }
  }

  /** With a sentinel queued, so always once an unbounded queue was closed, no consumer can
      stay blocked: as long as one is unfinished some consumer takes an item on its next
      step; so when none can, all have finished, and one sentinel was enough for all. */
  lemma ClosedQueueLetsEveryoneFinish<V>(cap: int, consumers: seq<bool>, actions: seq<Action<V>>)
    requires var r := Run(Init<V>(cap, consumers), actions); Sentinels(r.queue) > 0 || (cap <= 0 && r.sentinels > 0)
    ensures var r := Run(Init(cap, consumers), actions);
            && |r.consumers| == |consumers|
            && ((forall a :: !Takes(r, a)) <==> (forall i :: 0 <= i < |consumers| ==> r.consumers[i].phase.Finished?))
  {
    InitInv<V>(cap, consumers);
    RunKeeps(Init(cap, consumers), actions);
    ClosedStateFinishes(Run(Init(cap, consumers), actions));
  }

  lemma ClosedStateFinishes<V>(r: State<V>)
    requires Inv(r) && Sentinels(r.queue) > 0
    ensures (forall a :: !Takes(r, a)) <==> (forall i :: 0 <= i < |r.consumers| ==> r.consumers[i].phase.Finished?)
  {
    assert r.queue != [];
    if forall a :: !Takes(r, a) {
      forall i | 0 <= i < |r.consumers| ensures r.consumers[i].phase.Finished? {
        assert !Takes(r, Get(i)) && !Takes(r, Resume(i));
        if r.consumers[i].phase.Parked? {
          var j := SomeoneWoken(r, i);
          assert Takes(r, Resume(j));
        }
      }
    }
  }

  // ---- What one consumer does --------------------------------------------

  /** The consumer looks at the queue now: on its own turn, or woken. */
  predicate LooksNow<V>(s: State<V>, a: Action<V>, i: nat) {
    (a == Get(i) && Is(s, i, Active)) || (a == Resume(i) && Is(s, i, Woken))
  }

  /** The step with which consumer `i` stops: it takes a sentinel, it wanted a single item
      and takes it, it leaves, or it is cancelled. */
  predicate Stops<V>(s: State<V>, a: Action<V>, i: nat) {
    && i < |s.consumers| && !s.consumers[i].phase.Finished?
    && (|| (LooksNow(s, a, i) && s.queue != [] && (s.queue[0].None? || s.consumers[i].once))
        || (a == Leave(i) && Is(s, i, Active))
        || a == Cancel(i))
  }

  predicate EverStops<V>(s: State<V>, actions: seq<Action<V>>, i: nat)
    decreases |actions|
  {
    actions != [] && (Stops(s, actions[0], i) || EverStops(Step(s, actions[0]), actions[1..], i))
  }

  predicate SameConsumer<V>(s: State<V>, s': State<V>, i: nat) {
    i < |s.consumers| && i < |s'.consumers| && s'.consumers[i].once == s.consumers[i].once
  }

  /** Waking somebody else never touches a consumer that is not parked. */
  lemma WakeLeaves<V>(s: State<V>, i: nat)
    requires Listed(s) && i < |s.consumers|
    ensures SameConsumer(s, WakeNext(s), i) && WakeNext(s).left == s.left
    ensures WakeNext(s).consumers[i].phase.Finished? <==> s.consumers[i].phase.Finished?
  {
    if s.waiting != [] { assert Is(s, s.waiting[0], Parked); }
  }

  lemma TakeStops<V>(s: State<V>, j: nat, i: nat)
    requires Listed(s) && i < |s.consumers| && j < |s.consumers| && s.queue != []
    requires s.consumers[j].phase.Active? || s.consumers[j].phase.Woken?
    ensures SameConsumer(s, Take(s, j), i)
    ensures Take(s, j).consumers[i].phase.Finished? <==>
              s.consumers[i].phase.Finished? || (i == j && (s.queue[0].None? || s.consumers[i].once))
  {
    if s.queue[0].None? {
      var rest := s.(queue := s.queue[1..]);
      NotParkedKeepsListed(rest, j, Finished);
      WakeLeaves(SetPhase(rest, j, Finished).(queue := s.queue[1..] + [None]), i);
    }
  }

  lemma CancelStops<V>(s: State<V>, j: nat, i: nat)
    requires Listed(s) && i < |s.consumers| && j < |s.consumers|
    ensures SameConsumer(s, StepCancel(s, j), i)
    ensures StepCancel(s, j).consumers[i].phase.Finished? <==> s.consumers[i].phase.Finished? || i == j
  {
    if s.consumers[j].phase.Woken? {
      NotParkedKeepsListed(s, j, Finished);
      WakeLeaves(SetPhase(s, j, Finished), i);
    }
  }

  lemma PushStops<V>(s: State<V>, a: Action<V>, i: nat)
    requires Listed(s) && i < |s.consumers| && (a.Push? || a.PushSentinel?)
    ensures SameConsumer(s, Step(s, a), i)
    ensures Step(s, a).consumers[i].phase.Finished? <==> s.consumers[i].phase.Finished?
  {
    if a.Push? {
      var room := if Full(s.queue, s.cap) then DropOldest(s) else s;
      WakeLeaves(room.(pushed := s.pushed + [a.value], queue := room.queue + [Some(a.value)]), i);
    } else {
      WakeLeaves(s.(sentinels := s.sentinels + 1, queue := s.queue + [None]), i);
    }
  }

  lemma StepStops<V>(s: State<V>, a: Action<V>, i: nat)
    requires Listed(s) && i < |s.consumers|
    ensures SameConsumer(s, Step(s, a), i)
    ensures Step(s, a).consumers[i].phase.Finished? <==> s.consumers[i].phase.Finished? || Stops(s, a, i)
  {
    match a
    case Push(_) => PushStops(s, a, i);
    case PushSentinel => PushStops(s, a, i);
    case Get(j) => if Is(s, j, Active) && s.queue != [] { TakeStops(s, j, i); }
    case Resume(j) => if Is(s, j, Woken) && s.queue != [] { TakeStops(s, j, i); }
    case Leave(j) =>
    case Cancel(j) => if j < |s.consumers| { CancelStops(s, j, i); }
  }

  lemma {:induction false} RunStops<V>(s: State<V>, actions: seq<Action<V>>, i: nat)
    requires Inv(s) && i < |s.consumers|
    ensures SameConsumer(s, Run(s, actions), i)
    ensures Run(s, actions).consumers[i].phase.Finished? <==>
              s.consumers[i].phase.Finished? || EverStops(s, actions, i)
    decreases |actions|
  {
    if actions != [] {
      StepInv(s, actions[0]);
      StepStops(s, actions[0], i);
      RunStops(Step(s, actions[0]), actions[1..], i);
    }
  }

  /** Over every run a consumer has stopped exactly when it took a sentinel, left, was
      cancelled, or wanted a single item and took one: an iterator keeps reading until
      then. */
  lemma ConsumerStopsIff<V>(cap: int, consumers: seq<bool>, actions: seq<Action<V>>, i: nat)
    requires i < |consumers|
    ensures var s := Init<V>(cap, consumers);
            var r := Run(s, actions);
            && i < |r.consumers| && r.consumers[i].once == consumers[i]
            && (r.consumers[i].phase.Finished? <==> EverStops(s, actions, i))
  {
    InitInv<V>(cap, consumers);
    RunStops(Init<V>(cap, consumers), actions, i);
  }

  function DeliveriesTo<V>(ds: seq<Departure<V>>, i: nat): nat {
    if ds == [] then 0
    else
      var last := ds[|ds| - 1];
      DeliveriesTo(ds[..|ds| - 1], i) + (if last.Delivered? && last.consumer == i then 1 else 0)
  }

  /** A consumer that wants one item has got none while it is unfinished. */
  predicate OnceOk<V>(s: State<V>, i: nat) {
    i < |s.consumers| && s.consumers[i].once ==>
      DeliveriesTo(s.left, i) <= (if s.consumers[i].phase.Finished? then 1 else 0)
  }

  /** At most one value leaves at a step; it is delivered only to a consumer that looks. */
  lemma StepLeft<V>(s: State<V>, a: Action<V>)
    ensures Step(s, a).left == s.left || exists d :: Departs(s, a, d) && Step(s, a).left == s.left + [d]
  {
    if a.Push? && Full(s.queue, s.cap) && s.queue != [] && s.queue[0].Some? {
      assert Departs(s, a, Dropped(s.queue[0].value));
    } else if Takes(s, a) && s.queue[0].Some? {
      assert Departs(s, a, Delivered(a.consumer, s.queue[0].value));
    } else {
      assert Step(s, a).left == s.left;
    }
  }

  ghost predicate Departs<V>(s: State<V>, a: Action<V>, d: Departure<V>) {
    && s.queue != [] && s.queue[0] == Some(d.value)
    && (if d.Delivered? then LooksNow(s, a, d.consumer) else a.Push? && Full(s.queue, s.cap))
  }

  lemma StepOnce<V>(s: State<V>, a: Action<V>, i: nat)
    requires Listed(s) && OnceOk(s, i) && i < |s.consumers|
    ensures OnceOk(Step(s, a), i)
  {
    var s' := Step(s, a);
    StepLeft(s, a);
    StepStops(s, a, i);
    if s'.left != s.left {
      var d :| Departs(s, a, d) && s'.left == s.left + [d];
      assert s'.left[..|s.left|] == s.left;
    }
  }

  lemma {:induction false} RunOnce<V>(s: State<V>, actions: seq<Action<V>>, i: nat)
    requires Inv(s) && OnceOk(s, i) && i < |s.consumers|
    ensures OnceOk(Run(s, actions), i)
    decreases |actions|
  {
    if actions != [] {
      StepInv(s, actions[0]);
      StepFrame(s, actions[0]);
      StepOnce(s, actions[0], i);
      RunOnce(Step(s, actions[0]), actions[1..], i);
    }
  }

  /** `accept_data_channel` and `recv` return one item: such a consumer gets at most one, and
      with it is finished. */
  lemma OnceGetsOne<V>(cap: int, consumers: seq<bool>, actions: seq<Action<V>>, i: nat)
    requires i < |consumers| && consumers[i]
    ensures var r := Run(Init<V>(cap, consumers), actions);
            && i < |r.consumers|
            && DeliveriesTo(r.left, i) <= 1
            && (DeliveriesTo(r.left, i) == 1 ==> r.consumers[i].phase.Finished?)
  {
    InitInv<V>(cap, consumers);
    RunStops(Init<V>(cap, consumers), actions, i);
    RunOnce(Init<V>(cap, consumers), actions, i);
  }

  function Somes<V>(vs: seq<V>): (q: seq<Option<V>>)
    ensures |q| == |vs| && forall k :: 0 <= k < |vs| ==> q[k] == Some(vs[k])
  {
    seq(|vs|, k requires 0 <= k < |vs| => Some(vs[k]))
  }

  function DeliveredTo<V>(i: nat, vs: seq<V>): (ds: seq<Departure<V>>)
    ensures |ds| == |vs| && forall k :: 0 <= k < |vs| ==> ds[k] == Delivered(i, vs[k])
  {
    seq(|vs|, k requires 0 <= k < |vs| => Delivered(i, vs[k]))
  }

  function Gets<V>(i: nat, n: nat): (actions: seq<Action<V>>)
    ensures |actions| == n && forall k :: 0 <= k < n ==> actions[k] == Get(i)
  {
    seq(n, k => Get(i))
  }

  /** By its own turns an iterator gets every queued value, in order, and is still
      reading. */
  lemma {:induction false} IteratorReadsAll<V>(s: State<V>, i: nat, vs: seq<V>, rest: seq<Option<V>>)
    requires Is(s, i, Active) && !s.consumers[i].once && s.queue == Somes(vs) + rest
    ensures var r := Run(s, Gets(i, |vs|));
            && Is(r, i, Active) && !r.consumers[i].once && r.queue == rest
            && r.left == s.left + DeliveredTo(i, vs) && r.waiting == s.waiting
    decreases |vs|
  {
    if vs == [] {
      assert Somes(vs) + rest == rest && s.left + DeliveredTo(i, vs) == s.left;
    } else {
      var s1 := Step(s, Get(i));
      IteratorReadsOne(s, i, vs, rest);
      IteratorReadsAll(s1, i, vs[1..], rest);
      assert Gets<V>(i, |vs|)[1..] == Gets<V>(i, |vs| - 1);
      DeliveredMore(s.left, i, vs);
    }
  }

  lemma IteratorReadsOne<V>(s: State<V>, i: nat, vs: seq<V>, rest: seq<Option<V>>)
    requires Is(s, i, Active) && !s.consumers[i].once && vs != [] && s.queue == Somes(vs) + rest
    ensures var s1 := Step(s, Get(i));
            && Is(s1, i, Active) && !s1.consumers[i].once && s1.queue == Somes(vs[1..]) + rest
            && s1.left == s.left + [Delivered(i, vs[0])] && s1.waiting == s.waiting
  {
    assert s.queue[0] == Some(vs[0]);
    assert (Somes(vs) + rest)[1..] == Somes(vs[1..]) + rest;
  }

  lemma DeliveredMore<V>(left: seq<Departure<V>>, i: nat, vs: seq<V>)
    requires vs != []
    ensures left + [Delivered(i, vs[0])] + DeliveredTo(i, vs[1..]) == left + DeliveredTo(i, vs)
  {
    assert DeliveredTo(i, vs) == [Delivered(i, vs[0])] + DeliveredTo(i, vs[1..]);
  }

  // ---- Fairness ----------------------------------------------------------

  /** `i` parked before `j` and both still wait. */
  ghost predicate WaitsAhead<V>(s: State<V>, i: nat, j: nat) {
    exists p, q :: 0 <= p < q < |s.waiting| && s.waiting[p] == i && s.waiting[q] == j
  }

  /** What one step does to the waiting getters. */
  predicate WaitingStep(waiting: seq<nat>, waiting': seq<nat>, a: Action) {
    || waiting' == waiting
    || (waiting != [] && waiting' == waiting[1..])
    || ((a.Get? || a.Resume?) && waiting' == waiting + [a.consumer])
    || (a.Cancel? && waiting' == Without(waiting, a.consumer))
  }

  lemma StepWaiting<V>(s: State<V>, a: Action<V>)
    requires Listed(s)
    ensures WaitingStep(s.waiting, Step(s, a).waiting, a)
  {
  }

  lemma {:induction false} WithoutKeepsOrder(s: seq<nat>, x: nat, p: nat, q: nat) returns (p': nat, q': nat)
    requires p < q < |s| && s[p] != x && s[q] != x
    ensures p' < q' < |Without(s, x)| && Without(s, x)[p'] == s[p] && Without(s, x)[q'] == s[q]
    decreases |s|
  {
    if s[0] == x {
      p', q' := p - 1, q - 1;
    } else if p == 0 {
      p' := 0;
      q' := WithoutKeeps(s[1..], x, q - 1);
      q' := q' + 1;
    } else {
      p', q' := WithoutKeepsOrder(s[1..], x, p - 1, q - 1);
      p', q' := p' + 1, q' + 1;
    }
  }

  lemma {:induction false} WithoutKeeps(s: seq<nat>, x: nat, q: nat) returns (q': nat)
    requires q < |s| && s[q] != x
    ensures q' < |Without(s, x)| && Without(s, x)[q'] == s[q]
    decreases |s|
  {
    if s[0] == x {
      q' := q - 1;
    } else if q == 0 {
      q' := 0;
    } else {
      q' := WithoutKeeps(s[1..], x, q - 1);
      q' := q' + 1;
    }
  }

  /** First parked, first woken: as long as the one that parked earlier waits, the later one
      is not woken before it and keeps its place; only its own cancellation takes it away. */
  lemma FirstParkedFirstWoken<V>(s: State<V>, a: Action<V>, i: nat, j: nat)
    requires Inv(s) && WaitsAhead(s, i, j) && a != Cancel(i) && a != Cancel(j)
    ensures var r := Step(s, a);
            WaitsAhead(r, i, j) || (Is(r, i, Woken) && Is(r, j, Parked))
  {
    var r := Step(s, a);
    var p, q :| 0 <= p < q < |s.waiting| && s.waiting[p] == i && s.waiting[q] == j;
    StepWaiting(s, a);
    StepKeeps(s, a);
    if r.waiting == s.waiting || r.waiting == s.waiting + [if a.Get? || a.Resume? then a.consumer else 0] {
      assert r.waiting[p] == i && r.waiting[q] == j;
    } else if s.waiting != [] && r.waiting == s.waiting[1..] {
      if p > 0 {
        assert r.waiting[p - 1] == i && r.waiting[q - 1] == j;
      } else {
        assert r.waiting[q - 1] == j && j in r.waiting;
        HeadIsWoken(s, a);
      }
    } else {
      var p', q' := WithoutKeepsOrder(s.waiting, a.consumer, p, q);
    }
  }

  lemma HeadIsWoken<V>(s: State<V>, a: Action<V>)
    requires Listed(s) && s.waiting != [] && Step(s, a).waiting == s.waiting[1..] && a != Cancel(s.waiting[0])
    ensures Is(Step(s, a), s.waiting[0], Woken)
  {
    assert Is(s, s.waiting[0], Parked);
    if a.Cancel? && a.consumer < |s.consumers| && s.consumers[a.consumer].phase.Parked? {
      WithoutHead(s.waiting, a.consumer);
    }
  }

  lemma WithoutHead(s: seq<nat>, x: nat)
    requires s != [] && s[0] != x && Distinct(s)
    ensures Without(s, x) != s[1..]
  {
    assert Without(s, x)[0] == s[0];
    if |s| > 1 { assert s[1..][0] == s[1] != s[0]; }
  }
}
