/** Several readers parked in `recv` of one data channel: ConsumerQueue, bounded, is the
    receive queue with its waiting readers. */
module DataChannelReaders {
  import opened Wrappers
  import opened AsyncQueue
  import opened ReceiveQueue
  import Queue = ConsumerQueue

  /** The same queue with None for the close sentinel. */
  function Lift<M>(q: seq<Item<M>>): (r: seq<Option<M>>)
    ensures |r| == |q|
    ensures forall i :: 0 <= i < |q| ==> r[i] == if q[i].Message? then Some(q[i].m) else None
  {
    seq(|q|, i requires 0 <= i < |q| => if q[i].Message? then Some(q[i].m) else None)
  }

  /** The message handler is a push, the close handler a push of the sentinel, and a `recv`
      that finds an item is a take: the reader gets the oldest message or raises. */
  lemma ReadersRefine<M>(s: Queue.State<M>, q: seq<Item<M>>)
    requires s.queue == Lift(q) && Within(q, s.cap)
    ensures forall m :: Queue.Step(s, Queue.Push(m)).queue == Lift(HandleMessage(q, s.cap, m))
    ensures Queue.Step(s, Queue.PushSentinel).queue == Lift(TryPut(q, s.cap, ClosedSentinel))
    ensures q != [] ==>
              forall i: nat :: i < |s.consumers| ==>
                && Queue.Take(s, i).queue == Lift(Recv(q, s.cap).0)
                && Queue.Take(s, i).left ==
                   s.left + (if Recv(q, s.cap).1.Got? then [Queue.Delivered(i, Recv(q, s.cap).1.m)] else [])
  {
    forall m ensures Queue.Step(s, Queue.Push(m)).queue == Lift(HandleMessage(q, s.cap, m)) {
      PushRefines(s, q, m);
    }
    CloseRefines(s, q);
    if q != [] {
      forall i: nat | i < |s.consumers|
        ensures Queue.Take(s, i).queue == Lift(Recv(q, s.cap).0)
        ensures Queue.Take(s, i).left ==
                s.left + (if Recv(q, s.cap).1.Got? then [Queue.Delivered(i, Recv(q, s.cap).1.m)] else [])
      {
        TakeRefines(s, q, i);
      }
    }
  }

  lemma LiftAppend<M>(q: seq<Item<M>>, x: Item<M>)
    ensures Lift(q + [x]) == Lift(q) + [if x.Message? then Some(x.m) else None]
  {
  }

  lemma LiftTail<M>(q: seq<Item<M>>)
    requires q != []
    ensures Lift(q[1..]) == Lift(q)[1..]
  {
  }

  lemma PutQueue<M>(s: Queue.State<M>, x: Option<M>)
    ensures Queue.Put(s, x).queue == s.queue + [x]
  {
  }

  lemma PushRefines<M>(s: Queue.State<M>, q: seq<Item<M>>, m: M)
    requires s.queue == Lift(q) && Within(q, s.cap)
    ensures Queue.PushValue(s, m).queue == Lift(HandleMessage(q, s.cap, m))
  {
    if Full(q, s.cap) {
      LiftTail(q);
      LiftAppend(q[1..], Message(m));
      PutQueue(Queue.DropOldest(s).(pushed := s.pushed + [m]), Some(m));
    } else {
      LiftAppend(q, Message(m));
      PutQueue(s.(pushed := s.pushed + [m]), Some(m));
    }
  }

  lemma CloseRefines<M>(s: Queue.State<M>, q: seq<Item<M>>)
    requires s.queue == Lift(q) && Within(q, s.cap)
    ensures Queue.PushClose(s).queue == Lift(TryPut(q, s.cap, ClosedSentinel))
  {
    LiftAppend(q, ClosedSentinel);
    PutQueue(s.(sentinels := s.sentinels + 1), None);
  }

  lemma TakeRefines<M>(s: Queue.State<M>, q: seq<Item<M>>, i: nat)
    requires s.queue == Lift(q) && Within(q, s.cap) && q != [] && i < |s.consumers|
    ensures Queue.Take(s, i).queue == Lift(Recv(q, s.cap).0)
    ensures Queue.Take(s, i).left ==
            s.left + (if Recv(q, s.cap).1.Got? then [Queue.Delivered(i, Recv(q, s.cap).1.m)] else [])
  {
    LiftTail(q);
    assert s.queue[0] == Lift(q)[0];
    if q[0].ClosedSentinel? {
      LiftAppend(q[1..], ClosedSentinel);
      var rest := Queue.SetPhase(s.(queue := s.queue[1..]), i, Queue.Finished);
      PutQueue(rest, None);
    }
  }
}
