/** Latched futures: a slot whose current future resolves at most once and which can be
    replaced by a fresh future.  Every awaiter of a slot awaits the same future, so the
    cancellation of one awaiter cancels it for all. */
module FutureSlots {

  datatype Outcome<+T, +E> = Pending | Result(value: T) | Failed(error: E) | Cancelled

  // ---- What one slot does to one future ----------------------------------

  function SetOutcome<T, E>(o: Outcome<T, E>, value: T): Outcome<T, E> {
    if o.Pending? then Result(value) else o
  }

  function FailOutcome<T, E>(o: Outcome<T, E>, error: E): Outcome<T, E> {
    if o.Pending? then Failed(error) else o
  }

  function CancelOutcome<T, E>(o: Outcome<T, E>): Outcome<T, E> {
    if o.Pending? then Cancelled else o
  }

  // ---- All generations of a slot -----------------------------------------

  /** `CancelAwaiter`: a coroutine awaiting the current future is cancelled. */
  datatype SlotOp<T, E> = Set(value: T) | Fail(error: E) | Reset | CancelAwaiter

  /** The outcomes of every future the slot ever had, oldest first; the last is current. */
  type Generations<T, E> = seq<Outcome<T, E>>

  function Apply<T, E>(g: Generations<T, E>, op: SlotOp<T, E>): (r: Generations<T, E>)
    requires g != []
    ensures |r| >= |g| && r != []
  {
    var last := |g| - 1;
    match op
    case Set(v) => g[last := SetOutcome(g[last], v)]
    case Fail(e) => g[last := FailOutcome(g[last], e)]
    case Reset => g[last := CancelOutcome(g[last])] + [Pending]
    case CancelAwaiter => g[last := CancelOutcome(g[last])]
  }

  function ApplyAll<T, E>(g: Generations<T, E>, ops: seq<SlotOp<T, E>>): (r: Generations<T, E>)
    requires g != []
    ensures r != []
    decreases |ops|
  {
    if ops == [] then g else ApplyAll(Apply(g, ops[0]), ops[1..])
  }

  // ---- Independent reading of a history ----------------------------------

  function ResetCount<T, E>(ops: seq<SlotOp<T, E>>): nat {
    if ops == [] then 0 else (if ops[0].Reset? then 1 else 0) + ResetCount(ops[1..])
  }

  /** What the first operation on a fresh future decides; nothing happens later. */
  function FirstDecision<T, E>(ops: seq<SlotOp<T, E>>): Outcome<T, E> {
    if ops == [] then Pending
    else match ops[0]
         case Set(v) => Result(v)
         case Fail(e) => Failed(e)
         case Reset => Cancelled
         case CancelAwaiter => Cancelled
  }

  /** The operations from the `k`-th reset on. */
  function SinceReset<T, E>(ops: seq<SlotOp<T, E>>, k: nat): seq<SlotOp<T, E>>
    requires k <= ResetCount(ops)
  {
    if k == 0 then ops else if ops[0].Reset? then SinceReset(ops[1..], k - 1) else SinceReset(ops[1..], k)
  }

  lemma {:induction false} PastIsFixed<T, E>(g: Generations<T, E>, ops: seq<SlotOp<T, E>>, k: nat)
    requires k < |g| && (k < |g| - 1 || !g[k].Pending?)
    ensures |ApplyAll(g, ops)| == |g| + ResetCount(ops)
    ensures ApplyAll(g, ops)[k] == g[k]
    decreases |ops|
  {
    if ops != [] {
      PastIsFixed(Apply(g, ops[0]), ops[1..], k);
    }
  }

  /** Each generation of a slot ends with the first operation applied to it (a reset or a
      cancelled awaiter cancels a still pending future), and no later operation reaches
      it. */
  lemma {:induction false} GenerationsLatch<T, E>(g: Generations<T, E>, ops: seq<SlotOp<T, E>>, k: nat)
    requires g != [] && g[|g| - 1] == Pending && k <= ResetCount(ops)
    ensures |ApplyAll(g, ops)| == |g| + ResetCount(ops)
    ensures ApplyAll(g, ops)[|g| - 1 + k] == FirstDecision(SinceReset(ops, k))
    decreases |ops|
  {
    if ops != [] {
      var g1 := Apply(g, ops[0]);
      if k == 0 {
        PastIsFixed(g1, ops[1..], |g| - 1);
      } else if ops[0].Reset? {
        GenerationsLatch(g1, ops[1..], k - 1);
      } else {
        DecidedLatch(g1, ops[1..], k);
      }
    }
  }

  /** The same once the current generation is already decided: only later ones are open. */
  lemma {:induction false} DecidedLatch<T, E>(g: Generations<T, E>, ops: seq<SlotOp<T, E>>, k: nat)
    requires g != [] && !g[|g| - 1].Pending? && 0 < k <= ResetCount(ops)
    ensures |ApplyAll(g, ops)| == |g| + ResetCount(ops)
    ensures ApplyAll(g, ops)[|g| - 1 + k] == FirstDecision(SinceReset(ops, k))
    decreases |ops|
  {
    var g1 := Apply(g, ops[0]);
    if ops[0].Reset? {
      GenerationsLatch(g1, ops[1..], k - 1);
    } else {
      DecidedLatch(g1, ops[1..], k);
    }
  }

  // ---- The objects -------------------------------------------------------

  /** asyncio.Future, reduced to its outcome. */
  class Future<T, E> {
    var outcome: Outcome<T, E>

    constructor ()
      ensures outcome == Pending
    {
      outcome := Pending;
    }
  }

  class FutureSlot<T, E> {
    var future: Future<T, E>
    ghost var past: seq<Future<T, E>>

    ghost predicate Valid()
      reads this
    {
      && future !in past
      && forall i, j :: 0 <= i < j < |past| ==> past[i] != past[j]
    }

    ghost function View(): (g: Generations<T, E>)
      reads this, future, past
      ensures |g| == |past| + 1
    {
      seq(|past|, i requires 0 <= i < |past| reads this, past => past[i].outcome) + [future.outcome]
    }

    constructor ()
      ensures Valid() && fresh(future) && future.outcome == Pending && past == [] && View() == [Pending]
    {
      future := new Future();
      past := [];
    }

    method Set(value: T)
      requires Valid()
      modifies future
      ensures Valid() && View() == Apply(old(View()), SlotOp.Set(value))
      ensures future.outcome == SetOutcome(old(future.outcome), value)
    {
      if future.outcome.Pending? {
        future.outcome := Result(value);
      }
    }

    method Fail(error: E)
      requires Valid()
      modifies future
      ensures Valid() && View() == Apply(old(View()), SlotOp.Fail(error))
      ensures future.outcome == FailOutcome(old(future.outcome), error)
    {
      if !future.outcome.Pending? {
        return;
      }
      future.outcome := Failed(error);
    }

    /** An awaiter is cancelled: asyncio cancels the future it awaits. */
    method CancelAwaiter()
      requires Valid()
      modifies future
      ensures Valid() && View() == Apply(old(View()), SlotOp.CancelAwaiter)
      ensures future.outcome == CancelOutcome(old(future.outcome))
    {
      if future.outcome.Pending? {
        future.outcome := Cancelled;
      }
    }

    method Reset()
      requires Valid()
      modifies this, future
      ensures Valid() && fresh(future) && past == old(past) + [old(future)]
      ensures View() == Apply(old(View()), SlotOp.Reset)
    {
      if future.outcome.Pending? {
        future.outcome := Cancelled;
      }
      past := past + [future];
      future := new Future();
    }
  }
}
