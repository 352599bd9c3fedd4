/** The lock protocol of the native binding: threads, locks and in-flight callbacks.

    A thread is a finite program of lock instructions.  Any number of threads run
    interleaved, one instruction at a time.  The locks are the per-channel callback
    mutexes of the native library, the two registry locks of the Python layer, the
    GIL and the mutex that guards the dispatcher reference.  Deleting a handle
    additionally waits until no thread is inside a callback of that handle.

    The rule that makes the protocol deadlock free is written once, as `Allowed`;
    the theorems hold for every collection of programs that obeys it.
    BindingPrograms shows that the binding's programs do. */
module BindingLocks {

  datatype Registry = PcRegistry | DcRegistry

  datatype Lock =
    | Callback(handle: int)
    | RegistryLock(which: Registry)
    | Gil
    | Dispatcher

  /** The order in which locks may be waited for. */
  function Rank(l: Lock): nat {
    match l
    case Callback(_) => 0
    case RegistryLock(_) => 1
    case Gil => 2
    case Dispatcher => 3
  }

  datatype CallbackKind =
    | LocalDescription | LocalCandidate | StateChange | IceStateChange
    | GatheringStateChange | SignalingStateChange | IncomingDataChannel
    | DcOpen | DcClosed | DcError | DcMessage | DcBufferedAmountLow
    | Log

  datatype Instr =
    | Acquire(lock: Lock)         // blocks until the lock is free
    | PyAcquire(which: Registry)  // threading.Lock: gives the GIL up while it blocks
    | Release(lock: Lock)
    | Enter(handle: int)          // a callback of this handle goes in flight
    | Leave(handle: int)
    | Join(handles: set<int>)     // blocks while a callback of these handles is in flight
    | Write(handle: int, kind: CallbackKind)   // sets or clears a native callback
    | Interpreter                 // touches Python objects, so it needs the GIL

  type Program = seq<Instr>

  // ---- The discipline ----------------------------------------------------

  /** What one thread holds: its locks and the callbacks it is inside. */
  datatype Context = Context(held: set<Lock>, inside: set<int>)

  const IDLE := Context({}, {})

  predicate Below(held: set<Lock>, l: Lock) {
    forall k :: k in held ==> Rank(k) < Rank(l)
  }

  /** A thread may only wait for a lock ranked above everything it keeps while waiting,
      may only join with empty hands, writes a callback only under its mutex, and runs
      Python inside a callback only under the mutex of its handle. */
  predicate Allowed(c: Context, i: Instr) {
    match i
    case Acquire(l) => Below(c.held, l)
    case PyAcquire(r) => Gil in c.held && Below(c.held - {Gil}, RegistryLock(r))
    case Release(l) => l in c.held
    case Enter(h) => h !in c.inside
    case Leave(h) => h in c.inside
    case Join(_) => c == IDLE
    case Write(h, _) => Callback(h) in c.held
    case Interpreter => Gil in c.held && forall h :: h in c.inside ==> Callback(h) in c.held
  }

  function After(c: Context, i: Instr): Context {
    match i
    case Acquire(l) => c.(held := c.held + {l})
    case PyAcquire(r) => c.(held := c.held + {RegistryLock(r)})
    case Release(l) => c.(held := c.held - {l})
    case Enter(h) => c.(inside := c.inside + {h})
    case Leave(h) => c.(inside := c.inside - {h})
    case Join(_) => c
    case Write(_, _) => c
    case Interpreter => c
  }

  /** Program `p`, started in `c`, obeys the rule at every instruction and ends in `d`. */
  predicate Fits(c: Context, p: Program, d: Context)
    decreases |p|
  {
    if p == [] then c == d
    else Allowed(c, p[0]) && Fits(After(c, p[0]), p[1..], d)
  }

  // ---- The machine -------------------------------------------------------

  datatype Thread = Thread(program: Program, held: set<Lock>, inside: set<int>) {
    function Ctx(): Context { Context(held, inside) }
  }

  type State = seq<Thread>

  predicate Free(s: State, l: Lock) {
    forall t :: 0 <= t < |s| ==> l !in s[t].held
  }

  predicate NoneInside(s: State, handles: set<int>) {
    forall t :: 0 <= t < |s| ==> s[t].inside !! handles
  }

  predicate Unfinished(s: State, t: nat) {
    t < |s| && s[t].program != []
  }

  predicate Enabled(s: State, t: nat) {
    && Unfinished(s, t)
    && match s[t].program[0]
       case Acquire(l) => Free(s, l)
       case Join(handles) => NoneInside(s, handles)
       case _ => true
  }

  /** One instruction of thread `t`.  A contended Python lock releases the GIL first,
      then waits for the lock, then for the GIL. */
  function StepThread(s: State, t: nat): Thread
    requires Enabled(s, t)
  {
    var Thread(p, held, inside) := s[t];
    var rest := p[1..];
    match p[0]
    case Acquire(l) => Thread(rest, held + {l}, inside)
    case PyAcquire(r) =>
      if Free(s, RegistryLock(r)) then Thread(rest, held + {RegistryLock(r)}, inside)
      else Thread([Acquire(RegistryLock(r)), Acquire(Gil)] + rest, held - {Gil}, inside)
    case Release(l) => Thread(rest, held - {l}, inside)
    case Enter(h) => Thread(rest, held, inside + {h})
    case Leave(h) => Thread(rest, held, inside - {h})
    case Join(_) => Thread(rest, held, inside)
    case Write(_, _) => Thread(rest, held, inside)
    case Interpreter => Thread(rest, held, inside)
  }

  function Step(s: State, t: nat): State
    requires Enabled(s, t)
  {
    s[t := StepThread(s, t)]
  }

  /** A schedule names the thread that moves at each step. */
  predicate ValidRun(s: State, schedule: seq<nat>)
    decreases |schedule|
  {
    schedule == [] || (Enabled(s, schedule[0]) && ValidRun(Step(s, schedule[0]), schedule[1..]))
  }

  function Run(s: State, schedule: seq<nat>): State
    requires ValidRun(s, schedule)
    decreases |schedule|
  {
    if schedule == [] then s else Run(Step(s, schedule[0]), schedule[1..])
  }

  predicate Start(s: State) {
    forall t :: 0 <= t < |s| ==> s[t].Ctx() == IDLE && Fits(IDLE, s[t].program, IDLE)
  }

  ghost predicate Stuck(s: State) {
    && (exists t: nat :: Unfinished(s, t))
    && (forall t: nat :: !Enabled(s, t))
  }

  // ---- Invariant ---------------------------------------------------------

  predicate Exclusive(s: State) {
    forall t, u :: 0 <= t < u < |s| ==> s[t].held !! s[u].held
  }

  predicate Disciplined(s: State) {
    forall t :: 0 <= t < |s| ==> Fits(s[t].Ctx(), s[t].program, IDLE)
  }

  lemma StepThreadFits(s: State, t: nat)
    requires Enabled(s, t) && Fits(s[t].Ctx(), s[t].program, IDLE)
    ensures Fits(StepThread(s, t).Ctx(), StepThread(s, t).program, IDLE)
  {
    var c, p := s[t].Ctx(), s[t].program;
    if p[0].PyAcquire? && !Free(s, RegistryLock(p[0].which)) {
      var l := RegistryLock(p[0].which);
      var q := [Acquire(l), Acquire(Gil)] + p[1..];
      var c1 := Context(c.held - {Gil}, c.inside);
      var c2 := After(c1, Acquire(l));
      assert q[1..] == [Acquire(Gil)] + p[1..] && q[1..][1..] == p[1..];
      assert After(c2, Acquire(Gil)) == After(c, p[0]);
      assert Fits(c2, q[1..], IDLE);
      assert Fits(c1, q, IDLE);
    }
  }

  lemma StepKeeps(s: State, t: nat)
    requires Disciplined(s) && Exclusive(s) && Enabled(s, t)
    ensures Disciplined(Step(s, t)) && Exclusive(Step(s, t))
  {
    StepThreadFits(s, t);
  }

  lemma {:induction false} RunKeeps(s: State, schedule: seq<nat>)
    requires Disciplined(s) && Exclusive(s) && ValidRun(s, schedule)
    ensures Disciplined(Run(s, schedule)) && Exclusive(Run(s, schedule))
    ensures |Run(s, schedule)| == |s|
    decreases |schedule|
  {
    if schedule != [] {
      StepKeeps(s, schedule[0]);
      RunKeeps(Step(s, schedule[0]), schedule[1..]);
    }
  }

  // ---- Deadlock freedom --------------------------------------------------

  /** The rank of the lock a thread is about to wait for; instructions that never wait
      for a lock count as lowest. */
  function WaitRank(i: Instr): nat {
    if i.Acquire? then 1 + Rank(i.lock) else 0
  }

  /** Following the chain "the thread I wait for" climbs the lock ranking, so it ends at
      a thread that can move. */
  lemma {:induction false} SomeoneCanMove(s: State, t: nat) returns (u: nat)
    requires Disciplined(s) && Unfinished(s, t)
    ensures Enabled(s, u)
    decreases 5 - WaitRank(s[t].program[0])
  {
    u := t;
    if !Enabled(s, t) {
      var i := s[t].program[0];
      var v :| 0 <= v < |s| && if i.Acquire? then i.lock in s[v].held else !(s[v].inside !! i.handles);
      assert Fits(s[v].Ctx(), s[v].program, IDLE);
      assert Fits(s[t].Ctx(), s[t].program, IDLE);
      u := v;
      if !Enabled(s, v) {
        u := SomeoneCanMove(s, v);
      }
    }
  }

  /** Deadlock freedom: after any run, as long as some thread is unfinished some thread
      can move. */
  lemma DeadlockFree(s: State, schedule: seq<nat>)
    requires Start(s) && ValidRun(s, schedule)
    ensures !Stuck(Run(s, schedule))
  {
    RunKeeps(s, schedule);
    var r := Run(s, schedule);
    if t: nat :| Unfinished(r, t) {
      var u := SomeoneCanMove(r, t);
    }
  }

  // ---- Safety at every reachable state -----------------------------------

  /** Mutual exclusion, and whoever is about to touch the interpreter holds the GIL
      alone; a thread about to wait for a callback mutex or to join in-flight callbacks
      holds neither the GIL nor a registry lock. */
  lemma SafeAtEveryState(s: State, schedule: seq<nat>, t: nat)
    requires Start(s) && ValidRun(s, schedule)
    requires Unfinished(Run(s, schedule), t)
    ensures var r := Run(s, schedule);
            && Exclusive(r)
            && var i := r[t].program[0];
            && (i.Interpreter? ==> Gil in r[t].held && forall u :: 0 <= u < |r| && u != t ==> Gil !in r[u].held)
            && (i.Join? || (i.Acquire? && i.lock.Callback?) ==>
                  Gil !in r[t].held && forall w :: RegistryLock(w) !in r[t].held)
  {
    RunKeeps(s, schedule);
    var r := Run(s, schedule);
    assert Fits(r[t].Ctx(), r[t].program, IDLE);
    var i := r[t].program[0];
    if i.Acquire? && i.lock.Callback? {
      forall w ensures RegistryLock(w) !in r[t].held {
        assert Rank(RegistryLock(w)) == 1;
      }
      assert Rank(Gil) == 2;
    }
  }

  // ---- Termination -------------------------------------------------------

  function Weight(p: Program): nat {
    if p == [] then 0 else (if p[0].PyAcquire? then 3 else 1) + Weight(p[1..])
  }

  function TotalWeight(s: State): nat {
    if s == [] then 0 else Weight(s[0].program) + TotalWeight(s[1..])
  }

  lemma {:induction false} TotalWeightUpdate(s: State, t: nat, th: Thread)
    requires t < |s|
    ensures TotalWeight(s[t := th]) == TotalWeight(s) - Weight(s[t].program) + Weight(th.program)
  {
    if t == 0 {
      assert s[t := th][1..] == s[1..];
    } else {
      TotalWeightUpdate(s[1..], t - 1, th);
      assert s[t := th][1..] == s[1..][t - 1 := th];
    }
  }

  /** Every instruction makes the remaining work smaller, even the one that expands a
      contended Python lock. */
  lemma StepDecreases(s: State, t: nat)
    requires Enabled(s, t)
    ensures TotalWeight(Step(s, t)) < TotalWeight(s)
  {
    var th := StepThread(s, t);
    TotalWeightUpdate(s, t, th);
    var p := s[t].program;
    if p[0].PyAcquire? && !Free(s, RegistryLock(p[0].which)) {
      assert th.program[1..] == [Acquire(Gil)] + p[1..] && th.program[1..][1..] == p[1..];
    }
  }

  lemma {:induction false} RunLengthBounded(s: State, schedule: seq<nat>)
    requires ValidRun(s, schedule)
    ensures |schedule| + TotalWeight(Run(s, schedule)) <= TotalWeight(s)
    decreases |schedule|
  {
    if schedule != [] {
      StepDecreases(s, schedule[0]);
      RunLengthBounded(Step(s, schedule[0]), schedule[1..]);
    }
  }

  /** Every run is shorter than the programs' weight, and a run that cannot be extended
      has finished every thread and left every lock free. */
  lemma MaximalRunsFinish(s: State, schedule: seq<nat>)
    requires Start(s) && ValidRun(s, schedule)
    ensures |schedule| <= TotalWeight(s)
    ensures |Run(s, schedule)| == |s|
    ensures (forall t: nat :: !Enabled(Run(s, schedule), t)) ==>
              forall t :: 0 <= t < |s| ==> Run(s, schedule)[t] == Thread([], {}, {})
  {
    RunLengthBounded(s, schedule);
    RunKeeps(s, schedule);
    DeadlockFree(s, schedule);
    var r := Run(s, schedule);
    if forall t: nat :: !Enabled(r, t) {
      forall t | 0 <= t < |s| ensures r[t] == Thread([], {}, {}) {
        assert !Unfinished(r, t);
        assert Fits(r[t].Ctx(), r[t].program, IDLE);
      }
    }
  }
}
