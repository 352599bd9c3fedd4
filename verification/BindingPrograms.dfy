/** The binding's entry points, trampolines and deletions as lock programs, and the
    proof that they obey the discipline of BindingLocks for any number of threads. */
module BindingPrograms {
  import opened BindingLocks
  import opened Wrappers

  /** The registry `_dispatch` consults for a kind; log lines need none. */
  function LookupRegistry(kind: CallbackKind): Option<Registry> {
    match kind
    case LocalDescription | LocalCandidate | StateChange | IceStateChange
       | GatheringStateChange | SignalingStateChange | IncomingDataChannel => Some(PcRegistry)
    case DcOpen | DcClosed | DcError | DcMessage | DcBufferedAmountLow => Some(DcRegistry)
    case Log => None
  }

  /** The kinds a data channel wrapper registers. */
  predicate ChannelKind(kind: CallbackKind) {
    kind.DcOpen? || kind.DcClosed? || kind.DcError? || kind.DcMessage? || kind.DcBufferedAmountLow?
  }

  /** The kinds a peer connection wrapper registers. */
  predicate ConnectionKind(kind: CallbackKind) {
    || kind.LocalDescription? || kind.LocalCandidate? || kind.StateChange? || kind.IceStateChange?
    || kind.GatheringStateChange? || kind.SignalingStateChange? || kind.IncomingDataChannel?
  }

  predicate KindOf(which: Registry, kind: CallbackKind) {
    if which.DcRegistry? then ChannelKind(kind) else ConnectionKind(kind)
  }

  // ---- Building blocks ---------------------------------------------------

  /** Python code during which the interpreter hands the GIL over `n` times. */
  function Switches(n: nat): Program {
    if n == 0 then [] else [Release(Gil), Acquire(Gil)] + Switches(n - 1)
  }

  /** `with lock:` around Python code that may lose the GIL while the lock is held. */
  function Locked(which: Registry, switches: nat): Program {
    [PyAcquire(which)] + Switches(switches) + [Release(RegistryLock(which))]
  }

  /** The helper through which every blocking native call goes. */
  function NoGil(body: Program): Program {
    [Release(Gil)] + body + [Acquire(Gil)]
  }

  /** One run of a static trampoline; `installed` is false once the dispatcher was
      cleared.  The switch counts say how often the Python part loses the GIL. */
  datatype Trampoline = Trampoline(kind: CallbackKind, installed: bool, before: nat, inLock: nat, after: nat)

  function DispatchCode(t: Trampoline): Program {
    [Interpreter] + Switches(t.before)
    + (match LookupRegistry(t.kind)
       case Some(which) => Locked(which, t.inLock)
       case None => [])
    + Switches(t.after)
  }

  function TrampolineCode(t: Trampoline): Program {
    [Acquire(Gil), Acquire(Dispatcher), Release(Dispatcher)]
    + (if t.installed then DispatchCode(t) else [])
    + [Release(Gil)]
  }

  /** A native thread delivers a callback of handle `h` under the channel's mutex. */
  function CallbackCode(h: int, t: Trampoline): Program {
    [Enter(h), Acquire(Callback(h))] + TrampolineCode(t) + [Release(Callback(h)), Leave(h)]
  }

  /** rtcSet*Callback: takes the channel's mutex and, on an open channel, fires at once. */
  function SetterCode(h: int, kind: CallbackKind, fires: Option<Trampoline>): Program {
    [Acquire(Callback(h)), Write(h, kind)]
    + (match fires
       case Some(t) => [Enter(h)] + TrampolineCode(t) + [Leave(h)]
       case None => [])
    + [Release(Callback(h))]
  }

  /** Clearing callbacks never fires them. */
  function ClearCode(h: int, kinds: seq<CallbackKind>): Program {
    if kinds == [] then [] else SetterCode(h, kinds[0], None) + ClearCode(h, kinds[1..])
  }

  const PC_KINDS := [LocalDescription, LocalCandidate, StateChange, IceStateChange,
                     GatheringStateChange, SignalingStateChange, IncomingDataChannel]
  const DC_KINDS := [DcOpen, DcClosed, DcError, DcMessage, DcBufferedAmountLow]

  function Kinds(which: Registry): seq<CallbackKind> {
    if which.PcRegistry? then PC_KINDS else DC_KINDS
  }

  /** rtcDelete* of `h`: clears its callbacks, then waits for those of `h` still in flight and
      for whatever else the library chooses to wait for. */
  function DeleteCode(which: Registry, h: int, also: set<int>): Program {
    ClearCode(h, Kinds(which)) + [Join({h} + also)]
  }

  // ---- Threads -----------------------------------------------------------

  /** What Python code asks of the binding, one call at a time. */
  datatype Op =
    | PythonCode(switches: nat)
    | Insert(registry: Registry, inLock: nat)             // a wrapper's __init__
    | SetCallback(h: int, kind: CallbackKind, fires: Option<Trampoline>)
    | Blocking(fired: seq<(int, Trampoline)>)             // a blocking rtc* call and the callbacks it runs itself
    | Getter                                              // plain getters keep the GIL and take no lock
    | SetDispatcher
    | Destroy(registry: Registry, h: int, also: set<int>, inLock: nat)
    | ShutLibrary(handles: set<int>)                      // rtcCleanup: waits for the callbacks of all that is left

  function CallbacksCode(cs: seq<(int, Trampoline)>): Program {
    if cs == [] then [] else CallbackCode(cs[0].0, cs[0].1) + CallbacksCode(cs[1..])
  }

  function OpCode(op: Op): Program {
    match op
    case PythonCode(n) => Switches(n)
    case Insert(which, n) => Locked(which, n)
    case SetCallback(h, kind, fires) => NoGil(SetterCode(h, kind, fires)) + [Interpreter]
    case Blocking(fired) => NoGil(CallbacksCode(fired)) + [Interpreter]
    case Getter => [Interpreter]
    case SetDispatcher => [Acquire(Dispatcher), Release(Dispatcher)]
    case Destroy(which, h, also, n) => Locked(which, n) + NoGil(DeleteCode(which, h, also))
    case ShutLibrary(handles) => NoGil([Join(handles)])
  }

  function OpsCode(ops: seq<Op>): Program {
    if ops == [] then [] else OpCode(ops[0]) + OpsCode(ops[1..])
  }

  datatype Script =
    | PythonThread(ops: seq<Op>)
    | NativeThread(callbacks: seq<(int, Trampoline)>)

  function ScriptCode(script: Script): Program {
    match script
    case PythonThread(ops) => [Acquire(Gil)] + OpsCode(ops) + [Release(Gil)]
    case NativeThread(callbacks) => CallbacksCode(callbacks)
  }

  function Boot(scripts: seq<Script>): State {
    seq(|scripts|, i requires 0 <= i < |scripts| => Thread(ScriptCode(scripts[i]), {}, {}))
  }

  // ---- The discipline holds ----------------------------------------------

  lemma {:induction false} FitsConcat(c: Context, p: Program, d: Context, q: Program, e: Context)
    requires Fits(c, p, d) && Fits(d, q, e)
    ensures Fits(c, p + q, e)
    decreases |p|
  {
    if p == [] {
      assert p + q == q;
    } else {
      FitsConcat(After(c, p[0]), p[1..], d, q, e);
      assert (p + q)[1..] == p[1..] + q;
    }
  }

  lemma FitsOne(c: Context, i: Instr)
    requires Allowed(c, i)
    ensures Fits(c, [i], After(c, i))
  {
    assert Fits(After(c, i), [i][1..], After(c, i));
  }

  lemma FitsTwo(c: Context, i: Instr, j: Instr)
    requires Allowed(c, i) && Allowed(After(c, i), j)
    ensures Fits(c, [i, j], After(After(c, i), j))
  {
    FitsOne(c, i);
    FitsOne(After(c, i), j);
    FitsConcat(c, [i], After(c, i), [j], After(After(c, i), j));
    assert [i] + [j] == [i, j];
  }

  /** Python code: holds the GIL, no dispatcher mutex. */
  predicate InPython(c: Context) {
    Gil in c.held && Dispatcher !in c.held
  }

  /** Native code that may run callbacks: at most callback mutexes are held. */
  predicate InNative(c: Context) {
    forall l :: l in c.held ==> l.Callback?
  }

  /** Inside a callback only under its handle's mutex. */
  predicate Covered(c: Context) {
    forall h :: h in c.inside ==> Callback(h) in c.held
  }

  lemma {:induction false} SwitchesFit(c: Context, n: nat)
    requires InPython(c)
    ensures Fits(c, Switches(n), c)
  {
    if n > 0 {
      var c1 := After(c, Release(Gil));
      assert After(c1, Acquire(Gil)) == c;
      FitsTwo(c, Release(Gil), Acquire(Gil));
      SwitchesFit(c, n - 1);
      FitsConcat(c, [Release(Gil), Acquire(Gil)], c, Switches(n - 1), c);
    }
  }

  lemma LockedFits(c: Context, which: Registry, n: nat)
    requires InPython(c) && InNative(c.(held := c.held - {Gil}))
    ensures Fits(c, Locked(which, n), c)
  {
    var l := RegistryLock(which);
    var c1 := After(c, PyAcquire(which));
    FitsOne(c, PyAcquire(which));
    SwitchesFit(c1, n);
    FitsConcat(c, [PyAcquire(which)], c1, Switches(n), c1);
    assert l !in c.held;
    assert After(c1, Release(l)) == c;
    FitsOne(c1, Release(l));
    FitsConcat(c, [PyAcquire(which)] + Switches(n), c1, [Release(l)], c);
  }

  lemma DispatchFits(c: Context, t: Trampoline)
    requires InPython(c) && InNative(c.(held := c.held - {Gil})) && Covered(c)
    ensures Fits(c, DispatchCode(t), c)
  {
    FitsOne(c, Interpreter);
    SwitchesFit(c, t.before);
    SwitchesFit(c, t.after);
    FitsConcat(c, [Interpreter], c, Switches(t.before), c);
    var p := [Interpreter] + Switches(t.before);
    match LookupRegistry(t.kind)
    case Some(which) =>
      LockedFits(c, which, t.inLock);
      FitsConcat(c, p, c, Locked(which, t.inLock), c);
      FitsConcat(c, p + Locked(which, t.inLock), c, Switches(t.after), c);
    case None =>
      assert p + [] == p;
      FitsConcat(c, p, c, Switches(t.after), c);
  }

  /** A dispatch takes the lock of the registry whose wrappers register its kind, and no
      other. */
  lemma DispatchLocksItsRegistry(t: Trampoline, which: Registry)
    ensures PyAcquire(which) in DispatchCode(t) <==> KindOf(which, t.kind)
  {
    SwitchesDoNothing(t.before, PyAcquire(which));
    SwitchesDoNothing(t.inLock, PyAcquire(which));
    SwitchesDoNothing(t.after, PyAcquire(which));
    if LookupRegistry(t.kind).Some? {
      var locked := Locked(LookupRegistry(t.kind).value, t.inLock);
      assert locked[0] == PyAcquire(LookupRegistry(t.kind).value);
      assert PyAcquire(which) in locked <==> which == LookupRegistry(t.kind).value;
    }
  }

  lemma TrampolineFits(c: Context, t: Trampoline)
    requires InNative(c) && Covered(c)
    ensures Fits(c, TrampolineCode(t), c)
  {
    var g := After(c, Acquire(Gil));
    var d := After(g, Acquire(Dispatcher));
    assert After(d, Release(Dispatcher)) == g;
    assert After(g, Release(Gil)) == c;
    FitsOne(c, Acquire(Gil));
    FitsTwo(g, Acquire(Dispatcher), Release(Dispatcher));
    FitsConcat(c, [Acquire(Gil)], g, [Acquire(Dispatcher), Release(Dispatcher)], g);
    var p := [Acquire(Gil), Acquire(Dispatcher), Release(Dispatcher)];
    assert [Acquire(Gil)] + [Acquire(Dispatcher), Release(Dispatcher)] == p;
    FitsOne(g, Release(Gil));
    if t.installed {
      assert g.held - {Gil} == c.held;
      DispatchFits(g, t);
      FitsConcat(c, p, g, DispatchCode(t), g);
      FitsConcat(c, p + DispatchCode(t), g, [Release(Gil)], c);
    } else {
      assert p + [] == p;
      FitsConcat(c, p, g, [Release(Gil)], c);
    }
  }

  lemma CallbackFits(h: int, t: Trampoline)
    ensures Fits(IDLE, CallbackCode(h, t), IDLE)
  {
    var e := After(IDLE, Enter(h));
    var c := After(e, Acquire(Callback(h)));
    FitsTwo(IDLE, Enter(h), Acquire(Callback(h)));
    TrampolineFits(c, t);
    assert After(c, Release(Callback(h))) == e && After(e, Leave(h)) == IDLE;
    FitsTwo(c, Release(Callback(h)), Leave(h));
    FitsConcat(IDLE, [Enter(h), Acquire(Callback(h))], c, TrampolineCode(t), c);
    FitsConcat(IDLE, [Enter(h), Acquire(Callback(h))] + TrampolineCode(t), c, [Release(Callback(h)), Leave(h)], IDLE);
  }

  lemma {:induction false} CallbacksFit(cs: seq<(int, Trampoline)>)
    ensures Fits(IDLE, CallbacksCode(cs), IDLE)
  {
    if cs != [] {
      CallbackFits(cs[0].0, cs[0].1);
      CallbacksFit(cs[1..]);
      FitsConcat(IDLE, CallbackCode(cs[0].0, cs[0].1), IDLE, CallbacksCode(cs[1..]), IDLE);
    }
  }

  lemma SetterFits(h: int, kind: CallbackKind, fires: Option<Trampoline>)
    ensures Fits(IDLE, SetterCode(h, kind, fires), IDLE)
  {
    var l := Callback(h);
    var c := After(IDLE, Acquire(l));
    var start := [Acquire(l), Write(h, kind)];
    FitsTwo(IDLE, Acquire(l), Write(h, kind));
    assert After(c, Release(l)) == IDLE;
    FitsOne(c, Release(l));
    match fires
    case Some(t) =>
      var e := After(c, Enter(h));
      assert After(e, Leave(h)) == c;
      FitsOne(c, Enter(h));
      TrampolineFits(e, t);
      FitsOne(e, Leave(h));
      FitsConcat(c, [Enter(h)], e, TrampolineCode(t), e);
      FitsConcat(c, [Enter(h)] + TrampolineCode(t), e, [Leave(h)], c);
      FitsConcat(IDLE, start, c, [Enter(h)] + TrampolineCode(t) + [Leave(h)], c);
      FitsConcat(IDLE, start + ([Enter(h)] + TrampolineCode(t) + [Leave(h)]), c, [Release(l)], IDLE);
    case None =>
      FitsConcat(IDLE, start, c, [Release(l)], IDLE);
      assert start + [] == start;
  }

  lemma {:induction false} ClearFits(h: int, kinds: seq<CallbackKind>)
    ensures Fits(IDLE, ClearCode(h, kinds), IDLE)
  {
    if kinds != [] {
      SetterFits(h, kinds[0], None);
      ClearFits(h, kinds[1..]);
      FitsConcat(IDLE, SetterCode(h, kinds[0], None), IDLE, ClearCode(h, kinds[1..]), IDLE);
    }
  }

  const PYTHON_ONLY := Context({Gil}, {})

  lemma NoGilFits(body: Program)
    requires Fits(IDLE, body, IDLE)
    ensures Fits(PYTHON_ONLY, NoGil(body), PYTHON_ONLY)
  {
    assert After(PYTHON_ONLY, Release(Gil)) == IDLE && After(IDLE, Acquire(Gil)) == PYTHON_ONLY;
    FitsOne(PYTHON_ONLY, Release(Gil));
    FitsOne(IDLE, Acquire(Gil));
    FitsConcat(PYTHON_ONLY, [Release(Gil)], IDLE, body, IDLE);
    FitsConcat(PYTHON_ONLY, [Release(Gil)] + body, IDLE, [Acquire(Gil)], PYTHON_ONLY);
  }

  lemma OpFits(op: Op)
    ensures Fits(PYTHON_ONLY, OpCode(op), PYTHON_ONLY)
  {
    var c := PYTHON_ONLY;
    FitsOne(c, Interpreter);
    match op
    case PythonCode(n) => SwitchesFit(c, n);
    case Insert(which, n) => LockedFits(c, which, n);
    case SetCallback(h, kind, fires) =>
      SetterFits(h, kind, fires);
      NoGilFits(SetterCode(h, kind, fires));
      FitsConcat(c, NoGil(SetterCode(h, kind, fires)), c, [Interpreter], c);
    case Blocking(fired) =>
      CallbacksFit(fired);
      NoGilFits(CallbacksCode(fired));
      FitsConcat(c, NoGil(CallbacksCode(fired)), c, [Interpreter], c);
    case Getter =>
    case SetDispatcher =>
      assert After(After(c, Acquire(Dispatcher)), Release(Dispatcher)) == c;
      FitsTwo(c, Acquire(Dispatcher), Release(Dispatcher));
    case Destroy(which, h, also, n) =>
      LockedFits(c, which, n);
      ClearFits(h, Kinds(which));
      FitsOne(IDLE, Join({h} + also));
      FitsConcat(IDLE, ClearCode(h, Kinds(which)), IDLE, [Join({h} + also)], IDLE);
      NoGilFits(DeleteCode(which, h, also));
      FitsConcat(c, Locked(which, n), c, NoGil(DeleteCode(which, h, also)), c);
    case ShutLibrary(handles) =>
      FitsOne(IDLE, Join(handles));
      NoGilFits([Join(handles)]);
  }

  lemma {:induction false} OpsFit(ops: seq<Op>)
    ensures Fits(PYTHON_ONLY, OpsCode(ops), PYTHON_ONLY)
  {
    if ops != [] {
      OpFits(ops[0]);
      OpsFit(ops[1..]);
      FitsConcat(PYTHON_ONLY, OpCode(ops[0]), PYTHON_ONLY, OpsCode(ops[1..]), PYTHON_ONLY);
    }
  }

  lemma ScriptFits(script: Script)
    ensures Fits(IDLE, ScriptCode(script), IDLE)
  {
    match script
    case PythonThread(ops) =>
      assert After(IDLE, Acquire(Gil)) == PYTHON_ONLY && After(PYTHON_ONLY, Release(Gil)) == IDLE;
      FitsOne(IDLE, Acquire(Gil));
      FitsOne(PYTHON_ONLY, Release(Gil));
      OpsFit(ops);
      FitsConcat(IDLE, [Acquire(Gil)], PYTHON_ONLY, OpsCode(ops), PYTHON_ONLY);
      FitsConcat(IDLE, [Acquire(Gil)] + OpsCode(ops), PYTHON_ONLY, [Release(Gil)], IDLE);
    case NativeThread(callbacks) => CallbacksFit(callbacks);
  }

  // ---- Main results ------------------------------------------------------

  lemma BootStarts(scripts: seq<Script>)
    ensures Start(Boot(scripts))
  {
    forall i | 0 <= i < |scripts| ensures Fits(IDLE, ScriptCode(scripts[i]), IDLE) {
      ScriptFits(scripts[i]);
    }
  }

  /** Any number of Python threads calling the binding and native threads delivering
      callbacks: no reachable state is stuck, every run is finite, and a run that cannot
      go on has finished every thread with every lock free. */
  lemma BindingNeverDeadlocks(scripts: seq<Script>, schedule: seq<nat>)
    requires ValidRun(Boot(scripts), schedule)
    ensures !Stuck(Run(Boot(scripts), schedule))
    ensures |schedule| <= TotalWeight(Boot(scripts))
    ensures |Run(Boot(scripts), schedule)| == |scripts|
    ensures (forall t: nat :: !Enabled(Run(Boot(scripts), schedule), t)) ==>
              forall t :: 0 <= t < |scripts| ==> Run(Boot(scripts), schedule)[t] == Thread([], {}, {})
  {
    BootStarts(scripts);
    DeadlockFree(Boot(scripts), schedule);
    MaximalRunsFinish(Boot(scripts), schedule);
  }

  /** The callbacks of one handle never run at the same time: of all threads that are inside
      one, at most one is in the interpreter, and it holds the handle's mutex. */
  lemma CallbacksOfAHandleExclude(scripts: seq<Script>, schedule: seq<nat>, t: nat, u: nat, h: int)
    requires ValidRun(Boot(scripts), schedule)
    requires var r := Run(Boot(scripts), schedule);
             && Unfinished(r, t) && r[t].program[0].Interpreter? && h in r[t].inside
             && u < |r| && u != t
    ensures var r := Run(Boot(scripts), schedule);
            Callback(h) in r[t].held && Callback(h) !in r[u].held
  {
    BootStarts(scripts);
    RunKeeps(Boot(scripts), schedule);
    var r := Run(Boot(scripts), schedule);
    assert Fits(r[t].Ctx(), r[t].program, IDLE);
  }

  /** At every reachable state locks are exclusive, and a thread about to run `check`,
      or anything else in the interpreter, is the one that holds the GIL. */
  lemma BindingIsSafe(scripts: seq<Script>, schedule: seq<nat>, t: nat)
    requires ValidRun(Boot(scripts), schedule)
    requires Unfinished(Run(Boot(scripts), schedule), t)
    ensures var r := Run(Boot(scripts), schedule);
            && Exclusive(r)
            && var i := r[t].program[0];
            && (i.Interpreter? ==> Gil in r[t].held && forall u :: 0 <= u < |r| && u != t ==> Gil !in r[u].held)
            && (i.Join? || (i.Acquire? && i.lock.Callback?) ==>
                  Gil !in r[t].held && forall w :: RegistryLock(w) !in r[t].held)
  {
    BootStarts(scripts);
    SafeAtEveryState(Boot(scripts), schedule, t);
  }

  // ---- Deletion waits for callbacks --------------------------------------

  predicate ExpandsNothing(p: Program) {
    forall k :: 0 <= k < |p| ==> !p[k].PyAcquire?
  }

  lemma {:induction false} ClearExpandsNothing(h: int, kinds: seq<CallbackKind>)
    ensures ExpandsNothing(ClearCode(h, kinds))
  {
    if kinds != [] { ClearExpandsNothing(h, kinds[1..]); }
  }

  /** A thread that runs `p` and then joins passes the join at a moment when none of the
      callbacks joined is in flight. */
  lemma {:induction false} PassesTheJoin(s: State, schedule: seq<nat>, t: nat, p: Program, handles: set<int>,
                                         rest: Program)
    returns (k: nat)
    requires ValidRun(s, schedule) && t < |s| && ExpandsNothing(p)
    requires s[t].program == p + [Join(handles)] + rest
    requires t < |Run(s, schedule)| && Run(s, schedule)[t].program == rest
    ensures k < |schedule| && schedule[k] == t && ValidRun(s, schedule[..k])
    ensures NoneInside(Run(s, schedule[..k]), handles)
    decreases |schedule|
  {
    assert |p + [Join(handles)] + rest| == |p| + 1 + |rest|;
    if schedule == [] {
      assert false;
    } else {
      var u, s1 := schedule[0], Step(s, schedule[0]);
      if u == t && p == [] {
        k := 0;
        assert s[t].program[0] == Join(handles);
        assert schedule[..0] == [];
        return;
      }
      var p' := if u == t then p[1..] else p;
      if u == t {
        assert s[t].program[0] == p[0] && s[t].program[1..] == p[1..] + [Join(handles)] + rest;
      }
      k := PassesTheJoin(s1, schedule[1..], t, p', handles, rest);
      assert schedule[..k + 1][1..] == schedule[1..][..k];
      k := k + 1;
    }
  }

  /** Whoever runs the deletion of `h` to its end passed a moment, within it, at which no
      thread was inside a callback of `h`, in every run of any threads. */
  lemma DeletionWaitsForCallbacks(s: State, schedule: seq<nat>, t: nat, which: Registry, h: int, also: set<int>,
                                  rest: Program)
    returns (k: nat)
    requires ValidRun(s, schedule) && t < |s|
    requires s[t].program == DeleteCode(which, h, also) + rest
    requires t < |Run(s, schedule)| && Run(s, schedule)[t].program == rest
    ensures k < |schedule| && schedule[k] == t && ValidRun(s, schedule[..k])
    ensures NoneInside(Run(s, schedule[..k]), {h})
  {
    ClearExpandsNothing(h, Kinds(which));
    k := PassesTheJoin(s, schedule, t, ClearCode(h, Kinds(which)), {h} + also, rest);
  }

  // ---- What the programs do ----------------------------------------------

  /** Python code holding a registry lock neither writes callbacks nor joins. */
  lemma {:induction false} SwitchesDoNothing(n: nat, i: Instr)
    requires !i.Release? && !i.Acquire?
    ensures i !in Switches(n)
  {
    if n > 0 { SwitchesDoNothing(n - 1, i); }
  }

  /** A trampoline reaches Python exactly while a dispatcher is installed, and then takes the
      lock of its kind's registry and no other. */
  lemma TrampolineDispatches(t: Trampoline, which: Registry)
    ensures Interpreter in TrampolineCode(t) <==> t.installed
    ensures PyAcquire(which) in TrampolineCode(t) <==> t.installed && KindOf(which, t.kind)
  {
    DispatchLocksItsRegistry(t, which);
    assert DispatchCode(t)[0] == Interpreter;
  }

  lemma {:induction false} ClearWrites(h: int, kinds: seq<CallbackKind>, k: CallbackKind)
    ensures Write(h, k) in ClearCode(h, kinds) <==> k in kinds
  {
    if kinds != [] {
      ClearWrites(h, kinds[1..], k);
      assert SetterCode(h, kinds[0], None)[1] == Write(h, kinds[0]);
    }
  }

  /** Each binding call does what it is for: a wrapper's insertion takes its registry's lock;
      registration writes the callback, and fires what it is to fire; a blocking call runs
      its callbacks; deletion takes the registry's lock, clears every callback kind of such
      wrappers and no other, and waits for the handle; library cleanup waits for all it is
      to wait for. */
  lemma OpDoesItsWork(op: Op)
    ensures op.PythonCode? && op.switches > 0 ==> Release(Gil) in OpCode(op)
    ensures op.Insert? ==> PyAcquire(op.registry) in OpCode(op)
    ensures op.Insert? && op.inLock > 0 ==> Release(Gil) in OpCode(op)
    ensures op.SetCallback? ==> Write(op.h, op.kind) in OpCode(op)
    ensures op.SetCallback? && op.fires.Some? ==> Enter(op.h) in OpCode(op)
    ensures op.SetDispatcher? ==> Acquire(Dispatcher) in OpCode(op)
    ensures op.Destroy? ==> PyAcquire(op.registry) in OpCode(op) && Join({op.h} + op.also) in OpCode(op)
    ensures op.Destroy? ==> forall k :: Write(op.h, k) in OpCode(op) <==> KindOf(op.registry, k)
    ensures op.ShutLibrary? ==> Join(op.handles) in OpCode(op)
    ensures op.Blocking? ==> forall i :: 0 <= i < |op.fired| ==> Enter(op.fired[i].0) in OpCode(op)
  {
    match op
    case Insert(which, n) => assert Locked(which, n)[0] == PyAcquire(which);
    case SetCallback(h, kind, fires) =>
      assert SetterCode(h, kind, fires)[1] == Write(h, kind);
      if fires.Some? { assert SetterCode(h, kind, fires)[2] == Enter(h); }
    case Blocking(fired) =>
      forall i | 0 <= i < |fired| ensures Enter(fired[i].0) in OpCode(op) {
        CallbacksEnter(fired, i);
      }
    case Destroy(which, h, also, n) =>
      assert Locked(which, n)[0] == PyAcquire(which);
      forall k ensures Write(h, k) in OpCode(op) <==> KindOf(which, k) {
        DestroyWrites(which, h, also, n, k);
      }
    case _ =>
  }

  /** `p` is a piece of `whole`. */
  ghost predicate Part(p: Program, whole: Program) {
    exists a, b :: whole == a + p + b
  }

  lemma PartAfter(p: Program, whole: Program, x: Program, y: Program)
    requires Part(p, whole)
    ensures Part(p, x + whole + y)
  {
    var a, b :| whole == a + p + b;
    assert x + whole + y == (x + a) + p + (b + y);
  }

  lemma PartOfTail(p: Program, x: Program, whole: Program)
    requires Part(p, whole)
    ensures Part(p, x + whole)
  {
    PartAfter(p, whole, x, []);
    assert x + whole + [] == x + whole;
  }

  lemma PartHead(p: Program, rest: Program)
    ensures Part(p, p + rest)
  {
    assert p + rest == [] + p + rest;
  }

  lemma {:induction false} OpsArePerformed(ops: seq<Op>, op: Op)
    requires op in ops
    ensures Part(OpCode(op), OpsCode(ops))
  {
    if op == ops[0] {
      PartHead(OpCode(op), OpsCode(ops[1..]));
    } else {
      OpsArePerformed(ops[1..], op);
      PartOfTail(OpCode(op), OpCode(ops[0]), OpsCode(ops[1..]));
    }
  }

  /** A Python thread performs each of its calls, a native thread delivers each of its
      callbacks. */
  lemma ScriptDoesItsWork(script: Script)
    ensures script.PythonThread? ==>
              forall op :: op in script.ops ==> Part(OpCode(op), ScriptCode(script))
    ensures script.NativeThread? ==>
              forall i :: 0 <= i < |script.callbacks| ==> Enter(script.callbacks[i].0) in ScriptCode(script)
  {
    match script
    case PythonThread(ops) =>
      forall op | op in ops ensures Part(OpCode(op), ScriptCode(script)) {
        OpsArePerformed(ops, op);
        PartAfter(OpCode(op), OpsCode(ops), [Acquire(Gil)], [Release(Gil)]);
      }
    case NativeThread(callbacks) =>
      forall i | 0 <= i < |callbacks| ensures Enter(callbacks[i].0) in ScriptCode(script) {
        CallbacksEnter(callbacks, i);
      }
  }

  lemma {:induction false} CallbacksEnter(cs: seq<(int, Trampoline)>, i: nat)
    requires i < |cs|
    ensures Enter(cs[i].0) in CallbacksCode(cs)
  {
    if i == 0 {
      assert CallbackCode(cs[0].0, cs[0].1)[0] == Enter(cs[0].0);
    } else {
      CallbacksEnter(cs[1..], i - 1);
    }
  }

  lemma DestroyWrites(which: Registry, h: int, also: set<int>, n: nat, k: CallbackKind)
    ensures Write(h, k) in OpCode(Destroy(which, h, also, n)) <==> KindOf(which, k)
  {
    SwitchesDoNothing(n, Write(h, k));
    ClearWrites(h, Kinds(which), k);
    KindsAreComplete(which, k);
    assert Write(h, k) !in Locked(which, n);
  }

  lemma KindsAreComplete(which: Registry, k: CallbackKind)
    ensures k in Kinds(which) <==> KindOf(which, k)
  {
    assert LocalDescription == PC_KINDS[0] && LocalCandidate == PC_KINDS[1] && StateChange == PC_KINDS[2]
           && IceStateChange == PC_KINDS[3] && GatheringStateChange == PC_KINDS[4]
           && SignalingStateChange == PC_KINDS[5] && IncomingDataChannel == PC_KINDS[6];
    assert DcOpen == DC_KINDS[0] && DcClosed == DC_KINDS[1] && DcError == DC_KINDS[2] && DcMessage == DC_KINDS[3]
           && DcBufferedAmountLow == DC_KINDS[4];
  }

  // ---- Why `NoGil` is there ----------------------------------------------

  /** Registration and deletion as they would be with the GIL kept across the call. */
  function SetterHoldingGil(h: int, kind: CallbackKind): Program {
    [Acquire(Gil)] + SetterCode(h, kind, None) + [Release(Gil)]
  }

  function DeleteHoldingGil(h: int): Program {
    [Acquire(Gil), Join({h}), Release(Gil)]
  }

  /** Two threads suffice: a worker inside a callback of `h` waits for the GIL, the
      Python thread keeps the GIL and waits for the callback mutex. */
  lemma SetterHoldingGilDeadlocks(h: int, kind: CallbackKind, t: Trampoline) returns (schedule: seq<nat>)
    ensures var s := [Thread(SetterHoldingGil(h, kind), {}, {}), Thread(CallbackCode(h, t), {}, {})];
            ValidRun(s, schedule) && Stuck(Run(s, schedule))
  {
    var s := [Thread(SetterHoldingGil(h, kind), {}, {}), Thread(CallbackCode(h, t), {}, {})];
    schedule := [1, 1, 0];
    CallbackGetsStuckOnGil(s, h, t);
    var s2 := Step(Step(s, 1), 1);
    var s3 := Step(s2, 0);
    assert s3[0].program[0] == Acquire(Callback(h));
    assert Callback(h) in s3[1].held && Gil in s3[0].held;
    RunOfThree(s, 1, 1, 0);
    assert Unfinished(s3, 0);
  }

  /** The same with deletion: it joins a callback that waits for the GIL. */
  lemma DeleteHoldingGilDeadlocks(h: int, t: Trampoline) returns (schedule: seq<nat>)
    ensures var s := [Thread(DeleteHoldingGil(h), {}, {}), Thread(CallbackCode(h, t), {}, {})];
            ValidRun(s, schedule) && Stuck(Run(s, schedule))
  {
    var s := [Thread(DeleteHoldingGil(h), {}, {}), Thread(CallbackCode(h, t), {}, {})];
    schedule := [1, 1, 0];
    CallbackGetsStuckOnGil(s, h, t);
    var s2 := Step(Step(s, 1), 1);
    var s3 := Step(s2, 0);
    assert s3[0].program[0] == Join({h});
    assert h in s3[1].inside && Gil in s3[0].held;
    RunOfThree(s, 1, 1, 0);
    assert Unfinished(s3, 0);
  }

  lemma CallbackGetsStuckOnGil(s: State, h: int, t: Trampoline)
    requires |s| == 2 && s[1] == Thread(CallbackCode(h, t), {}, {}) && s[0].held == {}
    ensures Enabled(s, 1) && Enabled(Step(s, 1), 1)
    ensures var s2 := Step(Step(s, 1), 1);
            && s2[0] == s[0] && |s2| == 2 && s2[1].held == {Callback(h)} && s2[1].inside == {h}
            && s2[1].program != [] && s2[1].program[0] == Acquire(Gil)
  {
    var p := CallbackCode(h, t);
    assert p[0] == Enter(h) && p[1] == Acquire(Callback(h)) && p[2] == TrampolineCode(t)[0] == Acquire(Gil);
    var s1 := Step(s, 1);
    assert s1[1].program == p[1..];
    assert s1[1].held == {} && Free(s1, Callback(h));
    var s2 := Step(s1, 1);
    assert s2[1].program == p[1..][1..] && s2[1].program[0] == p[2];
    assert {} + {Callback(h)} == {Callback(h)};
  }

  lemma RunOfThree(s: State, a: nat, b: nat, c: nat)
    requires Enabled(s, a) && Enabled(Step(s, a), b) && Enabled(Step(Step(s, a), b), c)
    ensures ValidRun(s, [a, b, c]) && Run(s, [a, b, c]) == Step(Step(Step(s, a), b), c)
  {
    assert [a, b, c][1..] == [b, c] && [b, c][1..] == [c] && [c][1..] == [];
    var s3 := Step(Step(Step(s, a), b), c);
    assert Run(s3, []) == s3;
    assert Run(Step(Step(s, a), b), [c]) == s3;
    assert Run(Step(s, a), [b, c]) == s3;
  }
}
