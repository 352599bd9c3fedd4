/** Routing of native callbacks to wrappers, with registration, dispatch and destruction
    interleaved step by step: the GIL may change hands between looking a wrapper up,
    fetching its callback and calling it. */
module RegistryModel {
  import opened Wrappers
  import opened BindingPrograms
  import opened BindingLocks

  /** How far `destroy` has come. */
  datatype Stage = Live | Flagged | Cleared | Popped | Deleted

  /** One wrapper; `pending` are kinds whose Python callback is stored while the native
      setter has not returned yet, `enabled` those the native side may fire; `stored` is
      the history of its callbacks. */
  datatype Wrapper = Wrapper(
    handle: int,
    registry: Registry,
    stage: Stage,
    callbacks: map<CallbackKind, nat>,
    pending: set<CallbackKind>,
    enabled: set<CallbackKind>,
    deletes: nat,
    stored: set<(CallbackKind, nat)>)

  /** One `_dispatch` call of some thread. */
  datatype Flight =
    | Entered(kind: CallbackKind, handle: int)
    | Looked(kind: CallbackKind, handle: int, wrapper: nat)
    | Fetched(kind: CallbackKind, handle: int, wrapper: nat, callback: nat, at: Stage)
    | Running(kind: CallbackKind, handle: int, wrapper: nat)
    | Over

  /** A callback that was called, and how far `destroy` was when it was fetched and called. */
  datatype Firing = Firing(
    kind: CallbackKind,
    handle: int,
    wrapper: nat,
    callback: nat,
    fetchedAt: Stage,
    firedAt: Stage)

  datatype State = State(
    wrappers: seq<Wrapper>,
    pcs: map<int, nat>,          // handle to wrapper, by position
    dcs: map<int, nat>,
    installed: bool,             // the dispatcher reference
    flights: seq<Flight>,
    fired: seq<Firing>)          // history

  datatype Action =
    | Create(handle: int, registry: Registry)
    | StoreCallback(wrapper: nat, kind: CallbackKind, callback: nat)
    | EnableNative(wrapper: nat, kind: CallbackKind)
    | DestroyStep(wrapper: nat)
    | Uninstall
    | CallDispatcher(kind: CallbackKind, handle: int)     // a trampoline calls the dispatcher
    | Look(flight: nat)
    | Fetch(flight: nat)
    | Call(flight: nat)
    | Return(flight: nat)

  const INIT := State([], map[], map[], true, [], [])

  function Table(s: State, which: Registry): map<int, nat> {
    if which.PcRegistry? then s.pcs else s.dcs
  }

  function SetTable(s: State, which: Registry, table: map<int, nat>): State {
    if which.PcRegistry? then s.(pcs := table) else s.(dcs := table)
  }

  predicate Fresh(s: State, handle: int, which: Registry) {
    forall i :: 0 <= i < |s.wrappers| ==> s.wrappers[i].handle != handle || s.wrappers[i].registry != which
  }

  /** A wrapper serves the kinds its registry is looked up for. */
  predicate Serves(which: Registry, kind: CallbackKind) {
    LookupRegistry(kind) == Some(which)
  }

  function Advance(w: Wrapper): (r: Wrapper)
    ensures r.handle == w.handle && r.registry == w.registry
  {
    match w.stage
    case Live => w.(stage := Flagged)
    case Flagged => w.(stage := Cleared, callbacks := map[])
    case Cleared => w.(stage := Popped)
    case Popped => w.(stage := Deleted, enabled := {}, deletes := w.deletes + 1)
    case Deleted => w
  }

  function Step(s: State, a: Action): State {
    match a
    case Create(h, which) =>
      if !Fresh(s, h, which) then s
      else
        var w := Wrapper(h, which, Live, map[], {}, {}, 0, {});
        SetTable(s.(wrappers := s.wrappers + [w]), which, Table(s, which)[h := |s.wrappers|])
    case StoreCallback(i, kind, cb) =>
      if i >= |s.wrappers| || !s.wrappers[i].stage.Live? || !Serves(s.wrappers[i].registry, kind) then s
      else
        var w := s.wrappers[i];
        s.(wrappers := s.wrappers[i := w.(callbacks := w.callbacks[kind := cb], pending := w.pending + {kind},
                                          stored := w.stored + {(kind, cb)})])
    case EnableNative(i, kind) =>
      if i >= |s.wrappers| || kind !in s.wrappers[i].pending || s.wrappers[i].stage.Deleted? then s
      else
        var w := s.wrappers[i];
        s.(wrappers := s.wrappers[i := w.(pending := w.pending - {kind}, enabled := w.enabled + {kind})])
    case DestroyStep(i) =>
      if i >= |s.wrappers| || (s.wrappers[i].stage.Popped? && InFlight(s.flights, s.wrappers[i])) then s
      else
        var w := s.wrappers[i];
        var s' := s.(wrappers := s.wrappers[i := Advance(w)]);
        if w.stage.Cleared? then SetTable(s', w.registry, Table(s, w.registry) - {w.handle}) else s'
    case Uninstall => s.(installed := false)
    case CallDispatcher(kind, h) =>
      if s.installed && LookupRegistry(kind).Some? then s.(flights := s.flights + [Entered(kind, h)]) else s
    case _ => DispatchStep(s, a)
  }

  /** A callback of this wrapper's handle has not returned yet; the native deletion waits
      for it. */
  predicate InFlight(flights: seq<Flight>, w: Wrapper) {
    exists n :: 0 <= n < |flights| && Concerns(flights[n], w)
  }

  predicate Concerns(f: Flight, w: Wrapper) {
    !f.Over? && f.handle == w.handle && Serves(w.registry, f.kind)
  }

  function SetFlight(s: State, n: nat, f: Flight): State
    requires n < |s.flights|
  {
    s.(flights := s.flights[n := f])
  }

  /** `_dispatch` after its entry: look the wrapper up under the registry lock, fetch the
      callback, call it. */
  function DispatchStep(s: State, a: Action): State {
    match a
    case Look(n) =>
      if n >= |s.flights| || !s.flights[n].Entered? then s else SetFlight(s, n, LookedUp(s, s.flights[n]))
    case Fetch(n) =>
      if n >= |s.flights| || !s.flights[n].Looked? then s else SetFlight(s, n, FetchedFrom(s, s.flights[n]))
    case Call(n) =>
      if n >= |s.flights| || !s.flights[n].Fetched? || s.flights[n].wrapper >= |s.wrappers| then s
      else
        var f := s.flights[n];
        SetFlight(s, n, Running(f.kind, f.handle, f.wrapper)).(
          fired := s.fired + [Firing(f.kind, f.handle, f.wrapper, f.callback, f.at, s.wrappers[f.wrapper].stage)])
    case Return(n) => if n >= |s.flights| || !s.flights[n].Running? then s else SetFlight(s, n, Over)
    case _ => s
  }

  function LookedUp(s: State, f: Flight): Flight
    requires f.Entered?
  {
    match LookupRegistry(f.kind)
    case None => Over
    case Some(which) =>
      if f.handle in Table(s, which) then Looked(f.kind, f.handle, Table(s, which)[f.handle]) else Over
  }

  function FetchedFrom(s: State, f: Flight): Flight
    requires f.Looked?
  {
    if f.wrapper < |s.wrappers| && f.kind in s.wrappers[f.wrapper].callbacks then
      Fetched(f.kind, f.handle, f.wrapper, s.wrappers[f.wrapper].callbacks[f.kind], s.wrappers[f.wrapper].stage)
    else Over
  }

  function Run(s: State, actions: seq<Action>): State
    decreases |actions|
  {
    if actions == [] then s else Run(Step(s, actions[0]), actions[1..])
  }

  /** `_dispatch` with nothing in between: the wrapper and callback it fires, if any. */
  function Dispatch(s: State, kind: CallbackKind, handle: int): Option<(nat, nat)> {
    if !s.installed || LookupRegistry(kind).None? then None
    else
      var table := Table(s, LookupRegistry(kind).value);
      if handle !in table || table[handle] >= |s.wrappers| then None
      else
        var i := table[handle];
        if kind in s.wrappers[i].callbacks then Some((i, s.wrappers[i].callbacks[kind])) else None
  }

  // ---- Invariant ---------------------------------------------------------

  predicate Registered(w: Wrapper) { w.stage.Live? || w.stage.Flagged? || w.stage.Cleared? }

  predicate WrapperOk(s: State, i: nat)
    requires i < |s.wrappers|
  {
    var w := s.wrappers[i];
    && (Registered(w) <==> w.handle in Table(s, w.registry) && Table(s, w.registry)[w.handle] == i)
    && (w.stage.Live? ==> w.enabled <= w.callbacks.Keys && w.pending <= w.callbacks.Keys)
    && (!w.stage.Live? && !w.stage.Flagged? ==> w.callbacks == map[])
    && (forall k :: k in w.callbacks || k in w.pending || k in w.enabled ==> Serves(w.registry, k))
    && (forall k :: k in w.callbacks ==> (k, w.callbacks[k]) in w.stored)
    && w.deletes == (if w.stage.Deleted? then 1 else 0)
    && (w.stage.Deleted? ==> w.enabled == {})
  }

  predicate TableOk(wrappers: seq<Wrapper>, table: map<int, nat>, which: Registry) {
    forall h :: h in table ==>
      table[h] < |wrappers| && wrappers[table[h]].handle == h && wrappers[table[h]].registry == which
  }

  predicate TablesOk(s: State) {
    TableOk(s.wrappers, s.pcs, PcRegistry) && TableOk(s.wrappers, s.dcs, DcRegistry)
  }

  predicate Unique(wrappers: seq<Wrapper>) {
    forall i, j :: 0 <= i < j < |wrappers| ==>
      wrappers[i].handle != wrappers[j].handle || wrappers[i].registry != wrappers[j].registry
  }

  predicate Inv(s: State) {
    (forall i :: 0 <= i < |s.wrappers| ==> WrapperOk(s, i)) && TablesOk(s) && Unique(s.wrappers)
  }

  /** A flight past its lookup is inside a wrapper of its handle that is not yet deleted;
      a callback was fetched before `destroy` cleared it. */
  predicate FlightOk(wrappers: seq<Wrapper>, f: Flight) {
    match f
    case Entered(kind, h) => LookupRegistry(kind).Some?
    case Looked(kind, h, i) => Owns(wrappers, i, kind, h) && !wrappers[i].stage.Deleted?
    case Fetched(kind, h, i, cb, at) =>
      Owns(wrappers, i, kind, h) && !wrappers[i].stage.Deleted? && (at.Live? || at.Flagged?)
          && (kind, cb) in wrappers[i].stored
    case Running(kind, h, i) => Owns(wrappers, i, kind, h) && !wrappers[i].stage.Deleted?
    case Over => true
  }

  predicate Owns(wrappers: seq<Wrapper>, i: nat, kind: CallbackKind, h: int) {
    i < |wrappers| && wrappers[i].handle == h && Serves(wrappers[i].registry, kind)
  }

  predicate FiringOk(wrappers: seq<Wrapper>, x: Firing) {
    && Owns(wrappers, x.wrapper, x.kind, x.handle)
    && (x.kind, x.callback) in wrappers[x.wrapper].stored
    && (x.fetchedAt.Live? || x.fetchedAt.Flagged?) && !x.firedAt.Deleted?
  }

  predicate FlightsInv(s: State) {
    && (forall n :: 0 <= n < |s.flights| ==> FlightOk(s.wrappers, s.flights[n]))
    && (forall n :: 0 <= n < |s.fired| ==> FiringOk(s.wrappers, s.fired[n]))
  }

  lemma CreateKeeps(s: State, h: int, which: Registry)
    requires Inv(s) && Fresh(s, h, which)
    ensures Inv(Step(s, Create(h, which)))
  {
    var s' := Step(s, Create(h, which));
    forall i | 0 <= i < |s'.wrappers| ensures WrapperOk(s', i) {
      if i < |s.wrappers| {
        assert WrapperOk(s, i);
      }
    }
  }

  lemma UpdateKeeps(s: State, s': State, i: nat)
    requires Inv(s) && i < |s.wrappers| == |s'.wrappers| && s' == s.(wrappers := s.wrappers[i := s'.wrappers[i]])
    requires s'.wrappers[i].handle == s.wrappers[i].handle && s'.wrappers[i].registry == s.wrappers[i].registry
    requires WrapperOk(s', i)
    ensures Inv(s')
  {
    forall j | 0 <= j < |s'.wrappers| ensures WrapperOk(s', j) {
      if j != i { assert WrapperOk(s, j); }
    }
  }

  /** The step that takes the wrapper out of its registry. */
  lemma PopKeeps(s: State, i: nat)
    requires Inv(s) && i < |s.wrappers| && s.wrappers[i].stage.Cleared?
    ensures Inv(Step(s, DestroyStep(i)))
  {
    var s' := Step(s, DestroyStep(i));
    forall j | 0 <= j < |s'.wrappers| ensures WrapperOk(s', j) {
      if j != i { PopKeepsOther(s, i, j); } else { PopKeepsSelf(s, i); }
    }
    ShrinkKeepsTables(s, s');
  }

  /** Tables may shrink as long as no wrapper changes its identity. */
  lemma ShrinkKeepsTables(s: State, s': State)
    requires TablesOk(s) && Unique(s.wrappers) && |s'.wrappers| == |s.wrappers|
    requires forall j :: 0 <= j < |s.wrappers| ==>
               s'.wrappers[j].handle == s.wrappers[j].handle && s'.wrappers[j].registry == s.wrappers[j].registry
    requires forall h :: h in s'.pcs ==> h in s.pcs && s'.pcs[h] == s.pcs[h]
    requires forall h :: h in s'.dcs ==> h in s.dcs && s'.dcs[h] == s.dcs[h]
    ensures TablesOk(s') && Unique(s'.wrappers)
  {
  }

  lemma PopKeepsSelf(s: State, i: nat)
    requires i < |s.wrappers| && WrapperOk(s, i) && s.wrappers[i].stage.Cleared?
    ensures WrapperOk(Step(s, DestroyStep(i)), i)
  {
  }

  lemma PopKeepsOther(s: State, i: nat, j: nat)
    requires Inv(s) && i < |s.wrappers| && j < |s.wrappers| && i != j && s.wrappers[i].stage.Cleared?
    ensures WrapperOk(Step(s, DestroyStep(i)), j)
  {
    assert WrapperOk(s, j);
    var w, v := s.wrappers[i], s.wrappers[j];
    assert w.handle != v.handle || w.registry != v.registry;
  }

  lemma DestroyStepKeeps(s: State, i: nat)
    requires Inv(s) && i < |s.wrappers|
    ensures Inv(Step(s, DestroyStep(i)))
  {
    if s.wrappers[i].stage.Cleared? {
      PopKeeps(s, i);
    } else {
      assert WrapperOk(s, i);
      UpdateKeeps(s, Step(s, DestroyStep(i)), i);
    }
  }

  lemma RegisterKeeps(s: State, a: Action)
    requires Inv(s) && (a.StoreCallback? || a.EnableNative?)
    ensures Inv(Step(s, a))
  {
    var s' := Step(s, a);
    if s' != s {
      assert WrapperOk(s, a.wrapper);
      UpdateKeeps(s, s', a.wrapper);
    }
  }

  lemma StepKeeps(s: State, a: Action)
    requires Inv(s)
    ensures Inv(Step(s, a))
  {
    match a
    case Create(h, which) => if Fresh(s, h, which) { CreateKeeps(s, h, which); }
    case StoreCallback(_, _, _) => RegisterKeeps(s, a);
    case EnableNative(_, _) => RegisterKeeps(s, a);
    case DestroyStep(i) => if i < |s.wrappers| { DestroyStepKeeps(s, i); }
    case _ =>
      DispatchFrame(s, a);
      SameRegistryKeeps(s, Step(s, a));
  }

  lemma DispatchFrame(s: State, a: Action)
    ensures var r := DispatchStep(s, a); r.wrappers == s.wrappers && r.pcs == s.pcs && r.dcs == s.dcs
  {
  }

  lemma SameRegistryKeeps(s: State, s': State)
    requires Inv(s) && s'.wrappers == s.wrappers && s'.pcs == s.pcs && s'.dcs == s.dcs
    ensures Inv(s')
  {
    forall j | 0 <= j < |s'.wrappers| ensures WrapperOk(s', j) { assert WrapperOk(s, j); }
  }

  // ---- Flights -----------------------------------------------------------

  /** A wrapper may move on as long as it is not deleted under a flight. */
  predicate Evolves(flights: seq<Flight>, w: Wrapper, w': Wrapper) {
    && w'.handle == w.handle && w'.registry == w.registry && w.stored <= w'.stored
    && (w'.stage.Deleted? && !w.stage.Deleted? ==> !InFlight(flights, w))
  }

  lemma EvolvingKeepsFlights(s: State, s': State)
    requires FlightsInv(s) && s'.flights == s.flights && s'.fired == s.fired && |s'.wrappers| >= |s.wrappers|
    requires forall i :: 0 <= i < |s.wrappers| ==> Evolves(s.flights, s.wrappers[i], s'.wrappers[i])
    ensures FlightsInv(s')
  {
    forall n | 0 <= n < |s'.flights| ensures FlightOk(s'.wrappers, s'.flights[n]) {
      var f := s.flights[n];
      assert FlightOk(s.wrappers, f);
      if !f.Over? && !f.Entered? {
        assert Concerns(f, s.wrappers[f.wrapper]);
        assert Evolves(s.flights, s.wrappers[f.wrapper], s'.wrappers[f.wrapper]);
      }
    }
    forall n | 0 <= n < |s'.fired| ensures FiringOk(s'.wrappers, s'.fired[n]) {
      assert FiringOk(s.wrappers, s.fired[n]);
      assert Evolves(s.flights, s.wrappers[s.fired[n].wrapper], s'.wrappers[s.fired[n].wrapper]);
    }
  }

  lemma LookIsOk(s: State, f: Flight)
    requires Inv(s) && f.Entered? && FlightOk(s.wrappers, f)
    ensures FlightOk(s.wrappers, LookedUp(s, f))
  {
    var which := LookupRegistry(f.kind).value;
    if f.handle in Table(s, which) {
      var i := Table(s, which)[f.handle];
      assert i < |s.wrappers| && s.wrappers[i].handle == f.handle && s.wrappers[i].registry == which;
      assert WrapperOk(s, i);
    }
  }

  lemma FetchIsOk(s: State, f: Flight)
    requires Inv(s) && f.Looked? && FlightOk(s.wrappers, f)
    ensures FlightOk(s.wrappers, FetchedFrom(s, f))
  {
    assert WrapperOk(s, f.wrapper);
  }

  lemma DispatchKeepsFlights(s: State, a: Action)
    requires Inv(s) && FlightsInv(s)
    ensures FlightsInv(DispatchStep(s, a))
  {
    match a
    case Look(n) => if n < |s.flights| && s.flights[n].Entered? { LookIsOk(s, s.flights[n]); }
    case Fetch(n) => if n < |s.flights| && s.flights[n].Looked? { FetchIsOk(s, s.flights[n]); }
    case Call(n) =>
      if n < |s.flights| && s.flights[n].Fetched? {
        assert FlightOk(s.wrappers, s.flights[n]);
      }
    case Return(n) =>
      if n < |s.flights| && s.flights[n].Running? {
        assert FlightOk(s.wrappers, Over);
      }
    case _ =>
  }

  predicate IsRegistryStep(a: Action) {
    a.Create? || a.StoreCallback? || a.EnableNative? || a.DestroyStep? || a.Uninstall?
  }

  lemma WrapperEvolves(s: State, a: Action, i: nat)
    requires IsRegistryStep(a) && i < |s.wrappers|
    ensures |Step(s, a).wrappers| >= |s.wrappers|
    ensures Evolves(s.flights, s.wrappers[i], Step(s, a).wrappers[i])
  {
    var w, w' := s.wrappers[i], Step(s, a).wrappers[i];
    if a.DestroyStep? {
      assert w' == w || w' == Advance(w);
    } else {
      assert w'.stage == w.stage;
    }
  }

  lemma RegistryStepKeepsFlights(s: State, a: Action)
    requires FlightsInv(s) && IsRegistryStep(a)
    ensures FlightsInv(Step(s, a))
  {
    var s' := Step(s, a);
    assert |s'.wrappers| >= |s.wrappers| && s'.flights == s.flights && s'.fired == s.fired;
    forall i | 0 <= i < |s.wrappers| ensures Evolves(s.flights, s.wrappers[i], s'.wrappers[i]) {
      WrapperEvolves(s, a, i);
    }
    EvolvingKeepsFlights(s, s');
  }

  lemma StepKeepsFlights(s: State, a: Action)
    requires Inv(s) && FlightsInv(s)
    ensures FlightsInv(Step(s, a))
  {
    if IsRegistryStep(a) {
      RegistryStepKeepsFlights(s, a);
    } else if a.CallDispatcher? {
      EntryKeepsFlights(s, a.kind, a.handle);
    } else {
      DispatchKeepsFlights(s, a);
    }
  }

  lemma EntryKeepsFlights(s: State, kind: CallbackKind, handle: int)
    requires FlightsInv(s)
    ensures FlightsInv(Step(s, CallDispatcher(kind, handle)))
  {
    if LookupRegistry(kind).Some? { assert FlightOk(s.wrappers, Entered(kind, handle)); }
  }

  lemma {:induction false} RunKeeps(s: State, actions: seq<Action>)
    requires Inv(s) && FlightsInv(s)
    ensures Inv(Run(s, actions)) && FlightsInv(Run(s, actions))
    decreases |actions|
  {
    if actions != [] {
      StepKeeps(s, actions[0]);
      StepKeepsFlights(s, actions[0]);
      RunKeeps(Step(s, actions[0]), actions[1..]);
    }
  }

  // ---- Main results ------------------------------------------------------

  predicate HandleRouted(s: State, i: nat)
    requires i < |s.wrappers|
  {
    var w := s.wrappers[i];
    Registered(w) <==> w.handle in Table(s, w.registry) && Table(s, w.registry)[w.handle] == i
  }

  /** A dispatch in flight, or one run without interruption, reaches wrapper `i`. */
  predicate ReachesCallback(s: State, i: nat, kind: CallbackKind, n: nat)
    requires i < |s.wrappers|
  {
    var w := s.wrappers[i];
    && kind in w.callbacks
    && (s.installed ==> Dispatch(s, kind, w.handle) == Some((i, w.callbacks[kind])))
    && (n < |s.flights| && s.flights[n] == Entered(kind, w.handle) ==>
          DispatchStep(s, Look(n)) == SetFlight(s, n, Looked(kind, w.handle, i)))
    && (n < |s.flights| && s.flights[n] == Looked(kind, w.handle, i) ==>
          DispatchStep(s, Fetch(n)) == SetFlight(s, n, Fetched(kind, w.handle, i, w.callbacks[kind], Live)))
  }

  predicate FindsNothing(s: State, i: nat, kind: CallbackKind, n: nat)
    requires i < |s.wrappers|
  {
    var h := s.wrappers[i].handle;
    && Dispatch(s, kind, h).None?
    && (n < |s.flights| && s.flights[n] == Looked(kind, h, i) ==> DispatchStep(s, Fetch(n)) == SetFlight(s, n, Over))
  }

  lemma HandleIsRouted(s: State, i: nat)
    requires Inv(s) && i < |s.wrappers|
    ensures HandleRouted(s, i)
    ensures var w := s.wrappers[i]; w.handle in Table(s, w.registry) ==> Table(s, w.registry)[w.handle] == i
  {
    assert WrapperOk(s, i);
    var w := s.wrappers[i];
    if w.handle in Table(s, w.registry) {
      var j := Table(s, w.registry)[w.handle];
      assert j < |s.wrappers| && s.wrappers[j].handle == w.handle && s.wrappers[j].registry == w.registry;
      assert j == i;
    }
  }

  lemma LiveReaches(s: State, i: nat, kind: CallbackKind, n: nat)
    requires Inv(s) && i < |s.wrappers| && s.wrappers[i].stage.Live?
    requires kind in s.wrappers[i].enabled || kind in s.wrappers[i].pending
    ensures ReachesCallback(s, i, kind, n)
  {
    HandleIsRouted(s, i);
    assert WrapperOk(s, i);
  }

  lemma ClearedFindsNothing(s: State, i: nat, kind: CallbackKind, n: nat)
    requires Inv(s) && i < |s.wrappers| && !s.wrappers[i].stage.Live? && !s.wrappers[i].stage.Flagged?
    requires Serves(s.wrappers[i].registry, kind)
    ensures FindsNothing(s, i, kind, n)
  {
    HandleIsRouted(s, i);
    assert WrapperOk(s, i);
  }

  /** Routing, at every point of every interleaving: a handle is registered exactly until
      its wrapper's `destroy` removes it; while a wrapper is live, each dispatch of a kind
      the native side may fire (also while its setter is still running) finds that wrapper
      and fetches the callback stored then; once `destroy` has cleared the callbacks no
      dispatch fetches one; and no wrapper is deleted twice. */
  lemma RoutingIsExact(actions: seq<Action>, i: nat, kind: CallbackKind, n: nat)
    requires i < |Run(INIT, actions).wrappers|
    ensures var r := Run(INIT, actions);
            var w := r.wrappers[i];
            && HandleRouted(r, i)
            && (w.stage.Live? && (kind in w.enabled || kind in w.pending) ==> ReachesCallback(r, i, kind, n))
            && (!w.stage.Live? && !w.stage.Flagged? && KindOf(w.registry, kind) ==> FindsNothing(r, i, kind, n))
            && w.deletes <= 1 && (w.stage.Deleted? ==> w.enabled == {})
  {
    RunKeeps(INIT, actions);
    StateRoutes(Run(INIT, actions), i, kind, n);
  }

  lemma StateRoutes(r: State, i: nat, kind: CallbackKind, n: nat)
    requires Inv(r) && i < |r.wrappers|
    ensures var w := r.wrappers[i];
            && HandleRouted(r, i)
            && (w.stage.Live? && (kind in w.enabled || kind in w.pending) ==> ReachesCallback(r, i, kind, n))
            && (!w.stage.Live? && !w.stage.Flagged? && KindOf(w.registry, kind) ==> FindsNothing(r, i, kind, n))
            && w.deletes <= 1 && (w.stage.Deleted? ==> w.enabled == {})
  {
    var w := r.wrappers[i];
    HandleIsRouted(r, i);
    assert WrapperOk(r, i);
    KindIsServed(w.registry, kind);
    if w.stage.Live? && (kind in w.enabled || kind in w.pending) { LiveReaches(r, i, kind, n); }
    if !w.stage.Live? && !w.stage.Flagged? && KindOf(w.registry, kind) { ClearedFindsNothing(r, i, kind, n); }
  }

  lemma KindIsServed(which: Registry, kind: CallbackKind)
    ensures KindOf(which, kind) <==> Serves(which, kind)
  {
  }

  /** Whatever is called, in any interleaving, belongs to the wrapper with that handle in
      the registry of that kind, is a callback that wrapper stored for that kind, was
      fetched before `destroy` cleared the callbacks, and is called before the native
      handle is deleted. */
  lemma FiringsBelongToTheOwner(actions: seq<Action>, n: nat)
    requires n < |Run(INIT, actions).fired|
    ensures var r := Run(INIT, actions);
            var x := r.fired[n];
            && x.wrapper < |r.wrappers| && r.wrappers[x.wrapper].handle == x.handle
            && KindOf(r.wrappers[x.wrapper].registry, x.kind)
            && (x.kind, x.callback) in r.wrappers[x.wrapper].stored
            && (x.fetchedAt.Live? || x.fetchedAt.Flagged?) && !x.firedAt.Deleted?
  {
    RunKeeps(INIT, actions);
    assert FiringOk(Run(INIT, actions).wrappers, Run(INIT, actions).fired[n]);
  }

  /** From `s` to `r` no callback of wrapper `i` was called. */
  predicate NoNewFirings(s: State, r: State, i: nat) {
    s.fired <= r.fired && forall n :: |s.fired| <= n < |r.fired| ==> r.fired[n].wrapper != i
  }

  lemma SilenceAdds(s: State, m: State, r: State, i: nat)
    requires NoNewFirings(s, m, i) && NoNewFirings(m, r, i)
    ensures NoNewFirings(s, r, i)
  {
    forall n | |s.fired| <= n < |r.fired| ensures r.fired[n].wrapper != i {
      if n < |m.fired| { assert r.fired[n] == m.fired[n]; }
    }
  }

  lemma DeletedStepIsSilent(s: State, a: Action, i: nat)
    requires FlightsInv(s) && i < |s.wrappers| && s.wrappers[i].stage.Deleted?
    ensures i < |Step(s, a).wrappers| && Step(s, a).wrappers[i].stage.Deleted?
    ensures NoNewFirings(s, Step(s, a), i)
  {
    if a.Call? && a.flight < |s.flights| {
      assert FlightOk(s.wrappers, s.flights[a.flight]);
    }
  }

  lemma {:induction false} DeletedIsSilent(s: State, actions: seq<Action>, i: nat)
    requires Inv(s) && FlightsInv(s) && i < |s.wrappers| && s.wrappers[i].stage.Deleted?
    ensures NoNewFirings(s, Run(s, actions), i)
    decreases |actions|
  {
    if actions != [] {
      StepKeeps(s, actions[0]);
      StepKeepsFlights(s, actions[0]);
      DeletedStepIsSilent(s, actions[0], i);
      DeletedIsSilent(Step(s, actions[0]), actions[1..], i);
      SilenceAdds(s, Step(s, actions[0]), Run(Step(s, actions[0]), actions[1..]), i);
    }
  }

  /** Once a wrapper's native handle is deleted, none of its callbacks is called again. */
  lemma NothingFiresAfterDeletion(actions: seq<Action>, more: seq<Action>, i: nat)
    requires i < |Run(INIT, actions).wrappers| && Run(INIT, actions).wrappers[i].stage.Deleted?
    ensures NoNewFirings(Run(INIT, actions), Run(Run(INIT, actions), more), i)
  {
    RunKeeps(INIT, actions);
    DeletedIsSilent(Run(INIT, actions), more, i);
  }

  /** Once the dispatcher is uninstalled no dispatch begins, so late native callbacks are
      ignored. */
  lemma {:induction false} UninstalledIsQuiet(s: State, actions: seq<Action>)
    requires !s.installed
    ensures !Run(s, actions).installed && |Run(s, actions).flights| == |s.flights|
    decreases |actions|
  {
    if actions != [] { UninstalledIsQuiet(Step(s, actions[0]), actions[1..]); }
  }

  lemma NothingBeginsAfterUninstall(s: State, actions: seq<Action>)
    ensures |Run(s, [Uninstall] + actions).flights| == |s.flights|
  {
    assert ([Uninstall] + actions)[1..] == actions;
    UninstalledIsQuiet(Step(s, Uninstall), actions);
  }

  // ---- Dispatch and destruction finish -----------------------------------

  function FlightTurns(n: nat): seq<Action> { [Look(n), Fetch(n), Call(n), Return(n)] }

  /** Whatever a dispatch has done so far, its own steps finish it and touch no other. */
  lemma DispatchFinishes(s: State, n: nat)
    requires Inv(s) && FlightsInv(s) && n < |s.flights|
    ensures var r := Run(s, FlightTurns(n));
            r.wrappers == s.wrappers && r.flights == s.flights[n := Over]
  {
    var s1, s2, s3, s4 := FlightSteps(s, n);
    RunPasses([s, s1, s2, s3, s4], FlightTurns(n));
  }

  lemma FlightSteps(s: State, n: nat) returns (s1: State, s2: State, s3: State, s4: State)
    requires Inv(s) && FlightsInv(s) && n < |s.flights|
    ensures Step(s, Look(n)) == s1 && Step(s1, Fetch(n)) == s2 && Step(s2, Call(n)) == s3 && Step(s3, Return(n)) == s4
    ensures s4.wrappers == s.wrappers && s4.flights == s.flights[n := Over]
  {
    s1 := FlightOneStep(s, Look(n), n, s.flights);
    s2 := FlightOneStep(s1, Fetch(n), n, s.flights);
    s3 := FlightOneStep(s2, Call(n), n, s.flights);
    s4 := FlightOneStep(s3, Return(n), n, s.flights);
  }

  function Progress(f: Flight): nat {
    match f
    case Entered(_, _) => 0
    case Looked(_, _, _) => 1
    case Fetched(_, _, _, _, _) => 2
    case Running(_, _, _) => 3
    case Over => 4
  }

  function Turn(a: Action): nat {
    match a
    case Look(_) => 0
    case Fetch(_) => 1
    case Call(_) => 2
    case _ => 3
  }

  lemma FlightOneStep(s: State, a: Action, n: nat, before: seq<Flight>) returns (r: State)
    requires Inv(s) && FlightsInv(s) && n < |s.flights| && a in FlightTurns(n)
    requires Progress(s.flights[n]) >= Turn(a)
    requires |before| == |s.flights| && s.flights == before[n := s.flights[n]]
    ensures r == Step(s, a) && Inv(r) && FlightsInv(r) && r.wrappers == s.wrappers
    ensures |before| == |r.flights| && r.flights == before[n := r.flights[n]]
    ensures Progress(r.flights[n]) > Turn(a)
  {
    r := DispatchStep(s, a);
    StepKeeps(s, a);
    StepKeepsFlights(s, a);
    assert FlightOk(s.wrappers, s.flights[n]);
    assert r.flights == s.flights[n := r.flights[n]];
  }

  /** `destroy` needs only its own steps once no dispatch of the handle is under way. */
  lemma DestroyFinishes(s: State, i: nat)
    requires i < |s.wrappers| && !InFlight(s.flights, s.wrappers[i])
    ensures var d := DestroyStep(i);
            var r := Run(s, [d, d, d, d]);
            i < |r.wrappers| && r.wrappers[i].stage.Deleted? && r.flights == s.flights
  {
    var s1, s2, s3, s4 := FourDestroySteps(s, i);
    var d := DestroyStep(i);
    RunPasses([s, s1, s2, s3, s4], [d, d, d, d]);
  }

  lemma FourDestroySteps(s: State, i: nat) returns (s1: State, s2: State, s3: State, s4: State)
    requires i < |s.wrappers| && !InFlight(s.flights, s.wrappers[i])
    ensures var d := DestroyStep(i); Step(s, d) == s1 && Step(s1, d) == s2 && Step(s2, d) == s3 && Step(s3, d) == s4
    ensures i < |s4.wrappers| && s4.wrappers[i].stage.Deleted? && s4.flights == s.flights
  {
    s1 := DestroyAdvances(s, i);
    s2 := DestroyAdvances(s1, i);
    s3 := DestroyAdvances(s2, i);
    s4 := DestroyAdvances(s3, i);
  }

  lemma DestroyAdvances(s: State, i: nat) returns (r: State)
    requires i < |s.wrappers| && !InFlight(s.flights, s.wrappers[i])
    ensures r == Step(s, DestroyStep(i))
    ensures |r.wrappers| == |s.wrappers| && r.wrappers[i] == Advance(s.wrappers[i]) && r.flights == s.flights
    ensures !InFlight(r.flights, r.wrappers[i])
  {
    r := Step(s, DestroyStep(i));
    var w, w' := s.wrappers[i], Advance(s.wrappers[i]);
    forall n | 0 <= n < |s.flights| ensures !Concerns(s.flights[n], w') {
      assert !Concerns(s.flights[n], w);
    }
  }

  /** The native setter's return enables what was stored, unless the handle is gone. */
  lemma SettersEnable(s: State, i: nat, kind: CallbackKind)
    requires i < |s.wrappers| && kind in s.wrappers[i].pending && !s.wrappers[i].stage.Deleted?
    ensures var w := Step(s, EnableNative(i, kind)).wrappers[i];
            kind in w.enabled && kind !in w.pending && w.callbacks == s.wrappers[i].callbacks
  {
  }

  /** Between the clear and the deletion a callback fetched earlier may still be called: the
      dispatcher fetches, `destroy` flags, clears and unregisters, the dispatcher calls. */
  lemma FetchedBeforeTheClearFiresLater(handle: int, kind: CallbackKind, which: Registry, cb: nat)
    requires Serves(which, kind)
    ensures var r := Run(Run(INIT, FetchRun(handle, kind, which, cb)), LATE_RUN);
            && |r.wrappers| == 1 && r.wrappers[0].callbacks == map[] && handle !in Table(r, which)
            && r.fired == [Firing(kind, handle, 0, cb, Live, Popped)]
  {
    FetchReached(handle, kind, which, cb);
    LateCall(Run(INIT, FetchRun(handle, kind, which, cb)), kind, handle, cb);
  }

  function FetchRun(handle: int, kind: CallbackKind, which: Registry, cb: nat): seq<Action> {
    [Create(handle, which), StoreCallback(0, kind, cb), CallDispatcher(kind, handle), Look(0), Fetch(0)]
  }

  const LATE_RUN := [DestroyStep(0), DestroyStep(0), DestroyStep(0), Call(0)]

  lemma FetchReached(handle: int, kind: CallbackKind, which: Registry, cb: nat)
    requires Serves(which, kind)
    ensures var r := Run(INIT, FetchRun(handle, kind, which, cb));
            && |r.wrappers| == 1 && r.wrappers[0].handle == handle && r.wrappers[0].registry == which
            && r.wrappers[0].stage.Live? && r.fired == [] && r.flights == [Fetched(kind, handle, 0, cb, Live)]
  {
    var s1 := Step(INIT, Create(handle, which));
    var s2 := Step(s1, StoreCallback(0, kind, cb));
    var s3 := s2.(flights := [Entered(kind, handle)]);
    var s4 := s2.(flights := [Looked(kind, handle, 0)]);
    var s5 := s2.(flights := [Fetched(kind, handle, 0, cb, Live)]);
    FetchesStored(s2, handle, kind, which, cb);
    RunPasses([INIT, s1, s2, s3, s4, s5], FetchRun(handle, kind, which, cb));
  }

  lemma FetchesStored(s: State, handle: int, kind: CallbackKind, which: Registry, cb: nat)
    requires Serves(which, kind) && s.installed && s.flights == []
    requires |s.wrappers| == 1 && s.wrappers[0].stage.Live? && s.wrappers[0].callbacks == map[kind := cb]
    requires handle in Table(s, which) && Table(s, which)[handle] == 0
    ensures Step(s, CallDispatcher(kind, handle)) == s.(flights := [Entered(kind, handle)])
    ensures Step(s.(flights := [Entered(kind, handle)]), Look(0)) == s.(flights := [Looked(kind, handle, 0)])
    ensures Step(s.(flights := [Looked(kind, handle, 0)]), Fetch(0)) == s.(flights := [Fetched(kind, handle, 0, cb,
        Live)])
  {
    var s3 := s.(flights := [Entered(kind, handle)]);
    var s4 := s.(flights := [Looked(kind, handle, 0)]);
    assert s.flights + [Entered(kind, handle)] == s3.flights;
    assert SetFlight(s3, 0, LookedUp(s3, s3.flights[0])) == s4;
    assert SetFlight(s4, 0, FetchedFrom(s4, s4.flights[0])) == s.(flights := [Fetched(kind, handle, 0, cb, Live)]);
  }

  lemma LateCall(s: State, kind: CallbackKind, handle: int, cb: nat)
    requires |s.wrappers| == 1 && s.wrappers[0].stage.Live? && s.wrappers[0].handle == handle
    requires s.fired == [] && s.flights == [Fetched(kind, handle, 0, cb, Live)]
    ensures var r := Run(s, LATE_RUN);
            && |r.wrappers| == 1 && r.wrappers[0].callbacks == map[] && handle !in Table(r, s.wrappers[0].registry)
            && r.fired == [Firing(kind, handle, 0, cb, Live, Popped)]
  {
    var d := DestroyStep(0);
    var s1 := Step(s, d);
    var s2 := Step(s1, d);
    var s3 := Step(s2, d);
    ThreeStepsUnregister(s);
    FetchedIsCalled(s3, kind, handle, cb);
    RunPasses([s, s1, s2, s3, Step(s3, Call(0))], LATE_RUN);
  }

  lemma FetchedIsCalled(s: State, kind: CallbackKind, handle: int, cb: nat)
    requires |s.wrappers| == 1 && s.fired == [] && s.flights == [Fetched(kind, handle, 0, cb, Live)]
    ensures var r := Step(s, Call(0));
            && r.wrappers == s.wrappers && r.pcs == s.pcs && r.dcs == s.dcs
            && r.fired == [Firing(kind, handle, 0, cb, Live, s.wrappers[0].stage)]
  {
  }

  lemma ThreeStepsUnregister(s: State)
    requires |s.wrappers| == 1 && s.wrappers[0].stage.Live?
    ensures var d := DestroyStep(0);
            var r := Step(Step(Step(s, d), d), d);
            && |r.wrappers| == 1 && r.wrappers[0].stage == Popped && r.wrappers[0].callbacks == map[]
            && s.wrappers[0].handle !in Table(r, s.wrappers[0].registry)
            && r.flights == s.flights && r.fired == s.fired
  {
    var d := DestroyStep(0);
    FlagsThenClears(s);
    Unregisters(Step(Step(s, d), d));
  }

  lemma FlagsThenClears(s: State)
    requires |s.wrappers| == 1 && s.wrappers[0].stage.Live?
    ensures var w := s.wrappers[0];
            Step(Step(s, DestroyStep(0)), DestroyStep(0)) == s.(wrappers := [w.(stage := Cleared, callbacks := map[])])
  {
    var s1 := s.(wrappers := [s.wrappers[0].(stage := Flagged)]);
    assert Step(s, DestroyStep(0)) == s1;
    assert Step(s1, DestroyStep(0)).wrappers == [s.wrappers[0].(stage := Cleared, callbacks := map[])];
  }

  lemma Unregisters(s: State)
    requires |s.wrappers| == 1 && s.wrappers[0].stage.Cleared?
    ensures var w := s.wrappers[0];
            Step(s, DestroyStep(0)) ==
            SetTable(s.(wrappers := [w.(stage := Popped)]), w.registry, Table(s, w.registry) - {w.handle})
  {
    assert s.wrappers[0 := Advance(s.wrappers[0])] == [s.wrappers[0].(stage := Popped)];
  }

  /** A run through given states. */
  lemma {:induction false} RunPasses(states: seq<State>, actions: seq<Action>)
    requires |states| == |actions| + 1
    requires forall i :: 0 <= i < |actions| ==> Step(states[i], actions[i]) == states[i + 1]
    ensures Run(states[0], actions) == states[|actions|]
    decreases |actions|
  {
    if actions != [] {
      assert forall i :: 0 <= i < |actions| - 1 ==> Step(states[1..][i], actions[1..][i]) == states[1..][i + 1];
      RunPasses(states[1..], actions[1..]);
    }
  }

  /** With nothing in between, the four steps of a dispatch fire exactly what Dispatch says. */
  lemma UndisturbedDispatchFires(s: State, kind: CallbackKind, handle: int)
    requires Inv(s)
    ensures Run(s, DispatchRun(kind, handle, |s.flights|)).fired == s.fired + Fires(s, kind, handle)
  {
    var n := |s.flights|;
    if s.installed && LookupRegistry(kind).Some? {
      var s1 := s.(flights := s.flights + [Entered(kind, handle)]);
      StepKeeps(s, CallDispatcher(kind, handle));
      assert Step(s, CallDispatcher(kind, handle)) == s1;
      var s2, s3, s4 := EnteredFires(s1, kind, handle, n);
      assert Fires(s1, kind, handle) == Fires(s, kind, handle);
      RunPasses([s, s1, s2, s3, s4], DispatchRun(kind, handle, n));
    } else {
      AbsentFlightIdles(s, n);
      RunPasses([s, s, s, s, s], DispatchRun(kind, handle, n));
    }
  }

  /** A lookup consults the registry of the kind's wrappers, and no other. */
  lemma KindsLookInTheirRegistry(s: State, f: Flight)
    requires f.Entered?
    ensures ChannelKind(f.kind) ==>
              LookedUp(s, f) == if f.handle in s.dcs then Looked(f.kind, f.handle, s.dcs[f.handle]) else Over
    ensures ConnectionKind(f.kind) ==>
              LookedUp(s, f) == if f.handle in s.pcs then Looked(f.kind, f.handle, s.pcs[f.handle]) else Over
  {
  }

  /** Whatever a live wrapper registers for one of its kinds is what the next dispatch of
      that kind to its handle fires. */
  lemma StoredCallbackFires(s: State, i: nat, kind: CallbackKind, cb: nat)
    requires Inv(s) && s.installed && i < |s.wrappers| && s.wrappers[i].stage.Live?
    requires KindOf(s.wrappers[i].registry, kind)
    ensures var stored := Step(s, StoreCallback(i, kind, cb));
            var h := s.wrappers[i].handle;
            Run(stored, DispatchRun(kind, h, |s.flights|)).fired == s.fired + [Firing(kind, h, i, cb, Live, Live)]
  {
    var stored := Step(s, StoreCallback(i, kind, cb));
    StepKeeps(s, StoreCallback(i, kind, cb));
    LiveReaches(stored, i, kind, |s.flights|);
    UndisturbedDispatchFires(stored, kind, s.wrappers[i].handle);
  }

  function DispatchRun(kind: CallbackKind, handle: int, n: nat): seq<Action> {
    [CallDispatcher(kind, handle), Look(n), Fetch(n), Call(n)]
  }

  lemma AbsentFlightIdles(s: State, n: nat)
    requires n >= |s.flights|
    ensures Step(s, Look(n)) == s && Step(s, Fetch(n)) == s && Step(s, Call(n)) == s
  {
  }

  function Fires(s: State, kind: CallbackKind, handle: int): seq<Firing> {
    match Dispatch(s, kind, handle)
    case Some((i, cb)) =>
      if i < |s.wrappers| then [Firing(kind, handle, i, cb, s.wrappers[i].stage, s.wrappers[i].stage)] else []
    case None => []
  }

  lemma EnteredFires(s: State, kind: CallbackKind, handle: int, n: nat) returns (s1: State, s2: State, s3: State)
    requires Inv(s) && s.installed && LookupRegistry(kind).Some?
    requires n < |s.flights| && s.flights[n] == Entered(kind, handle)
    ensures Step(s, Look(n)) == s1 && Step(s1, Fetch(n)) == s2 && Step(s2, Call(n)) == s3
    ensures s3.fired == s.fired + Fires(s, kind, handle)
  {
    s1 := SetFlight(s, n, LookedUp(s, s.flights[n]));
    assert Step(s, Look(n)) == s1;
    LookIsOk(s, s.flights[n]);
    s2, s3 := LookedFires(s1, n);
  }

  /** The rest of a dispatch after its lookup. */
  lemma LookedFires(s: State, n: nat) returns (s1: State, s2: State)
    requires n < |s.flights| && (s.flights[n].Over? || (s.flights[n].Looked? && s.flights[n].wrapper < |s.wrappers|))
    ensures Step(s, Fetch(n)) == s1 && Step(s1, Call(n)) == s2
    ensures s2.fired == s.fired + FiresFrom(s, s.flights[n])
  {
    var f := s.flights[n];
    s1 := if f.Over? then s else SetFlight(s, n, FetchedFrom(s, f));
    assert Step(s, Fetch(n)) == s1;
    s2 := Step(s1, Call(n));
  }

  function FiresFrom(s: State, f: Flight): seq<Firing> {
    if f.Looked? && f.wrapper < |s.wrappers| && f.kind in s.wrappers[f.wrapper].callbacks then
      var w := s.wrappers[f.wrapper];
      [Firing(f.kind, f.handle, f.wrapper, w.callbacks[f.kind], w.stage, w.stage)]
    else []
  }

  /** Whatever an undisturbed `_dispatch` fires belongs to the wrapper with that handle in the
      registry of that kind, and is the callback that wrapper stored for that kind. */
  lemma DispatchFiresOnlyTheOwner(actions: seq<Action>, kind: CallbackKind, handle: int)
    requires Dispatch(Run(INIT, actions), kind, handle).Some?
    ensures var r := Run(INIT, actions);
            var (i, cb) := Dispatch(r, kind, handle).value;
            && i < |r.wrappers| && r.wrappers[i].handle == handle && KindOf(r.wrappers[i].registry, kind)
            && (r.wrappers[i].stage.Live? || r.wrappers[i].stage.Flagged?)
            && kind in r.wrappers[i].callbacks && r.wrappers[i].callbacks[kind] == cb
            && r.installed
  {
    RunKeeps(INIT, actions);
    var r := Run(INIT, actions);
    var (i, _) := Dispatch(r, kind, handle).value;
    assert WrapperOk(r, i);
  }
}
