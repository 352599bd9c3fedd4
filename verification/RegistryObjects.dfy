/** The module state of `_core` as objects: two registries, the wrappers in them, and the
    calls that reach the native side. */
module RegistryObjects {
  import opened Wrappers
  import opened BindingPrograms
  import opened BindingLocks
  import opened Subsequences

  datatype NativeCall =
    | Enable(handle: int, kind: CallbackKind)
    | DeleteDataChannel(handle: int)
    | DeletePeerConnection(handle: int)
    | Cleanup
    | ClearDispatcher

  function Delete(which: Registry, handle: int): (c: NativeCall)
    ensures which.DcRegistry? <==> c == DeleteDataChannel(handle)
    ensures which.PcRegistry? <==> c == DeletePeerConnection(handle)
  {
    match which
    case PcRegistry => DeletePeerConnection(handle)
    case DcRegistry => DeleteDataChannel(handle)
  }

  function Deletes(which: Registry, handles: seq<int>): seq<NativeCall> {
    seq(|handles|, i requires 0 <= i < |handles| => Delete(which, handles[i]))
  }

  lemma DeletesAppend(which: Registry, handles: seq<int>, i: nat)
    requires i < |handles|
    ensures Deletes(which, handles[..i + 1]) == Deletes(which, handles[..i]) + [Delete(which, handles[i])]
  {
  }

  class Wrapper {
    const handle: int
    const registry: Registry
    var callbacks: map<CallbackKind, nat>
    var destroyed: bool

    constructor (handle: int, registry: Registry)
      ensures this.handle == handle && this.registry == registry && callbacks == map[] && !destroyed
    {
      this.handle, this.registry := handle, registry;
      callbacks, destroyed := map[], false;
    }
  }

  /** One of the two registry dictionaries, with its keys in insertion order. */
  class Table {
    const which: Registry
    var entries: map<int, Wrapper>
    var keys: seq<int>

    ghost predicate Valid()
      reads this, entries.Values
    {
      && Distinct(keys) && (forall h :: h in keys <==> h in entries)
      && forall h :: h in entries ==> entries[h].handle == h && entries[h].registry == which && !entries[h].destroyed
    }

    constructor (which: Registry)
      ensures this.which == which && entries == map[] && keys == []
    {
      this.which, entries, keys := which, map[], [];
    }
  }

  class Core {
    const pcs: Table
    const dcs: Table
    var installed: bool
    var logCallback: Option<nat>
    var calls: seq<NativeCall>

    ghost predicate Valid()
      reads this, pcs, dcs, pcs.entries.Values, dcs.entries.Values
    {
      pcs.which == PcRegistry && dcs.which == DcRegistry && pcs.Valid() && dcs.Valid()
    }

    /** The callback stored under `handle` in one registry. */
    function FiredFrom(table: Table, kind: CallbackKind, handle: int): Option<nat>
      reads table, table.entries.Values
    {
      if handle in table.entries && kind in table.entries[handle].callbacks then
        Some(table.entries[handle].callbacks[kind])
      else None
    }

    function TableOf(which: Registry): Table {
      if which.PcRegistry? then pcs else dcs
    }

    constructor ()
      ensures Valid() && fresh(pcs) && fresh(dcs)
      ensures pcs.keys == [] && dcs.keys == [] && installed && logCallback == None && calls == []
    {
      pcs := new Table(PcRegistry);
      dcs := new Table(DcRegistry);
      installed, logCallback, calls := true, None, [];
    }

    /** A wrapper's `__init__`, for a handle the native side just made. */
    method Create(handle: int, which: Registry) returns (w: Wrapper)
      requires Valid() && handle !in TableOf(which).entries
      modifies TableOf(which)
      ensures Valid() && fresh(w) && w.handle == handle && w.registry == which && w.callbacks == map[]
      ensures TableOf(which).entries == old(TableOf(which).entries)[handle := w]
      ensures TableOf(which).keys == old(TableOf(which).keys) + [handle]
    {
      w := new Wrapper(handle, which);
      var table := TableOf(which);
      table.entries := table.entries[handle := w];
      table.keys := table.keys + [handle];
    }

    /** `set_on_*`: the Python callback is in place before the native one can fire, and stays
        there when the native side refuses. */
    method SetOn(w: Wrapper, kind: CallbackKind, callback: nat, refused: bool) returns (raised: bool)
      requires Valid() && KindOf(w.registry, kind)
      modifies this`calls, w`callbacks
      ensures Valid() && w.callbacks == old(w.callbacks)[kind := callback]
      ensures raised == refused && calls == old(calls) + (if refused then [] else [Enable(w.handle, kind)])
    {
      w.callbacks := w.callbacks[kind := callback];
      if !refused {
        calls := calls + [Enable(w.handle, kind)];
      }
      raised := refused;
    }

    /** A setter on a handle that is already open fires at once, on the registering thread,
        and finds the callback just stored. */
    method SetOnFiring(w: Wrapper, kind: CallbackKind, callback: nat) returns (fired: Option<nat>)
      requires Valid() && KindOf(w.registry, kind)
      modifies this`calls, w`callbacks
      ensures Valid() && w.callbacks == old(w.callbacks)[kind := callback]
      ensures installed && w.handle in TableOf(w.registry).entries && TableOf(w.registry).entries[w.handle] == w ==>
                fired == Some(callback)
    {
      var raised := SetOn(w, kind, callback, false);
      fired := Dispatch(kind, w.handle);
    }

    /** `_dispatch`: the callback it fires.  Log lines go to the module's log callback, which
        no registry holds. */
    method Dispatch(kind: CallbackKind, handle: int) returns (fired: Option<nat>)
      requires Valid()
      ensures fired.Some? ==> installed
      ensures kind.Log? ==> fired == if installed then logCallback else None
      ensures ChannelKind(kind) ==> fired == if installed then FiredFrom(dcs, kind, handle) else None
      ensures ConnectionKind(kind) ==> fired == if installed then FiredFrom(pcs, kind, handle) else None
      ensures fired.Some? && !kind.Log? ==>
                exists which :: KindOf(which, kind) && handle in TableOf(which).entries
                                && TableOf(which).entries[handle].handle == handle
                                && !TableOf(which).entries[handle].destroyed
    {
      fired := None;
      if installed {
        match LookupRegistry(kind) {
          case None => fired := logCallback;
          case Some(which) =>
            var entries := TableOf(which).entries;
            if handle in entries && kind in entries[handle].callbacks {
              fired := Some(entries[handle].callbacks[kind]);
            }
        }
      }
    }

    /** `destroy`.  `raises` says whether the native deletion raises; by then the wrapper is
        flagged, cleared and unregistered. */
    method Destroy(w: Wrapper, raises: bool) returns (raised: bool)
      requires Valid()
      requires !w.destroyed ==> w.handle in TableOf(w.registry).entries && TableOf(w.registry).entries[w.handle] == w
      modifies this`calls, TableOf(w.registry), w
      ensures Valid() && w.destroyed
      ensures old(w.destroyed) ==>
                && !raised && TableOf(w.registry).entries == old(TableOf(w.registry).entries)
                && TableOf(w.registry).keys == old(TableOf(w.registry).keys)
                && calls == old(calls) && w.callbacks == old(w.callbacks)
      ensures !old(w.destroyed) ==>
                && raised == raises && w.callbacks == map[]
                && TableOf(w.registry).entries == old(TableOf(w.registry).entries) - {w.handle}
                && TableOf(w.registry).keys == Without(old(TableOf(w.registry).keys), w.handle)
                && calls == old(calls) + [Delete(w.registry, w.handle)]
    {
      if w.destroyed {
        return false;
      }
      w.destroyed := true;
      w.callbacks := map[];
      var table := TableOf(w.registry);
      WithoutRemoves(table.keys, w.handle);
      table.entries := table.entries - {w.handle};
      table.keys := Without(table.keys, w.handle);
      calls := calls + [Delete(w.registry, w.handle)];
      raised := raises;
    }

    /** One turn of an exit loop, for the oldest registered handle: look it up, destroy its
        wrapper, suppress what that raises. */
    method DestroyOldest(which: Registry, w: Wrapper, raises: bool)
      requires Valid() && TableOf(which).keys != []
      requires TableOf(which).keys[0] in TableOf(which).entries && TableOf(which).entries[TableOf(which).keys[0]] == w
      modifies this`calls, TableOf(which), w
      ensures Valid() && w.destroyed
      ensures TableOf(which).keys == old(TableOf(which).keys)[1..]
      ensures TableOf(which).entries == old(TableOf(which).entries) - {w.handle}
      ensures calls == old(calls) + [Delete(which, w.handle)] && w.handle == old(TableOf(which).keys[0])
    {
      var table := TableOf(which);
      var h := table.keys[0];
      assert table.Valid() && table.which == which && h in table.entries;
      assert w == table.entries[h] && w.handle == h && w.registry == which;
      var raised := Destroy(w, raises);
    }

    /** One exit loop: over a snapshot of one registry. */
    method DestroyAll(which: Registry, raising: set<int>)
      requires Valid()
      modifies this`calls, TableOf(which), TableOf(which).entries.Values
      ensures Valid() && TableOf(which).keys == []
      ensures calls == old(calls) + Deletes(which, old(TableOf(which).keys))
      ensures forall h :: h in old(TableOf(which).entries) ==> old(TableOf(which).entries)[h].destroyed
    {
      var table := TableOf(which);
      ghost var before := table.entries;
      var snapshot := table.keys;
      for i := 0 to |snapshot|
        invariant Valid() && table.keys == snapshot[i..]
        invariant forall h :: h in table.entries ==> h in before && table.entries[h] == before[h]
        invariant forall h :: h in before && h !in table.entries ==> before[h].destroyed
        invariant calls == old(calls) + Deletes(which, snapshot[..i])
      {
        var h := snapshot[i];
        assert table.keys[0] == h && table.keys[1..] == snapshot[i + 1..] && h in table.keys;
        if h in table.entries {
          var w := table.entries[h];
          assert before[h] == w && w in before.Values;
          DestroyOldest(which, w, h in raising);
        }
        DeletesAppend(which, snapshot, i);
      }
    }

    /** The exit hook. */
    method AtexitDestroyAll(raising: set<int>)
      requires Valid()
      modifies this, pcs, dcs, pcs.entries.Values, dcs.entries.Values
      ensures Valid() && pcs.keys == [] && dcs.keys == [] && !installed
      ensures calls == old(calls) + Deletes(DcRegistry, old(dcs.keys)) + Deletes(PcRegistry, old(pcs.keys))
                       + [Cleanup, ClearDispatcher]
      ensures forall h :: h in old(pcs.entries) ==> old(pcs.entries)[h].destroyed
      ensures forall h :: h in old(dcs.entries) ==> old(dcs.entries)[h].destroyed
    {
      DestroyAll(DcRegistry, raising);
      DestroyAll(PcRegistry, raising);
      calls := calls + [Cleanup];
      installed := false;
      calls := calls + [ClearDispatcher];
    }
  }
}
