/** The switch's store of objects against the hardware, over whole runs of transactions. */
module StoreModel {
  import opened NdiHardware
  import opened CommitModel
  import opened CommitTheory
  import opened CommitTheorems

  type ObjId = nat

  const ATTR1: AttrId := 1
  const ATTR2: AttrId := 2
  const MAX_ATTR1_RANGE := 20
  const MAX_ATTR2_RANGE := 10

  /** One change a request makes to an object before it is committed. */
  datatype Edit = SetAttr1(value: nat) | SetAttr2(value: nat) | AddNpu(npu: NpuId, reset: bool) | ResetNpus

  /**
   * A request, committed with `rolling_back` false, or an NPU added to the switch. An object
   * starts with whatever its memory holds.
   */
  datatype Request =
    | Create(memory1: nat, memory2: nat, edits: seq<Edit>)
    | Modify(id: ObjId, edits: seq<Edit>)
    | Delete(id: ObjId)
    | GrowSwitch(npu: NpuId)

  datatype System = System(hw: Hw, store: map<ObjId, Obj>, lastId: ObjId, switchNpus: set<NpuId>)

  /** How a request ended; `clean` when no push was skipped, no undo was lost and no handle was missing. */
  datatype Reply = Reply(sys: System, status: Status, clean: bool)

  /** The attributes are the two fields of the derived object. */
  ghost predicate HasFields(o: Obj) {
    o.attrs.Keys == {ATTR1, ATTR2} && o.dirty <= {ATTR1, ATTR2}
  }

  /** What a range-checked setter does to an object. */
  function AttrSet(o: Obj, a: AttrId, max: nat, v: nat): (Status, Obj) {
    if v > max then (BadParam, o) else (Success, o.(attrs := o.attrs[a := v], dirty := o.dirty + {a}))
  }

  function Edited(o: Obj, e: Edit, switchNpus: set<NpuId>): (Status, Obj) {
    match e
    case SetAttr1(v) => AttrSet(o, ATTR1, MAX_ATTR1_RANGE, v)
    case SetAttr2(v) => AttrSet(o, ATTR2, MAX_ATTR2_RANGE, v)
    case AddNpu(n, reset) => NpuAdded(o, switchNpus, n, reset)
    case ResetNpus => (Success, o.(npus := {}))
  }

  /** The edits in order, up to the first that throws. */
  function EditedAll(o: Obj, edits: seq<Edit>, switchNpus: set<NpuId>): (Status, Obj)
    decreases |edits|
  {
    if edits == [] then (Success, o) else
    var (status, o1) := Edited(o, edits[0], switchNpus);
    if status.Success? then EditedAll(o1, edits[1..], switchNpus) else (status, o1)
  }

  /** The derived object's create: attribute 1 is mandatory. */
  function UtCommitCreate(hw: Hw, o: Obj, switchNpus: set<NpuId>): Committed {
    if ATTR1 !in o.dirty then TurnedDown(hw, o, o) else CommitCreate(hw, o, switchNpus, false)
  }

  /** The derived object's modify: attribute 2 may not exceed attribute 1. */
  function UtCommitModify(hw: Hw, objNew: Obj, objOld: Obj, switchNpus: set<NpuId>): Committed {
    if objNew.ValueOf(ATTR2) > objNew.ValueOf(ATTR1) then TurnedDown(hw, objNew, objOld)
    else CommitModify(hw, objNew, objOld, switchNpus, false)
  }

  function Blank(memory1: nat, memory2: nat): Obj {
    Obj({}, map[ATTR1 := memory1, ATTR2 := memory2], map[], {}, {}, false, false, false)
  }

  function ServeCreate(s: System, memory1: nat, memory2: nat, edits: seq<Edit>): Reply {
    var (status, o) := EditedAll(Blank(memory1, memory2), edits, s.switchNpus);
    if !status.Success? then Reply(s, status, true) else
    AfterCreate(s, UtCommitCreate(s.hw, o, s.switchNpus))
  }

  /** The object is stored only if it was created. */
  function AfterCreate(s: System, c: Committed): Reply {
    if c.status.Success?
    then Reply(System(c.hw, s.store[s.lastId + 1 := c.objNew], s.lastId + 1, s.switchNpus), Success, c.Clean())
    else Reply(s.(hw := c.hw), c.status, c.Clean())
  }

  /** The reply, from what building and committing the object gave. */
  lemma CreateReply(s: System, memory1: nat, memory2: nat, edits: seq<Edit>, hw: Hw, status: Status, o: Obj)
    requires var (edited, e) := EditedAll(Blank(memory1, memory2), edits, s.switchNpus);
      if !edited.Success? then hw == s.hw && status == edited else
      var c := UtCommitCreate(s.hw, e, s.switchNpus);
      hw == c.hw && status == c.status && o == c.objNew
    ensures var reply := ServeCreate(s, memory1, memory2, edits);
      && reply.status == status
      && reply.sys == if status.Success? then System(hw, s.store[s.lastId + 1 := o], s.lastId + 1, s.switchNpus)
                      else s.(hw := hw)
  {
    hide UtCommitCreate;
  }

  function ServeModify(s: System, id: ObjId, edits: seq<Edit>): Reply {
    if id !in s.store then Reply(s, BadParam, true) else
    var (status, o) := EditedAll(s.store[id], edits, s.switchNpus);
    if !status.Success? then Reply(s, status, true) else
    AfterModify(s, id, UtCommitModify(s.hw, o, s.store[id], s.switchNpus))
  }

  /** A modify that did not succeed leaves the old object in the store, with the handles it has by then. */
  function AfterModify(s: System, id: ObjId, c: Committed): Reply {
    var kept := if c.status.Success? then c.objNew else c.objOld;
    Reply(s.(hw := c.hw, store := s.store[id := kept]), c.status, c.Clean())
  }

  /** The reply, from what the commit of the edited copy gave. */
  lemma ModifyReply(s: System, id: ObjId, edits: seq<Edit>, hw: Hw, status: Status, kept: Obj)
    requires id in s.store
    requires var (edited, e) := EditedAll(s.store[id], edits, s.switchNpus);
      if !edited.Success? then hw == s.hw && status == edited && kept == s.store[id] else
      var c := UtCommitModify(s.hw, e, s.store[id], s.switchNpus);
      hw == c.hw && status == c.status && kept == if c.status.Success? then c.objNew else c.objOld
    ensures var reply := ServeModify(s, id, edits);
      reply.status == status && reply.sys == s.(hw := hw, store := s.store[id := kept])
  {
    hide UtCommitModify;
    assert s.store[id := s.store[id]] == s.store;
  }

  function ServeDelete(s: System, id: ObjId): Reply {
    if id !in s.store then Reply(s, BadParam, true) else
    var c := CommitDelete(s.hw, s.store[id], false);
    var store := if c.status.Success? then s.store - {id} else s.store[id := c.objOld];
    Reply(s.(hw := c.hw, store := store), c.status, c.Clean())
  }

  function Serve(s: System, r: Request): Reply {
    match r
    case Create(m1, m2, edits) => ServeCreate(s, m1, m2, edits)
    case Modify(id, edits) => ServeModify(s, id, edits)
    case Delete(id) => ServeDelete(s, id)
    case GrowSwitch(n) => Reply(s.(switchNpus := s.switchNpus + {n}), Success, true)
  }

  // ----- the hardware equals the store -----

  /** A stored object: pushed, nothing pending, a handle for each of its NPUs. */
  ghost predicate Settled(o: Obj) {
    o.created && o.dirty == {} && !o.npuListDirty && o.attrs.Keys == {ATTR1, ATTR2} && o.npus <= o.handles.Keys
  }

  /** Some stored object should be at this slot. */
  ghost predicate Owned(store: map<ObjId, Obj>, k: Slot) {
    exists id :: id in store && store[id].Owns(k)
  }

  /** The object is on all its NPUs, with its values. */
  ghost predicate Held(objs: map<Slot, Attrs>, o: Obj) {
    forall k :: o.Owns(k) ==> k in objs && objs[k] == o.attrs
  }

  /** No slot belongs to both objects. */
  ghost predicate Apart(o: Obj, p: Obj) {
    forall k :: !(o.Owns(k) && p.Owns(k))
  }

  /**
   * Every NPU of every stored object holds it with its values, every slot in use is owned
   * by a stored object, and no slot has two owners.
   */
  ghost predicate Matches(objs: map<Slot, Attrs>, count: nat, store: map<ObjId, Obj>) {
    && (forall id :: id in store ==> Settled(store[id]) && Held(objs, store[id]))
    && (forall k :: k in objs ==> k.handle <= count && Owned(store, k))
    && (forall i, j :: i in store && j in store && i != j ==> Apart(store[i], store[j]))
  }

  ghost predicate Synced(s: System) {
    Matches(s.hw.objs, s.hw.count, s.store) && forall id :: id in s.store ==> id <= s.lastId
  }

  /** What the hardware holds for everyone but `o`. */
  ghost function Others(objs: map<Slot, Attrs>, o: Obj): map<Slot, Attrs> {
    map k | k in objs && !o.Owns(k) :: objs[k]
  }

  /** Seen from one stored object, the rest of the hardware is the rest of the store. */
  lemma Isolate(hw: Hw, store: map<ObjId, Obj>, id: ObjId)
    requires Matches(hw.objs, hw.count, store) && id in store
    ensures Installed(Others(hw.objs, store[id]), hw, store[id])
    ensures Matches(Others(hw.objs, store[id]), hw.count, store - {id})
  {
    var o, base := store[id], Others(hw.objs, store[id]);
    OthersBesides(hw.objs, o);
    forall i | i in store && i != id ensures Held(base, store[i]) {
      OthersHold(hw.objs, o, store[i]);
    }
    forall k | k in base ensures Owned(store - {id}, k) {
      OwnedByAnother(store, id, k);
    }
  }

  lemma OthersBesides(objs: map<Slot, Attrs>, o: Obj)
    requires Held(objs, o)
    ensures forall k :: At(objs, k) == if o.Owns(k) then Holds(o.attrs) else At(Others(objs, o), k)
  {
  }

  lemma OthersHold(objs: map<Slot, Attrs>, o: Obj, p: Obj)
    requires Held(objs, p) && Apart(p, o)
    ensures Held(Others(objs, o), p)
  {
  }

  lemma OwnedByAnother(store: map<ObjId, Obj>, id: ObjId, k: Slot)
    requires id in store && Owned(store, k) && !store[id].Owns(k)
    ensures Owned(store - {id}, k)
  {
    var i :| i in store && store[i].Owns(k);
    assert (store - {id})[i].Owns(k);
  }

  /** Putting an installed object back into the store. */
  lemma Rejoin(base: map<Slot, Attrs>, count: nat, store: map<ObjId, Obj>, hw: Hw, id: ObjId, o: Obj)
    requires Matches(base, count, store) && id !in store
    requires Installed(base, hw, o) && Settled(o) && count <= hw.count
    ensures Matches(hw.objs, hw.count, store[id := o])
  {
    var joined := store[id := o];
    forall k | k in hw.objs ensures k.handle <= hw.count && Owned(joined, k) {
      assert At(hw.objs, k) == if o.Owns(k) then Holds(o.attrs) else At(base, k);
      OwnedAfter(store, id, o, k);
    }
    forall i | i in store ensures Held(hw.objs, store[i]) && Apart(store[i], o) && Apart(o, store[i]) {
      StillHeld(base, hw, o, store[i]);
    }
    StillHeld(base, hw, o, Nowhere(o));
  }

  /** A store that the hardware matches is the only one: seen from one object, the rest of the store is `base`. */
  lemma Rejoined(base: map<Slot, Attrs>, count: nat, store: map<ObjId, Obj>, hw: Hw, id: ObjId, o: Obj)
    requires Matches(base, count, store) && id !in store && count <= hw.count
    requires Matches(hw.objs, hw.count, store[id := o])
    ensures Installed(base, hw, o)
  {
    var joined := store[id := o];
    assert joined[id] == o;
    forall k | k in base ensures !o.Owns(k) && k.handle <= hw.count { BaseIsApart(base, count, store, hw, id, o, k); }
    forall k ensures At(hw.objs, k) == if o.Owns(k) then Holds(o.attrs) else At(base, k) {
      if o.Owns(k) { assert Held(hw.objs, joined[id]); } else { RestIsBase(base, count, store, hw, id, o, k); }
    }
  }

  lemma BaseIsApart(base: map<Slot, Attrs>, count: nat, store: map<ObjId, Obj>, hw: Hw, id: ObjId, o: Obj, k: Slot)
    requires Matches(base, count, store) && id !in store && count <= hw.count
    requires Matches(hw.objs, hw.count, store[id := o]) && k in base
    ensures !o.Owns(k) && k.handle <= hw.count
  {
    var joined := store[id := o];
    assert Owned(store, k);
    var i :| i in store && store[i].Owns(k);
    assert joined[i] == store[i] && Apart(joined[i], joined[id]);
  }

  lemma RestIsBase(base: map<Slot, Attrs>, count: nat, store: map<ObjId, Obj>, hw: Hw, id: ObjId, o: Obj, k: Slot)
    requires Matches(base, count, store) && id !in store && Matches(hw.objs, hw.count, store[id := o])
    requires !o.Owns(k)
    ensures At(hw.objs, k) == At(base, k)
  {
    if k in hw.objs {
      assert Owned(store[id := o], k);
      OwnedBefore(store, id, o, k);
    }
    assert k in base ==> Owned(store, k);
    if Owned(store, k) {
      var i :| i in store && store[i].Owns(k);
      assert Held(hw.objs, store[id := o][i]) && Held(base, store[i]);
    }
  }

  lemma OwnedBefore(store: map<ObjId, Obj>, id: ObjId, o: Obj, k: Slot)
    requires id !in store && Owned(store[id := o], k) && !o.Owns(k)
    ensures Owned(store, k)
  {
    var i :| i in store[id := o] && store[id := o][i].Owns(k);
    assert i in store && store[i].Owns(k);
  }

  lemma RejoinIff(base: map<Slot, Attrs>, count: nat, store: map<ObjId, Obj>, hw: Hw, id: ObjId, o: Obj)
    requires Matches(base, count, store) && id !in store && count <= hw.count
    ensures Matches(hw.objs, hw.count, store[id := o]) <==> Installed(base, hw, o) && Settled(o)
  {
    if Matches(hw.objs, hw.count, store[id := o]) {
      Rejoined(base, count, store, hw, id, o);
      assert store[id := o][id] == o;
    }
    if Installed(base, hw, o) && Settled(o) { Rejoin(base, count, store, hw, id, o); }
  }

  /** Only one content of the hardware matches a store. */
  lemma MatchIsUnique(base: map<Slot, Attrs>, count: nat, store: map<ObjId, Obj>, hw: Hw)
    requires Matches(base, count, store) && count <= hw.count
    ensures Matches(hw.objs, hw.count, store) <==> hw.objs == base
  {
    if Matches(hw.objs, hw.count, store) {
      forall k ensures At(hw.objs, k) == At(base, k) {
        if k in base || k in hw.objs {
          assert Owned(store, k);
          var i :| i in store && store[i].Owns(k);
          assert Held(base, store[i]) && Held(hw.objs, store[i]);
        }
      }
      forall k ensures k in hw.objs <==> k in base { assert At(hw.objs, k) == At(base, k); }
      forall k | k in base ensures hw.objs[k] == base[k] { assert At(hw.objs, k) == At(base, k); }
    }
  }

  lemma OwnedAfter(store: map<ObjId, Obj>, id: ObjId, o: Obj, k: Slot)
    requires id !in store && (o.Owns(k) || Owned(store, k))
    ensures Owned(store[id := o], k)
  {
    var joined := store[id := o];
    if o.Owns(k) {
      assert joined[id].Owns(k);
    } else {
      var i :| i in store && store[i].Owns(k);
      assert joined[i].Owns(k);
    }
  }

  lemma StillHeld(base: map<Slot, Attrs>, hw: Hw, o: Obj, p: Obj)
    requires Installed(base, hw, o) && Held(base, p)
    ensures Held(hw.objs, p) && Apart(p, o) && Apart(o, p) && Held(hw.objs, o)
  {
  }

  // ----- requests keep the hardware equal to the store -----

  /** Edits touch no handle and no attribute that they do not mark dirty. */
  ghost predicate EditOf(o: Obj, o': Obj) {
    && o'.created == o.created && o'.handles == o.handles
    && o.dirty <= o'.dirty <= o.dirty + {ATTR1, ATTR2}
    && o'.attrs.Keys == o.attrs.Keys
    && forall a :: a in o.attrs && a !in o'.dirty ==> o'.attrs[a] == o.attrs[a]
  }

  lemma {:induction false} EditsAreEdits(o: Obj, edits: seq<Edit>, switchNpus: set<NpuId>)
    requires {ATTR1, ATTR2} <= o.attrs.Keys
    ensures EditOf(o, EditedAll(o, edits, switchNpus).1)
    ensures EditedAll(o, edits, switchNpus).0 in {Success, BadParam}
    decreases |edits|
  {
    if edits != [] {
      var (status, o1) := Edited(o, edits[0], switchNpus);
      if status.Success? { EditsAreEdits(o1, edits[1..], switchNpus); }
    }
  }

  /** Only the NPUs, handles and values of an object show on the hardware. */
  lemma InstalledSame(base: map<Slot, Attrs>, hw: Hw, o: Obj, o': Obj)
    requires o'.npus == o.npus && o'.handles == o.handles && o'.attrs == o.attrs
    ensures Installed(base, hw, o') <==> Installed(base, hw, o)
  {
  }

  /**
   * What the commit of `w` leaves in effect is what it reports: after a success every planned
   * step that matters was done, otherwise no step that matters lost its undo.
   */
  ghost predicate Complete(w: World, c: Committed) {
    if c.status.Success? then forall t :: Planned(w, t) && Matters(w, t) ==> t in c.done
    else forall t :: t in c.lost ==> !Matters(w, t)
  }

  /** What a commit from an installed object leaves, with the hardware it leaves it on. */
  lemma CompleteIff(base: map<Slot, Attrs>, w: World, c: Committed)
    requires Successor(w) && Installed(base, w.hw, w.objOld)
    requires var r := Commit(w, ModifyPlan(w.objNew, w.objOld), false);
      c.status == StatusOf(r.end) && c.done == r.done && c.lost == r.lost
    ensures var r := Commit(w, ModifyPlan(w.objNew, w.objOld), false);
      && !r.end.Escaped? && w.hw.count <= r.w.hw.count && r.w.hw.Fresh()
      && SameButHandles(w.objNew, r.w.objNew) && SameButHandles(w.objOld, r.w.objOld)
      && (Complete(w, c) <==> Installed(base, r.w.hw, if r.end.Finished? then r.w.objNew else r.w.objOld))
  {
    hide Forward, Backward, ModifyPlan;
    ModifyCommit(base, w, false);
  }

  /** The objects that a create and a modify commit. */
  function CreateWorld(hw: Hw, o: Obj, switchNpus: set<NpuId>): World {
    var o1 := WithNpus(o.(setAttrs := o.dirty), switchNpus);
    World(hw, o1, Nowhere(o1))
  }

  function ModifyWorld(hw: Hw, objNew: Obj, objOld: Obj, switchNpus: set<NpuId>): World {
    World(hw, WithNpus(objNew.(setAttrs := objNew.setAttrs + objNew.dirty), switchNpus), objOld)
  }

  function DeleteWorld(hw: Hw, o: Obj): World {
    World(hw, Nowhere(o), o)
  }

  lemma CreatedIff(hw: Hw, o: Obj, switchNpus: set<NpuId>)
    requires hw.Fresh() && o.attrs.Keys == {ATTR1, ATTR2} && o.dirty <= {ATTR1, ATTR2} && !o.created
    ensures var c := CommitCreate(hw, o, switchNpus, false);
      && !c.status.OutOfRange? && hw.count <= c.hw.count
      && (Complete(CreateWorld(hw, o, switchNpus), c) <==>
          if c.status.Success? then Installed(hw.objs, c.hw, c.objNew) && Settled(c.objNew) else c.hw.objs == hw.objs)
  {
    hide Commit, ModifyPlan, CreatePlan;
    var w, c := CreateWorld(hw, o, switchNpus), CommitCreate(hw, o, switchNpus, false);
    CreateAndDeleteAreModifies(w.objNew);
    NowhereIsBase(hw.objs, hw, w.objOld);
    CompleteIff(hw.objs, w, c);
    var r := Commit(w, CreatePlan(w.objNew), false);
    if r.end.Finished? {
      InstalledSame(hw.objs, c.hw, r.w.objNew, c.objNew);
    } else {
      NowhereIsBase(hw.objs, c.hw, r.w.objOld);
    }
  }

  lemma EditedIsSuccessor(hw: Hw, objNew: Obj, objOld: Obj, switchNpus: set<NpuId>)
    requires Settled(objOld) && EditOf(objOld, objNew)
    ensures Successor(ModifyWorld(hw, objNew, objOld, switchNpus))
  {
  }

  lemma ModifiedIff(base: map<Slot, Attrs>, hw: Hw, objNew: Obj, objOld: Obj, switchNpus: set<NpuId>)
    requires Installed(base, hw, objOld) && Settled(objOld) && EditOf(objOld, objNew)
    ensures var c := CommitModify(hw, objNew, objOld, switchNpus, false);
      var kept := if c.status.Success? then c.objNew else c.objOld;
      && !c.status.OutOfRange? && hw.count <= c.hw.count
      && (Complete(ModifyWorld(hw, objNew, objOld, switchNpus), c) <==>
          Installed(base, c.hw, kept) && Settled(kept))
  {
    hide Commit, ModifyPlan;
    var w, c := ModifyWorld(hw, objNew, objOld, switchNpus), CommitModify(hw, objNew, objOld, switchNpus, false);
    EditedIsSuccessor(hw, objNew, objOld, switchNpus);
    CompleteIff(base, w, c);
    var r := Commit(w, ModifyPlan(w.objNew, w.objOld), false);
    var kept := if r.end.Finished? then c.objNew else c.objOld;
    assert kept.created && kept.dirty == {} && !kept.npuListDirty && kept.attrs.Keys == {ATTR1, ATTR2};
    InstalledSame(base, c.hw, if r.end.Finished? then r.w.objNew else r.w.objOld, kept);
  }

  lemma DeletedIff(base: map<Slot, Attrs>, hw: Hw, o: Obj)
    requires Installed(base, hw, o) && Settled(o)
    ensures var c := CommitDelete(hw, o, false);
      && !c.status.OutOfRange? && hw.count <= c.hw.count
      && (Complete(DeleteWorld(hw, o), c) <==>
          if c.status.Success? then c.hw.objs == base else Installed(base, c.hw, c.objOld) && Settled(c.objOld))
  {
    hide Commit, ModifyPlan, DeletePlan;
    var w, c := DeleteWorld(hw, o), CommitDelete(hw, o, false);
    CreateAndDeleteAreModifies(o);
    CompleteIff(base, w, c);
    var r := Commit(w, DeletePlan(o), false);
    if r.end.Finished? { NowhereIsBase(base, c.hw, r.w.objNew); }
  }

  /** Complete requests are the ones whose commit, if they come to one, is complete. */
  ghost predicate CompleteRequest(s: System, r: Request) {
    match r
    case Create(m1, m2, edits) => CompleteCreate(s, EditedAll(Blank(m1, m2), edits, s.switchNpus))
    case Modify(id, edits) => id in s.store ==> CompleteModify(s, id, EditedAll(s.store[id], edits, s.switchNpus))
    case Delete(id) =>
      id in s.store ==> Complete(DeleteWorld(s.hw, s.store[id]), CommitDelete(s.hw, s.store[id], false))
    case GrowSwitch(_) => true
  }

  ghost predicate CompleteCreate(s: System, edited: (Status, Obj)) {
    var o := edited.1;
    edited.0.Success? && ATTR1 in o.dirty ==>
      Complete(CreateWorld(s.hw, o, s.switchNpus), CommitCreate(s.hw, o, s.switchNpus, false))
  }

  ghost predicate CompleteModify(s: System, id: ObjId, edited: (Status, Obj))
    requires id in s.store
  {
    var o, objOld := edited.1, s.store[id];
    edited.0.Success? && o.ValueOf(ATTR2) <= o.ValueOf(ATTR1) ==>
      Complete(ModifyWorld(s.hw, o, objOld, s.switchNpus), CommitModify(s.hw, o, objOld, s.switchNpus, false))
  }

  /** The request met no missing handle, and left the hardware equal to the store exactly when it was complete. */
  ghost predicate SyncedExactlyIf(reply: Reply, complete: bool) {
    !reply.status.OutOfRange? && (Synced(reply.sys) <==> complete)
  }

  lemma AfterCreateIff(s: System, c: Committed)
    requires Synced(s) && !c.status.OutOfRange? && s.hw.count <= c.hw.count
    ensures SyncedExactlyIf(AfterCreate(s, c),
      if c.status.Success? then Installed(s.hw.objs, c.hw, c.objNew) && Settled(c.objNew) else c.hw.objs == s.hw.objs)
  {
    if c.status.Success? {
      RejoinIff(s.hw.objs, s.hw.count, s.store, c.hw, s.lastId + 1, c.objNew);
    } else {
      MatchIsUnique(s.hw.objs, s.hw.count, s.store, c.hw);
    }
  }

  lemma AfterModifyIff(s: System, id: ObjId, base: map<Slot, Attrs>, c: Committed)
    requires Synced(s) && id in s.store && Matches(base, s.hw.count, s.store - {id})
    requires !c.status.OutOfRange? && s.hw.count <= c.hw.count
    ensures var kept := if c.status.Success? then c.objNew else c.objOld;
      SyncedExactlyIf(AfterModify(s, id, c), Installed(base, c.hw, kept) && Settled(kept))
  {
    var kept := if c.status.Success? then c.objNew else c.objOld;
    RejoinIff(base, s.hw.count, s.store - {id}, c.hw, id, kept);
    assert (s.store - {id})[id := kept] == s.store[id := kept];
  }

  lemma ServeCreateSyncIff(s: System, memory1: nat, memory2: nat, edits: seq<Edit>)
    requires Synced(s)
    ensures var edited := EditedAll(Blank(memory1, memory2), edits, s.switchNpus);
      SyncedExactlyIf(ServeCreate(s, memory1, memory2, edits), CompleteCreate(s, edited))
  {
    var (status, o) := EditedAll(Blank(memory1, memory2), edits, s.switchNpus);
    EditsAreEdits(Blank(memory1, memory2), edits, s.switchNpus);
    if status.Success? && ATTR1 in o.dirty {
      CreatedIff(s.hw, o, s.switchNpus);
      AfterCreateIff(s, CommitCreate(s.hw, o, s.switchNpus, false));
    }
  }

  lemma ServeModifySyncIff(s: System, id: ObjId, edits: seq<Edit>)
    requires Synced(s) && id in s.store
    ensures var edited := EditedAll(s.store[id], edits, s.switchNpus);
      SyncedExactlyIf(ServeModify(s, id, edits), CompleteModify(s, id, edited))
  {
    var (status, o) := EditedAll(s.store[id], edits, s.switchNpus);
    EditsAreEdits(s.store[id], edits, s.switchNpus);
    assert s.store[id := s.store[id]] == s.store;
    if status.Success? && o.ValueOf(ATTR2) <= o.ValueOf(ATTR1) { CommittedModifySyncIff(s, id, o); }
  }

  lemma CommittedModifySyncIff(s: System, id: ObjId, o: Obj)
    requires Synced(s) && id in s.store && EditOf(s.store[id], o)
    ensures var c := CommitModify(s.hw, o, s.store[id], s.switchNpus, false);
      SyncedExactlyIf(AfterModify(s, id, c), Complete(ModifyWorld(s.hw, o, s.store[id], s.switchNpus), c))
  {
    var objOld, base := s.store[id], Others(s.hw.objs, s.store[id]);
    Isolate(s.hw, s.store, id);
    ModifiedIff(base, s.hw, o, objOld, s.switchNpus);
    AfterModifyIff(s, id, base, CommitModify(s.hw, o, objOld, s.switchNpus, false));
  }

  lemma ServeDeleteSyncIff(s: System, id: ObjId)
    requires Synced(s) && id in s.store
    ensures var c := CommitDelete(s.hw, s.store[id], false);
      SyncedExactlyIf(ServeDelete(s, id), Complete(DeleteWorld(s.hw, s.store[id]), c))
  {
    var o, base := s.store[id], Others(s.hw.objs, s.store[id]);
    var c := CommitDelete(s.hw, o, false);
    Isolate(s.hw, s.store, id);
    DeletedIff(base, s.hw, o);
    if c.status.Success? {
      MatchIsUnique(base, s.hw.count, s.store - {id}, c.hw);
    } else {
      AfterModifyIff(s, id, base, c);
    }
  }

  /**
   * One request, whatever pushes of it fail or are skipped: the hardware equals the store
   * afterwards exactly when the request was complete.
   */
  lemma ServeSyncIff(s: System, r: Request)
    requires Synced(s)
    ensures SyncedExactlyIf(Serve(s, r), CompleteRequest(s, r))
  {
    match r
    case Create(m1, m2, edits) => ServeCreateSyncIff(s, m1, m2, edits);
    case Modify(id, edits) => if id in s.store { ServeModifySyncIff(s, id, edits); }
    case Delete(id) => if id in s.store { ServeDeleteSyncIff(s, id); }
    case GrowSwitch(n) =>
  }

  lemma CleanCommitIsComplete(w: World, c: Committed)
    requires c.status.Success? ==> c.plan == ModifyPlan(w.objNew, w.objOld)
    ensures c.Clean() ==> Complete(w, c)
  {
    ModifyPlanHolds(w);
  }

  /** A request in which nothing is skipped and no undo is lost is complete. */
  lemma CleanIsComplete(s: System, r: Request)
    ensures Serve(s, r).clean ==> CompleteRequest(s, r)
  {
    match r
    case Create(m1, m2, edits) =>
      var o := EditedAll(Blank(m1, m2), edits, s.switchNpus).1;
      var w := CreateWorld(s.hw, o, s.switchNpus);
      CreateAndDeleteAreModifies(w.objNew);
      CleanCommitIsComplete(w, CommitCreate(s.hw, o, s.switchNpus, false));
    case Modify(id, edits) =>
      if id in s.store {
        var o, objOld := EditedAll(s.store[id], edits, s.switchNpus).1, s.store[id];
        CleanCommitIsComplete(ModifyWorld(s.hw, o, objOld, s.switchNpus),
                              CommitModify(s.hw, o, objOld, s.switchNpus, false));
      }
    case Delete(id) =>
      if id in s.store {
        CreateAndDeleteAreModifies(s.store[id]);
        CleanCommitIsComplete(DeleteWorld(s.hw, s.store[id]), CommitDelete(s.hw, s.store[id], false));
      }
    case GrowSwitch(n) =>
  }

  /** One clean request, whatever push of it fails. */
  lemma ServeKeepsSync(s: System, r: Request)
    requires Synced(s)
    ensures var reply := Serve(s, r); !reply.status.OutOfRange? && (reply.clean ==> Synced(reply.sys))
  {
    ServeSyncIff(s, r);
    CleanIsComplete(s, r);
  }

  // ----- whole runs -----

  ghost predicate SyncedThroughout(s: System, rs: seq<Request>)
    decreases |rs|
  {
    Synced(s) && (rs != [] ==> SyncedThroughout(Serve(s, rs[0]).sys, rs[1..]))
  }

  ghost predicate CompleteThroughout(s: System, rs: seq<Request>)
    decreases |rs|
  {
    rs != [] ==> CompleteRequest(s, rs[0]) && CompleteThroughout(Serve(s, rs[0]).sys, rs[1..])
  }

  /** Over every run the hardware equals the store all along exactly when every request is complete. */
  lemma {:induction false} SyncedThroughoutIff(s: System, rs: seq<Request>)
    requires Synced(s)
    ensures SyncedThroughout(s, rs) <==> CompleteThroughout(s, rs)
    decreases |rs|
  {
    if rs != [] {
      ServeSyncIff(s, rs[0]);
      if CompleteRequest(s, rs[0]) { SyncedThroughoutIff(Serve(s, rs[0]).sys, rs[1..]); }
    }
  }

  /** A run of requests from one state, and whether all of them were clean. */
  function Served(s: System, rs: seq<Request>): (System, bool)
    decreases |rs|
  {
    if rs == [] then (s, true) else
    var reply := Serve(s, rs[0]);
    var (s', clean) := Served(reply.sys, rs[1..]);
    (s', reply.clean && clean)
  }

  /**
   * Over every run of clean requests, with pushes failing at will and NPUs added to the
   * switch, the hardware equals the store.
   */
  lemma {:induction false} RunKeepsSync(s: System, rs: seq<Request>)
    requires Synced(s) && Served(s, rs).1
    ensures Synced(Served(s, rs).0)
    decreases |rs|
  {
    if rs != [] {
      ServeKeepsSync(s, rs[0]);
      RunKeepsSync(Serve(s, rs[0]).sys, rs[1..]);
    }
  }

  /**
   * In particular from an empty switch, under any script of failures: an object is on
   * each of its NPUs with its values, and nothing else is anywhere.
   */
  lemma RunFromEmpty(script: seq<Fate>, switchNpus: set<NpuId>, rs: seq<Request>)
    ensures var (s, clean) := Served(System(Hw(script, map[], 0, []), map[], 0, switchNpus), rs);
      clean ==>
        && (forall id, n :: id in s.store && n in s.store[id].npus ==>
             && n in s.store[id].handles
             && var k := Slot(n, s.store[id].handles[n]);
                k in s.hw.objs && s.hw.objs[k] == s.store[id].attrs)
        && (forall k :: k in s.hw.objs ==> exists id :: id in s.store && s.store[id].Owns(k))
  {
    var s0 := System(Hw(script, map[], 0, []), map[], 0, switchNpus);
    var (s, clean) := Served(s0, rs);
    if clean {
      RunKeepsSync(s0, rs);
      forall k | k in s.hw.objs ensures exists id :: id in s.store && s.store[id].Owns(k) {
        assert Owned(s.store, k);
      }
      forall id, n | id in s.store && n in s.store[id].npus
        ensures n in s.store[id].handles
        ensures var k := Slot(n, s.store[id].handles[n]); k in s.hw.objs && s.hw.objs[k] == s.store[id].attrs
      {
        assert Settled(s.store[id]) && Held(s.hw.objs, s.store[id]);
        assert s.store[id].Owns(Slot(n, s.store[id].handles[n]));
      }
    }
  }
}
