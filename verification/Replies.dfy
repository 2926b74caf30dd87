/** What a request's reply tells, what it stores, and what it leaves alone. */
module Replies {
  import opened Ordering
  import opened NdiHardware
  import opened Options
  import opened CommitModel
  import opened CommitTheory
  import opened CommitTrace
  import opened StoreModel
  import opened StoreRules
  import opened Drafts

  // ----- what the log tells -----

  /**
   * The status and the clean mark follow from the calls added to the log: none of them failed
   * after a success, one did after a failure, and there are none when the request was turned
   * down. It was clean when it was turned down, when it succeeded and all calls are done, or
   * when it failed and all calls after the first failure are.
   */
  ghost predicate ByLog(before: Hw, after: Hw, status: Status, clean: bool) {
    && before.log <= after.log
    && var evs := after.log[|before.log|..];
       match status
       case Success => NoneFailed(evs) && (clean <==> AllDone(evs))
       case NdiFailure => !NoneFailed(evs) && (clean <==> DoneAfterFailure(evs))
       case BadParam => after == before && clean
       case OutOfRange => !clean
  }

  lemma PlanLogTells(w: World)
    ensures var plan := ModifyPlan(w.objNew, w.objOld);
      var c := Commit(w, plan, false);
      && w.hw.log <= c.w.hw.log
      && var evs := c.w.hw.log[|w.hw.log|..];
         && (c.end.Finished? ==> NoneFailed(evs) && (c.done == plan <==> AllDone(evs)))
         && (c.end.Threw? ==> !NoneFailed(evs) && (c.lost == {} <==> DoneAfterFailure(evs)))
  {
    ModifyPlanHolds(w);
    LogTells(w, ModifyPlan(w.objNew, w.objOld));
  }

  lemma CommitIsByLog(hw: Hw, o: Obj, objOld: Obj, switchNpus: set<NpuId>)
    ensures var c := CommitCreate(hw, o, switchNpus, false); ByLog(hw, c.hw, c.status, c.Clean())
    ensures var m := CommitModify(hw, o, objOld, switchNpus, false); ByLog(hw, m.hw, m.status, m.Clean())
    ensures var d := CommitDelete(hw, o, false); ByLog(hw, d.hw, d.status, d.Clean())
  {
    hide ModifyPlan, CreatePlan, DeletePlan, Forward, Backward, AllDone, NoneFailed, DoneAfterFailure;
    PlanLogTells(CreateWorld(hw, o, switchNpus));
    CreateAndDeleteAreModifies(CreateWorld(hw, o, switchNpus).objNew);
    PlanLogTells(ModifyWorld(hw, o, objOld, switchNpus));
    PlanLogTells(DeleteWorld(hw, o));
    CreateAndDeleteAreModifies(o);
  }

  lemma UtCommitIsByLog(hw: Hw, o: Obj, objOld: Obj, switchNpus: set<NpuId>)
    ensures var c := UtCommitCreate(hw, o, switchNpus); ByLog(hw, c.hw, c.status, c.Clean())
    ensures var m := UtCommitModify(hw, o, objOld, switchNpus); ByLog(hw, m.hw, m.status, m.Clean())
  {
    hide CommitCreate, CommitModify;
    CommitIsByLog(hw, o, objOld, switchNpus);
  }

  /** What the client is told, and what the results over runs ask of a request, is what the hardware saw. */
  lemma ReplyIsByLog(s: System, r: Request)
    ensures var reply := Serve(s, r); ByLog(s.hw, reply.sys.hw, reply.status, reply.clean)
  {
    hide UtCommitCreate, UtCommitModify, CommitDelete, DoneAfterFailure;
    match r
    case Create(m1, m2, edits) =>
      var blank := Blank(m1, m2);
      EditsGoThroughIff(blank, edits, s.switchNpus);
      UtCommitIsByLog(s.hw, EditedAll(blank, edits, s.switchNpus).1, blank, s.switchNpus);
    case Modify(id, edits) =>
      if id in s.store {
        EditsGoThroughIff(s.store[id], edits, s.switchNpus);
        UtCommitIsByLog(s.hw, EditedAll(s.store[id], edits, s.switchNpus).1, s.store[id], s.switchNpus);
      }
    case Delete(id) => if id in s.store { CommitIsByLog(s.hw, s.store[id], s.store[id], s.switchNpus); }
    case GrowSwitch(n) =>
  }

  // ----- what a request stores -----

  /** The edits of an object with these NPUs leave it this one. */
  predicate Chosen(dirty: bool, own: set<NpuId>, edits: seq<Edit>, n: NpuId) {
    AddedForGood(dirty, edits, n) || (n in own && KeptFrom(dirty, edits, 0))
  }

  /** The object is on the NPUs that the edits leave it, or follows the switch if they leave it none. */
  ghost predicate Placed(dirty: bool, own: set<NpuId>, edits: seq<Edit>, switchNpus: set<NpuId>, o: Obj) {
    && ((exists n :: Chosen(dirty, own, edits, n)) ==> forall n :: n in o.npus <==> Chosen(dirty, own, edits, n))
    && ((forall n :: !Chosen(dirty, own, edits, n)) ==> o.npus == switchNpus && o.followingSwitch)
  }

  lemma EditedIsPlaced(o: Obj, edits: seq<Edit>, switchNpus: set<NpuId>, o': Obj)
    requires EditedAll(o, edits, switchNpus).0.Success?
    requires Recorded(EditedAll(o, edits, switchNpus).1, o', switchNpus)
    ensures Placed(o.npuListDirty, o.npus, edits, switchNpus, o')
  {
    hide AddedForGood, KeptFrom, EditedAll;
    EditsGiveNpus(o, edits, switchNpus);
    var own := EditedAll(o, edits, switchNpus).1.npus;
    if forall n :: n !in own { SameElements(own, {}); }
    assert forall n :: n in own <==> Chosen(o.npuListDirty, o.npus, edits, n);
  }

  /** From `o` to `o'` the attribute was set to this value, or is as before. */
  ghost predicate Valued(o: Obj, o': Obj, a: AttrId, v: Option<nat>) {
    match v
    case Some(x) => a in o'.attrs && o'.attrs[a] == x
    case None => (a in o'.attrs <==> a in o.attrs) && (a in o.attrs ==> o'.attrs[a] == o.attrs[a])
  }

  function Or(v: Option<nat>, otherwise: Value): Value {
    if v.Some? then v.value else otherwise
  }

  /** What edits that go through leave of the attributes. */
  lemma EditsGiveValues(o: Obj, edits: seq<Edit>, switchNpus: set<NpuId>)
    requires EditedAll(o, edits, switchNpus).0.Success?
    ensures var o' := EditedAll(o, edits, switchNpus).1;
      && o'.setAttrs == o.setAttrs && o'.created == o.created
      && forall a :: Valued(o, o', a, LastSet(edits, a)) && (a in o'.dirty <==> a in o.dirty || LastSet(edits, a).Some?)
  {
    var o' := EditedAll(o, edits, switchNpus).1;
    EditsSetValues(o, edits, switchNpus, 0);
    forall a
      ensures Valued(o, o', a, LastSet(edits, a)) && (a in o'.dirty <==> a in o.dirty || LastSet(edits, a).Some?)
    {
      EditsSetValues(o, edits, switchNpus, a);
    }
  }

  /**
   * A create that succeeds stores, under the next id, an object in NDI with nothing pending,
   * with the last value each attribute was set to or what its memory held, on the NPUs given
   * or all of the switch's.
   */
  lemma CreateStores(s: System, memory1: nat, memory2: nat, edits: seq<Edit>)
    ensures var reply := Serve(s, Create(memory1, memory2, edits));
      reply.status.Success? ==>
        && s.lastId + 1 in reply.sys.store
        && var o := reply.sys.store[s.lastId + 1];
           && o.created && o.dirty == {} && !o.npuListDirty
           && o.attrs == map[1 := Or(LastSet(edits, 1), memory1), 2 := Or(LastSet(edits, 2), memory2)]
           && (forall a :: a in o.setAttrs <==> LastSet(edits, a).Some?)
           && Placed(false, {}, edits, s.switchNpus, o)
  {
    hide CommitCreate, Placed, EditedAll, LastSet;
    var blank := Blank(memory1, memory2);
    var (status, o) := EditedAll(blank, edits, s.switchNpus);
    if status.Success? {
      EditsGiveValues(blank, edits, s.switchNpus);
      EditsAreEdits(blank, edits, s.switchNpus);
      assert Valued(blank, o, 1, LastSet(edits, 1)) && Valued(blank, o, 2, LastSet(edits, 2));
      CreateRecords(s.hw, o, s.switchNpus, false);
      var c := UtCommitCreate(s.hw, o, s.switchNpus);
      if c.status.Success? { EditedIsPlaced(blank, edits, s.switchNpus, c.objNew); }
    }
  }

  /** A modify that succeeds does so to the stored object; any other, and a delete, changes only handles of it. */
  lemma ModifyStores(s: System, id: ObjId, edits: seq<Edit>)
    requires id in s.store
    ensures var reply := Serve(s, Modify(id, edits));
      && id in reply.sys.store
      && var o, kept := s.store[id], reply.sys.store[id];
         && (!reply.status.Success? ==> SameButHandles(o, kept))
         && (reply.status.Success? ==>
              && kept.created && kept.dirty == {} && !kept.npuListDirty
              && (forall a :: Valued(o, kept, a, LastSet(edits, a)))
              && (forall a :: a in kept.setAttrs <==> a in o.setAttrs || a in o.dirty || LastSet(edits, a).Some?)
              && Placed(o.npuListDirty, o.npus, edits, s.switchNpus, kept))
    ensures var reply := Serve(s, Delete(id));
      !reply.status.Success? ==> id in reply.sys.store && SameButHandles(s.store[id], reply.sys.store[id])
  {
    hide CommitModify, CommitDelete, Placed, EditedAll, LastSet;
    var before := s.store[id];
    DeleteRecords(s.hw, before, false);
    var (status, o) := EditedAll(before, edits, s.switchNpus);
    if status.Success? {
      EditsGiveValues(before, edits, s.switchNpus);
      ModifyRecords(s.hw, o, before, s.switchNpus, false);
      var c := UtCommitModify(s.hw, o, before, s.switchNpus);
      if c.status.Success? { EditedIsPlaced(before, edits, s.switchNpus, c.objNew); }
    }
  }

  // ----- what a request leaves alone -----

  /** The object that a request is about. */
  predicate Names(r: Request, id: ObjId) {
    (r.Modify? && r.id == id) || (r.Delete? && r.id == id)
  }

  /**
   * A request changes no stored object but its own. A create that succeeds stores one under
   * the next id, a delete that succeeds drops its own, no other request adds or drops any,
   * and only adding an NPU to the switch changes the switch.
   */
  lemma ServeConfined(s: System, r: Request)
    requires forall id :: id in s.store ==> id <= s.lastId
    ensures var reply := Serve(s, r);
      var made := r.Create? && reply.status.Success?;
      && reply.sys.lastId == (if made then s.lastId + 1 else s.lastId)
      && (forall id :: id in reply.sys.store <==>
           || (made && id == s.lastId + 1)
           || (id in s.store && !(r == Delete(id) && reply.status.Success?)))
      && (forall id :: id in s.store && !Names(r, id) ==> reply.sys.store[id] == s.store[id])
      && reply.sys.switchNpus == (if r.GrowSwitch? then s.switchNpus + {r.npu} else s.switchNpus)
      && ((r.Modify? || r.Delete?) && r.id !in s.store ==> reply.status.BadParam? && reply.sys == s)
      && (r.GrowSwitch? ==> reply.status.Success? && reply.sys.hw == s.hw)
  {
    hide UtCommitCreate, UtCommitModify, CommitDelete;
  }
}
