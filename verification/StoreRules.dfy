/** What holds of every stored object whatever the hardware does, even when rollbacks fail. */
module StoreRules {
  import opened Ordering
  import opened NdiHardware
  import opened CommitModel
  import opened CommitTheory
  import opened StoreModel

  // ----- what a commit records in the object -----

  /**
   * The committed object keeps its values, is on its own NPUs or else on all of the
   * switch's and follows it, and has nothing pending.
   */
  ghost predicate Recorded(o: Obj, o': Obj, switchNpus: set<NpuId>) {
    && o'.created && o'.attrs == o.attrs && o'.dirty == {} && !o'.npuListDirty
    && o'.npus == (if o.npus == {} then switchNpus else o.npus)
    && (o'.followingSwitch <==> o.followingSwitch || o.npus == {})
  }

  /**
   * A create records exactly the attributes given, a modify adds them; a modify or delete
   * that does not succeed changes only handles.
   */
  lemma CommitRecords(hw: Hw, o: Obj, objOld: Obj, switchNpus: set<NpuId>, rollingBack: bool)
    ensures var c := CommitCreate(hw, o, switchNpus, rollingBack);
      c.status.Success? ==> Recorded(o, c.objNew, switchNpus) && c.objNew.setAttrs == o.dirty
    ensures var m := CommitModify(hw, o, objOld, switchNpus, rollingBack);
      && SameButHandles(objOld, m.objOld)
      && (m.status.Success? ==> Recorded(o, m.objNew, switchNpus) && m.objNew.setAttrs == o.setAttrs + o.dirty)
    ensures var d := CommitDelete(hw, objOld, rollingBack);
      !d.status.Success? ==> SameButHandles(objOld, d.objOld)
  {
    CreateRecords(hw, o, switchNpus, rollingBack);
    ModifyRecords(hw, o, objOld, switchNpus, rollingBack);
    DeleteRecords(hw, objOld, rollingBack);
  }

  lemma CreateRecords(hw: Hw, o: Obj, switchNpus: set<NpuId>, rollingBack: bool)
    ensures var c := CommitCreate(hw, o, switchNpus, rollingBack);
      c.status.Success? ==> Recorded(o, c.objNew, switchNpus) && c.objNew.setAttrs == o.dirty
  {
    hide Commit, CreatePlan;
    var o1 := WithNpus(o.(setAttrs := o.dirty), switchNpus);
    CommitTouchesHandles(World(hw, o1, Nowhere(o1)), CreatePlan(o1), rollingBack);
  }

  lemma ModifyRecords(hw: Hw, o: Obj, objOld: Obj, switchNpus: set<NpuId>, rollingBack: bool)
    ensures var m := CommitModify(hw, o, objOld, switchNpus, rollingBack);
      && SameButHandles(objOld, m.objOld)
      && (m.status.Success? ==> Recorded(o, m.objNew, switchNpus) && m.objNew.setAttrs == o.setAttrs + o.dirty)
  {
    hide Commit, ModifyPlan;
    var o1 := WithNpus(o.(setAttrs := o.setAttrs + o.dirty), switchNpus);
    CommitTouchesHandles(World(hw, o1, objOld), ModifyPlan(o1, objOld), rollingBack);
  }

  lemma DeleteRecords(hw: Hw, o: Obj, rollingBack: bool)
    ensures var d := CommitDelete(hw, o, rollingBack);
      !d.status.Success? ==> SameButHandles(o, d.objOld)
  {
    hide Commit, DeletePlan;
    CommitTouchesHandles(World(hw, Nowhere(o), o), DeletePlan(o), rollingBack);
  }

  // ----- what holds of every stored object -----

  /** A value the object was given lies in its range; one never given is whatever memory held. */
  ghost predicate InRange(o: Obj, a: AttrId) {
    a in o.attrs && (a == ATTR1 ==> o.attrs[a] <= MAX_ATTR1_RANGE) && (a == ATTR2 ==> o.attrs[a] <= MAX_ATTR2_RANGE)
  }

  /**
   * A stored object has its mandatory attribute, every attribute ever set is in range, its
   * NPUs belong to the switch, and if it has none it follows the switch.
   */
  ghost predicate Lawful(o: Obj, switchNpus: set<NpuId>) {
    && ATTR1 in o.setAttrs && (forall a :: a in o.setAttrs ==> InRange(o, a))
    && o.npus <= switchNpus && (o.npus == {} ==> o.followingSwitch)
    && !o.npuListDirty && o.dirty == {} && o.created
  }

  /** An object that follows the switch is on all of its NPUs. */
  ghost predicate Follows(o: Obj, switchNpus: set<NpuId>) {
    o.followingSwitch ==> o.npus == switchNpus
  }

  /** An object under edit that follows the switch is on all of its NPUs, or on none and will be given them. */
  ghost predicate WillFollow(o: Obj, switchNpus: set<NpuId>) {
    o.followingSwitch ==> o.npus == {} || o.npus == switchNpus
  }

  /** An object under edit: what it was given and added so far is lawful. */
  ghost predicate Drafted(o: Obj, switchNpus: set<NpuId>) {
    (forall a :: a in o.setAttrs || a in o.dirty ==> InRange(o, a)) && o.npus <= switchNpus
  }

  lemma EditKeepsDraft(o: Obj, e: Edit, switchNpus: set<NpuId>)
    requires Drafted(o, switchNpus)
    ensures var o' := Edited(o, e, switchNpus).1;
      && Drafted(o', switchNpus) && o'.setAttrs == o.setAttrs && o'.created == o.created
      && (WillFollow(o, switchNpus) ==> WillFollow(o', switchNpus))
  {
  }

  lemma {:induction false} EditsKeepDraft(o: Obj, edits: seq<Edit>, switchNpus: set<NpuId>)
    requires Drafted(o, switchNpus)
    ensures var o' := EditedAll(o, edits, switchNpus).1;
      && Drafted(o', switchNpus) && o'.setAttrs == o.setAttrs && o'.created == o.created
      && (WillFollow(o, switchNpus) ==> WillFollow(o', switchNpus))
    decreases |edits|
  {
    if edits != [] {
      var (status, o1) := Edited(o, edits[0], switchNpus);
      EditKeepsDraft(o, edits[0], switchNpus);
      if status.Success? { EditsKeepDraft(o1, edits[1..], switchNpus); }
    }
  }

  ghost predicate AllLawful(s: System) {
    forall id :: id in s.store ==> Lawful(s.store[id], s.switchNpus)
  }

  ghost predicate AllFollow(s: System) {
    forall id :: id in s.store ==> Follows(s.store[id], s.switchNpus)
  }

  lemma CreatedIsLawful(hw: Hw, o: Obj, switchNpus: set<NpuId>)
    requires Drafted(o, switchNpus) && o.setAttrs == {} && ATTR1 in o.dirty
    ensures var c := CommitCreate(hw, o, switchNpus, false);
      c.status.Success? ==>
        Lawful(c.objNew, switchNpus) && (WillFollow(o, switchNpus) ==> Follows(c.objNew, switchNpus))
  {
    CreateRecords(hw, o, switchNpus, false);
    var c := CommitCreate(hw, o, switchNpus, false);
    if c.status.Success? { LawfulOnceRecorded(o, c.objNew, switchNpus); }
  }

  lemma LawfulOnceRecorded(o: Obj, o': Obj, switchNpus: set<NpuId>)
    requires Drafted(o, switchNpus) && Recorded(o, o', switchNpus)
    requires ATTR1 in o'.setAttrs && o'.setAttrs <= o.setAttrs + o.dirty
    ensures Lawful(o', switchNpus) && (WillFollow(o, switchNpus) ==> Follows(o', switchNpus))
  {
    forall a | a in o'.setAttrs ensures InRange(o', a) { assert InRange(o, a); }
  }

  lemma LawfulWithOtherHandles(o: Obj, o': Obj, switchNpus: set<NpuId>)
    requires Lawful(o, switchNpus) && SameButHandles(o, o')
    ensures Lawful(o', switchNpus) && (Follows(o, switchNpus) ==> Follows(o', switchNpus))
  {
    forall a | a in o'.setAttrs ensures InRange(o', a) { assert InRange(o, a); }
  }

  lemma ModifiedIsLawful(hw: Hw, o: Obj, objOld: Obj, switchNpus: set<NpuId>)
    requires Lawful(objOld, switchNpus) && Drafted(o, switchNpus) && o.setAttrs == objOld.setAttrs && o.created
    ensures var c := CommitModify(hw, o, objOld, switchNpus, false);
      var kept := if c.status.Success? then c.objNew else c.objOld;
      && Lawful(kept, switchNpus)
      && (WillFollow(o, switchNpus) && Follows(objOld, switchNpus) ==> Follows(kept, switchNpus))
  {
    ModifyRecords(hw, o, objOld, switchNpus, false);
    var c := CommitModify(hw, o, objOld, switchNpus, false);
    if c.status.Success? { LawfulOnceRecorded(o, c.objNew, switchNpus); }
    else { LawfulWithOtherHandles(objOld, c.objOld, switchNpus); }
  }

  /** From `s` to `s'` the law holds again, and followers still follow. */
  ghost predicate KeepsLaw(s: System, s': System) {
    AllLawful(s') && (AllFollow(s) ==> AllFollow(s'))
  }

  lemma CreateKeepsLaw(s: System, memory1: nat, memory2: nat, edits: seq<Edit>)
    requires AllLawful(s)
    ensures KeepsLaw(s, ServeCreate(s, memory1, memory2, edits).sys)
  {
    var (status, o) := EditedAll(Blank(memory1, memory2), edits, s.switchNpus);
    EditsKeepDraft(Blank(memory1, memory2), edits, s.switchNpus);
    if ATTR1 in o.dirty { CreatedIsLawful(s.hw, o, s.switchNpus); }
    LawfulAfterCreate(s, UtCommitCreate(s.hw, o, s.switchNpus));
  }

  lemma LawfulAfterCreate(s: System, c: Committed)
    requires AllLawful(s)
    requires c.status.Success? ==> Lawful(c.objNew, s.switchNpus) && Follows(c.objNew, s.switchNpus)
    ensures KeepsLaw(s, AfterCreate(s, c).sys)
  {
  }

  lemma ModifyKeepsLaw(s: System, id: ObjId, edits: seq<Edit>)
    requires AllLawful(s)
    ensures KeepsLaw(s, ServeModify(s, id, edits).sys)
  {
    if id in s.store {
      var (status, o) := EditedAll(s.store[id], edits, s.switchNpus);
      EditsKeepDraft(s.store[id], edits, s.switchNpus);
      ModifiedIsLawful(s.hw, o, s.store[id], s.switchNpus);
      LawfulAfterModify(s, id, UtCommitModify(s.hw, o, s.store[id], s.switchNpus));
    }
  }

  lemma LawfulAfterModify(s: System, id: ObjId, c: Committed)
    requires AllLawful(s) && id in s.store
    requires var kept := if c.status.Success? then c.objNew else c.objOld;
      Lawful(kept, s.switchNpus) && (Follows(s.store[id], s.switchNpus) ==> Follows(kept, s.switchNpus))
    ensures KeepsLaw(s, AfterModify(s, id, c).sys)
  {
  }

  lemma DeleteKeepsLaw(s: System, id: ObjId)
    requires AllLawful(s)
    ensures KeepsLaw(s, ServeDelete(s, id).sys)
  {
    if id in s.store {
      var o := s.store[id];
      DeleteRecords(s.hw, o, false);
      var c := CommitDelete(s.hw, o, false);
      if !c.status.Success? { LawfulWithOtherHandles(o, c.objOld, s.switchNpus); }
    }
  }

  /** No stored object follows the switch. */
  ghost predicate NoFollower(s: System) {
    forall id :: id in s.store ==> !s.store[id].followingSwitch
  }

  /**
   * Adding an NPU to the switch changes no object, so the ones that follow the switch still
   * have all its NPUs exactly when the NPU was there before or there is no such object.
   */
  lemma GrowthLeavesFollowersIff(s: System, n: NpuId)
    requires AllFollow(s)
    ensures AllFollow(Serve(s, GrowSwitch(n)).sys) <==> n in s.switchNpus || NoFollower(s)
  {
  }

  lemma ServeKeepsLaw(s: System, r: Request)
    requires AllLawful(s)
    ensures AllLawful(Serve(s, r).sys)
    ensures AllFollow(s) && !r.GrowSwitch? ==> AllFollow(Serve(s, r).sys)
  {
    match r
    case Create(m1, m2, edits) => CreateKeepsLaw(s, m1, m2, edits);
    case Modify(id, edits) => ModifyKeepsLaw(s, id, edits);
    case Delete(id) => DeleteKeepsLaw(s, id);
    case GrowSwitch(n) =>
  }

  /** Over every run, clean or not. */
  lemma {:induction false} RunKeepsLaw(s: System, rs: seq<Request>)
    requires AllLawful(s)
    ensures AllLawful(Served(s, rs).0)
    decreases |rs|
  {
    if rs != [] {
      ServeKeepsLaw(s, rs[0]);
      RunKeepsLaw(Serve(s, rs[0]).sys, rs[1..]);
    }
  }

  // ----- objects that follow the switch -----

  ghost predicate FollowThroughout(s: System, rs: seq<Request>)
    decreases |rs|
  {
    AllFollow(s) && (rs != [] ==> FollowThroughout(Serve(s, rs[0]).sys, rs[1..]))
  }

  /** Every NPU added to the switch was there before or finds no object that follows the switch. */
  ghost predicate GrowsUnnoticed(s: System, rs: seq<Request>)
    decreases |rs|
  {
    rs != [] ==>
      && (rs[0].GrowSwitch? ==> rs[0].npu in s.switchNpus || NoFollower(s))
      && GrowsUnnoticed(Serve(s, rs[0]).sys, rs[1..])
  }

  /** Over every run: followers have all NPUs of the switch all along exactly when the switch grows unnoticed. */
  lemma {:induction false} FollowThroughoutIff(s: System, rs: seq<Request>)
    requires AllLawful(s) && AllFollow(s)
    ensures FollowThroughout(s, rs) <==> GrowsUnnoticed(s, rs)
    decreases |rs|
  {
    if rs != [] {
      var s1 := Serve(s, rs[0]).sys;
      ServeKeepsLaw(s, rs[0]);
      if rs[0].GrowSwitch? { GrowthLeavesFollowersIff(s, rs[0].npu); }
      if AllFollow(s1) { FollowThroughoutIff(s1, rs[1..]); }
    }
  }

  /** An object created on all of the switch is left behind when the switch grows, and a modify does not catch it up. */
  lemma FollowerIsLeftBehind()
    ensures var rs := [Create(0, 0, [SetAttr1(1)]), GrowSwitch(1), Modify(1, [SetAttr1(2)])];
      var s := Served(System(Hw([], map[], 0, []), map[], 0, {0}), rs).0;
      1 in s.store && s.store[1].followingSwitch && s.store[1].npus == {0} && s.switchNpus == {0, 1}
  {
    var made, grown, modified := Create(0, 0, [SetAttr1(1)]), GrowSwitch(1), Modify(1, [SetAttr1(2)]);
    var s0 := System(Hw([], map[], 0, []), map[], 0, {0});
    var s1 := Serve(s0, made).sys;
    var s2 := Serve(s1, grown).sys;
    CreatedOnTheSwitch(s0);
    StaysBehind(s2, 1, [SetAttr1(2)]);
    var rs := [made, grown, modified];
    assert rs[1..] == [grown, modified] && rs[1..][1..] == [modified] && rs[1..][1..][1..] == [];
    assert Served(s0, rs).0 == Served(s1, rs[1..]).0 == Served(s2, rs[1..][1..]).0;
  }

  lemma CreatedOnTheSwitch(s: System)
    requires s.hw.script == [] && s.switchNpus == {0} && s.lastId == 0
    ensures var s' := Serve(s, Create(0, 0, [SetAttr1(1)])).sys;
      1 in s'.store && s'.store[1].followingSwitch && s'.store[1].npus == {0} && s'.switchNpus == {0}
  {
    var o := Edited(Blank(0, 0), SetAttr1(1), {0}).1;
    assert [SetAttr1(1)][1..] == [] && EditedAll(Blank(0, 0), [SetAttr1(1)], {0}) == (Success, o);
    var c := CommitCreate(s.hw, o, {0}, false);
    CreateRecords(s.hw, o, {0}, false);
    var o1 := WithNpus(o.(setAttrs := o.dirty), {0});
    CommitSucceeds(World(s.hw, o1, Nowhere(o1)), CreatePlan(o1));
    StepsHold(0, Ascending(o1.npus));
    CommitHandles(World(s.hw, o1, Nowhere(o1)), CreatePlan(o1), false);
  }

  lemma {:induction false} CommitSucceeds(w: World, plan: seq<Step>)
    requires w.hw.script == []
    ensures !Commit(w, plan, false).end.Threw? && !Forward(w, plan, false).end.Threw?
    decreases |plan|
  {
    if plan != [] && !Escapes(w, plan[0]) { CommitSucceeds(Push(w, plan[0]), plan[1..]); }
  }

  /** The NPUs are reset, and none is added after that. */
  predicate ResetLast(edits: seq<Edit>) {
    exists i :: 0 <= i < |edits| && edits[i].ResetNpus? && forall j :: i < j < |edits| ==> !edits[j].AddNpu?
  }

  predicate AddsNone(edits: seq<Edit>) {
    forall i :: 0 <= i < |edits| ==> !edits[i].AddNpu?
  }

  lemma ResetLastOfMore(edits: seq<Edit>)
    requires edits != []
    ensures AddsNone(edits) <==> !edits[0].AddNpu? && AddsNone(edits[1..])
    ensures ResetLast(edits) <==> ResetLast(edits[1..]) || (edits[0].ResetNpus? && AddsNone(edits[1..]))
  {
    var rest := edits[1..];
    assert forall j :: 0 < j < |edits| ==> edits[j] == rest[j - 1];
    if i :| 0 <= i < |edits| && edits[i].ResetNpus? && forall j :: i < j < |edits| ==> !edits[j].AddNpu? {
      if i > 0 { assert rest[i - 1].ResetNpus? && forall j :: i - 1 < j < |rest| ==> !rest[j].AddNpu?; }
    }
    if i :| 0 <= i < |rest| && rest[i].ResetNpus? && forall j :: i < j < |rest| ==> !rest[j].AddNpu? {
      assert edits[i + 1].ResetNpus?;
    }
  }

  /** What edits that go through make of an object's NPUs and of its following the switch. */
  lemma {:induction false} EditsOnNpus(o: Obj, edits: seq<Edit>, switchNpus: set<NpuId>)
    requires EditedAll(o, edits, switchNpus).0.Success?
    ensures var o' := EditedAll(o, edits, switchNpus).1;
      && (o'.followingSwitch <==> o.followingSwitch && AddsNone(edits))
      && (o'.npus == {} <==> ResetLast(edits) || (o.npus == {} && AddsNone(edits)))
      && (AddsNone(edits) && !ResetLast(edits) ==> o'.npus == o.npus)
    decreases |edits|
  {
    if edits != [] {
      var o1 := Edited(o, edits[0], switchNpus).1;
      EditsOnNpus(o1, edits[1..], switchNpus);
      ResetLastOfMore(edits);
      if edits[0].AddNpu? { assert edits[0].npu in o1.npus; }
    }
  }

  /**
   * A modify catches a left-behind follower up, so that it follows the switch on all of its
   * NPUs, exactly when it succeeds and leaves the object no NPU of its own: it resets them
   * and adds none after that, or there was none and it adds none.
   */
  lemma ModifyCatchesUpIff(s: System, id: ObjId, edits: seq<Edit>)
    requires id in s.store && !Follows(s.store[id], s.switchNpus)
    ensures var o, reply := s.store[id], Serve(s, Modify(id, edits));
      && id in reply.sys.store && reply.sys.switchNpus == s.switchNpus
      && var kept := reply.sys.store[id];
         kept.followingSwitch && kept.npus == s.switchNpus <==>
           reply.status.Success? && (ResetLast(edits) || (o.npus == {} && AddsNone(edits)))
  {
    var o := EditedAll(s.store[id], edits, s.switchNpus).1;
    if EditedAll(s.store[id], edits, s.switchNpus).0.Success? {
      EditsOnNpus(s.store[id], edits, s.switchNpus);
      ModifyRecords(s.hw, o, s.store[id], s.switchNpus, false);
    }
  }

  /** In particular a modify that neither adds nor resets NPUs leaves an object where it is. */
  lemma StaysBehind(s: System, id: ObjId, edits: seq<Edit>)
    requires id in s.store && s.store[id].npus != {} && forall e :: e in edits ==> !e.AddNpu? && !e.ResetNpus?
    ensures var s' := Serve(s, Modify(id, edits)).sys;
      && id in s'.store && s'.store[id].npus == s.store[id].npus && s'.switchNpus == s.switchNpus
      && s'.store[id].followingSwitch == s.store[id].followingSwitch
  {
    var o := EditedAll(s.store[id], edits, s.switchNpus).1;
    assert AddsNone(edits) && !ResetLast(edits);
    if EditedAll(s.store[id], edits, s.switchNpus).0.Success? {
      EditsOnNpus(s.store[id], edits, s.switchNpus);
      ModifyRecords(s.hw, o, s.store[id], s.switchNpus, false);
    }
  }

  // ----- objects stay settled -----

  ghost predicate AllSettled(s: System) {
    forall id :: id in s.store ==> Settled(s.store[id])
  }

  lemma CreatedIsSettled(hw: Hw, o: Obj, switchNpus: set<NpuId>)
    requires hw.NoSkips() && o.attrs.Keys == {ATTR1, ATTR2}
    ensures var c := CommitCreate(hw, o, switchNpus, false);
      && c.hw.script == hw.script && !c.status.OutOfRange?
      && (c.status.Success? ==> Settled(c.objNew))
  {
    if !o.created {
      var o1 := WithNpus(o.(setAttrs := o.dirty), switchNpus);
      var w := World(hw, o1, Nowhere(o1));
      var c := Commit(w, CreatePlan(o1), false);
      StepsHold(0, Ascending(o1.npus));
      CommitHandles(w, CreatePlan(o1), false);
      CommitTouchesHandles(w, CreatePlan(o1), false);
      if c.end.Finished? {
        forall n | n in o1.npus ensures n in c.w.objNew.handles { assert CreateOn(n) in CreatePlan(o1); }
      }
    }
  }

  lemma ModifiedIsSettled(hw: Hw, o: Obj, objOld: Obj, switchNpus: set<NpuId>)
    requires hw.NoSkips() && Settled(objOld) && EditOf(objOld, o)
    ensures var c := CommitModify(hw, o, objOld, switchNpus, false);
      && c.hw.script == hw.script && !c.status.OutOfRange?
      && Settled(if c.status.Success? then c.objNew else c.objOld)
  {
    var o1 := WithNpus(o.(setAttrs := o.setAttrs + o.dirty), switchNpus);
    var w, plan := World(hw, o1, objOld), ModifyPlan(o1, objOld);
    var c := Commit(w, plan, false);
    ModifyIsEquipped(w);
    CommitHandles(w, plan, false);
    CommitTouchesHandles(w, plan, false);
    if c.end.Finished? {
      forall n | n in o1.npus ensures n in c.w.objNew.handles {
        assert n in objOld.npus || CreateOn(n) in plan;
        assert n in objOld.npus ==> n in w.objNew.handles.Keys;
      }
    }
  }

  lemma ModifyIsEquipped(w: World)
    requires w.objNew.handles == w.objOld.handles && w.objOld.npus <= w.objOld.handles.Keys
    ensures Equipped(w, ModifyPlan(w.objNew, w.objOld))
    ensures forall n :: n in w.objNew.npus - w.objOld.npus ==> CreateOn(n) in ModifyPlan(w.objNew, w.objOld)
  {
    ModifyPlanHolds(w);
    forall n | n in w.objNew.npus - w.objOld.npus ensures CreateOn(n) in ModifyPlan(w.objNew, w.objOld) {
      assert Planned(w, CreateOn(n));
    }
  }

  lemma DeletedStaysSettled(hw: Hw, o: Obj)
    requires hw.NoSkips() && Settled(o)
    ensures var c := CommitDelete(hw, o, false);
      && c.hw.script == hw.script && !c.status.OutOfRange?
      && (!c.status.Success? ==> Settled(c.objOld))
  {
    var w := World(hw, Nowhere(o), o);
    StepsHold(0, Ascending(o.npus));
    CommitHandles(w, DeletePlan(o), false);
    CommitTouchesHandles(w, DeletePlan(o), false);
  }

  /** All objects are settled, nothing will be skipped, and no handle was missing. */
  ghost predicate StaysSettled(reply: Reply) {
    AllSettled(reply.sys) && reply.sys.hw.NoSkips() && !reply.status.OutOfRange?
  }

  lemma CreateKeepsSettled(s: System, memory1: nat, memory2: nat, edits: seq<Edit>)
    requires AllSettled(s) && s.hw.NoSkips()
    ensures StaysSettled(ServeCreate(s, memory1, memory2, edits))
  {
    var (status, o) := EditedAll(Blank(memory1, memory2), edits, s.switchNpus);
    EditsAreEdits(Blank(memory1, memory2), edits, s.switchNpus);
    CreatedIsSettled(s.hw, o, s.switchNpus);
    SettledAfterCreate(s, UtCommitCreate(s.hw, o, s.switchNpus));
  }

  lemma SettledAfterCreate(s: System, c: Committed)
    requires AllSettled(s) && s.hw.NoSkips() && c.hw.script == s.hw.script && !c.status.OutOfRange?
    requires c.status.Success? ==> Settled(c.objNew)
    ensures StaysSettled(AfterCreate(s, c))
  {
  }

  lemma ModifyKeepsSettled(s: System, id: ObjId, edits: seq<Edit>)
    requires AllSettled(s) && s.hw.NoSkips()
    ensures StaysSettled(ServeModify(s, id, edits))
  {
    if id in s.store {
      var (status, o) := EditedAll(s.store[id], edits, s.switchNpus);
      EditsAreEdits(s.store[id], edits, s.switchNpus);
      ModifiedIsSettled(s.hw, o, s.store[id], s.switchNpus);
      SettledAfterModify(s, id, UtCommitModify(s.hw, o, s.store[id], s.switchNpus));
    }
  }

  lemma SettledAfterModify(s: System, id: ObjId, c: Committed)
    requires AllSettled(s) && s.hw.NoSkips() && c.hw.script == s.hw.script && !c.status.OutOfRange?
    requires Settled(if c.status.Success? then c.objNew else c.objOld)
    ensures StaysSettled(AfterModify(s, id, c))
  {
  }

  /** One request, lost undos included. */
  lemma ServeKeepsSettled(s: System, r: Request)
    requires AllSettled(s) && s.hw.NoSkips()
    ensures StaysSettled(Serve(s, r))
  {
    match r
    case Create(m1, m2, edits) => CreateKeepsSettled(s, m1, m2, edits);
    case Modify(id, edits) => ModifyKeepsSettled(s, id, edits);
    case Delete(id) => if id in s.store { DeletedStaysSettled(s.hw, s.store[id]); }
    case GrowSwitch(n) =>
  }

  /** No request of the run ended in the exception of a handle lookup. */
  ghost predicate NoneEscapes(s: System, rs: seq<Request>)
    decreases |rs|
  {
    rs != [] ==> !Serve(s, rs[0]).status.OutOfRange? && NoneEscapes(Serve(s, rs[0]).sys, rs[1..])
  }

  /**
   * Over every run in which nothing is skipped, however many undos are lost: every stored
   * object has a handle on each of its NPUs and nothing pending, and no lookup throws.
   */
  lemma {:induction false} RunKeepsSettled(s: System, rs: seq<Request>)
    requires AllSettled(s) && s.hw.NoSkips()
    ensures AllSettled(Served(s, rs).0) && NoneEscapes(s, rs)
    decreases |rs|
  {
    if rs != [] {
      ServeKeepsSettled(s, rs[0]);
      RunKeepsSettled(Serve(s, rs[0]).sys, rs[1..]);
    }
  }
}
