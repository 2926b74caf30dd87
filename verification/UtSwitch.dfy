/** The derived object and switch of the unit test: the store, and the requests its clients run against it. */
module UtSwitches {
  import opened NdiHardware
  import opened CommitModel
  import opened BaseObjects
  import M = StoreModel

  type ObjId = M.ObjId

  // ----- the derived object -----

  method SetAttr(o: BaseObj, a: AttrId, max: nat, v: nat) returns (status: Status)
    modifies o`attrs, o`dirty
    ensures (status, o.Snap()) == M.AttrSet(old(o.Snap()), a, max, v)
  {
    if v > max {
      return BadParam;
    }
    o.attrs := o.attrs[a := v];
    o.MarkAttrDirty(a);
    status := Success;
  }

  method Apply(o: BaseObj, e: M.Edit) returns (status: Status)
    requires o.npuSet != o.sw.npus
    modifies o, o.npuSet
    ensures (status, o.Snap()) == M.Edited(old(o.Snap()), e, old(o.sw.npus.npus))
  {
    match e
    case SetAttr1(v) => status := SetAttr(o, M.ATTR1, M.MAX_ATTR1_RANGE, v);
    case SetAttr2(v) => status := SetAttr(o, M.ATTR2, M.MAX_ATTR2_RANGE, v);
    case AddNpu(n, reset) => status := o.AddNpu(n, reset);
    case ResetNpus =>
      o.ResetNpus();
      status := Success;
  }

  method ApplyAll(o: BaseObj, edits: seq<M.Edit>) returns (status: Status)
    requires o.npuSet != o.sw.npus
    modifies o, o.npuSet
    ensures (status, o.Snap()) == M.EditedAll(old(o.Snap()), edits, old(o.sw.npus.npus))
  {
    status := Success;
    ghost var whole := M.EditedAll(o.Snap(), edits, o.sw.npus.npus);
    var i := 0;
    while i < |edits|
      invariant 0 <= i <= |edits| && status.Success?
      invariant o.sw.npus.npus == old(o.sw.npus.npus)
      invariant M.EditedAll(o.Snap(), edits[i..], o.sw.npus.npus) == whole
    {
      assert edits[i..][0] == edits[i] && edits[i..][1..] == edits[i + 1..];
      status := Apply(o, edits[i]);
      if !status.Success? {
        return;
      }
      i := i + 1;
    }
  }

  method UtCommitCreate(o: BaseObj, ndi: Ndi) returns (status: Status)
    modifies ndi, o, o.npuSet
    ensures o.attrs == old(o.attrs) && (status.Success? ==> o.dirty == {})
    ensures var c := M.UtCommitCreate(old(ndi.hw), old(o.Snap()), old(o.sw.npus.npus));
      ndi.hw == c.hw && o.Snap() == c.objNew && status == c.status
  {
    if M.ATTR1 !in o.dirty {
      return BadParam;
    }
    status := o.CommitCreate(ndi, false);
  }

  method UtCommitModify(objNew: BaseObj, objOld: BaseObj, ndi: Ndi) returns (status: Status)
    requires objNew != objOld && objNew.npuSet != objOld.npuSet
    requires M.HasFields(objOld.Snap()) && M.HasFields(objNew.Snap())
    modifies ndi, objNew, objNew.npuSet, objOld`handles
    ensures objNew.attrs == old(objNew.attrs) && (status.Success? ==> objNew.dirty == {})
    ensures var c := M.UtCommitModify(old(ndi.hw), old(objNew.Snap()), old(objOld.Snap()), old(objNew.sw.npus.npus));
      && ndi.hw == c.hw && objNew.Snap() == c.objNew && objOld.Snap() == c.objOld && status == c.status
  {
    if objNew.attrs[M.ATTR2] > objNew.attrs[M.ATTR1] {
      return BadParam;
    }
    var modified;
    status, modified := objNew.CommitModify(objOld, ndi, false);
  }

  // ----- the store -----

  /**
   * The store holds its objects by value. A request works on an object loaded from it, and
   * stores it back. Nothing is asked of the handles: `StoreRules.RunKeepsSettled` says when
   * none is ever missing, and what a missing one does is up to the commits.
   */
  class UtSwitch {
    const base: BaseSwitch
    const ndi: Ndi
    var objs: map<ObjId, Obj>
    var lastId: ObjId

    function State(): M.System
      reads this, ndi, base.npus
    {
      M.System(ndi.hw, objs, lastId, base.npus.npus)
    }

    ghost predicate Valid()
      reads this
    {
      forall id :: id in objs ==> M.HasFields(objs[id])
    }

    constructor (script: seq<Fate>)
      ensures Valid()
      ensures State() == M.System(Hw(script, map[], 0, []), map[], 0, {})
    {
      base := new BaseSwitch();
      ndi := new Ndi(script);
      objs := map[];
      lastId := 0;
    }

    /** The switch gets another NPU; its objects are not told. */
    method AddNpu(n: NpuId)
      requires Valid()
      modifies base.npus
      ensures Valid() && State() == M.Serve(old(State()), M.GrowSwitch(n)).sys
    {
      base.AddNpu(n);
    }

    method BuildAndCommit(memory1: nat, memory2: nat, edits: seq<M.Edit>) returns (status: Status, o: BaseObj)
      modifies ndi
      ensures fresh(o) && fresh(o.npuSet) && (status.Success? ==> M.HasFields(o.Snap()))
      ensures var (edited, e) := M.EditedAll(M.Blank(memory1, memory2), edits, base.npus.npus);
        if !edited.Success? then ndi.hw == old(ndi.hw) && status == edited else
        var c := M.UtCommitCreate(old(ndi.hw), e, base.npus.npus);
        ndi.hw == c.hw && status == c.status && o.Snap() == c.objNew
    {
      hide M.UtCommitCreate;
      o := new BaseObj(base, map[M.ATTR1 := memory1, M.ATTR2 := memory2]);
      M.EditsAreEdits(o.Snap(), edits, base.npus.npus);
      status := ApplyAll(o, edits);
      if status.Success? {
        status := UtCommitCreate(o, ndi);
      }
    }

    /** A client builds an object and commits it, and stores it if that succeeded. */
    method Create(memory1: nat, memory2: nat, edits: seq<M.Edit>) returns (status: Status)
      requires Valid()
      modifies this, ndi
      ensures Valid()
      ensures var reply := M.ServeCreate(old(State()), memory1, memory2, edits);
        State() == reply.sys && status == reply.status
    {
      hide M.UtCommitCreate;
      ghost var s := State();
      var o;
      status, o := BuildAndCommit(memory1, memory2, edits);
      M.CreateReply(s, memory1, memory2, edits, ndi.hw, status, o.Snap());
      if status.Success? {
        lastId := lastId + 1;
        objs := objs[lastId := o.Snap()];
      }
    }

    method CopyAndCommit(objOld: BaseObj, edits: seq<M.Edit>) returns (status: Status, objNew: BaseObj)
      requires objOld.sw == base && objOld.npuSet != base.npus && M.HasFields(objOld.Snap())
      modifies ndi, objOld`handles
      ensures fresh(objNew) && fresh(objNew.npuSet) && (status.Success? ==> M.HasFields(objNew.Snap()))
      ensures var (edited, e) := M.EditedAll(old(objOld.Snap()), edits, base.npus.npus);
        if !edited.Success? then ndi.hw == old(ndi.hw) && status == edited && objOld.Snap() == old(objOld.Snap()) else
        var c := M.UtCommitModify(old(ndi.hw), e, old(objOld.Snap()), base.npus.npus);
        ndi.hw == c.hw && status == c.status && objNew.Snap() == c.objNew && objOld.Snap() == c.objOld
    {
      objNew := new BaseObj.CopyOf(objOld);
      M.EditsAreEdits(objOld.Snap(), edits, base.npus.npus);
      status := ApplyAll(objNew, edits);
      if status.Success? {
        status := UtCommitModify(objNew, objOld, ndi);
      }
    }

    /** Commits an edited copy against the stored object, and gives what is to be stored then. */
    method ModifyStored(o: Obj, edits: seq<M.Edit>) returns (status: Status, kept: Obj)
      requires M.HasFields(o)
      modifies ndi
      ensures M.HasFields(kept)
      ensures var (edited, e) := M.EditedAll(o, edits, base.npus.npus);
        if !edited.Success? then ndi.hw == old(ndi.hw) && status == edited && kept == o else
        var c := M.UtCommitModify(old(ndi.hw), e, o, base.npus.npus);
        ndi.hw == c.hw && status == c.status && kept == if c.status.Success? then c.objNew else c.objOld
    {
      var objOld := new BaseObj.Load(base, o);
      var objNew;
      status, objNew := CopyAndCommit(objOld, edits);
      if status.Success? {
        objOld.Assign(objNew);
      }
      kept := objOld.Snap();
    }

    /** A client edits a copy and commits it against the stored object, and stores it if that succeeded. */
    method Modify(id: ObjId, edits: seq<M.Edit>) returns (status: Status)
      requires Valid()
      modifies this, ndi
      ensures Valid()
      ensures var reply := M.ServeModify(old(State()), id, edits);
        State() == reply.sys && status == reply.status
    {
      if id !in objs {
        return BadParam;
      }
      hide M.UtCommitModify;
      ghost var s := State();
      var kept;
      status, kept := ModifyStored(objs[id], edits);
      objs := objs[id := kept];
      M.ModifyReply(s, id, edits, ndi.hw, status, kept);
      assert State() == s.(hw := ndi.hw, store := s.store[id := kept]);
    }

    /** A client deletes a stored object, and drops it if that succeeded. */
    method Delete(id: ObjId) returns (status: Status)
      requires Valid()
      modifies this, ndi
      ensures Valid()
      ensures var reply := M.ServeDelete(old(State()), id);
        State() == reply.sys && status == reply.status
    {
      if id !in objs {
        return BadParam;
      }
      var o := new BaseObj.Load(base, objs[id]);
      status := o.CommitDelete(ndi, false);
      if status.Success? {
        objs := objs - {id};
      } else {
        objs := objs[id := o.Snap()];
      }
    }
  }
}
