/** The promises of create, modify and delete commits. */
module CommitTheorems {
  import opened Ordering
  import opened NdiHardware
  import opened CommitModel
  import opened CommitTheory

  lemma SameKeys(w: World, w': World)
    requires Evolves(w, w')
    ensures forall n :: n in w'.objOld.handles <==> n in w.objOld.handles
  {
    forall n ensures n in w'.objOld.handles <==> n in w.objOld.handles {
      assert RenewedAt(w.objOld, w'.objOld, w.hw.count, n);
    }
  }

  /** A plan and what matters of it do not change as it is run. */
  lemma SamePlan(w: World, w': World)
    requires Evolves(w, w')
    ensures forall s :: Planned(w', s) <==> Planned(w, s)
    ensures forall s :: Matters(w', s) <==> Matters(w, s)
    ensures KeptHaveHandles(w') <==> KeptHaveHandles(w)
    ensures w.objOld.npus <= w.objOld.handles.Keys ==> w'.objOld.npus <= w'.objOld.handles.Keys
  {
    SameKeys(w, w');
    assert forall n :: n in w.objOld.npus ==> (n in w.objOld.handles.Keys <==> n in w'.objOld.handles.Keys);
  }

  lemma PlanHasHandles(w: World)
    requires Related(w)
    ensures w.objOld.npus <= w.objOld.handles.Keys ==> AllHandles(w, ModifyPlan(w.objNew, w.objOld))
  {
    ModifyPlanHolds(w);
    if w.objOld.npus <= w.objOld.handles.Keys {
      forall s | s in ModifyPlan(w.objNew, w.objOld) ensures !LacksHandle(w, s) {
        assert s.SetOn? ==> SameHandle(w.objNew, w.objOld, s.npu);
      }
    }
  }

  lemma ModifyIsReady(base: map<Slot, Attrs>, w: World)
    requires Related(w) && InPlace(base, w.hw, w.objOld)
    ensures Ready(base, w, {}, ModifyPlan(w.objNew, w.objOld))
  {
    ModifyPlanHolds(w);
    NothingInEffect(base, w);
  }

  /** Whatever the adversary does to a modify, a subset of its plan is in effect afterwards. */
  lemma ModifyKeeps(base: map<Slot, Attrs>, w: World, rollingBack: bool)
    requires Successor(w) && InPlace(base, w.hw, w.objOld)
    ensures var plan := ModifyPlan(w.objNew, w.objOld);
      var c := Commit(w, plan, rollingBack);
      && Evolves(w, c.w) && Successor(c.w) && (rollingBack ==> !c.end.Threw?)
      && InEffect(base, c.w, c.Left()) && AllPlanned(c.w, c.Left())
      && c.Left() == (if c.end.Threw? then c.lost else Steps(c.done))
      && Steps(c.done) <= Steps(plan) && c.lost <= Steps(c.done)
      && (w.objOld.npus <= w.objOld.handles.Keys ==> !c.end.Escaped?)
  {
    var plan := ModifyPlan(w.objNew, w.objOld);
    ModifyIsReady(base, w);
    CommitKeeps(base, w, plan, rollingBack);
    PlanHasHandles(w);
    var c := Commit(w, plan, rollingBack);
    forall s | s in c.Left() ensures Planned(c.w, s) { assert s in Steps(plan) && Planned(w, s); }
  }

  /**
   * A modify commit from an object in place, under any adversary. What is in effect
   * afterwards is known exactly. A commit that succeeds installs the new object exactly
   * when every step that matters was done and no NPU that keeps it lacks a handle. One that
   * does not succeed leaves the old object in place exactly when no step that matters stays
   * in effect: one whose undo was lost, or any that was done before the lookup of a handle
   * threw. From an object with all its handles no lookup does.
   */
  lemma ModifyCommit(base: map<Slot, Attrs>, w: World, rollingBack: bool)
    requires Successor(w) && InPlace(base, w.hw, w.objOld)
    ensures var c := Commit(w, ModifyPlan(w.objNew, w.objOld), rollingBack);
      && Evolves(w, c.w) && Related(c.w) && (rollingBack ==> !c.end.Threw?)
      && InEffect(base, c.w, c.Left())
      && c.Left() == (if c.end.Threw? then c.lost else Steps(c.done))
      && Steps(c.done) <= Steps(ModifyPlan(w.objNew, w.objOld)) && c.lost <= Steps(c.done)
      && (c.end.Finished? ==>
           (Installed(base, c.w.hw, c.w.objNew) <==>
            KeptHaveHandles(w) && forall s :: Planned(w, s) && Matters(w, s) ==> s in c.done))
      && (!c.end.Finished? ==>
           (InPlace(base, c.w.hw, c.w.objOld) <==> forall s :: s in c.Left() ==> !Matters(w, s)))
    ensures w.objOld.npus <= w.objOld.handles.Keys ==>
      var c := Commit(w, ModifyPlan(w.objNew, w.objOld), rollingBack);
      !c.end.Escaped? && c.w.objOld.npus <= c.w.objOld.handles.Keys
  {
    var c := Commit(w, ModifyPlan(w.objNew, w.objOld), rollingBack);
    ModifyKeeps(base, w, rollingBack);
    SamePlan(w, c.w);
    if c.end.Finished? { NewInPlaceIff(base, c.w, c.Left()); } else { OldInPlaceIff(base, c.w, c.Left()); }
  }

  /** All or nothing: with no push skipped and no undo lost, the outcome is the new object or the old one. */
  lemma ModifyIsAllOrNothing(base: map<Slot, Attrs>, w: World)
    requires Successor(w) && Installed(base, w.hw, w.objOld)
    ensures var plan := ModifyPlan(w.objNew, w.objOld);
      var c := Commit(w, plan, false);
      && !c.end.Escaped?
      && (c.end.Finished? && c.done == plan ==> Installed(base, c.w.hw, c.w.objNew))
      && (c.end.Threw? && c.lost == {} ==> Installed(base, c.w.hw, c.w.objOld))
  {
    ModifyCommit(base, w, false);
    ModifyPlanHolds(w);
  }

  /**
   * A slot on an NPU that no step in effect names is as the old object left it, on an NPU
   * that keeps the object exactly the attributes named by a step in effect are new, and
   * everyone else's slots are untouched wherever they are.
   */
  ghost predicate Confined(base: map<Slot, Attrs>, w: World, applied: set<Step>) {
    && (forall k: Slot :: (forall s :: s in applied ==> s.npu != k.npu) ==>
         At(w.hw.objs, k) == if w.objOld.Owns(k) then Holds(w.objOld.attrs) else At(base, k))
    && (forall k: Slot, a :: k.npu in w.objNew.npus && w.objOld.Owns(k) && a in w.objOld.attrs ==>
         && k in w.hw.objs && a in w.hw.objs[k]
         && w.hw.objs[k][a] == if SetOn(a, k.npu) in applied then w.objNew.ValueOf(a) else w.objOld.attrs[a])
    && (forall k :: k in base ==> At(w.hw.objs, k) == At(base, k))
  }

  /**
   * A modify that did not succeed differs from the state before it only where its own undo
   * pushes were lost, or where it had come when the lookup of a handle threw.
   */
  lemma RollbackIsConfined(base: map<Slot, Attrs>, w: World)
    requires Successor(w) && InPlace(base, w.hw, w.objOld)
    ensures var c := Commit(w, ModifyPlan(w.objNew, w.objOld), false);
      !c.end.Finished? ==>
        Evolves(w, c.w) && Confined(base, c.w, if c.end.Threw? then c.lost else Steps(c.done))
  {
    ModifyKeeps(base, w, false);
    var c := Commit(w, ModifyPlan(w.objNew, w.objOld), false);
    ConfinedToApplied(base, c.w, c.Left());
  }

  lemma ConfinedToApplied(base: map<Slot, Attrs>, w: World, applied: set<Step>)
    requires Related(w) && InEffect(base, w, applied) && AllPlanned(w, applied)
    ensures Confined(base, w, applied)
  {
    forall k: Slot | forall s :: s in applied ==> s.npu != k.npu
      ensures At(w.hw.objs, k) == if w.objOld.Owns(k) then Holds(w.objOld.attrs) else At(base, k)
    {
      assert CreateOn(k.npu) !in applied && DeleteFrom(k.npu) !in applied;
      forall a ensures SetOn(a, k.npu) !in applied {}
      assert Mixed(w, applied, k.npu) == w.objOld.attrs;
      assert At(w.hw.objs, k) == Expected(base, w, applied, k);
    }
    forall k: Slot, a | k.npu in w.objNew.npus && w.objOld.Owns(k) && a in w.objOld.attrs
      ensures k in w.hw.objs && a in w.hw.objs[k]
      ensures w.hw.objs[k][a] == if SetOn(a, k.npu) in applied then w.objNew.ValueOf(a) else w.objOld.attrs[a]
    {
      assert CreateOn(k.npu) in applied ==> Planned(w, CreateOn(k.npu));
      assert DeleteFrom(k.npu) in applied ==> Planned(w, DeleteFrom(k.npu));
      assert At(w.hw.objs, k) == Expected(base, w, applied, k);
    }
  }

  lemma NowhereIsBase(base: map<Slot, Attrs>, hw: Hw, o: Obj)
    requires o.npus == {} && hw.Fresh()
    ensures InPlace(base, hw, o) <==> hw.objs == base
  {
    if InPlace(base, hw, o) {
      forall k ensures k in hw.objs <==> k in base { assert At(hw.objs, k) == At(base, k); }
      forall k | k in base ensures hw.objs[k] == base[k] { assert At(hw.objs, k) == At(base, k); }
    }
  }

  lemma CreateInPlace(base: map<Slot, Attrs>, w: World, applied: set<Step>)
    requires Successor(w) && w.objOld.npus == {} && InEffect(base, w, applied) && AllPlanned(w, applied)
    ensures Installed(base, w.hw, w.objNew) <==> forall n :: n in w.objNew.npus ==> CreateOn(n) in applied
    ensures w.hw.objs == base <==> applied == {}
  {
    NewInPlaceIff(base, w, applied);
    OldInPlaceIff(base, w, applied);
    NowhereIsBase(base, w.hw, w.objOld);
    forall s | s in applied ensures Matters(w, s) { assert Planned(w, s); }
    assert applied != {} ==> exists s :: s in applied && Matters(w, s);
    forall n | n in w.objNew.npus ensures Planned(w, CreateOn(n)) && Matters(w, CreateOn(n)) {}
    forall s | Planned(w, s) ensures s == CreateOn(s.npu) && s.npu in w.objNew.npus {}
  }

  lemma DeleteInPlace(base: map<Slot, Attrs>, w: World, applied: set<Step>)
    requires Successor(w) && w.objNew.npus == {} && InEffect(base, w, applied) && AllPlanned(w, applied)
    ensures w.hw.objs == base <==>
      forall n :: n in w.objOld.npus && n in w.objOld.handles ==> DeleteFrom(n) in applied
    ensures InPlace(base, w.hw, w.objOld) <==> applied == {}
  {
    NewInPlaceIff(base, w, applied);
    OldInPlaceIff(base, w, applied);
    NowhereIsBase(base, w.hw, w.objNew);
    forall s | s in applied ensures Matters(w, s) { assert Planned(w, s) && Reached(w, s); }
    assert applied != {} ==> exists s :: s in applied && Matters(w, s);
    forall n | n in w.objOld.npus && n in w.objOld.handles
      ensures Planned(w, DeleteFrom(n)) && Matters(w, DeleteFrom(n)) {}
    forall s | Planned(w, s) ensures s == DeleteFrom(s.npu) && s.npu in w.objOld.npus {}
  }

  /** A create commit installs the object exactly when no NPU is missed, or leaves no trace unless an undo is lost. */
  lemma CreateCommit(base: map<Slot, Attrs>, hw: Hw, o: Obj, rollingBack: bool)
    requires hw.Fresh() && hw.objs == base && o.dirty <= o.attrs.Keys
    ensures var c := Commit(World(hw, o, Nowhere(o)), CreatePlan(o), rollingBack);
      && Evolves(World(hw, o, Nowhere(o)), c.w) && !c.end.Escaped? && (rollingBack ==> c.end.Finished?)
      && (c.end.Finished? ==>
           (Installed(base, c.w.hw, c.w.objNew) <==> forall n :: n in o.npus ==> CreateOn(n) in c.done))
      && (c.end.Threw? ==> (c.w.hw.objs == base <==> c.lost == {}))
      && c.w.hw.Fresh()
  {
    var w := World(hw, o, Nowhere(o));
    CreateAndDeleteAreModifies(o);
    NowhereIsBase(base, hw, w.objOld);
    ModifyKeeps(base, w, rollingBack);
    var c := Commit(w, CreatePlan(o), rollingBack);
    CreateInPlace(base, c.w, c.Left());
  }

  /**
   * A delete commit removes the object exactly when the deletes that stay in effect miss no
   * NPU that has it. One that does not succeed leaves the object in place exactly when no
   * undo is lost and no delete was done before the lookup of a handle threw.
   */
  lemma DeleteCommit(base: map<Slot, Attrs>, hw: Hw, o: Obj, rollingBack: bool)
    requires InPlace(base, hw, o) && o.dirty <= o.attrs.Keys
    ensures var c := Commit(World(hw, Nowhere(o), o), DeletePlan(o), rollingBack);
      && Evolves(World(hw, Nowhere(o), o), c.w) && (rollingBack ==> !c.end.Threw?)
      && (o.npus <= o.handles.Keys ==> !c.end.Escaped? && c.w.objOld.npus <= c.w.objOld.handles.Keys)
      && (c.w.hw.objs == base <==> forall n :: n in o.npus && n in o.handles ==> DeleteFrom(n) in c.Left())
      && (!c.end.Finished? ==> (InPlace(base, c.w.hw, c.w.objOld) <==> c.Left() == {}))
      && c.Left() == (if c.end.Threw? then c.lost else Steps(c.done))
      && c.w.hw.Fresh()
  {
    var w := World(hw, Nowhere(o), o);
    CreateAndDeleteAreModifies(o);
    ModifyKeeps(base, w, rollingBack);
    var c := Commit(w, DeletePlan(o), rollingBack);
    SamePlan(w, c.w);
    SameKeys(w, c.w);
    DeleteInPlace(base, c.w, c.Left());
  }

  /** A create that reached every NPU, undone by a rolling-back delete that reaches every NPU, leaves no trace. */
  lemma CreateThenRollingBackDelete(base: map<Slot, Attrs>, hw: Hw, o: Obj)
    requires hw.Fresh() && hw.objs == base && o.dirty <= o.attrs.Keys
    ensures var c := Commit(World(hw, o, Nowhere(o)), CreatePlan(o), false);
      var made := c.w.objNew;
      var d := Commit(World(c.w.hw, Nowhere(made), made), DeletePlan(made), true);
      c.end.Finished? && c.done == CreatePlan(o) && d.done == DeletePlan(made) ==>
        d.end.Finished? && d.w.hw.objs == base
  {
    CreateCommit(base, hw, o, false);
    var c := Commit(World(hw, o, Nowhere(o)), CreatePlan(o), false);
    StepsHold(0, Ascending(o.npus));
    if c.end.Finished? && c.done == CreatePlan(o) {
      assert forall n :: n in o.npus ==> CreateOn(n) in c.done;
      DeleteCommit(base, c.w.hw, c.w.objNew, true);
    }
  }
}
