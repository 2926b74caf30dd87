/**
 * Objects with an NPU but no handle there: where they come from, what a commit of one
 * does, and exactly when it is still all or nothing.
 */
module MissingHandles {
  import opened Ordering
  import opened NdiHardware
  import opened CommitModel
  import opened CommitTheory
  import opened CommitTheorems
  import opened CommitTrace

  // ----- where handles go missing -----

  lemma CreatesOne(w: World, n: NpuId, rest: seq<Step>)
    ensures var w1 := Push(w, CreateOn(n));
      && Forward(w, [CreateOn(n)] + rest, true).w == Forward(w1, rest, true).w
      && Forward(w, [CreateOn(n)] + rest, true).end == Forward(w1, rest, true).end
      && w1.objNew.npus == w.objNew.npus
      && (forall m :: m in w1.objNew.handles <==> m in w.objNew.handles || (m == n && w.hw.FateAt(0).Done?))
      && (forall i: nat :: w1.hw.FateAt(i) == w.hw.FateAt(i + 1))
  {
    assert ([CreateOn(n)] + rest)[1..] == rest;
  }

  /** Creating with `rolling_back` set goes on past every failure, and gets a handle from each push that is done. */
  lemma {:induction false} RollingBackCreates(w: World, npus: seq<NpuId>)
    requires StrictlyIncreasing(npus)
    ensures var r := Forward(w, CreateSteps(npus), true);
      && r.end.Finished? && r.w.objNew.npus == w.objNew.npus
      && (forall n :: n !in npus ==> (n in r.w.objNew.handles <==> n in w.objNew.handles))
      && (forall i :: 0 <= i < |npus| ==>
           (npus[i] in r.w.objNew.handles <==> npus[i] in w.objNew.handles || w.hw.FateAt(i).Done?))
    decreases |npus|
  {
    if npus != [] {
      var w1, rest := Push(w, CreateOn(npus[0])), npus[1..];
      assert npus == [npus[0]] + rest && CreateSteps(npus) == [CreateOn(npus[0])] + CreateSteps(rest);
      assert npus[0] !in rest;
      CreatesOne(w, npus[0], CreateSteps(rest));
      RollingBackCreates(w1, rest);
      var made := Forward(w1, CreateSteps(rest), true).w.objNew;
      forall i | 0 <= i < |npus|
        ensures npus[i] in made.handles <==> npus[i] in w.objNew.handles || w.hw.FateAt(i).Done?
      {
        if i > 0 { assert npus[i] == rest[i - 1] && w1.hw.FateAt(i - 1) == w.hw.FateAt(i); }
      }
    }
  }

  /**
   * A rolling-back create of a new object always reports success. It has a handle on each of
   * its NPUs exactly when all of its pushes are done.
   */
  lemma RollingBackCreateReachesAllIff(hw: Hw, o: Obj, switchNpus: set<NpuId>)
    requires !o.created && o.handles == map[]
    ensures var c := CommitCreate(hw, o, switchNpus, true);
      && c.status.Success? && c.objNew.created
      && (c.objNew.npus <= c.objNew.handles.Keys <==>
          forall i :: 0 <= i < |c.objNew.npus| ==> hw.FateAt(i).Done?)
  {
    var o1 := WithNpus(o.(setAttrs := o.dirty), switchNpus);
    var order := Ascending(o1.npus);
    RollingBackCreates(World(hw, o1, Nowhere(o1)), order);
    var made := CommitCreate(hw, o, switchNpus, true).objNew;
    if made.npus <= made.handles.Keys {
      forall i | 0 <= i < |order| ensures hw.FateAt(i).Done? { assert order[i] in made.handles.Keys; }
    }
    if forall i :: 0 <= i < |order| ==> hw.FateAt(i).Done? {
      forall n | n in made.npus ensures n in made.handles { assert n in order; }
    }
  }

  // ----- what a missing handle does -----

  /** The steps before the first one that looks up a missing handle. */
  function BeforeHole(w: World, steps: seq<Step>): seq<Step> {
    if steps == [] || LacksHandle(w, steps[0]) then [] else [steps[0]] + BeforeHole(w, steps[1..])
  }

  lemma {:induction false} SameHoles(w: World, w': World, steps: seq<Step>)
    requires forall t :: t in steps ==> LacksHandle(w, t) == LacksHandle(w', t)
    ensures BeforeHole(w, steps) == BeforeHole(w', steps)
  {
    if steps != [] {
      assert steps == [steps[0]] + steps[1..];
      SameHoles(w, w', steps[1..]);
    }
  }

  /** Without skips, a run ends by doing every step, at a throw, or with all done before the first missing handle. */
  lemma {:induction false} ForwardToHole(w: World, steps: seq<Step>)
    requires OnePlan(w, steps) && w.hw.NoSkips()
    ensures var r, before := Forward(w, steps, false), BeforeHole(w, steps);
      && (r.end.Finished? ==> before == steps)
      && (r.end.Escaped? ==> r.done == before && |before| < |steps|)
      && (w.hw.script == [] ==> !r.end.Threw?)
    decreases |steps|
  {
    if steps != [] && !LacksHandle(w, steps[0]) && w.hw.Next().Done? {
      var w1, rest := Push(w, steps[0]), steps[1..];
      RestOfPlan(w, steps);
      SameHoles(w, w1, rest);
      ForwardToHole(w1, rest);
      assert steps == [steps[0]] + rest;
    }
  }

  lemma {:induction false} HoleIsMissing(w: World, steps: seq<Step>)
    ensures var h := |BeforeHole(w, steps)|;
      && h <= |steps| && BeforeHole(w, steps) == steps[..h]
      && (h < |steps| ==> LacksHandle(w, steps[h])) && (forall i :: 0 <= i < h ==> !LacksHandle(w, steps[i]))
  {
    if steps != [] && !LacksHandle(w, steps[0]) {
      HoleIsMissing(w, steps[1..]);
      assert steps == [steps[0]] + steps[1..];
    }
  }

  lemma NoHoleIff(w: World, steps: seq<Step>)
    ensures BeforeHole(w, steps) == steps <==> AllHandles(w, steps)
  {
    HoleIsMissing(w, steps);
    var h := |BeforeHole(w, steps)|;
    assert h < |steps| ==> steps[h] in steps;
    assert steps[..|steps|] == steps;
  }

  // ----- when a commit is all or nothing -----

  /** The world with another adversary. */
  function Under(w: World, script: seq<Fate>): World {
    w.(hw := w.hw.(script := script))
  }

  /**
   * What the modify reports is so: the new object is in place on all its NPUs, or the old
   * one is where it was. A lost undo excuses it.
   */
  ghost predicate NewOrOld(base: map<Slot, Attrs>, w: World) {
    var c := Commit(w, ModifyPlan(w.objNew, w.objOld), false);
    c.lost == {} ==> if c.end.Finished? then Installed(base, c.w.hw, c.w.objNew) else InPlace(base, c.w.hw, c.w.objOld)
  }

  /** No missing handle at all, or nothing that shows before the first one that is looked up. */
  ghost predicate HolesAreHarmless(w: World) {
    var plan := ModifyPlan(w.objNew, w.objOld);
    if AllHandles(w, plan) then KeptHaveHandles(w) else forall s :: s in BeforeHole(w, plan) ==> !Matters(w, s)
  }

  /** From an object with or without all its handles: a modify is all or nothing exactly when its holes are harmless. */
  lemma ModifyIsAllOrNothingIff(base: map<Slot, Attrs>, w: World)
    requires Successor(w) && InPlace(base, w.hw, w.objOld)
    ensures (forall script :: Under(w, script).hw.NoSkips() ==> NewOrOld(base, Under(w, script)))
       <==> HolesAreHarmless(w)
  {
    forall script | Under(w, script).hw.NoSkips()
      ensures HolesAreHarmless(w) ==> NewOrOld(base, Under(w, script))
    {
      HarmlessUnder(w, Under(w, script));
      ModifyUnder(base, Under(w, script));
    }
    HarmlessUnder(w, Under(w, []));
    assert Under(w, []).hw.NoSkips();
    ModifyUnder(base, Under(w, []));
  }

  /** The hardware plays no part in which handles are missing. */
  lemma HarmlessUnder(w: World, w': World)
    requires w'.objNew == w.objNew && w'.objOld == w.objOld
    ensures HolesAreHarmless(w') <==> HolesAreHarmless(w)
  {
    var plan := ModifyPlan(w.objNew, w.objOld);
    SameHoles(w, w', plan);
    NoHoleIff(w, plan);
    NoHoleIff(w', plan);
    var before := BeforeHole(w, plan);
    assert (forall s :: s in before ==> !Matters(w', s)) <==> (forall s :: s in before ==> !Matters(w, s));
  }

  /** How a modify without skips ends, and the steps that it leaves in effect. */
  lemma ModifyEnds(base: map<Slot, Attrs>, w: World)
    requires Successor(w) && InPlace(base, w.hw, w.objOld) && w.hw.NoSkips()
    ensures var plan := ModifyPlan(w.objNew, w.objOld);
      var c := Commit(w, plan, false);
      && (c.end.Finished? <==> !c.end.Threw? && AllHandles(w, plan))
      && (c.end.Finished? ==> c.done == plan)
      && (if c.end.Threw? then c.Left() == c.lost else c.lost == {} && c.Left() == Steps(BeforeHole(w, plan)))
      && (w.hw.script == [] ==> !c.end.Threw?)
  {
    var plan := ModifyPlan(w.objNew, w.objOld);
    ModifyPlanHolds(w);
    ModifyKeeps(base, w, false);
    ModifyIsReady(base, w);
    ForwardToHole(w, plan);
    NoHoleIff(w, plan);
    ForwardHandles(w, plan, false);
    EscapesForward(base, w, plan);
  }

  /** From an object in place only the forward run can come to a missing handle. */
  lemma EscapesForward(base: map<Slot, Attrs>, w: World, plan: seq<Step>)
    requires Ready(base, w, {}, plan)
    ensures var r := Forward(w, plan, false);
      r.end.Threw? ==> Backward(r.w, r.done).abandoned == {}
  {
    ForwardKeeps(base, w, {}, plan, false);
    var r := Forward(w, plan, false);
    assert {} + Steps(r.done) == Steps(r.done);
    assert AllPlanned(r.w, Steps(r.done));
    BackwardKeeps(base, r.w, Steps(r.done), r.done);
  }

  /** What each end of a modify without skips and without lost undos makes of the objects. */
  lemma ModifyLeaves(base: map<Slot, Attrs>, w: World)
    requires Successor(w) && InPlace(base, w.hw, w.objOld) && w.hw.NoSkips()
    ensures var plan := ModifyPlan(w.objNew, w.objOld);
      var c := Commit(w, plan, false);
      && (c.end.Finished? ==> (Installed(base, c.w.hw, c.w.objNew) <==> KeptHaveHandles(w)))
      && (c.end.Threw? && c.lost == {} ==> InPlace(base, c.w.hw, c.w.objOld))
      && (c.end.Escaped? ==>
           (InPlace(base, c.w.hw, c.w.objOld) <==> forall s :: s in BeforeHole(w, plan) ==> !Matters(w, s)))
  {
    ModifyEnds(base, w);
    ModifyCommit(base, w, false);
    ModifyPlanHolds(w);
  }

  lemma ModifyUnder(base: map<Slot, Attrs>, w: World)
    requires Successor(w) && InPlace(base, w.hw, w.objOld) && w.hw.NoSkips()
    ensures HolesAreHarmless(w) ==> NewOrOld(base, w)
    ensures w.hw.script == [] && NewOrOld(base, w) ==> HolesAreHarmless(w)
  {
    ModifyEnds(base, w);
    ModifyLeaves(base, w);
  }

  // ----- the same for a delete -----

  /** What the delete reports is so: the object is gone, or it is where it was. A lost undo excuses it. */
  ghost predicate GoneOrInPlace(base: map<Slot, Attrs>, hw: Hw, o: Obj) {
    var c := Commit(World(hw, Nowhere(o), o), DeletePlan(o), false);
    c.lost == {} ==> if c.end.Finished? then c.w.hw.objs == base else InPlace(base, c.w.hw, c.w.objOld)
  }

  /** The object is gone or where it was, whatever the delete reports. */
  ghost predicate GoneOrWhereItWas(base: map<Slot, Attrs>, hw: Hw, o: Obj) {
    var c := Commit(World(hw, Nowhere(o), o), DeletePlan(o), false);
    c.lost == {} ==> c.w.hw.objs == base || InPlace(base, c.w.hw, c.w.objOld)
  }

  /** An NPU of the object below all of its NPUs that have no handle. */
  predicate BelowHoles(o: Obj, n: NpuId) {
    n in o.npus && forall m :: m in o.npus && m <= n ==> m in o.handles
  }

  lemma DeleteNeedsHandles(w: World)
    ensures AllHandles(w, DeletePlan(w.objOld)) <==> w.objOld.npus <= w.objOld.handles.Keys
  {
    var o, plan := w.objOld, DeletePlan(w.objOld);
    StepsHold(0, Ascending(o.npus));
    if AllHandles(w, plan) {
      forall n | n in o.npus ensures n in o.handles { assert DeleteFrom(n) in plan; }
    }
  }

  /** What a delete has done when it comes to a missing handle: the NPUs below every such NPU. */
  lemma DoneBeforeHole(w: World, done: seq<Step>)
    requires done == BeforeHole(w, DeletePlan(w.objOld))
    ensures var o := w.objOld;
      && (Steps(done) == {} <==> forall n :: n in o.npus ==> !BelowHoles(o, n))
      && forall n :: n in o.npus ==> (DeleteFrom(n) in Steps(done) <==> BelowHoles(o, n))
  {
    var o, order, h := w.objOld, Ascending(w.objOld.npus), |done|;
    DeletedFirst(w, order, done);
    forall n | n in o.npus ensures DeleteFrom(n) in done <==> BelowHoles(o, n) {
      assert n in order;
      var i :| 0 <= i < |order| && order[i] == n;
      OrderBelowHoles(w, order, h, i);
      DeletedInOrder(order, done, i);
    }
    if done != [] { assert done[0] in Steps(done) && order[0] in order && DeleteFrom(order[0]) in done; }
    forall n | n in o.npus && BelowHoles(o, n) ensures done != [] { assert DeleteFrom(n) in done; }
  }

  lemma DeletedFirst(w: World, order: seq<NpuId>, done: seq<Step>)
    requires done == BeforeHole(w, DeleteSteps(order))
    ensures var h := |done|;
      && h <= |order| && (forall i :: 0 <= i < h ==> done[i] == DeleteFrom(order[i]))
      && (forall i :: 0 <= i < h ==> order[i] in w.objOld.handles)
      && (h < |order| ==> order[h] !in w.objOld.handles)
  {
    HoleIsMissing(w, DeleteSteps(order));
    forall i | 0 <= i < |done| ensures order[i] in w.objOld.handles {
      assert !LacksHandle(w, DeleteSteps(order)[i]);
    }
  }

  lemma DeletedInOrder(order: seq<NpuId>, done: seq<Step>, i: nat)
    requires StrictlyIncreasing(order) && |done| <= |order| && i < |order|
    requires forall j :: 0 <= j < |done| ==> done[j] == DeleteFrom(order[j])
    ensures DeleteFrom(order[i]) in done <==> i < |done|
  {
    if i < |done| { assert done[i] in done; }
    if DeleteFrom(order[i]) in done {
      var j :| 0 <= j < |done| && done[j] == DeleteFrom(order[i]);
      assert order[j] == order[i];
    }
  }

  lemma OrderBelowHoles(w: World, order: seq<NpuId>, h: nat, i: nat)
    requires StrictlyIncreasing(order) && (forall n :: n in order <==> n in w.objOld.npus)
    requires h <= |order| && i < |order| && (forall j :: 0 <= j < h ==> order[j] in w.objOld.handles)
    requires h < |order| ==> order[h] !in w.objOld.handles
    ensures i < h <==> BelowHoles(w.objOld, order[i])
  {
    assert order[i] in order && (h < |order| ==> order[h] in order);
    if i < h {
      forall m | m in w.objOld.npus && m <= order[i] ensures m in w.objOld.handles {
        assert m in order;
        var j :| 0 <= j < |order| && order[j] == m;
        assert j <= i;
      }
    }
  }

  /** No handle is missing, or the first one that a delete looks up is. */
  predicate NoneOrFirstMissing(o: Obj) {
    o.npus <= o.handles.Keys || Least(o.npus) !in o.handles
  }

  /** Every NPU of the object that has a handle comes before every one that has none. */
  predicate MissingOnesAreLast(o: Obj) {
    forall n, m :: n in o.npus && n in o.handles && m in o.npus && m !in o.handles ==> n < m
  }

  /** What the deletes before the first missing handle come to. */
  lemma NoneBelowHolesIff(o: Obj)
    ensures !(o.npus <= o.handles.Keys) ==>
      ((forall n :: n in o.npus ==> !BelowHoles(o, n)) <==> NoneOrFirstMissing(o))
    ensures (forall n :: n in o.npus && n in o.handles ==> BelowHoles(o, n)) <==> MissingOnesAreLast(o)
  {
    if !(o.npus <= o.handles.Keys) && Least(o.npus) in o.handles { assert BelowHoles(o, Least(o.npus)); }
    if forall n :: n in o.npus && n in o.handles ==> BelowHoles(o, n) {
      forall n, m | n in o.npus && n in o.handles && m in o.npus && m !in o.handles ensures n < m {
        assert BelowHoles(o, n);
      }
    }
  }

  lemma DoneWhenMissing(w: World)
    ensures var o, done := w.objOld, Steps(BeforeHole(w, DeletePlan(w.objOld)));
      && (!(o.npus <= o.handles.Keys) ==> (done == {} <==> NoneOrFirstMissing(o)))
      && ((forall n :: n in o.npus && n in o.handles ==> DeleteFrom(n) in done) <==> MissingOnesAreLast(o))
  {
    DoneBeforeHole(w, BeforeHole(w, DeletePlan(w.objOld)));
    NoneBelowHolesIff(w.objOld);
  }

  /** How a delete without skips ends, and what it leaves in effect. */
  lemma DeleteEnds(base: map<Slot, Attrs>, w: World)
    requires InPlace(base, w.hw, w.objOld) && w.objOld.dirty <= w.objOld.attrs.Keys && w.hw.NoSkips()
    requires w.objNew == Nowhere(w.objOld)
    ensures var plan := DeletePlan(w.objOld);
      var c := Commit(w, plan, false);
      && (c.end.Finished? <==> !c.end.Threw? && w.objOld.npus <= w.objOld.handles.Keys)
      && (if c.end.Threw? then c.Left() == c.lost else c.lost == {} && c.Left() == Steps(BeforeHole(w, plan)))
      && (w.hw.script == [] ==> !c.end.Threw?)
  {
    CreateAndDeleteAreModifies(w.objOld);
    ModifyEnds(base, w);
    DeleteNeedsHandles(w);
  }

  /** What each end of a delete without skips makes of the object. */
  lemma DeleteLeaves(base: map<Slot, Attrs>, hw: Hw, o: Obj)
    requires InPlace(base, hw, o) && o.dirty <= o.attrs.Keys && hw.NoSkips()
    ensures var c := Commit(World(hw, Nowhere(o), o), DeletePlan(o), false);
      && (c.end.Finished? ==> o.npus <= o.handles.Keys && c.w.hw.objs == base)
      && (c.end.Threw? && c.lost == {} ==> InPlace(base, c.w.hw, c.w.objOld))
      && (c.end.Escaped? ==>
           && !(o.npus <= o.handles.Keys) && c.lost == {}
           && (InPlace(base, c.w.hw, c.w.objOld) <==> NoneOrFirstMissing(o))
           && (c.w.hw.objs == base <==> MissingOnesAreLast(o)))
      && (hw.script == [] ==> !c.end.Threw?)
  {
    var w := World(hw, Nowhere(o), o);
    DeleteEnds(base, w);
    DeleteCommit(base, hw, o, false);
    DoneWhenMissing(w);
  }

  lemma DeleteUnder(base: map<Slot, Attrs>, hw: Hw, o: Obj)
    requires InPlace(base, hw, o) && o.dirty <= o.attrs.Keys && hw.NoSkips()
    ensures NoneOrFirstMissing(o) ==> GoneOrInPlace(base, hw, o)
    ensures NoneOrFirstMissing(o) || MissingOnesAreLast(o) ==> GoneOrWhereItWas(base, hw, o)
    ensures hw.script == [] && GoneOrInPlace(base, hw, o) ==> NoneOrFirstMissing(o)
    ensures hw.script == [] && GoneOrWhereItWas(base, hw, o) ==> NoneOrFirstMissing(o) || MissingOnesAreLast(o)
  {
    DeleteLeaves(base, hw, o);
  }

  /**
   * From an object with or without all its handles: what a delete reports is so for every
   * adversary exactly when no handle is missing or the first one it looks up is.
   */
  lemma DeleteIsAllOrNothingIff(base: map<Slot, Attrs>, hw: Hw, o: Obj)
    requires InPlace(base, hw, o) && o.dirty <= o.attrs.Keys
    ensures (forall script :: hw.(script := script).NoSkips() ==> GoneOrInPlace(base, hw.(script := script), o))
       <==> NoneOrFirstMissing(o)
  {
    forall script | hw.(script := script).NoSkips()
      ensures NoneOrFirstMissing(o) ==> GoneOrInPlace(base, hw.(script := script), o)
    {
      DeleteUnder(base, hw.(script := script), o);
    }
    assert hw.(script := []).NoSkips();
    DeleteUnder(base, hw.(script := []), o);
  }

  /**
   * Whatever it reports, a delete leaves the object gone or where it was for every adversary
   * exactly when that is so or every NPU that has it comes before every one that does not.
   */
  lemma DeleteIsWholeIff(base: map<Slot, Attrs>, hw: Hw, o: Obj)
    requires InPlace(base, hw, o) && o.dirty <= o.attrs.Keys
    ensures (forall script :: hw.(script := script).NoSkips() ==> GoneOrWhereItWas(base, hw.(script := script), o))
       <==> NoneOrFirstMissing(o) || MissingOnesAreLast(o)
  {
    forall script | hw.(script := script).NoSkips()
      ensures NoneOrFirstMissing(o) || MissingOnesAreLast(o) ==> GoneOrWhereItWas(base, hw.(script := script), o)
    {
      DeleteUnder(base, hw.(script := script), o);
    }
    assert hw.(script := []).NoSkips();
    DeleteUnder(base, hw.(script := []), o);
  }

  // ----- a missing handle stays missing -----

  lemma {:induction false} ForwardKeepsHoles(w: World, steps: seq<Step>, rollingBack: bool)
    ensures var r := Forward(w, steps, rollingBack);
      && (forall n :: n in r.w.objOld.handles <==> n in w.objOld.handles)
      && (forall n :: DeleteFrom(n) in r.done ==> n in w.objOld.handles)
    decreases |steps|
  {
    if steps != [] && !Escapes(w, steps[0]) && !(w.hw.Next().Failed? && !rollingBack) {
      ForwardKeepsHoles(Push(w, steps[0]), steps[1..], rollingBack);
    }
  }

  /** Without skips, a run that gets to its end found every handle that it deletes by. */
  lemma {:induction false} FinishedHasHandles(w: World, steps: seq<Step>, rollingBack: bool, n: NpuId)
    requires w.hw.NoSkips() && DeleteFrom(n) in steps && Forward(w, steps, rollingBack).end.Finished?
    ensures n in w.objOld.handles
    decreases |steps|
  {
    if steps[0] != DeleteFrom(n) {
      assert steps == [steps[0]] + steps[1..];
      FinishedHasHandles(Push(w, steps[0]), steps[1..], rollingBack, n);
    }
  }

  /** A run gives the new object no handle on an NPU that it does not create on. */
  lemma {:induction false} NoOtherHandles(w: World, steps: seq<Step>, rollingBack: bool, n: NpuId)
    requires CreateOn(n) !in steps
    ensures n in Forward(w, steps, rollingBack).w.objNew.handles <==> n in w.objNew.handles
    decreases |steps|
  {
    if steps != [] && !Escapes(w, steps[0]) && !(w.hw.Next().Failed? && !rollingBack) {
      assert steps[0] in steps && forall s :: s in steps[1..] ==> s in steps;
      NoOtherHandles(Push(w, steps[0]), steps[1..], rollingBack, n);
    }
  }

  lemma {:induction false} BackwardKeepsHoles(w: World, tracker: seq<Step>)
    requires forall n :: DeleteFrom(n) in tracker ==> n in w.objOld.handles
    ensures forall n :: n in Backward(w, tracker).w.objOld.handles <==> n in w.objOld.handles
    decreases |tracker|
  {
    if tracker != [] && !UndoEscapes(w, tracker[|tracker| - 1]) {
      var last, rest := tracker[|tracker| - 1], tracker[..|tracker| - 1];
      assert last in tracker && forall s :: s in rest ==> s in tracker;
      BackwardKeepsHoles(PushInverse(w, last), rest);
    }
  }

  lemma CommitKeepsHoles(w: World, plan: seq<Step>, rollingBack: bool, n: NpuId)
    requires n !in w.objOld.handles
    ensures var c := Commit(w, plan, rollingBack);
      && n !in c.w.objOld.handles
      && (w.hw.NoSkips() && c.end.Finished? ==> DeleteFrom(n) !in plan)
      && (c.end.Finished? && CreateOn(n) !in plan ==> (n in c.w.objNew.handles <==> n in w.objNew.handles))
  {
    ForwardKeepsHoles(w, plan, rollingBack);
    var r := Forward(w, plan, rollingBack);
    if r.end.Threw? { BackwardKeepsHoles(r.w, r.done); }
    if CreateOn(n) !in plan { NoOtherHandles(w, plan, rollingBack, n); }
    if w.hw.NoSkips() && r.end.Finished? && DeleteFrom(n) in plan { FinishedHasHandles(w, plan, rollingBack, n); }
  }

  /** An object that was created and has no handle on one of its NPUs. */
  predicate HasHole(o: Obj, n: NpuId) {
    o.created && n in o.npus && n !in o.handles
  }

  /** A delete of an object with a hole does not succeed, and leaves the hole. */
  lemma DeleteKeepsHole(hw: Hw, o: Obj, rollingBack: bool, n: NpuId)
    requires hw.NoSkips() && HasHole(o, n)
    ensures var d := CommitDelete(hw, o, rollingBack);
      !d.status.Success? && d.hw.NoSkips() && HasHole(d.objOld, n)
  {
    var w := World(hw, Nowhere(o), o);
    StepsHold(0, Ascending(o.npus));
    assert DeleteFrom(n) in DeletePlan(o);
    CommitKeepsHoles(w, DeletePlan(o), rollingBack, n);
    CommitHandles(w, DeletePlan(o), rollingBack);
    CommitTouchesHandles(w, DeletePlan(o), rollingBack);
  }

  /** A modify of an object with a hole leaves it in the object that is kept, whether or not it succeeds. */
  lemma ModifyKeepsHole(hw: Hw, objNew: Obj, o: Obj, switchNpus: set<NpuId>, rollingBack: bool, n: NpuId)
    requires hw.NoSkips() && HasHole(o, n) && objNew.handles == o.handles
    ensures var m := CommitModify(hw, objNew, o, switchNpus, rollingBack);
      m.hw.NoSkips() && HasHole(if m.status.Success? then m.objNew else m.objOld, n)
  {
    var o1 := WithNpus(objNew.(setAttrs := objNew.setAttrs + objNew.dirty), switchNpus);
    var w, plan := World(hw, o1, o), ModifyPlan(o1, o);
    ModifyPlanHolds(w);
    assert CreateOn(n) in plan <==> Planned(w, CreateOn(n));
    assert DeleteFrom(n) in plan <==> Planned(w, DeleteFrom(n));
    CommitKeepsHoles(w, plan, rollingBack, n);
    CommitHandles(w, plan, rollingBack);
    CommitTouchesHandles(w, plan, rollingBack);
  }

  /** A commit on an object; a modify has a draft that is a copy of it, with whatever edits. */
  datatype Attempt =
    | TryCreate(switchNpus: set<NpuId>, rollingBack: bool)
    | TryModify(draft: Obj, switchNpus: set<NpuId>, rollingBack: bool)
    | TryDelete(rollingBack: bool)

  /** The hardware and the object that is kept after an attempt, and how it ended. */
  function Attempted(hw: Hw, o: Obj, a: Attempt): (Hw, Obj, Status) {
    match a
    case TryCreate(switchNpus, rollingBack) =>
      var c := CommitCreate(hw, o, switchNpus, rollingBack); (c.hw, c.objNew, c.status)
    case TryModify(draft, switchNpus, rollingBack) =>
      var c := CommitModify(hw, draft.(handles := o.handles), o, switchNpus, rollingBack);
      (c.hw, if c.status.Success? then c.objNew else c.objOld, c.status)
    case TryDelete(rollingBack) =>
      var c := CommitDelete(hw, o, rollingBack); (c.hw, c.objOld, c.status)
  }

  lemma AttemptKeepsHole(hw: Hw, o: Obj, a: Attempt, n: NpuId)
    requires hw.NoSkips() && HasHole(o, n)
    ensures var (hw', o', status) := Attempted(hw, o, a);
      hw'.NoSkips() && HasHole(o', n) && (a.TryDelete? ==> !status.Success?)
  {
    match a
    case TryCreate(_, _) =>
    case TryModify(draft, switchNpus, rollingBack) =>
      ModifyKeepsHole(hw, draft.(handles := o.handles), o, switchNpus, rollingBack, n);
    case TryDelete(rollingBack) => DeleteKeepsHole(hw, o, rollingBack, n);
  }

  /** The object after a run of attempts, and whether a delete among them succeeded. */
  function AttemptedAll(hw: Hw, o: Obj, attempts: seq<Attempt>): (Obj, bool)
    decreases |attempts|
  {
    if attempts == [] then (o, false) else
    var (hw1, o1, status) := Attempted(hw, o, attempts[0]);
    var (o', deleted) := AttemptedAll(hw1, o1, attempts[1..]);
    (o', deleted || (attempts[0].TryDelete? && status.Success?))
  }

  /** Once an object has an NPU without a handle, no run of creates, modifies and deletes mends it or deletes it. */
  lemma {:induction false} NeverDeleted(hw: Hw, o: Obj, attempts: seq<Attempt>, n: NpuId)
    requires hw.NoSkips() && HasHole(o, n)
    ensures var (o', deleted) := AttemptedAll(hw, o, attempts); HasHole(o', n) && !deleted
    decreases |attempts|
  {
    if attempts != [] {
      AttemptKeepsHole(hw, o, attempts[0], n);
      var (hw1, o1, _) := Attempted(hw, o, attempts[0]);
      NeverDeleted(hw1, o1, attempts[1..], n);
    }
  }

  /** The hardware after a create on NPUs 0, 1 and 2 whose second push fails. */
  function HalfCreatedHw(attrs: Attrs): Hw {
    Hw([Done, Failed, Done], map[Slot(0, 1) := attrs, Slot(2, 2) := attrs], 2,
       [Event(CreateObj(0, attrs), Done, 1), Event(CreateObj(1, attrs), Failed, 0),
        Event(CreateObj(2, attrs), Done, 2)])
  }

  lemma ThreeNpus(npus: set<NpuId>)
    requires npus == {0, 1, 2}
    ensures var order := Ascending(npus); |order| == 3 && order[0] == 0 && order[1] == 1 && order[2] == 2
  {
    IncreasingListingIsUnique(Ascending(npus), [0, 1, 2]);
  }

  lemma {:induction false} ThreeCreates(o: Obj, objOld: Obj, steps: seq<Step>)
    requires |steps| == 3 && steps[0] == CreateOn(0) && steps[1] == CreateOn(1) && steps[2] == CreateOn(2)
    requires o.handles == map[]
    ensures var r := Forward(World(Hw([Done, Failed, Done], map[], 0, []), o, objOld), steps, true);
      r.end.Finished? && r.w.hw == HalfCreatedHw(o.attrs) && r.w.objNew == o.(handles := map[0 := 1, 2 := 2])
  {
    var w0 := World(Hw([Done, Failed, Done], map[], 0, []), o, objOld);
    var w1 := Push(w0, steps[0]);
    var w2 := Push(w1, steps[1..][0]);
    var w3 := Push(w2, steps[1..][1..][0]);
    assert Forward(w3, steps[1..][1..][1..], true) == Run(w3, [], Finished);
    assert Forward(w0, steps, true).w == Forward(w1, steps[1..], true).w == Forward(w2, steps[1..][1..], true).w;
    assert w3.objNew.handles == map[0 := 1, 2 := 2];
    assert w3.hw == HalfCreatedHw(o.attrs);
  }

  lemma HalfCreated(o: Obj)
    requires o.npus == {0, 1, 2} && o.handles == map[] && !o.created
    ensures var c := CommitCreate(Hw([Done, Failed, Done], map[], 0, []), o, {0, 1, 2}, true);
      && c.status.Success? && c.hw == HalfCreatedHw(o.attrs) && c.objNew.attrs == o.attrs
      && c.objNew.created && c.objNew.npus == {0, 1, 2} && c.objNew.handles == map[0 := 1, 2 := 2]
  {
    assert 0 in o.npus;
    var o1 := o.(setAttrs := o.dirty);
    ThreeNpus(o1.npus);
    ThreeCreates(o1, Nowhere(o1), CreatePlan(o1));
  }

  /** The delete of such an object does its first push and ends at its second. */
  lemma {:induction false} OneDelete(objNew: Obj, o: Obj, steps: seq<Step>)
    requires |steps| >= 2 && steps[0] == DeleteFrom(0) && steps[1] == DeleteFrom(1)
    requires o.handles == map[0 := 1, 2 := 2]
    ensures var w := World(HalfCreatedHw(o.attrs), objNew, o);
      var r := Forward(w, steps, false);
      && r.end.Escaped? && r.w.hw.objs == map[Slot(2, 2) := o.attrs]
      && r.w.hw.log == w.hw.log + [Event(DeleteObj(0, 1), Done, 0)]
  {
    var w0 := World(HalfCreatedHw(o.attrs), objNew, o);
    var w1 := Push(w0, steps[0]);
    assert Forward(w1, steps[1..], false) == Run(w1, [], Escaped);
    assert w1.hw.objs == map[Slot(2, 2) := o.attrs];
  }

  lemma HalfGone(o: Obj)
    requires o.npus == {0, 1, 2} && o.handles == map[0 := 1, 2 := 2] && o.created
    ensures var hw := HalfCreatedHw(o.attrs);
      var d := CommitDelete(hw, o, false);
      && d.status.OutOfRange? && d.hw.objs == map[Slot(2, 2) := o.attrs]
      && d.hw.log == hw.log + [Event(DeleteObj(0, 1), Done, 0)]
  {
    ThreeNpus(o.npus);
    OneDelete(Nowhere(o), o, DeletePlan(o));
  }

  /**
   * A rolling-back create on three NPUs whose second push fails is reported as a success.
   * The delete that follows makes one call and is left by an exception: the object is gone
   * from the first NPU and is still on the third.
   */
  lemma HalfDeleted(attrs: Attrs, dirty: set<AttrId>)
    ensures var o := Obj({0, 1, 2}, attrs, map[], dirty, {}, false, false, false);
      var c := CommitCreate(Hw([Done, Failed, Done], map[], 0, []), o, {0, 1, 2}, true);
      var d := CommitDelete(c.hw, c.objNew, false);
      && c.status.Success? && c.objNew.created
      && c.hw.objs == map[Slot(0, 1) := attrs, Slot(2, 2) := attrs]
      && d.status.OutOfRange? && d.hw.objs == map[Slot(2, 2) := attrs]
      && d.hw.log == c.hw.log + [Event(DeleteObj(0, 1), Done, 0)]
  {
    var o := Obj({0, 1, 2}, attrs, map[], dirty, {}, false, false, false);
    HalfCreated(o);
    var c := CommitCreate(Hw([Done, Failed, Done], map[], 0, []), o, {0, 1, 2}, true);
    HalfGone(c.objNew);
  }

  lemma TwoNpus(npus: set<NpuId>)
    requires npus == {0, 1}
    ensures var order := Ascending(npus); |order| == 2 && order[0] == 0 && order[1] == 1
  {
    IncreasingListingIsUnique(Ascending(npus), [0, 1]);
  }

  lemma StartsWithDeletes(objNew: Obj, objOld: Obj)
    requires objNew.npus <= objOld.npus
    ensures var gone, plan := Ascending(objOld.npus - objNew.npus), ModifyPlan(objNew, objOld);
      |gone| <= |plan| && forall i :: 0 <= i < |gone| ==> plan[i] == DeleteFrom(gone[i])
  {
    var created := CreateSteps(Ascending(objNew.npus - objOld.npus));
    SameElements(objNew.npus - objOld.npus, {});
    assert |created| == 0;
    EmptyFirst(created, DeleteSteps(Ascending(objOld.npus - objNew.npus)),
               AttrSteps(Ascending(objNew.dirty), Ascending(objNew.npus * objOld.npus)));
  }

  lemma EmptyFirst(a: seq<Step>, b: seq<Step>, c: seq<Step>)
    requires |a| == 0
    ensures |b| <= |a + b + c| && forall i :: 0 <= i < |b| ==> (a + b + c)[i] == b[i]
  {
  }

  lemma HalfChanged(objNew: Obj, o: Obj)
    requires o.npus == {0, 1, 2} && o.handles == map[0 := 1, 2 := 2] && objNew.npus == {2}
    ensures var hw := HalfCreatedHw(o.attrs);
      var c := Commit(World(hw, objNew, o), ModifyPlan(objNew, o), false);
      && c.end.Escaped? && c.w.hw.objs == map[Slot(2, 2) := o.attrs]
      && c.w.hw.log == hw.log + [Event(DeleteObj(0, 1), Done, 0)]
  {
    TwoNpus(o.npus - objNew.npus);
    StartsWithDeletes(objNew, o);
    OneDelete(objNew, o, ModifyPlan(objNew, o));
  }

  /**
   * The same object, modified to stay on the third NPU only and with other values: the
   * modify makes one call and is left by an exception. The object is gone from the first
   * NPU, and the third still holds the old values.
   */
  lemma HalfModified(o: Obj, draft: Obj, switchNpus: set<NpuId>)
    requires o.npus == {0, 1, 2} && o.handles == map[0 := 1, 2 := 2]
    requires draft.npus == {2} && draft.created
    ensures var hw := HalfCreatedHw(o.attrs);
      var m := CommitModify(hw, draft, o, switchNpus, false);
      && hw.objs == map[Slot(0, 1) := o.attrs, Slot(2, 2) := o.attrs]
      && m.status.OutOfRange? && m.hw.objs == map[Slot(2, 2) := o.attrs]
      && m.hw.log == hw.log + [Event(DeleteObj(0, 1), Done, 0)]
  {
    hide Commit, ModifyPlan;
    var o1 := draft.(setAttrs := draft.setAttrs + draft.dirty);
    assert 2 in draft.npus && WithNpus(o1, switchNpus) == o1;
    HalfChanged(o1, o);
  }
}
