/** What edits make of an object, what a commit that does not succeed leaves of it, and trying again. */
module Drafts {
  import opened NdiHardware
  import opened Options
  import opened CommitModel
  import opened CommitTheory
  import opened CommitTheorems
  import opened StoreModel
  import opened StoreRules

  // ----- edits -----

  /** A setter takes every value of its range and no other, and stores the value it is given. */
  lemma SettersStore(o: Obj, v: nat, switchNpus: set<NpuId>)
    ensures var (status, o') := Edited(o, SetAttr1(v), switchNpus);
      if v <= 20 then status.Success? && o' == o.(attrs := o.attrs[1 := v], dirty := o.dirty + {1})
      else status.BadParam? && o' == o
    ensures var (status, o') := Edited(o, SetAttr2(v), switchNpus);
      if v <= 10 then status.Success? && o' == o.(attrs := o.attrs[2 := v], dirty := o.dirty + {2})
      else status.BadParam? && o' == o
  {
  }

  /** The edit stays within what the object may be given. */
  predicate Acceptable(e: Edit, switchNpus: set<NpuId>) {
    match e
    case SetAttr1(v) => v <= 20
    case SetAttr2(v) => v <= 10
    case AddNpu(n, _) => n in switchNpus
    case ResetNpus => true
  }

  /** Edits go through exactly when each is acceptable; otherwise the ones before the first that is not are made. */
  lemma {:induction false} EditsGoThroughIff(o: Obj, edits: seq<Edit>, switchNpus: set<NpuId>)
    ensures var (status, o') := EditedAll(o, edits, switchNpus);
      && (status.Success? <==> forall i :: 0 <= i < |edits| ==> Acceptable(edits[i], switchNpus))
      && (!status.Success? ==>
           && status.BadParam?
           && exists k :: 0 <= k < |edits| && !Acceptable(edits[k], switchNpus)
                       && EditedAll(o, edits[..k], switchNpus) == (Success, o'))
    decreases |edits|
  {
    if edits != [] {
      var rest := edits[1..];
      var (first, o1) := Edited(o, edits[0], switchNpus);
      var (status, o') := EditedAll(o, edits, switchNpus);
      if !first.Success? {
        assert edits[..0] == [] && EditedAll(o, edits[..0], switchNpus) == (Success, o');
      } else {
        EditsGoThroughIff(o1, rest, switchNpus);
        assert forall i :: 0 < i < |edits| ==> edits[i] == rest[i - 1];
        if !status.Success? {
          var k :| 0 <= k < |rest| && !Acceptable(rest[k], switchNpus)
                && EditedAll(o1, rest[..k], switchNpus) == (Success, o');
          assert edits[..k + 1][0] == edits[0] && edits[..k + 1][1..] == rest[..k];
          assert EditedAll(o, edits[..k + 1], switchNpus) == (Success, o');
          assert !Acceptable(edits[k + 1], switchNpus);
        }
      }
    }
  }

  /** The value that an edit sets an attribute to, if it does. */
  function SetBy(e: Edit, a: AttrId): Option<nat> {
    match e
    case SetAttr1(v) => if a == 1 then Some(v) else None
    case SetAttr2(v) => if a == 2 then Some(v) else None
    case _ => None
  }

  /** The value of the last edit that sets an attribute. */
  function LastSet(edits: seq<Edit>, a: AttrId): Option<nat> {
    if edits == [] then None else
    var later := LastSet(edits[1..], a);
    if later.Some? then later else SetBy(edits[0], a)
  }

  /** From `o` to `o'` the attribute was set to this value and is dirty, or is as before. */
  ghost predicate Took(o: Obj, o': Obj, a: AttrId, v: Option<nat>) {
    match v
    case Some(x) => a in o'.attrs && o'.attrs[a] == x && a in o'.dirty
    case None =>
      && (a in o'.dirty <==> a in o.dirty) && (a in o'.attrs <==> a in o.attrs)
      && (a in o.attrs ==> o'.attrs[a] == o.attrs[a])
  }

  lemma EditSetsValue(o: Obj, e: Edit, switchNpus: set<NpuId>, a: AttrId)
    requires Edited(o, e, switchNpus).0.Success?
    ensures var o' := Edited(o, e, switchNpus).1;
      && o'.handles == o.handles && o'.setAttrs == o.setAttrs && o'.created == o.created
      && Took(o, o', a, SetBy(e, a))
  {
  }

  /** After edits that go through, an attribute has the last value it was set to and is dirty, or is as before. */
  lemma {:induction false} EditsSetValues(o: Obj, edits: seq<Edit>, switchNpus: set<NpuId>, a: AttrId)
    requires EditedAll(o, edits, switchNpus).0.Success?
    ensures var o' := EditedAll(o, edits, switchNpus).1;
      && o'.handles == o.handles && o'.setAttrs == o.setAttrs && o'.created == o.created
      && Took(o, o', a, LastSet(edits, a))
    decreases |edits|
  {
    hide Edited, SetBy;
    if edits != [] {
      EditSetsValue(o, edits[0], switchNpus, a);
      EditsSetValues(Edited(o, edits[0], switchNpus).1, edits[1..], switchNpus, a);
    }
  }

  /** Edit number `j` drops the NPUs so far: a reset, or the first addition since the last commit, with reset. */
  predicate Clears(dirty: bool, edits: seq<Edit>, j: nat)
    requires j < |edits|
  {
    edits[j].ResetNpus? || (edits[j].AddNpu? && edits[j].reset && !dirty && AddsNone(edits[..j]))
  }

  /** No edit from number `i` on drops the NPUs. */
  predicate KeptFrom(dirty: bool, edits: seq<Edit>, i: nat) {
    forall j :: i <= j < |edits| ==> !Clears(dirty, edits, j)
  }

  /** The NPU is added, and not dropped after that. */
  predicate AddedForGood(dirty: bool, edits: seq<Edit>, n: NpuId) {
    exists i :: 0 <= i < |edits| && edits[i].AddNpu? && edits[i].npu == n && KeptFrom(dirty, edits, i + 1)
  }

  lemma KeptFromRest(dirty: bool, edits: seq<Edit>, i: nat)
    requires edits != []
    ensures KeptFrom(dirty, edits, i + 1) <==> KeptFrom(dirty || edits[0].AddNpu?, edits[1..], i)
  {
    var rest, dirty1 := edits[1..], dirty || edits[0].AddNpu?;
    forall j | 0 <= j < |rest| ensures Clears(dirty, edits, j + 1) <==> Clears(dirty1, rest, j) {
      assert edits[..j + 1][0] == edits[0] && edits[..j + 1][1..] == rest[..j];
      ResetLastOfMore(edits[..j + 1]);
    }
    if KeptFrom(dirty, edits, i + 1) {
      forall j | i <= j < |rest| ensures !Clears(dirty1, rest, j) { assert !Clears(dirty, edits, j + 1); }
    }
    if KeptFrom(dirty1, rest, i) {
      forall j | i + 1 <= j < |edits| ensures !Clears(dirty, edits, j) { assert !Clears(dirty1, rest, j - 1); }
    }
  }

  lemma AddedForGoodRest(dirty: bool, edits: seq<Edit>, n: NpuId)
    requires edits != []
    ensures var rest, dirty1 := edits[1..], dirty || edits[0].AddNpu?;
      AddedForGood(dirty, edits, n) <==>
        (edits[0].AddNpu? && edits[0].npu == n && KeptFrom(dirty1, rest, 0)) || AddedForGood(dirty1, rest, n)
    ensures KeptFrom(dirty, edits, 0) <==>
      !Clears(dirty, edits, 0) && KeptFrom(dirty || edits[0].AddNpu?, edits[1..], 0)
  {
    hide Clears;
    var rest, dirty1 := edits[1..], dirty || edits[0].AddNpu?;
    forall i: nat ensures KeptFrom(dirty, edits, i + 1) <==> KeptFrom(dirty1, rest, i) {
      KeptFromRest(dirty, edits, i);
    }
    if i: nat :| i < |edits| && edits[i].AddNpu? && edits[i].npu == n && KeptFrom(dirty, edits, i + 1) {
      if i > 0 { assert rest[i - 1] == edits[i] && KeptFrom(dirty1, rest, i - 1 + 1); }
    }
    if i: nat :| i < |rest| && rest[i].AddNpu? && rest[i].npu == n && KeptFrom(dirty1, rest, i + 1) {
      assert edits[i + 1] == rest[i] && KeptFrom(dirty, edits, i + 1 + 1);
    }
    assert KeptFrom(dirty, edits, 0) <==> !Clears(dirty, edits, 0) && KeptFrom(dirty, edits, 0 + 1);
  }

  /** After edits that go through an object has the NPUs added for good, and its own if none of the edits drops them. */
  lemma {:induction false} EditsGiveNpus(o: Obj, edits: seq<Edit>, switchNpus: set<NpuId>)
    requires EditedAll(o, edits, switchNpus).0.Success?
    ensures var o' := EditedAll(o, edits, switchNpus).1;
      && (forall n :: n in o'.npus <==>
           AddedForGood(o.npuListDirty, edits, n) || (n in o.npus && KeptFrom(o.npuListDirty, edits, 0)))
      && (o'.npuListDirty <==> o.npuListDirty || !AddsNone(edits))
      && (o'.followingSwitch <==> o.followingSwitch && AddsNone(edits))
    decreases |edits|
  {
    if edits != [] {
      hide AddedForGood, KeptFrom;
      var rest, o1 := edits[1..], Edited(o, edits[0], switchNpus).1;
      EditsGiveNpus(o1, rest, switchNpus);
      ResetLastOfMore(edits);
      EditGivesNpus(o, edits, switchNpus);
      forall n {
        AddedForGoodRest(o.npuListDirty, edits, n);
      }
    } else {
      hide Clears;
    }
  }

  lemma EditGivesNpus(o: Obj, edits: seq<Edit>, switchNpus: set<NpuId>)
    requires edits != [] && Edited(o, edits[0], switchNpus).0.Success?
    ensures var o1, e := Edited(o, edits[0], switchNpus).1, edits[0];
      && (forall n :: n in o1.npus <==> (e.AddNpu? && e.npu == n) || (n in o.npus && !Clears(o.npuListDirty, edits, 0)))
      && (o1.npuListDirty <==> o.npuListDirty || e.AddNpu?)
      && (o1.followingSwitch <==> o.followingSwitch && !e.AddNpu?)
  {
    assert AddsNone(edits[..0]);
  }

  /** An addition of an NPU, with or without reset. */
  datatype Addition = Addition(npu: NpuId, reset: bool)

  function Additions(ns: seq<Addition>): (r: seq<Edit>)
    ensures |r| == |ns| && forall i :: 0 <= i < |r| ==> r[i] == AddNpu(ns[i].npu, ns[i].reset)
  {
    seq(|ns|, i requires 0 <= i < |ns| => AddNpu(ns[i].npu, ns[i].reset))
  }

  predicate Among(n: NpuId, ns: seq<Addition>) {
    exists i :: 0 <= i < |ns| && ns[i].npu == n
  }

  /**
   * Additions of NPUs of the switch all go through and give the object those NPUs, besides
   * the ones it had: except when the first addition since the last commit is one with reset,
   * which drops them. Whether the later ones reset does not matter.
   */
  lemma {:induction false} AdditionsGive(o: Obj, ns: seq<Addition>, switchNpus: set<NpuId>)
    requires forall i :: 0 <= i < |ns| ==> ns[i].npu in switchNpus
    ensures var (status, o') := EditedAll(o, Additions(ns), switchNpus);
      && status.Success?
      && (forall n :: n in o'.npus <==>
           || Among(n, ns)
           || (n in o.npus && (ns == [] || o.npuListDirty || !ns[0].reset)))
      && (o'.npuListDirty <==> o.npuListDirty || ns != [])
      && (o'.followingSwitch <==> o.followingSwitch && ns == [])
      && o' == o.(npus := o'.npus, npuListDirty := o'.npuListDirty, followingSwitch := o'.followingSwitch)
    decreases |ns|
  {
    if ns != [] {
      var rest, o1 := ns[1..], Edited(o, AddNpu(ns[0].npu, ns[0].reset), switchNpus).1;
      assert Additions(ns)[1..] == Additions(rest);
      AdditionsGive(o1, rest, switchNpus);
      assert forall i :: 0 < i < |ns| ==> ns[i] == rest[i - 1];
      forall n ensures Among(n, ns) <==> n == ns[0].npu || Among(n, rest) {
        if i :| 0 <= i < |rest| && rest[i].npu == n { assert ns[i + 1].npu == n; }
      }
    }
  }

  // ----- commits that do not succeed -----

  /** When a commit is turned down before its first push, and that it then changes nothing. */
  lemma TurnedDownIff(hw: Hw, o: Obj, objOld: Obj, switchNpus: set<NpuId>, rollingBack: bool)
    ensures var c := CommitCreate(hw, o, switchNpus, rollingBack);
      (c.status.BadParam? <==> o.created) && (c.status.BadParam? ==> c.hw == hw && c.objNew == o)
    ensures var m := CommitModify(hw, o, objOld, switchNpus, rollingBack);
      (m.status.BadParam? <==> !o.created)
      && (m.status.BadParam? ==> m.hw == hw && m.objNew == o && m.objOld == objOld)
    ensures var d := CommitDelete(hw, o, rollingBack);
      (d.status.BadParam? <==> !o.created) && (d.status.BadParam? ==> d.hw == hw && d.objOld == o)
  {
    hide Commit, CreatePlan, ModifyPlan, DeletePlan;
  }

  /** The derived object besides wants attribute 1 on a create, and attribute 2 at most attribute 1 on a modify. */
  lemma UtTurnedDownIff(hw: Hw, o: Obj, objOld: Obj, switchNpus: set<NpuId>)
    requires HasFields(o)
    ensures var c := UtCommitCreate(hw, o, switchNpus);
      (c.status.BadParam? <==> o.created || 1 !in o.dirty) && (c.status.BadParam? ==> c.hw == hw && c.objNew == o)
    ensures var m := UtCommitModify(hw, o, objOld, switchNpus);
      (m.status.BadParam? <==> !o.created || o.attrs[2] > o.attrs[1])
      && (m.status.BadParam? ==> m.hw == hw && m.objNew == o && m.objOld == objOld)
  {
    hide CommitCreate, CommitModify;
    TurnedDownIff(hw, o, objOld, switchNpus, false);
  }

  /** What a draft still holds to be committed: its values, what is dirty, and whether it is new. */
  ghost predicate StillPending(o: Obj, o': Obj) {
    o'.attrs == o.attrs && o'.dirty == o.dirty && o'.npuListDirty == o.npuListDirty && o'.created == o.created
  }

  /** A create or modify that does not succeed leaves all of the draft to be committed again; a delete likewise. */
  lemma FailureKeepsDraft(hw: Hw, o: Obj, objOld: Obj, switchNpus: set<NpuId>, rollingBack: bool)
    ensures var c := CommitCreate(hw, o, switchNpus, rollingBack);
      !c.status.Success? ==> StillPending(o, c.objNew)
    ensures var m := CommitModify(hw, o, objOld, switchNpus, rollingBack);
      !m.status.Success? ==> StillPending(o, m.objNew) && SameButHandles(objOld, m.objOld)
    ensures var d := CommitDelete(hw, o, rollingBack);
      && SameButHandles(if d.status.Success? then o.(dirty := {}, npuListDirty := false) else o, d.objOld)
  {
    hide Commit, CreatePlan, ModifyPlan, DeletePlan;
    var o1 := WithNpus(o.(setAttrs := o.dirty), switchNpus);
    var o2 := WithNpus(o.(setAttrs := o.setAttrs + o.dirty), switchNpus);
    CommitTouchesHandles(World(hw, o1, Nowhere(o1)), CreatePlan(o1), rollingBack);
    CommitTouchesHandles(World(hw, o2, objOld), ModifyPlan(o2, objOld), rollingBack);
    CommitTouchesHandles(World(hw, Nowhere(o), o), DeletePlan(o), rollingBack);
  }

  // ----- trying again -----

  /** From here on every push is done. */
  ghost predicate Recovered(hw: Hw) {
    forall i: nat :: hw.FateAt(i).Done?
  }

  lemma RecoveredAfter(w: World, s: Step)
    requires Recovered(w.hw)
    ensures Recovered(Push(w, s).hw) && w.hw.Next().Done?
  {
    assert w.hw.FateAt(0).Done?;
    forall i: nat ensures Push(w, s).hw.FateAt(i).Done? { assert w.hw.FateAt(i + 1).Done?; }
  }

  /** Then a plan that finds its handles is done to the end. */
  lemma {:induction false} AllAreDone(w: World, steps: seq<Step>, rollingBack: bool)
    requires Recovered(w.hw) && AllHandles(w, steps)
    ensures var r := Forward(w, steps, rollingBack); r.end.Finished? && r.done == steps
    decreases |steps|
  {
    if steps != [] {
      var w1 := Push(w, steps[0]);
      assert steps == [steps[0]] + steps[1..] && steps[0] in steps;
      RecoveredAfter(w, steps[0]);
      forall t | t in steps[1..] ensures !LacksHandle(w1, t) { assert t in steps; }
      AllAreDone(w1, steps[1..], rollingBack);
    }
  }

  /** A modify from an installed object succeeds on hardware that has recovered, and installs the new object. */
  lemma ModifySucceeds(base: map<Slot, Attrs>, w: World)
    requires Successor(w) && Installed(base, w.hw, w.objOld) && Recovered(w.hw)
    ensures var c := Commit(w, ModifyPlan(w.objNew, w.objOld), false);
      c.end.Finished? && Installed(base, c.w.hw, c.w.objNew)
  {
    PlanHasHandles(w);
    AllAreDone(w, ModifyPlan(w.objNew, w.objOld), false);
    ModifyIsAllOrNothing(base, w);
  }

  /** What the hardware holds is the same, whatever is to come. */
  lemma InstalledElsewhere(base: map<Slot, Attrs>, hw: Hw, hw': Hw, o: Obj)
    requires Installed(base, hw, o) && hw'.objs == hw.objs && hw'.count == hw.count
    ensures Installed(base, hw', o)
  {
  }

  /**
   * A modify that failed with no undo lost can be tried again with the same draft and the
   * same old object: once pushes are done again, it succeeds and installs the new object,
   * with the draft's values on the draft's NPUs.
   */
  lemma FailedModifyCanBeRetried(
    base: map<Slot, Attrs>, hw: Hw, draft: Obj, objOld: Obj, switchNpus: set<NpuId>, later: Hw)
    requires Successor(ModifyWorld(hw, draft, objOld, switchNpus)) && Installed(base, hw, objOld)
    requires var c := CommitModify(hw, draft, objOld, switchNpus, false);
      c.status.NdiFailure? && c.lost == {} && later.objs == c.hw.objs && later.count == c.hw.count && Recovered(later)
    ensures var c := CommitModify(hw, draft, objOld, switchNpus, false);
      var again := CommitModify(later, c.objNew, c.objOld, switchNpus, false);
      && again.status.Success? && Installed(base, again.hw, again.objNew)
      && again.objNew.attrs == draft.attrs && again.objNew.dirty == {}
      && again.objNew.npus == (if draft.npus == {} then switchNpus else draft.npus)
  {
    hide Commit, ModifyPlan;
    var w := ModifyWorld(hw, draft, objOld, switchNpus);
    var c := CommitModify(hw, draft, objOld, switchNpus, false);
    var w2 := ModifyWorld(later, c.objNew, c.objOld, switchNpus);
    RolledBack(base, w);
    CommitTouchesHandles(w, ModifyPlan(w.objNew, w.objOld), false);
    assert w2.objNew.(setAttrs := {}) == c.objNew.(setAttrs := {});
    SuccessorAgain(w, World(c.hw, c.objNew, c.objOld), w2);
    InstalledElsewhere(base, c.hw, later, c.objOld);
    ModifySucceeds(base, w2);
    var r := Commit(w2, ModifyPlan(w2.objNew, w2.objOld), false);
    CommitTouchesHandles(w2, ModifyPlan(w2.objNew, w2.objOld), false);
    InstalledSame(base, r.w.hw, r.w.objNew, CommitModify(later, c.objNew, c.objOld, switchNpus, false).objNew);
  }

  lemma RolledBack(base: map<Slot, Attrs>, w: World)
    requires Successor(w) && Installed(base, w.hw, w.objOld)
    ensures var c := Commit(w, ModifyPlan(w.objNew, w.objOld), false);
      c.end.Threw? && c.lost == {} ==> Installed(base, c.w.hw, c.w.objOld) && Related(c.w)
  {
    ModifyCommit(base, w, false);
  }

  /** Handles apart, the two objects of `w` are those of `w1`, and but for the list of set attributes those of `w2`. */
  lemma SuccessorAgain(w: World, w1: World, w2: World)
    requires Successor(w) && Related(w1) && SameButHandles(w.objNew, w1.objNew) && SameButHandles(w.objOld, w1.objOld)
    requires w2.objNew.(setAttrs := {}) == w1.objNew.(setAttrs := {}) && w2.objOld == w1.objOld
    ensures Successor(w2)
  {
    forall n | n in w2.objNew.npus * w2.objOld.npus ensures SameHandle(w2.objNew, w2.objOld, n) {
      assert SameHandle(w1.objNew, w1.objOld, n);
    }
  }

  /** The same for a create. */
  lemma FailedCreateCanBeRetried(hw: Hw, draft: Obj, switchNpus: set<NpuId>, later: Hw)
    requires hw.Fresh() && draft.dirty <= draft.attrs.Keys
    requires var c := CommitCreate(hw, draft, switchNpus, false);
      c.status.NdiFailure? && c.lost == {} && later.objs == c.hw.objs && later.count == c.hw.count && Recovered(later)
    ensures var c := CommitCreate(hw, draft, switchNpus, false);
      var again := CommitCreate(later, c.objNew, switchNpus, false);
      && again.status.Success? && Installed(hw.objs, again.hw, again.objNew)
      && again.objNew.attrs == draft.attrs && again.objNew.dirty == {} && again.objNew.created
      && again.objNew.npus == (if draft.npus == {} then switchNpus else draft.npus)
  {
    hide Commit, CreatePlan, ModifyPlan;
    var w := CreateWorld(hw, draft, switchNpus);
    var c := CommitCreate(hw, draft, switchNpus, false);
    var w2 := CreateWorld(later, c.objNew, switchNpus);
    assert c.hw.objs == hw.objs && c.hw.Fresh() by { CreateCommit(hw.objs, hw, w.objNew, false); }
    CommitTouchesHandles(w, CreatePlan(w.objNew), false);
    CreateAndDeleteAreModifies(w2.objNew);
    NowhereIsBase(hw.objs, later, w2.objOld);
    ModifySucceeds(hw.objs, w2);
    var r := Commit(w2, CreatePlan(w2.objNew), false);
    CommitTouchesHandles(w2, CreatePlan(w2.objNew), false);
    InstalledSame(hw.objs, r.w.hw, r.w.objNew, CommitCreate(later, c.objNew, switchNpus, false).objNew);
  }
}
