/** What a commit does to the hardware, for every plan, every adversary and every rollback. */
module CommitTheory {
  import opened Ordering
  import opened NdiHardware
  import opened CommitModel

  // ----- what the hardware holds -----

  datatype Content = Empty | Holds(attrs: Attrs)

  function At(objs: map<Slot, Attrs>, k: Slot): Content {
    if k in objs then Holds(objs[k]) else Empty
  }

  /** The hardware holds exactly `base` and, at every NPU where it has a handle, the object `o`. */
  ghost predicate InPlace(base: map<Slot, Attrs>, hw: Hw, o: Obj) {
    && hw.Fresh()
    && (forall k :: k in base ==> k.handle <= hw.count && !o.Owns(k))
    && (forall k :: At(hw.objs, k) == if o.Owns(k) then Holds(o.attrs) else At(base, k))
  }

  /** In place, with a handle on every one of its NPUs. */
  ghost predicate Installed(base: map<Slot, Attrs>, hw: Hw, o: Obj) {
    InPlace(base, hw, o) && o.npus <= o.handles.Keys
  }

  /** The new object was created here by a step still in effect. */
  ghost predicate NewHas(w: World, applied: set<Step>, k: Slot) {
    CreateOn(k.npu) in applied && w.objNew.HandleAt(k.npu) == k.handle
  }

  /** The old object is here and no step in effect deleted it. */
  ghost predicate OldHas(w: World, applied: set<Step>, k: Slot) {
    w.objOld.Owns(k) && DeleteFrom(k.npu) !in applied
  }

  /** The old attribute values, except where a step in effect pushed the new value. */
  ghost function Mixed(w: World, applied: set<Step>, n: NpuId): Attrs {
    map a | a in w.objOld.attrs :: if SetOn(a, n) in applied then w.objNew.ValueOf(a) else w.objOld.attrs[a]
  }

  /** What a slot holds when exactly the steps in `applied` are in effect. */
  ghost function Expected(base: map<Slot, Attrs>, w: World, applied: set<Step>, k: Slot): Content {
    if NewHas(w, applied, k) then Holds(w.objNew.attrs)
    else if OldHas(w, applied, k) then Holds(Mixed(w, applied, k.npu))
    else At(base, k)
  }

  /** The step and its undo find the handles they look up. */
  ghost predicate Reached(w: World, s: Step) {
    !LacksHandle(w, s) && !UndoLacksHandle(w, s)
  }

  /**
   * The hardware is `base` plus the old object, changed by exactly the steps in
   * `applied`. This pins every slot and every attribute value.
   */
  ghost predicate InEffect(base: map<Slot, Attrs>, w: World, applied: set<Step>) {
    && w.hw.Fresh()
    && (forall s :: s in applied ==> Reached(w, s))
    && (forall k :: k in base ==> k.handle <= w.hw.count && !NewHas(w, applied, k) && !OldHas(w, applied, k))
    && (forall k :: At(w.hw.objs, k) == Expected(base, w, applied, k))
  }

  // ----- which steps a plan may hold -----

  ghost predicate Planned(w: World, s: Step) {
    match s
    case CreateOn(n) => n in w.objNew.npus - w.objOld.npus
    case DeleteFrom(n) => n in w.objOld.npus - w.objNew.npus
    case SetOn(a, n) => n in w.objNew.npus * w.objOld.npus && a in w.objNew.dirty
  }

  ghost predicate Distinct(steps: seq<Step>) {
    forall i, j :: 0 <= i < j < |steps| ==> steps[i] != steps[j]
  }

  /** Two objects of one class, the new one a copy of the old one with dirty attributes. */
  ghost predicate Related(w: World) {
    && w.objNew.attrs.Keys == w.objOld.attrs.Keys
    && w.objNew.dirty <= w.objNew.attrs.Keys
    && forall n :: n in w.objNew.npus * w.objOld.npus ==> SameHandle(w.objNew, w.objOld, n)
  }

  ghost predicate SameHandle(o: Obj, p: Obj, n: NpuId) {
    (n in o.handles <==> n in p.handles) && o.HandleAt(n) == p.HandleAt(n)
  }

  /**
   * Pushes change handles only. A handle that changes becomes 0 or a fresh one, none goes
   * missing, and the old object is given none on another NPU.
   */
  ghost predicate Evolves(w: World, w': World) {
    && w'.objNew.(handles := w.objNew.handles) == w.objNew
    && w'.objOld.(handles := w.objOld.handles) == w.objOld
    && w.hw.count <= w'.hw.count
    && (forall n :: RenewedAt(w.objNew, w'.objNew, w.hw.count, n))
    && (forall n :: RenewedAt(w.objOld, w'.objOld, w.hw.count, n))
    && (forall n :: n in w'.objOld.handles ==> n in w.objOld.handles)
  }

  lemma EvolvesOn(w: World, w1: World, w2: World)
    requires Evolves(w, w1) && Evolves(w1, w2)
    ensures Evolves(w, w2)
  {
    forall n ensures RenewedAt(w.objNew, w2.objNew, w.hw.count, n) && RenewedAt(w.objOld, w2.objOld, w.hw.count, n) {
      assert RenewedAt(w.objNew, w1.objNew, w.hw.count, n) && RenewedAt(w1.objNew, w2.objNew, w1.hw.count, n);
      assert RenewedAt(w.objOld, w1.objOld, w.hw.count, n) && RenewedAt(w1.objOld, w2.objOld, w1.hw.count, n);
    }
  }

  ghost predicate RenewedAt(o: Obj, o': Obj, count: nat, n: NpuId) {
    && (n in o.handles ==> n in o'.handles)
    && (n in o'.handles ==>
         o'.handles[n] == 0 || o'.handles[n] > count || (n in o.handles && o.handles[n] == o'.handles[n]))
  }

  // ----- one push -----

  ghost predicate AllPlanned(w: World, applied: set<Step>) {
    forall t :: t in applied ==> Planned(w, t)
  }

  lemma CreateKeeps(base: map<Slot, Attrs>, w: World, applied: set<Step>, n: NpuId)
    requires Related(w) && InEffect(base, w, applied) && AllPlanned(w, applied)
    requires n in w.objNew.npus - w.objOld.npus && CreateOn(n) !in applied && w.hw.Next().Done?
    ensures InEffect(base, Push(w, CreateOn(n)), applied + {CreateOn(n)})
  {
    var w', applied' := Push(w, CreateOn(n)), applied + {CreateOn(n)};
    forall k ensures At(w'.hw.objs, k) == Expected(base, w', applied', k) {
      assert At(w.hw.objs, k) == Expected(base, w, applied, k);
      assert Mixed(w', applied', k.npu) == Mixed(w, applied, k.npu);
      assert k == Slot(k.npu, k.handle);
    }
  }

  lemma DeleteKeeps(base: map<Slot, Attrs>, w: World, applied: set<Step>, n: NpuId)
    requires Related(w) && InEffect(base, w, applied) && AllPlanned(w, applied)
    requires n in w.objOld.npus - w.objNew.npus && DeleteFrom(n) !in applied
    requires w.hw.Next().Done? && n in w.objOld.handles
    ensures InEffect(base, Push(w, DeleteFrom(n)), applied + {DeleteFrom(n)})
  {
    var w', applied' := Push(w, DeleteFrom(n)), applied + {DeleteFrom(n)};
    assert w.objOld.Owns(Slot(n, w.objOld.HandleAt(n)));
    forall k ensures At(w'.hw.objs, k) == Expected(base, w', applied', k) {
      assert At(w.hw.objs, k) == Expected(base, w, applied, k);
      assert Mixed(w', applied', k.npu) == Mixed(w, applied, k.npu);
      assert k == Slot(k.npu, k.handle);
    }
  }

  lemma SetKeeps(base: map<Slot, Attrs>, w: World, applied: set<Step>, a: AttrId, n: NpuId)
    requires Related(w) && InEffect(base, w, applied) && AllPlanned(w, applied)
    requires n in w.objNew.npus * w.objOld.npus && a in w.objNew.dirty
    requires w.hw.Next().Done? && n in w.objNew.handles
    ensures InEffect(base, Push(w, SetOn(a, n)), applied + {SetOn(a, n)})
  {
    var w', applied' := Push(w, SetOn(a, n)), applied + {SetOn(a, n)};
    forall k ensures At(w'.hw.objs, k) == Expected(base, w', applied', k) {
      assert At(w.hw.objs, k) == Expected(base, w, applied, k);
      assert k == Slot(k.npu, k.handle);
      if k.npu != n { assert Mixed(w', applied', k.npu) == Mixed(w, applied, k.npu); }
      else { assert Mixed(w', applied', n) == Mixed(w, applied, n)[a := w.objNew.ValueOf(a)]; }
    }
  }

  lemma UndoCreateKeeps(base: map<Slot, Attrs>, w: World, applied: set<Step>, n: NpuId)
    requires Related(w) && InEffect(base, w, applied) && AllPlanned(w, applied)
    requires CreateOn(n) in applied && w.hw.Next().Done?
    ensures InEffect(base, PushInverse(w, CreateOn(n)), applied - {CreateOn(n)})
  {
    var w', applied' := PushInverse(w, CreateOn(n)), applied - {CreateOn(n)};
    assert Planned(w, CreateOn(n)) && NewHas(w, applied, Slot(n, w.objNew.HandleAt(n)));
    forall k ensures At(w'.hw.objs, k) == Expected(base, w', applied', k) {
      assert At(w.hw.objs, k) == Expected(base, w, applied, k);
      assert Mixed(w', applied', k.npu) == Mixed(w, applied, k.npu);
      assert k == Slot(k.npu, k.handle);
    }
  }

  lemma UndoDeleteKeeps(base: map<Slot, Attrs>, w: World, applied: set<Step>, n: NpuId)
    requires Related(w) && InEffect(base, w, applied) && AllPlanned(w, applied)
    requires DeleteFrom(n) in applied && w.hw.Next().Done?
    ensures InEffect(base, PushInverse(w, DeleteFrom(n)), applied - {DeleteFrom(n)})
  {
    var w', applied' := PushInverse(w, DeleteFrom(n)), applied - {DeleteFrom(n)};
    assert Planned(w, DeleteFrom(n));
    forall a ensures SetOn(a, n) !in applied { assert SetOn(a, n) in applied ==> Planned(w, SetOn(a, n)); }
    forall k ensures At(w'.hw.objs, k) == Expected(base, w', applied', k) {
      assert At(w.hw.objs, k) == Expected(base, w, applied, k);
      assert Mixed(w', applied', k.npu) == Mixed(w, applied, k.npu);
      assert k == Slot(k.npu, k.handle);
      if k.npu == n { assert Mixed(w', applied', n) == w.objOld.attrs; }
    }
  }

  lemma UndoSetKeeps(base: map<Slot, Attrs>, w: World, applied: set<Step>, a: AttrId, n: NpuId)
    requires Related(w) && InEffect(base, w, applied) && AllPlanned(w, applied)
    requires SetOn(a, n) in applied && w.hw.Next().Done?
    ensures InEffect(base, PushInverse(w, SetOn(a, n)), applied - {SetOn(a, n)})
  {
    var w', applied' := PushInverse(w, SetOn(a, n)), applied - {SetOn(a, n)};
    assert Planned(w, SetOn(a, n));
    forall k ensures At(w'.hw.objs, k) == Expected(base, w', applied', k) {
      assert At(w.hw.objs, k) == Expected(base, w, applied, k);
      assert k == Slot(k.npu, k.handle);
      if k.npu != n { assert Mixed(w', applied', k.npu) == Mixed(w, applied, k.npu); }
      else { assert Mixed(w', applied', n) == Mixed(w, applied, n)[a := w.objOld.ValueOf(a)]; }
    }
  }

  /** A push that is done puts its step in effect, and one that is not changes nothing. */
  lemma PushKeeps(base: map<Slot, Attrs>, w: World, applied: set<Step>, s: Step)
    requires Related(w) && InEffect(base, w, applied) && AllPlanned(w, applied)
    requires Planned(w, s) && s !in applied && !Escapes(w, s)
    ensures Related(Push(w, s)) && Evolves(w, Push(w, s))
    ensures InEffect(base, Push(w, s), if w.hw.Next().Done? then applied + {s} else applied)
  {
    if w.hw.Next().Done? {
      match s
      case CreateOn(n) => CreateKeeps(base, w, applied, n);
      case DeleteFrom(n) => DeleteKeeps(base, w, applied, n);
      case SetOn(a, n) => SetKeeps(base, w, applied, a, n);
    } else {
      SameInEffect(base, w, Push(w, s), applied);
    }
  }

  /** An undo push that is done takes its step out of effect, and one that is not changes nothing. */
  lemma PushInverseKeeps(base: map<Slot, Attrs>, w: World, applied: set<Step>, s: Step)
    requires Related(w) && InEffect(base, w, applied) && AllPlanned(w, applied)
    requires s in applied
    ensures Related(PushInverse(w, s)) && Evolves(w, PushInverse(w, s))
    ensures InEffect(base, PushInverse(w, s), if w.hw.Next().Done? then applied - {s} else applied)
  {
    assert Planned(w, s);
    if w.hw.Next().Done? {
      match s
      case CreateOn(n) => UndoCreateKeeps(base, w, applied, n);
      case DeleteFrom(n) => UndoDeleteKeeps(base, w, applied, n);
      case SetOn(a, n) => UndoSetKeeps(base, w, applied, a, n);
    } else {
      SameInEffect(base, w, PushInverse(w, s), applied);
    }
  }

  /** The log plays no part in what is in effect. */
  lemma SameInEffect(base: map<Slot, Attrs>, w: World, w': World, applied: set<Step>)
    requires InEffect(base, w, applied)
    requires w'.objNew == w.objNew && w'.objOld == w.objOld
    requires w'.hw.objs == w.hw.objs && w'.hw.count == w.hw.count
    ensures InEffect(base, w', applied)
  {
  }

  // ----- whole runs -----

  /** What a plan needs in order to go on from here. */
  ghost predicate Ready(base: map<Slot, Attrs>, w: World, applied: set<Step>, steps: seq<Step>) {
    && Related(w) && InEffect(base, w, applied) && AllPlanned(w, applied)
    && AllPlanned(w, Steps(steps)) && Distinct(steps) && Steps(steps) !! applied
  }

  lemma ReadyForRest(base: map<Slot, Attrs>, w: World, applied: set<Step>, steps: seq<Step>)
    requires steps != [] && Ready(base, w, applied, steps) && !Escapes(w, steps[0])
    ensures var applied1 := if w.hw.Next().Done? then applied + {steps[0]} else applied;
      Ready(base, Push(w, steps[0]), applied1, steps[1..]) && Evolves(w, Push(w, steps[0]))
  {
    assert steps == [steps[0]] + steps[1..] && steps[0] in Steps(steps);
    forall s | s in Steps(steps[1..]) ensures s in Steps(steps) && s != steps[0] {}
    PushKeeps(base, w, applied, steps[0]);
  }

  lemma OneMoreDone(base: map<Slot, Attrs>, w: World, applied: set<Step>, s: Step, done: seq<Step>)
    requires InEffect(base, w, applied + {s} + Steps(done)) && Distinct(done) && s !in Steps(done)
    ensures Distinct([s] + done) && Steps([s] + done) == {s} + Steps(done)
    ensures InEffect(base, w, applied + Steps([s] + done))
  {
    assert applied + {s} + Steps(done) == applied + Steps([s] + done);
  }

  /** Whatever the adversary does, going forward puts exactly the done steps in effect. */
  lemma {:induction false} ForwardKeeps(
    base: map<Slot, Attrs>, w: World, applied: set<Step>, steps: seq<Step>, rollingBack: bool)
    requires Ready(base, w, applied, steps)
    ensures var r := Forward(w, steps, rollingBack);
      && Related(r.w) && Evolves(w, r.w)
      && Distinct(r.done) && Steps(r.done) <= Steps(steps)
      && InEffect(base, r.w, applied + Steps(r.done))
      && (rollingBack ==> !r.end.Threw?)
    decreases |steps|
  {
    var r := Forward(w, steps, rollingBack);
    assert applied + Steps([]) == applied;
    if steps != [] && !Escapes(w, steps[0]) {
      var s, rest, w1 := steps[0], steps[1..], Push(w, steps[0]);
      ReadyForRest(base, w, applied, steps);
      assert steps == [s] + rest && s !in Steps(rest) && Steps(steps) == {s} + Steps(rest);
      if !(w.hw.Next().Failed? && !rollingBack) {
        ForwardKeeps(base, w1, if w.hw.Next().Done? then applied + {s} else applied, rest, rollingBack);
        var r1 := Forward(w1, rest, rollingBack);
        EvolvesOn(w, w1, r1.w);
        if w.hw.Next().Done? { OneMoreDone(base, r1.w, applied, s, r1.done); }
      }
    }
  }

  /**
   * Whatever the adversary does, going back takes the tracked steps out of effect, except
   * the lost ones, and finds every handle it looks up.
   */
  lemma {:induction false} BackwardKeeps(base: map<Slot, Attrs>, w: World, applied: set<Step>, tracker: seq<Step>)
    requires Related(w) && InEffect(base, w, applied) && AllPlanned(w, applied)
    requires Distinct(tracker) && Steps(tracker) <= applied
    ensures var u := Backward(w, tracker);
      && Related(u.w) && Evolves(w, u.w)
      && u.lost <= Steps(tracker) && u.abandoned == {}
      && InEffect(base, u.w, applied - Steps(tracker) + u.lost)
    decreases |tracker|
  {
    if tracker == [] {
      assert applied - Steps([]) + {} == applied;
    } else {
      var s, rest := tracker[|tracker| - 1], tracker[..|tracker| - 1];
      assert tracker == rest + [s] && Steps(tracker) == Steps(rest) + {s};
      assert s in Steps(tracker) && s !in rest;
      PushInverseKeeps(base, w, applied, s);
      var applied1 := if w.hw.Next().Done? then applied - {s} else applied;
      BackwardKeeps(base, PushInverse(w, s), applied1, rest);
      var u1 := Backward(PushInverse(w, s), rest);
      EvolvesOn(w, PushInverse(w, s), u1.w);
      assert applied1 - Steps(rest) + u1.lost == applied - Steps(tracker) + Backward(w, tracker).lost;
    }
  }

  // ----- which handles are there -----

  /** No push of these steps looks up a handle that is missing. */
  predicate AllHandles(w: World, steps: seq<Step>) {
    forall s :: s in steps ==> !LacksHandle(w, s)
  }

  /**
   * Going forward, for any objects: no handle goes missing, a done create left one, and
   * without skips a run that ends has done every step.
   */
  lemma {:induction false} ForwardHandles(w: World, steps: seq<Step>, rollingBack: bool)
    ensures var r := Forward(w, steps, rollingBack);
      && w.objNew.handles.Keys <= r.w.objNew.handles.Keys && w.objOld.handles.Keys <= r.w.objOld.handles.Keys
      && (forall s :: s in r.done ==> s in steps)
      && (forall n :: CreateOn(n) in r.done ==> n in r.w.objNew.handles)
      && (AllHandles(w, steps) ==> !r.end.Escaped?)
      && r.w.hw.script == w.hw.script
      && (w.hw.NoSkips() && !rollingBack && r.end.Finished? ==> r.done == steps)
    decreases |steps|
  {
    if steps != [] && !Escapes(w, steps[0]) {
      assert steps == [steps[0]] + steps[1..];
      if !(w.hw.Next().Failed? && !rollingBack) {
        var w1 := Push(w, steps[0]);
        ForwardHandles(w1, steps[1..], rollingBack);
        forall t | AllHandles(w, steps) && t in steps[1..] ensures !LacksHandle(w1, t) { assert t in steps; }
      }
    }
  }

  /** Going back, for any objects: no handle goes missing, and if none was, every undo is attempted. */
  lemma {:induction false} BackwardHandles(w: World, tracker: seq<Step>)
    ensures var u := Backward(w, tracker);
      && w.objNew.handles.Keys <= u.w.objNew.handles.Keys && w.objOld.handles.Keys <= u.w.objOld.handles.Keys
      && u.w.hw.script == w.hw.script
      && ((forall s :: s in tracker ==> !UndoLacksHandle(w, s)) ==> u.abandoned == {})
    decreases |tracker|
  {
    if tracker != [] && !UndoEscapes(w, tracker[|tracker| - 1]) {
      var rest := tracker[..|tracker| - 1];
      BackwardHandles(PushInverse(w, tracker[|tracker| - 1]), rest);
      assert forall s :: s in rest ==> s in tracker;
    }
  }

  /** Every handle that these steps or their undo look up is there, or made by the step. */
  predicate Equipped(w: World, steps: seq<Step>) {
    AllHandles(w, steps) && forall s :: s in steps && s.SetOn? ==> s.npu in w.objOld.handles
  }

  /** A whole commit, for any objects. */
  lemma CommitHandles(w: World, plan: seq<Step>, rollingBack: bool)
    ensures var c := Commit(w, plan, rollingBack);
      && w.objNew.handles.Keys <= c.w.objNew.handles.Keys && w.objOld.handles.Keys <= c.w.objOld.handles.Keys
      && c.w.hw.script == w.hw.script
      && (Equipped(w, plan) ==> !c.end.Escaped?)
      && (w.hw.NoSkips() && !rollingBack && c.end.Finished? ==> c.done == plan)
      && (c.end.Finished? ==> forall n :: CreateOn(n) in c.done ==> n in c.w.objNew.handles)
  {
    ForwardHandles(w, plan, rollingBack);
    var r := Forward(w, plan, rollingBack);
    if r.end.Threw? {
      BackwardHandles(r.w, r.done);
      assert Equipped(w, plan) ==> forall s :: s in r.done ==> !UndoLacksHandle(r.w, s);
    }
  }

  /**
   * A whole commit: at the end, the done steps are in effect unless a push threw, and then
   * only the lost ones.
   */
  lemma CommitKeeps(base: map<Slot, Attrs>, w: World, plan: seq<Step>, rollingBack: bool)
    requires Ready(base, w, {}, plan)
    ensures var c := Commit(w, plan, rollingBack);
      && Related(c.w) && Evolves(w, c.w)
      && Distinct(c.done) && Steps(c.done) <= Steps(plan) && c.lost <= Steps(c.done)
      && c.Left() == (if c.end.Threw? then c.lost else Steps(c.done))
      && InEffect(base, c.w, c.Left())
      && (rollingBack ==> !c.end.Threw?) && (AllHandles(w, plan) ==> !c.end.Escaped?)
  {
    ForwardHandles(w, plan, rollingBack);
    ForwardKeeps(base, w, {}, plan, rollingBack);
    var r := Forward(w, plan, rollingBack);
    assert {} + Steps(r.done) == Steps(r.done);
    if r.end.Threw? {
      BackwardKeeps(base, r.w, Steps(r.done), r.done);
      var u := Backward(r.w, r.done);
      EvolvesOn(w, r.w, u.w);
      assert Steps(r.done) - Steps(r.done) + u.lost == u.lost && u.lost + {} == u.lost;
    }
  }

  // ----- objects change in their handles only -----

  /** Two objects that differ at most in their handles. */
  ghost predicate SameButHandles(o: Obj, o': Obj) {
    o' == o.(handles := o'.handles)
  }

  lemma PushTouchesHandles(w: World, s: Step)
    ensures var w' := Push(w, s); SameButHandles(w.objNew, w'.objNew) && SameButHandles(w.objOld, w'.objOld)
  {
  }

  lemma {:induction false} ForwardTouchesHandles(w: World, steps: seq<Step>, rollingBack: bool)
    ensures var w' := Forward(w, steps, rollingBack).w;
      SameButHandles(w.objNew, w'.objNew) && SameButHandles(w.objOld, w'.objOld)
    decreases |steps|
  {
    hide Push;
    if steps != [] && !Escapes(w, steps[0]) {
      PushTouchesHandles(w, steps[0]);
      if !(w.hw.Next().Failed? && !rollingBack) {
        ForwardTouchesHandles(Push(w, steps[0]), steps[1..], rollingBack);
      }
    }
  }

  lemma {:induction false} BackwardTouchesHandles(w: World, tracker: seq<Step>)
    ensures var w' := Backward(w, tracker).w;
      SameButHandles(w.objNew, w'.objNew) && SameButHandles(w.objOld, w'.objOld)
    decreases |tracker|
  {
    if tracker != [] && !UndoEscapes(w, tracker[|tracker| - 1]) {
      BackwardTouchesHandles(PushInverse(w, tracker[|tracker| - 1]), tracker[..|tracker| - 1]);
    }
  }

  lemma CommitTouchesHandles(w: World, plan: seq<Step>, rollingBack: bool)
    ensures var w' := Commit(w, plan, rollingBack).w;
      SameButHandles(w.objNew, w'.objNew) && SameButHandles(w.objOld, w'.objOld)
  {
    ForwardTouchesHandles(w, plan, rollingBack);
    var r := Forward(w, plan, rollingBack);
    if r.end.Threw? { BackwardTouchesHandles(r.w, r.done); }
  }

  // ----- plans hold what they should -----

  lemma DistinctJoin(a: seq<Step>, b: seq<Step>)
    requires Distinct(a) && Distinct(b)
    requires forall i, j :: 0 <= i < |a| && 0 <= j < |b| ==> a[i] != b[j]
    ensures Distinct(a + b)
    ensures forall s :: s in a + b <==> s in a || s in b
  {
  }

  /** Each kind of step is listed once for each NPU. */
  lemma StepsHold(a: AttrId, npus: seq<NpuId>)
    requires StrictlyIncreasing(npus)
    ensures Distinct(CreateSteps(npus)) && forall s :: s in CreateSteps(npus) <==> s.CreateOn? && s.npu in npus
    ensures Distinct(DeleteSteps(npus)) && forall s :: s in DeleteSteps(npus) <==> s.DeleteFrom? && s.npu in npus
    ensures Distinct(SetSteps(a, npus))
    ensures forall s :: s in SetSteps(a, npus) <==> s.SetOn? && s.attr == a && s.npu in npus
  {
  }

  lemma {:induction false} AttrStepsHold(attrs: seq<AttrId>, npus: seq<NpuId>)
    requires StrictlyIncreasing(attrs) && StrictlyIncreasing(npus)
    ensures Distinct(AttrSteps(attrs, npus))
    ensures forall s :: s in AttrSteps(attrs, npus) <==> s.SetOn? && s.attr in attrs && s.npu in npus
  {
    if attrs != [] {
      var here, rest := SetSteps(attrs[0], npus), AttrSteps(attrs[1..], npus);
      StepsHold(attrs[0], npus);
      AttrStepsHold(attrs[1..], npus);
      assert attrs == [attrs[0]] + attrs[1..];
      forall i, j | 0 <= i < |here| && 0 <= j < |rest| ensures here[i] != rest[j] {
        assert rest[j] in rest;
      }
      DistinctJoin(here, rest);
    }
  }

  /** The plan of a modify lists each step it needs exactly once. */
  lemma ModifyPlanHolds(w: World)
    ensures Distinct(ModifyPlan(w.objNew, w.objOld))
    ensures forall s :: s in ModifyPlan(w.objNew, w.objOld) <==> Planned(w, s)
  {
    var added, removed := Ascending(w.objNew.npus - w.objOld.npus), Ascending(w.objOld.npus - w.objNew.npus);
    var c, d := CreateSteps(added), DeleteSteps(removed);
    var m := AttrSteps(Ascending(w.objNew.dirty), Ascending(w.objNew.npus * w.objOld.npus));
    StepsHold(0, added);
    StepsHold(0, removed);
    AttrStepsHold(Ascending(w.objNew.dirty), Ascending(w.objNew.npus * w.objOld.npus));
    JoinKinds(c, d, m);
  }

  lemma JoinKinds(c: seq<Step>, d: seq<Step>, m: seq<Step>)
    requires Distinct(c) && Distinct(d) && Distinct(m)
    requires (forall s :: s in c ==> s.CreateOn?) && (forall s :: s in d ==> s.DeleteFrom?)
    requires forall s :: s in m ==> s.SetOn?
    ensures Distinct(c + d + m)
    ensures forall s :: s in c + d + m <==> s in c || s in d || s in m
  {
    forall i, j | 0 <= i < |c| && 0 <= j < |d| ensures c[i] != d[j] {
      assert c[i] in c && d[j] in d;
    }
    DistinctJoin(c, d);
    forall i, j | 0 <= i < |c + d| && 0 <= j < |m| ensures (c + d)[i] != m[j] {
      assert m[j] in m && (c + d)[i] in c + d;
    }
    DistinctJoin(c + d, m);
  }

  /** Creates come before deletes and those before attributes; NPUs and attributes go up, attribute by attribute. */
  predicate StepBefore(s: Step, t: Step) {
    match s
    case CreateOn(n) => t.CreateOn? ==> n < t.npu
    case DeleteFrom(n) => t.SetOn? || (t.DeleteFrom? && n < t.npu)
    case SetOn(a, n) => t.SetOn? && (a < t.attr || (a == t.attr && n < t.npu))
  }

  ghost predicate InOrder(steps: seq<Step>) {
    forall i, j :: 0 <= i < j < |steps| ==> StepBefore(steps[i], steps[j])
  }

  lemma InOrderJoin(a: seq<Step>, b: seq<Step>)
    requires InOrder(a) && InOrder(b)
    requires forall s, t :: s in a && t in b ==> StepBefore(s, t)
    ensures InOrder(a + b)
  {
    forall i, j | 0 <= i < j < |a + b| ensures StepBefore((a + b)[i], (a + b)[j]) {
      if i < |a| <= j { assert a[i] in a && b[j - |a|] in b; }
    }
  }

  lemma {:induction false} AttrStepsInOrder(attrs: seq<AttrId>, npus: seq<NpuId>)
    requires StrictlyIncreasing(attrs) && StrictlyIncreasing(npus)
    ensures InOrder(AttrSteps(attrs, npus))
  {
    if attrs != [] {
      var rest := attrs[1..];
      AttrStepsInOrder(rest, npus);
      AttrStepsHold(rest, npus);
      StepsHold(attrs[0], npus);
      forall a | a in rest ensures attrs[0] < a {
        var i :| 0 <= i < |rest| && rest[i] == a;
        assert attrs[i + 1] == a;
      }
      InOrderJoin(SetSteps(attrs[0], npus), AttrSteps(rest, npus));
    }
  }

  /** The order of the plan; together with what it holds this leaves one plan only. */
  lemma ModifyPlanInOrder(w: World)
    ensures InOrder(ModifyPlan(w.objNew, w.objOld))
  {
    var added, removed := Ascending(w.objNew.npus - w.objOld.npus), Ascending(w.objOld.npus - w.objNew.npus);
    var dirty, kept := Ascending(w.objNew.dirty), Ascending(w.objNew.npus * w.objOld.npus);
    StepsHold(0, added);
    StepsHold(0, removed);
    AttrStepsHold(dirty, kept);
    AttrStepsInOrder(dirty, kept);
    InOrderJoin(CreateSteps(added), DeleteSteps(removed));
    InOrderJoin(CreateSteps(added) + DeleteSteps(removed), AttrSteps(dirty, kept));
  }

  lemma {:induction false} NoAttrSteps(attrs: seq<AttrId>)
    ensures AttrSteps(attrs, []) == []
  {
    if attrs != [] { NoAttrSteps(attrs[1..]); }
  }

  /** Creating is a modify from nowhere, and deleting is a modify to nowhere. */
  lemma CreateAndDeleteAreModifies(o: Obj)
    ensures CreatePlan(o) == ModifyPlan(o, Nowhere(o))
    ensures DeletePlan(o) == ModifyPlan(Nowhere(o), o)
  {
    assert o.npus - {} == o.npus && {} - o.npus == {};
    assert o.npus * {} == {} && {} * o.npus == {};
    NoAttrSteps(Ascending(o.dirty));
    NothingElse(CreateSteps(Ascending(o.npus)));
    NothingElse(DeleteSteps(Ascending(o.npus)));
  }

  lemma NothingElse(steps: seq<Step>)
    ensures CreateSteps([]) == [] && DeleteSteps([]) == []
    ensures steps + [] + [] == steps && [] + steps + [] == steps
  {
  }

  // ----- nothing in effect, everything in effect -----

  /** The new object is a copy of the old one, changed in dirty attributes and NPUs. */
  ghost predicate Successor(w: World) {
    && Related(w)
    && forall a :: a in w.objOld.attrs && a !in w.objNew.dirty ==> w.objNew.ValueOf(a) == w.objOld.attrs[a]
  }

  /**
   * The step changes what an NPU holds: every one does, except deleting an object that has
   * no handle there and pushing a value that is already there.
   */
  predicate Matters(w: World, s: Step) {
    match s
    case CreateOn(_) => true
    case DeleteFrom(n) => n in w.objOld.handles
    case SetOn(a, _) => w.objNew.ValueOf(a) != w.objOld.ValueOf(a)
  }

  lemma NothingInEffect(base: map<Slot, Attrs>, w: World)
    requires Related(w)
    ensures InEffect(base, w, {}) <==> InPlace(base, w.hw, w.objOld)
  {
  }

  /** The old object is in place exactly when no step in effect matters. */
  lemma OldInPlaceIff(base: map<Slot, Attrs>, w: World, applied: set<Step>)
    requires Related(w) && InEffect(base, w, applied) && AllPlanned(w, applied)
    ensures InPlace(base, w.hw, w.objOld) <==> forall s :: s in applied ==> !Matters(w, s)
  {
    if forall s :: s in applied ==> !Matters(w, s) {
      forall n ensures Mixed(w, applied, n) == w.objOld.attrs {}
      forall k ensures At(w.hw.objs, k) == if w.objOld.Owns(k) then Holds(w.objOld.attrs) else At(base, k) {
        assert CreateOn(k.npu) !in applied;
        assert DeleteFrom(k.npu) in applied ==> Reached(w, DeleteFrom(k.npu));
      }
    }
    if s :| s in applied && Matters(w, s) {
      assert Planned(w, s) && Reached(w, s);
      match s
      case CreateOn(n) =>
        var k := Slot(n, w.objNew.HandleAt(n));
        assert NewHas(w, applied, k) && !w.objOld.Owns(k) && k !in base;
      case DeleteFrom(n) =>
        var k := Slot(n, w.objOld.HandleAt(n));
        assert w.objOld.Owns(k) && !OldHas(w, applied, k) && !NewHas(w, applied, k) by {
          assert CreateOn(n) in applied ==> Planned(w, CreateOn(n));
        }
        assert At(w.hw.objs, k) == At(base, k);
      case SetOn(a, n) =>
        var k := Slot(n, w.objOld.HandleAt(n));
        assert OldHas(w, applied, k) && !NewHas(w, applied, k) by {
          assert CreateOn(n) in applied ==> Planned(w, CreateOn(n));
          assert DeleteFrom(n) in applied ==> Planned(w, DeleteFrom(n));
        }
        assert At(w.hw.objs, k) == Holds(Mixed(w, applied, n));
        assert Mixed(w, applied, n)[a] != w.objOld.attrs[a];
    }
  }

  /** The old object has a handle on each NPU that keeps it. */
  ghost predicate KeptHaveHandles(w: World) {
    forall n :: n in w.objNew.npus * w.objOld.npus ==> n in w.objOld.handles
  }

  /**
   * The new object is in place on all its NPUs exactly when no NPU that keeps it lacks a
   * handle and every planned step that matters is in effect.
   */
  lemma NewInPlaceIff(base: map<Slot, Attrs>, w: World, applied: set<Step>)
    requires Successor(w) && InEffect(base, w, applied) && AllPlanned(w, applied)
    ensures Installed(base, w.hw, w.objNew)
       <==> KeptHaveHandles(w) && forall s :: Planned(w, s) && Matters(w, s) ==> s in applied
  {
    if KeptHaveHandles(w) && forall s :: Planned(w, s) && Matters(w, s) ==> s in applied {
      AllInEffect(base, w, applied);
    }
    if s :| Planned(w, s) && Matters(w, s) && s !in applied {
      OneMissing(base, w, applied, s);
    }
  }

  lemma AllInEffect(base: map<Slot, Attrs>, w: World, applied: set<Step>)
    requires Successor(w) && InEffect(base, w, applied) && AllPlanned(w, applied)
    requires KeptHaveHandles(w) && forall s :: Planned(w, s) && Matters(w, s) ==> s in applied
    ensures Installed(base, w.hw, w.objNew)
  {
    forall n | n in w.objNew.npus ensures n in w.objNew.handles {
      assert n !in w.objOld.npus ==> Planned(w, CreateOn(n)) && Matters(w, CreateOn(n));
      assert CreateOn(n) in applied ==> Reached(w, CreateOn(n));
      assert n in w.objOld.npus ==> SameHandle(w.objNew, w.objOld, n);
    }
    forall n | n in w.objNew.npus * w.objOld.npus ensures Mixed(w, applied, n) == w.objNew.attrs {
      forall a | a in w.objNew.attrs ensures Mixed(w, applied, n)[a] == w.objNew.attrs[a] {
        assert a in w.objNew.dirty ==> Planned(w, SetOn(a, n));
      }
    }
    forall k ensures NewHas(w, applied, k) || OldHas(w, applied, k) <==> w.objNew.Owns(k) {
      assert CreateOn(k.npu) in applied ==> Planned(w, CreateOn(k.npu));
      assert DeleteFrom(k.npu) in applied ==> Planned(w, DeleteFrom(k.npu));
      assert k.npu in w.objNew.npus - w.objOld.npus ==> Planned(w, CreateOn(k.npu)) && Matters(w, CreateOn(k.npu));
      assert k.npu in w.objOld.npus - w.objNew.npus ==> Planned(w, DeleteFrom(k.npu));
      assert k.npu in w.objNew.npus * w.objOld.npus ==> SameHandle(w.objNew, w.objOld, k.npu);
      assert NewHas(w, applied, k) ==> Reached(w, CreateOn(k.npu));
    }
  }

  lemma OneMissing(base: map<Slot, Attrs>, w: World, applied: set<Step>, s: Step)
    requires Successor(w) && InEffect(base, w, applied) && AllPlanned(w, applied)
    requires Planned(w, s) && Matters(w, s) && s !in applied
    ensures !Installed(base, w.hw, w.objNew)
  {
    match s
    case CreateOn(n) =>
      var k := Slot(n, w.objNew.HandleAt(n));
      assert n in w.objNew.handles ==> w.objNew.Owns(k);
      assert Expected(base, w, applied, k) == At(base, k) == At(w.hw.objs, k);
    case DeleteFrom(n) =>
      var k := Slot(n, w.objOld.HandleAt(n));
      assert OldHas(w, applied, k) && !w.objNew.Owns(k);
      assert k !in base && At(w.hw.objs, k) != Empty;
    case SetOn(a, n) =>
      var k := Slot(n, w.objOld.HandleAt(n));
      assert n in w.objOld.handles ==> OldHas(w, applied, k) && !NewHas(w, applied, k) && w.objNew.Owns(k) by {
        assert CreateOn(n) in applied ==> Planned(w, CreateOn(n));
        assert DeleteFrom(n) in applied ==> Planned(w, DeleteFrom(n));
      }
      assert n in w.objOld.handles ==> At(w.hw.objs, k) == Holds(Mixed(w, applied, n));
      assert Mixed(w, applied, n)[a] != w.objNew.attrs[a];
  }
}
