/**
 * Commit with compensating rollback, on values.
 *
 * A commit is a plan: a list of steps pushed one at a time until one throws.
 * Steps that took effect are tracked, and on failure the tracked steps are undone
 * in reverse, each undo push being attempted once whatever it does.
 *
 * A push that needs the handle of an object on an NPU looks it up first. A missing handle
 * raises an exception of another kind, which the commit code does not catch: it leaves
 * the commit at once, without any rollback.
 */
module CommitModel {
  import opened Ordering
  import opened NdiHardware

  /** The state of one object (`base_obj_t` and its attribute values and handle table). */
  datatype Obj = Obj(
    npus: set<NpuId>,
    attrs: Attrs,
    handles: map<NpuId, Handle>,
    dirty: set<AttrId>,
    setAttrs: set<AttrId>,
    created: bool,
    npuListDirty: bool,
    followingSwitch: bool)
  {
    /** The handle on an NPU. A missing one is 0 here, which only the log of a skipped push shows. */
    function HandleAt(n: NpuId): Handle {
      if n in handles then handles[n] else 0
    }

    function ValueOf(a: AttrId): Value {
      if a in attrs then attrs[a] else 0
    }

    /** The object the hardware should hold at this slot is this one. */
    ghost predicate Owns(k: Slot) {
      k.npu in npus && k.npu in handles && handles[k.npu] == k.handle
    }
  }

  /** The object on no NPU, the other side of a plain create or delete. */
  function Nowhere(o: Obj): Obj {
    o.(npus := {})
  }

  // ----- the push hooks -----

  function PushCreate(hw: Hw, o: Obj, n: NpuId, ndiObj: Attrs): (Hw, Obj) {
    var hw' := hw.Issue(CreateObj(n, ndiObj));
    (hw', if hw.Next().Done? then o.(handles := o.handles[n := hw'.count]) else o)
  }

  function PushDelete(hw: Hw, o: Obj, n: NpuId): (Hw, Obj) {
    (hw.Issue(DeleteObj(n, o.HandleAt(n))), if hw.Next().Done? then o.(handles := o.handles[n := 0]) else o)
  }

  function PushLeafAttr(hw: Hw, o: Obj, a: AttrId, n: NpuId): Hw {
    hw.Issue(SetAttr(n, o.HandleAt(n), a, o.ValueOf(a)))
  }

  // ----- plans -----

  /** One push of a commit, and also the tracker element recorded for it. */
  datatype Step =
    | CreateOn(npu: NpuId)
    | DeleteFrom(npu: NpuId)
    | SetOn(attr: AttrId, npu: NpuId)

  /** The two objects a commit works with, and the hardware. */
  datatype World = World(hw: Hw, objNew: Obj, objOld: Obj)

  function CreateSteps(npus: seq<NpuId>): (r: seq<Step>)
    ensures |r| == |npus| && forall i :: 0 <= i < |r| ==> r[i] == CreateOn(npus[i])
  {
    seq(|npus|, i requires 0 <= i < |npus| => CreateOn(npus[i]))
  }

  function DeleteSteps(npus: seq<NpuId>): (r: seq<Step>)
    ensures |r| == |npus| && forall i :: 0 <= i < |r| ==> r[i] == DeleteFrom(npus[i])
  {
    seq(|npus|, i requires 0 <= i < |npus| => DeleteFrom(npus[i]))
  }

  function SetSteps(a: AttrId, npus: seq<NpuId>): (r: seq<Step>)
    ensures |r| == |npus| && forall i :: 0 <= i < |r| ==> r[i] == SetOn(a, npus[i])
  {
    seq(|npus|, i requires 0 <= i < |npus| => SetOn(a, npus[i]))
  }

  /** Attribute by attribute, each over all the NPUs. */
  function AttrSteps(attrs: seq<AttrId>, npus: seq<NpuId>): seq<Step> {
    if attrs == [] then [] else SetSteps(attrs[0], npus) + AttrSteps(attrs[1..], npus)
  }

  function CreatePlan(o: Obj): seq<Step> {
    CreateSteps(Ascending(o.npus))
  }

  function DeletePlan(o: Obj): seq<Step> {
    DeleteSteps(Ascending(o.npus))
  }

  function ModifyPlan(objNew: Obj, objOld: Obj): seq<Step> {
    CreateSteps(Ascending(objNew.npus - objOld.npus)) +
    DeleteSteps(Ascending(objOld.npus - objNew.npus)) +
    AttrSteps(Ascending(objNew.dirty), Ascending(objNew.npus * objOld.npus))
  }

  // ----- running a plan -----

  function Push(w: World, s: Step): World {
    match s
    case CreateOn(n) =>
      var (hw, o) := PushCreate(w.hw, w.objNew, n, w.objNew.attrs); World(hw, o, w.objOld)
    case DeleteFrom(n) =>
      var (hw, o) := PushDelete(w.hw, w.objOld, n); World(hw, w.objNew, o)
    case SetOn(a, n) =>
      w.(hw := PushLeafAttr(w.hw, w.objNew, a, n))
  }

  function PushInverse(w: World, s: Step): World {
    match s
    case CreateOn(n) =>
      var (hw, o) := PushDelete(w.hw, w.objNew, n); World(hw, o, w.objOld)
    case DeleteFrom(n) =>
      var (hw, o) := PushCreate(w.hw, w.objOld, n, w.objOld.attrs); World(hw, w.objNew, o)
    case SetOn(a, n) =>
      w.(hw := PushLeafAttr(w.hw, w.objOld, a, n))
  }

  function Steps(s: seq<Step>): set<Step> {
    set x | x in s
  }

  /** The push of this step needs a handle that is not there. */
  predicate LacksHandle(w: World, s: Step) {
    match s
    case CreateOn(_) => false
    case DeleteFrom(n) => n !in w.objOld.handles
    case SetOn(_, n) => n !in w.objNew.handles
  }

  predicate UndoLacksHandle(w: World, s: Step) {
    match s
    case CreateOn(n) => n !in w.objNew.handles
    case DeleteFrom(_) => false
    case SetOn(_, n) => n !in w.objOld.handles
  }

  /** A push that is skipped looks nothing up; any other looks its handle up before it calls NDI. */
  predicate Escapes(w: World, s: Step) {
    LacksHandle(w, s) && !w.hw.Next().Skipped?
  }

  predicate UndoEscapes(w: World, s: Step) {
    UndoLacksHandle(w, s) && !w.hw.Next().Skipped?
  }

  /** How a run ended: all was attempted, a push threw, or the lookup of a handle did. */
  datatype End = Finished | Threw | Escaped

  /** A plan as far as it got, with the steps that took effect. */
  datatype Run = Run(w: World, done: seq<Step>, end: End)

  function Forward(w: World, steps: seq<Step>, rollingBack: bool): Run
    decreases |steps|
  {
    if steps == [] then Run(w, [], Finished)
    else if Escapes(w, steps[0]) then Run(w, [], Escaped)
    else
      var w1 := Push(w, steps[0]);
      match w.hw.Next()
      case Done =>
        var r := Forward(w1, steps[1..], rollingBack);
        Run(r.w, [steps[0]] + r.done, r.end)
      case Skipped => Forward(w1, steps[1..], rollingBack)
      case Failed => if rollingBack then Forward(w1, steps[1..], rollingBack) else Run(w1, [], Threw)
  }

  /**
   * What a rollback leaves: the tracked steps whose undo push had no effect, and those that
   * were left when the lookup of a handle threw.
   */
  datatype Undone = Undone(w: World, lost: set<Step>, abandoned: set<Step>)

  function Backward(w: World, tracker: seq<Step>): Undone
    decreases |tracker|
  {
    if tracker == [] then Undone(w, {}, {}) else
    var last := tracker[|tracker| - 1];
    if UndoEscapes(w, last) then Undone(w, {}, Steps(tracker)) else
    var u := Backward(PushInverse(w, last), tracker[..|tracker| - 1]);
    if w.hw.Next().Done? then u else u.(lost := u.lost + {last})
  }

  /** How a commit ended. `done` lists the pushes in effect before any rollback. */
  datatype Outcome = Outcome(w: World, end: End, done: seq<Step>, lost: set<Step>, abandoned: set<Step>) {

    /** The steps in effect at the end. */
    ghost function Left(): set<Step> {
      if end.Finished? then Steps(done) else lost + abandoned
    }
  }

  function Commit(w: World, plan: seq<Step>, rollingBack: bool): Outcome {
    var r := Forward(w, plan, rollingBack);
    match r.end
    case Finished => Outcome(r.w, Finished, r.done, {}, {})
    case Escaped => Outcome(r.w, Escaped, r.done, {}, Steps(r.done))
    case Threw =>
      var u := Backward(r.w, r.done);
      Outcome(u.w, if u.abandoned == {} then Threw else Escaped, r.done, u.lost, u.abandoned)
  }

  // ----- the commit entry points of an object -----

  /** What the caller sees; `OutOfRange` is the exception of a handle lookup. */
  datatype Status = Success | BadParam | NdiFailure | OutOfRange

  function StatusOf(end: End): Status {
    match end
    case Finished => Success
    case Threw => NdiFailure
    case Escaped => OutOfRange
  }

  /**
   * How `commit_create`, `commit_modify` or `commit_delete` ended, with the plan it ran,
   * the steps that were done and the steps whose undo was lost.
   */
  datatype Committed = Committed(hw: Hw, objNew: Obj, objOld: Obj, status: Status,
                                 plan: seq<Step>, done: seq<Step>, lost: set<Step>)
  {
    /** No push was skipped, no handle was missing, and after a failure no undo was lost. */
    predicate Clean() {
      if status.Success? then done == plan else lost == {} && !status.OutOfRange?
    }
  }

  /** A commit that was turned down before its first push. */
  function TurnedDown(hw: Hw, objNew: Obj, objOld: Obj): Committed {
    Committed(hw, objNew, objOld, BadParam, [], [], {})
  }

  /** What `add_npu` does to an object: the first addition since the last commit replaces the set. */
  function NpuAdded(o: Obj, switchNpus: set<NpuId>, n: NpuId, reset: bool): (Status, Obj) {
    if n !in switchNpus then (BadParam, o) else
    var kept := if !o.npuListDirty && reset then {} else o.npus;
    (Success, o.(npus := kept + {n}, npuListDirty := true, followingSwitch := false))
  }

  /** An object with no NPUs of its own follows the switch. */
  function WithNpus(o: Obj, switchNpus: set<NpuId>): Obj {
    if o.npus == {} then o.(npus := switchNpus, followingSwitch := true) else o
  }

  function ClearDirty(o: Obj): Obj {
    o.(dirty := {}, npuListDirty := false)
  }

  function CommitCreate(hw: Hw, o: Obj, switchNpus: set<NpuId>, rollingBack: bool): Committed {
    if o.created then TurnedDown(hw, o, o) else
    var o1 := WithNpus(o.(setAttrs := o.dirty), switchNpus);
    var c := Commit(World(hw, o1, Nowhere(o1)), CreatePlan(o1), rollingBack);
    var objNew := if c.end.Finished? then ClearDirty(c.w.objNew.(created := true)) else c.w.objNew;
    Committed(c.w.hw, objNew, o, StatusOf(c.end), CreatePlan(o1), c.done, c.lost)
  }

  function CommitModify(hw: Hw, objNew: Obj, objOld: Obj, switchNpus: set<NpuId>, rollingBack: bool): Committed {
    if !objNew.created then TurnedDown(hw, objNew, objOld) else
    var o1 := WithNpus(objNew.(setAttrs := objNew.setAttrs + objNew.dirty), switchNpus);
    var plan := ModifyPlan(o1, objOld);
    var c := Commit(World(hw, o1, objOld), plan, rollingBack);
    var kept := if c.end.Finished? then ClearDirty(c.w.objNew) else c.w.objNew;
    Committed(c.w.hw, kept, c.w.objOld, StatusOf(c.end), plan, c.done, c.lost)
  }

  function CommitDelete(hw: Hw, o: Obj, rollingBack: bool): Committed {
    if !o.created then TurnedDown(hw, o, o) else
    var c := Commit(World(hw, Nowhere(o), o), DeletePlan(o), rollingBack);
    var objOld := if c.end.Finished? then ClearDirty(c.w.objOld) else c.w.objOld;
    Committed(c.w.hw, o, objOld, StatusOf(c.end), DeletePlan(o), c.done, c.lost)
  }
}
