/** Objects pushed to several NPUs, the NPU sets they carry, and the loops that commit and roll back. */
module BaseObjects {
  import opened Ordering
  import opened NdiHardware
  import opened CommitModel
  import opened CommitTheory

  class NpuSet {
    var npus: set<NpuId>

    constructor ()
      ensures npus == {}
    {
      npus := {};
    }

    method Add(n: NpuId)
      modifies this
      ensures npus == old(npus) + {n}
    {
      npus := npus + {n};
    }

    method Clear()
      modifies this
      ensures npus == {}
    {
      npus := {};
    }

    /** Adds to the three output sets the NPUs that are only here, only in `second`, and in both. */
    method Compare(second: NpuSet, onlyMine: NpuSet, onlySecond: NpuSet, inBoth: NpuSet)
      requires {this, second} !! {onlyMine, onlySecond, inBoth}
      requires onlyMine != onlySecond && onlySecond != inBoth && onlyMine != inBoth
      modifies onlyMine, onlySecond, inBoth
      ensures onlyMine.npus == old(onlyMine.npus) + (npus - second.npus)
      ensures onlySecond.npus == old(onlySecond.npus) + (second.npus - npus)
      ensures inBoth.npus == old(inBoth.npus) + second.npus * npus
    {
      SplitSecond(second, onlySecond, inBoth);
      SplitMine(second, onlyMine);
    }

    /** The first loop of `Compare`, over the NPUs of `second`. */
    method SplitSecond(second: NpuSet, onlySecond: NpuSet, inBoth: NpuSet)
      requires {this, second} !! {onlySecond, inBoth} && onlySecond != inBoth
      modifies onlySecond, inBoth
      ensures onlySecond.npus == old(onlySecond.npus) + (second.npus - npus)
      ensures inBoth.npus == old(inBoth.npus) + second.npus * npus
    {
      hide Ascending;
      var order := Ascending(second.npus);
      ghost var mine, wasSecond, wasBoth := npus, onlySecond.npus, inBoth.npus;
      var i := 0;
      NoneOf(wasSecond, mine);
      NoneOf(wasBoth, mine);
      while i < |order|
        invariant 0 <= i <= |order|
        invariant onlySecond.npus == wasSecond + (FirstOf(order, i) - mine)
        invariant inBoth.npus == wasBoth + FirstOf(order, i) * mine
      {
        NextOf(wasSecond, order, i, mine);
        NextOf(wasBoth, order, i, mine);
        if order[i] !in npus {
          onlySecond.Add(order[i]);
        } else {
          inBoth.Add(order[i]);
        }
        i := i + 1;
      }
      AllOf(second.npus);
    }

    /** The second loop of `Compare`, over the NPUs here. */
    method SplitMine(second: NpuSet, onlyMine: NpuSet)
      requires {this, second} !! {onlyMine}
      modifies onlyMine
      ensures onlyMine.npus == old(onlyMine.npus) + (npus - second.npus)
    {
      hide Ascending;
      var order := Ascending(npus);
      ghost var was, mine, others := onlyMine.npus, npus, second.npus;
      var i := 0;
      NoneOf(was, others);
      while i < |order|
        invariant 0 <= i <= |order|
        invariant onlyMine.npus == was + (FirstOf(order, i) - others)
      {
        NextOf(was, order, i, others);
        if order[i] !in second.npus {
          onlyMine.Add(order[i]);
        }
        i := i + 1;
      }
      AllOf(mine);
    }
  }

  lemma OneMore(base: set<int>, first: set<int>, s: set<int>, x: int)
    ensures base + ((first + {x}) - s) == if x in s then base + (first - s) else base + (first - s) + {x}
    ensures base + (first + {x}) * s == if x in s then base + first * s + {x} else base + first * s
  {
  }

  /** The first `i` elements of `order`. */
  ghost function FirstOf(order: seq<int>, i: nat): set<int>
    requires i <= |order|
  {
    if i == 0 then {} else FirstOf(order, i - 1) + {order[i - 1]}
  }

  lemma NoneOf(base: set<int>, s: set<int>)
    ensures base + ({} - s) == base && base + {} * s == base
  {
  }

  lemma NextOf(base: set<int>, order: seq<int>, i: nat, s: set<int>)
    requires i < |order|
    ensures var x, outside, inside := order[i], base + (FirstOf(order, i) - s), base + FirstOf(order, i) * s;
      && base + (FirstOf(order, i + 1) - s) == (if x in s then outside else outside + {x})
      && base + FirstOf(order, i + 1) * s == (if x in s then inside + {x} else inside)
  {
    OneMore(base, FirstOf(order, i), s, order[i]);
  }

  lemma {:induction false} FirstOfHolds(order: seq<int>, i: nat)
    requires i <= |order|
    ensures forall x :: x in FirstOf(order, i) <==> x in order[..i]
  {
    if i > 0 {
      FirstOfHolds(order, i - 1);
      assert order[..i] == order[..i - 1] + [order[i - 1]];
    }
  }

  lemma AllOf(s: set<int>)
    ensures FirstOf(Ascending(s), |Ascending(s)|) == s
  {
    var order := Ascending(s);
    FirstOfHolds(order, |order|);
    assert order[..|order|] == order;
    SameElements(FirstOf(order, |order|), s);
  }

  /** The logical switch an object belongs to. */
  class BaseSwitch {
    const npus: NpuSet

    constructor ()
      ensures npus.npus == {} && fresh(npus)
    {
      npus := new NpuSet();
    }

    method AddNpu(n: NpuId)
      modifies npus
      ensures npus.npus == old(npus.npus) + {n}
    {
      npus.Add(n);
    }
  }

  class BaseObj {
    const sw: BaseSwitch
    const npuSet: NpuSet
    var attrs: Attrs
    var handles: map<NpuId, Handle>
    var dirty: set<AttrId>
    var setAttrs: set<AttrId>
    var created: bool
    var npuListDirty: bool
    var followingSwitch: bool

    function Snap(): Obj
      reads this, npuSet
    {
      Obj(npuSet.npus, attrs, handles, dirty, setAttrs, created, npuListDirty, followingSwitch)
    }

    constructor (sw: BaseSwitch, attrs: Attrs)
      ensures this.sw == sw && fresh(npuSet)
      ensures Snap() == Obj({}, attrs, map[], {}, {}, false, false, false)
    {
      this.sw, this.attrs := sw, attrs;
      npuSet := new NpuSet();
      handles, dirty, setAttrs := map[], {}, {};
      created, npuListDirty, followingSwitch := false, false, false;
    }

    /** The copy constructor. */
    constructor CopyOf(o: BaseObj)
      ensures sw == o.sw && fresh(npuSet) && Snap() == o.Snap()
    {
      sw, attrs, handles, dirty, setAttrs := o.sw, o.attrs, o.handles, o.dirty, o.setAttrs;
      created, npuListDirty, followingSwitch := o.created, o.npuListDirty, o.followingSwitch;
      npuSet := new NpuSet();
      new;
      npuSet.npus := o.npuSet.npus;
    }

    /** An object in a given state. */
    constructor Load(sw: BaseSwitch, o: Obj)
      ensures this.sw == sw && fresh(npuSet) && Snap() == o
    {
      this.sw, attrs, handles, dirty, setAttrs := sw, o.attrs, o.handles, o.dirty, o.setAttrs;
      created, npuListDirty, followingSwitch := o.created, o.npuListDirty, o.followingSwitch;
      npuSet := new NpuSet();
      new;
      npuSet.npus := o.npus;
    }

    /** Copy assignment. */
    method Assign(o: BaseObj)
      modifies this, npuSet
      ensures Snap() == old(o.Snap())
    {
      attrs, handles, dirty, setAttrs := o.attrs, o.handles, o.dirty, o.setAttrs;
      created, npuListDirty, followingSwitch := o.created, o.npuListDirty, o.followingSwitch;
      npuSet.npus := o.npuSet.npus;
    }

    method MarkAttrDirty(a: AttrId)
      modifies this`dirty
      ensures dirty == old(dirty) + {a}
    {
      dirty := dirty + {a};
    }

    method ClearAllDirtyFlags()
      modifies this`dirty, this`npuListDirty
      ensures Snap() == ClearDirty(old(Snap()))
    {
      dirty := {};
      npuListDirty := false;
    }

    method MarkNdiCreated()
      modifies this`created
      ensures Snap() == old(Snap()).(created := true)
    {
      created := true;
    }

    /** Adds an NPU of the switch; the first addition since the last commit replaces the old set. */
    method AddNpu(n: NpuId, reset: bool) returns (status: Status)
      modifies this`npuListDirty, this`followingSwitch, npuSet
      ensures (status, Snap()) == NpuAdded(old(Snap()), old(sw.npus.npus), n, reset)
    {
      if n !in sw.npus.npus {
        return BadParam;
      }
      if !npuListDirty {
        if reset {
          npuSet.Clear();
        }
        npuListDirty := true;
      }
      followingSwitch := false;
      npuSet.Add(n);
      status := Success;
    }

    method ResetNpus()
      modifies npuSet
      ensures Snap() == old(Snap()).(npus := {})
    {
      npuSet.Clear();
    }

    method AllocFillNdiObj() returns (ndiObj: Attrs)
      ensures ndiObj == attrs
    {
      ndiObj := attrs;
    }

    method PushCreateObjToNpu(ndi: Ndi, n: NpuId, ndiObj: Attrs) returns (fate: Fate)
      modifies ndi, this`handles
      ensures fate == old(ndi.hw.Next())
      ensures (ndi.hw, Snap()) == PushCreate(old(ndi.hw), old(Snap()), n, ndiObj)
    {
      fate := ndi.Push(CreateObj(n, ndiObj));
      if fate.Done? {
        handles := handles[n := ndi.hw.count];
      }
    }

    /** `escaped` says that the handle is missing and its lookup threw, before anything was called. */
    method PushDeleteObjToNpu(ndi: Ndi, n: NpuId) returns (fate: Fate, escaped: bool)
      modifies ndi, this`handles
      ensures fate == old(ndi.hw.Next()) && escaped == (n !in old(handles) && !fate.Skipped?)
      ensures (ndi.hw, Snap()) ==
        if escaped then (old(ndi.hw), old(Snap())) else PushDelete(old(ndi.hw), old(Snap()), n)
    {
      fate := ndi.hw.Next();
      escaped := n !in handles && !fate.Skipped?;
      if !escaped {
        fate := ndi.Push(DeleteObj(n, Snap().HandleAt(n)));
        if fate.Done? {
          handles := handles[n := 0];
        }
      }
    }

    method PushLeafAttrToNpu(ndi: Ndi, a: AttrId, n: NpuId) returns (fate: Fate, escaped: bool)
      requires a in attrs
      modifies ndi
      ensures fate == old(ndi.hw.Next()) && escaped == (n !in handles && !fate.Skipped?)
      ensures ndi.hw == if escaped then old(ndi.hw) else PushLeafAttr(old(ndi.hw), Snap(), a, n)
    {
      fate := ndi.hw.Next();
      escaped := n !in handles && !fate.Skipped?;
      if !escaped {
        fate := ndi.Push(SetAttr(n, Snap().HandleAt(n), a, attrs[a]));
      }
    }

    /** If no NPUs are set, takes all NPUs of the switch. */
    method TakeSwitchNpus()
      modifies npuSet, this`followingSwitch
      ensures Snap() == WithNpus(old(Snap()), old(sw.npus.npus))
    {
      if npuSet.npus == {} {
        followingSwitch := true;
        npuSet.npus := sw.npus.npus;
      }
    }

    /** Pushes a new object to its NPUs, all NPUs of the switch if it names none. */
    method CommitCreate(ndi: Ndi, rollingBack: bool) returns (status: Status)
      modifies ndi, npuSet
      modifies this`handles, this`dirty, this`setAttrs, this`created, this`npuListDirty, this`followingSwitch
      ensures var c := CommitModel.CommitCreate(old(ndi.hw), old(Snap()), old(sw.npus.npus), rollingBack);
        ndi.hw == c.hw && Snap() == c.objNew && status == c.status
      ensures if status.Success? then dirty == {} else dirty == old(dirty) && npuListDirty == old(npuListDirty)
    {
      hide Commit, CreatePlan;
      if created {
        return BadParam;
      }
      setAttrs := dirty;
      TakeSwitchNpus();
      var end := BaseCreateObjNdi(this, ndi, rollingBack);
      if !end.Finished? {
        return StatusOf(end);
      }
      ClearAllDirtyFlags();
      status := Success;
    }

    /** Pushes this object over `objOld`, and returns the attributes that changed. */
    method CommitModify(objOld: BaseObj, ndi: Ndi, rollingBack: bool) returns (status: Status, modified: set<AttrId>)
      requires this != objOld && npuSet != objOld.npuSet
      requires dirty <= attrs.Keys * objOld.attrs.Keys
      modifies ndi, npuSet, objOld`handles
      modifies this`handles, this`dirty, this`setAttrs, this`npuListDirty, this`followingSwitch
      ensures var n, o, switchNpus := old(Snap()), old(objOld.Snap()), old(sw.npus.npus);
        var c := CommitModel.CommitModify(old(ndi.hw), n, o, switchNpus, rollingBack);
        ndi.hw == c.hw && Snap() == c.objNew && objOld.Snap() == c.objOld && status == c.status
      ensures if status.Success? then modified == old(dirty) && dirty == {}
              else dirty == old(dirty) && npuListDirty == old(npuListDirty)
    {
      hide Commit, ModifyPlan;
      modified := {};
      if !created {
        return BadParam, modified;
      }
      setAttrs := setAttrs + dirty;
      TakeSwitchNpus();
      assert objOld.Snap() == old(objOld.Snap());
      assert Snap() == WithNpus(old(Snap()).(setAttrs := old(setAttrs + dirty)), old(sw.npus.npus));
      var end := BaseModifyObjNdi(this, objOld, ndi, rollingBack);
      if !end.Finished? {
        return StatusOf(end), modified;
      }
      modified := dirty;
      ClearAllDirtyFlags();
      status := Success;
    }

    method CommitDelete(ndi: Ndi, rollingBack: bool) returns (status: Status)
      modifies ndi, this`handles, this`dirty, this`npuListDirty
      ensures var c := CommitModel.CommitDelete(old(ndi.hw), old(Snap()), rollingBack);
        ndi.hw == c.hw && Snap() == c.objOld && status == c.status
      ensures if status.Success? then dirty == {} else dirty == old(dirty) && npuListDirty == old(npuListDirty)
    {
      if !created {
        return BadParam;
      }
      var end := BaseDeleteObjNdi(this, ndi, rollingBack);
      if !end.Finished? {
        return StatusOf(end);
      }
      ClearAllDirtyFlags();
      status := Success;
    }
  }

  // ----- pushing an object, one NPU at a time -----

  /** Running `a` then `b` is running `a`, and then `b` if nothing was thrown. */
  lemma {:induction false} ForwardJoin(w: World, a: seq<Step>, b: seq<Step>, rollingBack: bool)
    ensures var ra := Forward(w, a, rollingBack);
      var rb := Forward(ra.w, b, rollingBack);
      Forward(w, a + b, rollingBack) == if ra.end.Finished? then Run(rb.w, ra.done + rb.done, rb.end) else ra
    decreases |a|
  {
    if a == [] {
      assert a + b == b;
      assert [] + Forward(w, b, rollingBack).done == Forward(w, b, rollingBack).done;
    } else {
      assert (a + b)[0] == a[0] && (a + b)[1..] == a[1..] + b;
      if !Escapes(w, a[0]) {
        var w1 := Push(w, a[0]);
        ForwardJoin(w1, a[1..], b, rollingBack);
        var r1 := Forward(w1, a[1..], rollingBack);
        var r2 := Forward(r1.w, b, rollingBack);
        assert [a[0]] + (r1.done + r2.done) == [a[0]] + r1.done + r2.done;
      }
    }
  }

  /** The elements a run adds to the tracker: none when rolling back. */
  function Tracked(r: Run, rollingBack: bool): seq<Step> {
    if rollingBack then [] else r.done
  }

  /** The run `whole` from tracker `rTrakr` ends here, with tracker `trakr`. */
  ghost predicate Ends(whole: Run, rTrakr: seq<Step>, w: World, trakr: seq<Step>, end: End, rollingBack: bool) {
    whole.w == w && whole.end == end && rTrakr + Tracked(whole, rollingBack) == trakr
  }

  /** The run `whole` from tracker `rTrakr` is, from here, the run of `rest` from tracker `trakr`. */
  ghost predicate Continues(
    whole: Run, rTrakr: seq<Step>, w: World, rest: seq<Step>, trakr: seq<Step>, rollingBack: bool)
  {
    var r := Forward(w, rest, rollingBack);
    Ends(whole, rTrakr, r.w, trakr + Tracked(r, rollingBack), r.end, rollingBack)
  }

  lemma ContinueByOne(
    whole: Run, rTrakr: seq<Step>, w: World, steps: seq<Step>, i: nat, trakr: seq<Step>, rollingBack: bool)
    requires i < |steps| && Continues(whole, rTrakr, w, steps[i..], trakr, rollingBack)
    ensures var w1 := Push(w, steps[i]);
      if Escapes(w, steps[i]) then Ends(whole, rTrakr, w, trakr, Escaped, rollingBack)
      else if w.hw.Next().Failed? && !rollingBack then Ends(whole, rTrakr, w1, trakr, Threw, rollingBack)
      else Continues(whole, rTrakr, w1, steps[i + 1..],
                     if w.hw.Next().Done? && !rollingBack then trakr + [steps[i]] else trakr, rollingBack)
  {
  }

  lemma ContinuedToEnd(whole: Run, rTrakr: seq<Step>, w: World, trakr: seq<Step>, rollingBack: bool)
    requires Continues(whole, rTrakr, w, [], trakr, rollingBack)
    ensures Ends(whole, rTrakr, w, trakr, Finished, rollingBack)
  {
  }

  lemma ContinueByRun(
    whole: Run, rTrakr: seq<Step>, w: World, a: seq<Step>, b: seq<Step>, trakr: seq<Step>, rollingBack: bool)
    requires Continues(whole, rTrakr, w, a + b, trakr, rollingBack)
    ensures var ra := Forward(w, a, rollingBack);
      var trakr1 := trakr + Tracked(ra, rollingBack);
      if ra.end.Finished? then Continues(whole, rTrakr, ra.w, b, trakr1, rollingBack)
      else Ends(whole, rTrakr, ra.w, trakr1, ra.end, rollingBack)
  {
    ForwardJoin(w, a, b, rollingBack);
    var ra := Forward(w, a, rollingBack);
    if ra.end.Finished? { TrackedJoin(rTrakr, whole, trakr, ra, Forward(ra.w, b, rollingBack), rollingBack); }
  }

  lemma TrackedJoin(rTrakr: seq<Step>, whole: Run, trakr: seq<Step>, ra: Run, rb: Run, rollingBack: bool)
    requires rTrakr + Tracked(whole, rollingBack) == trakr + Tracked(Run(rb.w, ra.done + rb.done, rb.end), rollingBack)
    ensures rTrakr + Tracked(whole, rollingBack) == trakr + Tracked(ra, rollingBack) + Tracked(rb, rollingBack)
  {
  }

  method CreateObjNpulistNdi(objNew: BaseObj, npuList: set<NpuId>, ndi: Ndi, rTrakr: seq<Step>, rollingBack: bool,
                             ghost objOld: Obj)
    returns (trakr: seq<Step>, end: End)
    modifies ndi, objNew`handles
    ensures var w := World(old(ndi.hw), old(objNew.Snap()), objOld);
      var r := Forward(w, CreateSteps(Ascending(npuList)), rollingBack);
      && World(ndi.hw, objNew.Snap(), objOld) == r.w
      && trakr == rTrakr + Tracked(r, rollingBack) && end == r.end
  {
    trakr, end := rTrakr, Finished;
    var ndiObj := objNew.AllocFillNdiObj();
    var order := Ascending(npuList);
    ghost var steps := CreateSteps(order);
    ghost var whole := Forward(World(ndi.hw, objNew.Snap(), objOld), steps, rollingBack);
    var i := 0;
    while i < |order|
      invariant 0 <= i <= |order|
      invariant objNew.attrs == ndiObj
      invariant Continues(whole, rTrakr, World(ndi.hw, objNew.Snap(), objOld), steps[i..], trakr, rollingBack)
    {
      ContinueByOne(whole, rTrakr, World(ndi.hw, objNew.Snap(), objOld), steps, i, trakr, rollingBack);
      var fate := objNew.PushCreateObjToNpu(ndi, order[i], ndiObj);
      if fate.Failed? && !rollingBack {
        end := Threw;
        return;
      }
      if fate.Done? && !rollingBack {
        trakr := trakr + [CreateOn(order[i])];
      }
      i := i + 1;
    }
    assert steps[i..] == [];
    ContinuedToEnd(whole, rTrakr, World(ndi.hw, objNew.Snap(), objOld), trakr, rollingBack);
  }

  method DeleteObjNpulistNdi(objOld: BaseObj, npuList: set<NpuId>, ndi: Ndi, rTrakr: seq<Step>, rollingBack: bool,
                             ghost objNew: Obj)
    returns (trakr: seq<Step>, end: End)
    modifies ndi, objOld`handles
    ensures var w := World(old(ndi.hw), objNew, old(objOld.Snap()));
      var r := Forward(w, DeleteSteps(Ascending(npuList)), rollingBack);
      && World(ndi.hw, objNew, objOld.Snap()) == r.w
      && trakr == rTrakr + Tracked(r, rollingBack) && end == r.end
  {
    trakr, end := rTrakr, Finished;
    var order := Ascending(npuList);
    ghost var steps := DeleteSteps(order);
    ghost var whole := Forward(World(ndi.hw, objNew, objOld.Snap()), steps, rollingBack);
    var i := 0;
    while i < |order|
      invariant 0 <= i <= |order|
      invariant Continues(whole, rTrakr, World(ndi.hw, objNew, objOld.Snap()), steps[i..], trakr, rollingBack)
    {
      ContinueByOne(whole, rTrakr, World(ndi.hw, objNew, objOld.Snap()), steps, i, trakr, rollingBack);
      var fate, escaped := objOld.PushDeleteObjToNpu(ndi, order[i]);
      if escaped {
        end := Escaped;
        return;
      }
      if fate.Failed? && !rollingBack {
        end := Threw;
        return;
      }
      if fate.Done? && !rollingBack {
        trakr := trakr + [DeleteFrom(order[i])];
      }
      i := i + 1;
    }
    assert steps[i..] == [];
    ContinuedToEnd(whole, rTrakr, World(ndi.hw, objNew, objOld.Snap()), trakr, rollingBack);
  }

  /** The inner loop of a modify: one attribute over all NPUs that keep the object. */
  method PushAttrNpulistNdi(objNew: BaseObj, a: AttrId, order: seq<NpuId>, ndi: Ndi, rTrakr: seq<Step>,
                            rollingBack: bool, ghost objOld: Obj)
    returns (trakr: seq<Step>, end: End)
    requires a in objNew.attrs
    modifies ndi
    ensures var r := Forward(World(old(ndi.hw), objNew.Snap(), objOld), SetSteps(a, order), rollingBack);
      && World(ndi.hw, objNew.Snap(), objOld) == r.w
      && trakr == rTrakr + Tracked(r, rollingBack) && end == r.end
  {
    trakr, end := rTrakr, Finished;
    ghost var steps := SetSteps(a, order);
    ghost var whole := Forward(World(ndi.hw, objNew.Snap(), objOld), steps, rollingBack);
    var i := 0;
    while i < |order|
      invariant 0 <= i <= |order|
      invariant Continues(whole, rTrakr, World(ndi.hw, objNew.Snap(), objOld), steps[i..], trakr, rollingBack)
    {
      ContinueByOne(whole, rTrakr, World(ndi.hw, objNew.Snap(), objOld), steps, i, trakr, rollingBack);
      var fate, escaped := objNew.PushLeafAttrToNpu(ndi, a, order[i]);
      if escaped {
        end := Escaped;
        return;
      }
      if fate.Failed? && !rollingBack {
        end := Threw;
        return;
      }
      if fate.Done? && !rollingBack {
        trakr := trakr + [SetOn(a, order[i])];
      }
      i := i + 1;
    }
    assert steps[i..] == [];
    ContinuedToEnd(whole, rTrakr, World(ndi.hw, objNew.Snap(), objOld), trakr, rollingBack);
  }

  /** The attribute steps from the `i`th attribute on. */
  function AttrStepsFrom(attrs: seq<AttrId>, i: nat, npus: seq<NpuId>): seq<Step>
    requires i <= |attrs|
    decreases |attrs| - i
  {
    if i == |attrs| then [] else SetSteps(attrs[i], npus) + AttrStepsFrom(attrs, i + 1, npus)
  }

  lemma {:induction false} AttrStepsFromRest(attrs: seq<AttrId>, i: nat, npus: seq<NpuId>)
    requires i <= |attrs|
    ensures AttrStepsFrom(attrs, i, npus) == AttrSteps(attrs[i..], npus)
    decreases |attrs| - i
  {
    if i < |attrs| {
      AttrStepsFromRest(attrs, i + 1, npus);
      assert attrs[i..][1..] == attrs[i + 1..];
    }
  }

  lemma ContinueByAttr(whole: Run, rTrakr: seq<Step>, w: World, attrs: seq<AttrId>, i: nat, npus: seq<NpuId>,
                       trakr: seq<Step>, rollingBack: bool)
    requires i < |attrs| && Continues(whole, rTrakr, w, AttrStepsFrom(attrs, i, npus), trakr, rollingBack)
    ensures var r := Forward(w, SetSteps(attrs[i], npus), rollingBack);
      var trakr1 := trakr + Tracked(r, rollingBack);
      if r.end.Finished? then Continues(whole, rTrakr, r.w, AttrStepsFrom(attrs, i + 1, npus), trakr1, rollingBack)
      else Ends(whole, rTrakr, r.w, trakr1, r.end, rollingBack)
  {
    ContinueByRun(whole, rTrakr, w, SetSteps(attrs[i], npus), AttrStepsFrom(attrs, i + 1, npus), trakr, rollingBack);
  }

  /** One round of the outer loop of a modify. */
  method PushOneAttr(objNew: BaseObj, attrOrder: seq<AttrId>, i: nat, order: seq<NpuId>, ndi: Ndi, rTrakr: seq<Step>,
                     rollingBack: bool, ghost objOld: Obj, ghost whole: Run, ghost first: seq<Step>)
    returns (trakr: seq<Step>, end: End)
    requires i < |attrOrder| && attrOrder[i] in objNew.attrs
    requires Continues(whole, first, World(ndi.hw, objNew.Snap(), objOld),
                       AttrStepsFrom(attrOrder, i, order), rTrakr, rollingBack)
    modifies ndi
    ensures var w := World(ndi.hw, objNew.Snap(), objOld);
      if end.Finished? then Continues(whole, first, w, AttrStepsFrom(attrOrder, i + 1, order), trakr, rollingBack)
      else Ends(whole, first, w, trakr, end, rollingBack)
  {
    ContinueByAttr(whole, first, World(ndi.hw, objNew.Snap(), objOld), attrOrder, i, order, rTrakr, rollingBack);
    trakr, end := PushAttrNpulistNdi(objNew, attrOrder[i], order, ndi, rTrakr, rollingBack, objOld);
  }

  method ModifyObjNpulistNdi(objNew: BaseObj, npuList: set<NpuId>, ndi: Ndi, rTrakr: seq<Step>, rollingBack: bool,
                             ghost objOld: Obj)
    returns (trakr: seq<Step>, end: End)
    requires objNew.dirty <= objNew.attrs.Keys
    modifies ndi
    ensures var steps := AttrSteps(Ascending(objNew.dirty), Ascending(npuList));
      var r := Forward(World(old(ndi.hw), objNew.Snap(), objOld), steps, rollingBack);
      && World(ndi.hw, objNew.Snap(), objOld) == r.w
      && trakr == rTrakr + Tracked(r, rollingBack) && end == r.end
  {
    trakr, end := rTrakr, Finished;
    var attrOrder, order := Ascending(objNew.dirty), Ascending(npuList);
    ghost var whole := Forward(World(ndi.hw, objNew.Snap(), objOld), AttrSteps(attrOrder, order), rollingBack);
    var i := 0;
    assert attrOrder[0..] == attrOrder;
    AttrStepsFromRest(attrOrder, 0, order);
    while i < |attrOrder|
      invariant 0 <= i <= |attrOrder| && end == Finished
      invariant Continues(whole, rTrakr, World(ndi.hw, objNew.Snap(), objOld),
                          AttrStepsFrom(attrOrder, i, order), trakr, rollingBack)
    {
      assert attrOrder[i] in attrOrder;
      trakr, end := PushOneAttr(objNew, attrOrder, i, order, ndi, trakr, rollingBack, objOld, whole, rTrakr);
      if !end.Finished? {
        return;
      }
      i := i + 1;
    }
    ContinuedToEnd(whole, rTrakr, World(ndi.hw, objNew.Snap(), objOld), trakr, rollingBack);
  }

  // ----- rolling back -----

  /** The rollback `whole` is, from here, the rollback of `trakr`. */
  ghost predicate GoesBack(whole: Undone, w: World, trakr: seq<Step>) {
    var u := Backward(w, trakr);
    whole.w == u.w && (whole.abandoned == {} <==> u.abandoned == {})
  }

  lemma BackByOne(whole: Undone, w: World, trakr: seq<Step>)
    requires trakr != [] && GoesBack(whole, w, trakr)
    ensures var last := trakr[|trakr| - 1];
      if UndoEscapes(w, last) then whole.w == w && whole.abandoned != {}
      else GoesBack(whole, PushInverse(w, last), trakr[..|trakr| - 1])
  {
    assert trakr[|trakr| - 1] in Steps(trakr);
  }

  /** Undoes one tracker element; a push that throws is swallowed. */
  method RollbackElem(objNew: BaseObj, objOld: BaseObj, ndi: Ndi, elem: Step) returns (escaped: bool)
    requires objNew != objOld
    requires elem.SetOn? ==> elem.attr in objOld.attrs
    modifies ndi, objNew`handles, objOld`handles
    ensures var w := World(old(ndi.hw), old(objNew.Snap()), old(objOld.Snap()));
      && escaped == UndoEscapes(w, elem)
      && World(ndi.hw, objNew.Snap(), objOld.Snap()) == if escaped then w else PushInverse(w, elem)
  {
    var fate;
    escaped := false;
    match elem
    case CreateOn(n) =>
      fate, escaped := objNew.PushDeleteObjToNpu(ndi, n);
    case DeleteFrom(n) =>
      var ndiObj := objOld.AllocFillNdiObj();
      fate := objOld.PushCreateObjToNpu(ndi, n, ndiObj);
    case SetOn(a, n) =>
      fate, escaped := objOld.PushLeafAttrToNpu(ndi, a, n);
  }

  /** Drains the tracker from its end; `escaped` says that the lookup of a handle threw on the way. */
  method RollbackModifyObjNdi(objOld: BaseObj, objNew: BaseObj, ndi: Ndi, rTrakr: seq<Step>) returns (escaped: bool)
    requires objNew != objOld
    requires forall s :: s in rTrakr && s.SetOn? ==> s.attr in objOld.attrs
    modifies ndi, objNew`handles, objOld`handles
    ensures var u := Backward(World(old(ndi.hw), old(objNew.Snap()), old(objOld.Snap())), rTrakr);
      World(ndi.hw, objNew.Snap(), objOld.Snap()) == u.w && escaped == (u.abandoned != {})
  {
    escaped := false;
    var trakr := rTrakr;
    ghost var whole := Backward(World(ndi.hw, objNew.Snap(), objOld.Snap()), rTrakr);
    while |trakr| > 0
      invariant forall s :: s in trakr ==> s in rTrakr
      invariant GoesBack(whole, World(ndi.hw, objNew.Snap(), objOld.Snap()), trakr)
    {
      var elem := trakr[|trakr| - 1];
      assert elem in trakr;
      BackByOne(whole, World(ndi.hw, objNew.Snap(), objOld.Snap()), trakr);
      escaped := RollbackElem(objNew, objOld, ndi, elem);
      if escaped {
        return;
      }
      trakr := trakr[..|trakr| - 1];
    }
  }

  method RollbackCreateObjNdi(objNew: BaseObj, ndi: Ndi, rTrakr: seq<Step>, ghost objOld: Obj) returns (escaped: bool)
    requires forall s :: s in rTrakr ==> s.CreateOn?
    modifies ndi, objNew`handles
    ensures var u := Backward(World(old(ndi.hw), old(objNew.Snap()), objOld), rTrakr);
      World(ndi.hw, objNew.Snap(), objOld) == u.w && escaped == (u.abandoned != {})
  {
    escaped := false;
    var trakr := rTrakr;
    ghost var whole := Backward(World(ndi.hw, objNew.Snap(), objOld), rTrakr);
    while |trakr| > 0
      invariant forall s :: s in trakr ==> s in rTrakr
      invariant GoesBack(whole, World(ndi.hw, objNew.Snap(), objOld), trakr)
    {
      var elem := trakr[|trakr| - 1];
      assert elem in trakr;
      BackByOne(whole, World(ndi.hw, objNew.Snap(), objOld), trakr);
      var fate;
      fate, escaped := objNew.PushDeleteObjToNpu(ndi, elem.npu);
      if escaped {
        return;
      }
      trakr := trakr[..|trakr| - 1];
    }
  }

  method RollbackDeleteObjNdi(objOld: BaseObj, ndi: Ndi, rTrakr: seq<Step>, ghost objNew: Obj)
    requires forall s :: s in rTrakr ==> s.DeleteFrom?
    modifies ndi, objOld`handles
    ensures var u := Backward(World(old(ndi.hw), objNew, old(objOld.Snap())), rTrakr);
      World(ndi.hw, objNew, objOld.Snap()) == u.w && u.abandoned == {}
  {
    var trakr := rTrakr;
    var ndiObj := objOld.AllocFillNdiObj();
    ghost var whole := Backward(World(ndi.hw, objNew, objOld.Snap()), rTrakr);
    while |trakr| > 0
      invariant forall s :: s in trakr ==> s in rTrakr
      invariant objOld.attrs == ndiObj
      invariant GoesBack(whole, World(ndi.hw, objNew, objOld.Snap()), trakr)
    {
      var elem := trakr[|trakr| - 1];
      assert elem in trakr;
      BackByOne(whole, World(ndi.hw, objNew, objOld.Snap()), trakr);
      var _ := objOld.PushCreateObjToNpu(ndi, elem.npu, ndiObj);
      trakr := trakr[..|trakr| - 1];
    }
  }

  // ----- the three commits -----

  /** What a rollback makes of a commit that threw. */
  function EndOfRollback(escaped: bool): End {
    if escaped then Escaped else Threw
  }

  /** Only a run that tracks its steps throws, and no run changes an attribute. */
  lemma {:induction false} ForwardTracks(w: World, steps: seq<Step>, rollingBack: bool)
    ensures var r := Forward(w, steps, rollingBack);
      && (r.end.Threw? ==> !rollingBack)
      && r.w.objNew.attrs == w.objNew.attrs && r.w.objOld.attrs == w.objOld.attrs
    decreases |steps|
  {
    if steps != [] && !Escapes(w, steps[0]) && !(w.hw.Next().Failed? && !rollingBack) {
      ForwardTracks(Push(w, steps[0]), steps[1..], rollingBack);
    }
  }

  /** A commit is its forward run, followed by a rollback of the tracker if a push threw. */
  lemma CommitInParts(w: World, plan: seq<Step>, rollingBack: bool)
    ensures var r, c := Forward(w, plan, rollingBack), Commit(w, plan, rollingBack);
      var u := Backward(r.w, r.done);
      if r.end.Threw?
      then c.w == u.w && c.end == EndOfRollback(u.abandoned != {}) && Tracked(r, rollingBack) == r.done
      else c.w == r.w && c.end == r.end
    ensures var r := Forward(w, plan, rollingBack);
      && (forall s :: s in r.done ==> s in plan)
      && r.w.objNew.attrs == w.objNew.attrs && r.w.objOld.attrs == w.objOld.attrs
  {
    ForwardHandles(w, plan, rollingBack);
    ForwardTracks(w, plan, rollingBack);
  }

  method BaseCreateObjNdi(objNew: BaseObj, ndi: Ndi, rollingBack: bool) returns (end: End)
    modifies ndi, objNew`handles, objNew`created
    ensures var o := old(objNew.Snap());
      var c := Commit(World(old(ndi.hw), o, Nowhere(o)), CreatePlan(o), rollingBack);
      && end == c.end && ndi.hw == c.w.hw
      && objNew.Snap() == if end.Finished? then c.w.objNew.(created := true) else c.w.objNew
  {
    ghost var o := objNew.Snap();
    ghost var w := World(ndi.hw, o, Nowhere(o));
    CommitInParts(w, CreatePlan(o), rollingBack);
    var rTrakr;
    rTrakr, end := CreateObjNpulistNdi(objNew, objNew.npuSet.npus, ndi, [], rollingBack, Nowhere(o));
    assert rTrakr == Tracked(Forward(w, CreatePlan(o), rollingBack), rollingBack);
    if end.Finished? {
      objNew.MarkNdiCreated();
    } else if end.Threw? {
      StepsHold(0, Ascending(o.npus));
      var escaped := RollbackCreateObjNdi(objNew, ndi, rTrakr, Nowhere(o));
      end := EndOfRollback(escaped);
    }
  }

  method BaseDeleteObjNdi(objOld: BaseObj, ndi: Ndi, rollingBack: bool) returns (end: End)
    modifies ndi, objOld`handles
    ensures var o := old(objOld.Snap());
      var c := Commit(World(old(ndi.hw), Nowhere(o), o), DeletePlan(o), rollingBack);
      end == c.end && ndi.hw == c.w.hw && objOld.Snap() == c.w.objOld
  {
    ghost var o := objOld.Snap();
    ghost var w := World(ndi.hw, Nowhere(o), o);
    CommitInParts(w, DeletePlan(o), rollingBack);
    var rTrakr;
    rTrakr, end := DeleteObjNpulistNdi(objOld, objOld.npuSet.npus, ndi, [], rollingBack, Nowhere(o));
    assert rTrakr == Tracked(Forward(w, DeletePlan(o), rollingBack), rollingBack);
    if end.Threw? {
      StepsHold(0, Ascending(o.npus));
      RollbackDeleteObjNdi(objOld, ndi, rTrakr, Nowhere(o));
    }
  }

  method BaseModifyObjNdi(objNew: BaseObj, objOld: BaseObj, ndi: Ndi, rollingBack: bool) returns (end: End)
    requires objNew != objOld && objNew.dirty <= objNew.attrs.Keys * objOld.attrs.Keys
    modifies ndi, objNew`handles, objOld`handles
    ensures var n, o := old(objNew.Snap()), old(objOld.Snap());
      var c := Commit(World(old(ndi.hw), n, o), ModifyPlan(n, o), rollingBack);
      end == c.end && World(ndi.hw, objNew.Snap(), objOld.Snap()) == c.w
  {
    ghost var n, o := objNew.Snap(), objOld.Snap();
    ghost var w := World(ndi.hw, n, o);
    CommitInParts(w, ModifyPlan(n, o), rollingBack);
    var rTrakr;
    rTrakr, end := PushModify(objNew, objOld, ndi, rollingBack);
    if end.Threw? {
      ModifyPlanHolds(w);
      var escaped := RollbackModifyObjNdi(objOld, objNew, ndi, rTrakr);
      end := EndOfRollback(escaped);
    }
  }

  lemma ForwardInParts(w: World, a: seq<Step>, b: seq<Step>, rollingBack: bool)
    ensures var ra, r := Forward(w, a, rollingBack), Forward(w, a + b, rollingBack);
      var rb := Forward(ra.w, b, rollingBack);
      if ra.end.Finished?
      then && r.w == rb.w && r.end == rb.end
           && Tracked(r, rollingBack) == Tracked(ra, rollingBack) + Tracked(rb, rollingBack)
      else r == ra
  {
    ForwardJoin(w, a, b, rollingBack);
  }

  /** The forward half of a modify: new NPUs, then deleted NPUs, then attributes on the rest. */
  method PushModify(objNew: BaseObj, objOld: BaseObj, ndi: Ndi, rollingBack: bool)
    returns (rTrakr: seq<Step>, end: End)
    requires objNew != objOld && objNew.dirty <= objNew.attrs.Keys
    modifies ndi, objNew`handles, objOld`handles
    ensures var n, o := old(objNew.Snap()), old(objOld.Snap());
      var r := Forward(World(old(ndi.hw), n, o), ModifyPlan(n, o), rollingBack);
      && World(ndi.hw, objNew.Snap(), objOld.Snap()) == r.w
      && rTrakr == Tracked(r, rollingBack) && end == r.end
  {
    hide Forward;
    var added, deleted, retained := SplitNpus(objNew, objOld);
    ghost var w := World(ndi.hw, objNew.Snap(), objOld.Snap());
    ghost var create := CreateSteps(Ascending(added));
    ghost var rest := DeleteSteps(Ascending(deleted)) + AttrSteps(Ascending(objNew.dirty), Ascending(retained));
    ghost var created := Forward(w, create, rollingBack);
    PlanParts(w.objNew, w.objOld, added, deleted, retained);
    ForwardInParts(w, create, rest, rollingBack);
    rTrakr, end := CreateObjNpulistNdi(objNew, added, ndi, [], rollingBack, w.objOld);
    assert rTrakr == Tracked(created, rollingBack) && end == created.end;
    if !end.Finished? {
      return;
    }
    assert World(ndi.hw, objNew.Snap(), objOld.Snap()) == created.w;
    rTrakr, end := PushDeletesAndAttrs(objNew, objOld, deleted, retained, ndi, rTrakr, rollingBack);
  }

  /** The NPUs only in the new object, only in the old one, and in both. */
  method SplitNpus(objNew: BaseObj, objOld: BaseObj)
    returns (added: set<NpuId>, deleted: set<NpuId>, retained: set<NpuId>)
    ensures added == objNew.npuSet.npus - objOld.npuSet.npus
    ensures deleted == objOld.npuSet.npus - objNew.npuSet.npus
    ensures retained == objNew.npuSet.npus * objOld.npuSet.npus
  {
    var onlyNew := new NpuSet();
    var onlyOld := new NpuSet();
    var inBoth := new NpuSet();
    objNew.npuSet.Compare(objOld.npuSet, onlyNew, onlyOld, inBoth);
    added, deleted, retained := onlyNew.npus, onlyOld.npus, inBoth.npus;
  }

  lemma PlanParts(objNew: Obj, objOld: Obj, added: set<NpuId>, deleted: set<NpuId>, retained: set<NpuId>)
    requires added == objNew.npus - objOld.npus && deleted == objOld.npus - objNew.npus
    requires retained == objNew.npus * objOld.npus
    ensures var attr := AttrSteps(Ascending(objNew.dirty), Ascending(retained));
      ModifyPlan(objNew, objOld) == CreateSteps(Ascending(added)) + (DeleteSteps(Ascending(deleted)) + attr)
  {
    JoinAssociates(CreateSteps(Ascending(added)), DeleteSteps(Ascending(deleted)),
                   AttrSteps(Ascending(objNew.dirty), Ascending(retained)));
  }

  lemma JoinAssociates(a: seq<Step>, b: seq<Step>, c: seq<Step>)
    ensures a + b + c == a + (b + c)
  {
  }

  method PushDeletesAndAttrs(objNew: BaseObj, objOld: BaseObj, deleted: set<NpuId>, retained: set<NpuId>, ndi: Ndi,
                             rTrakr: seq<Step>, rollingBack: bool)
    returns (trakr: seq<Step>, end: End)
    requires objNew != objOld && objNew.dirty <= objNew.attrs.Keys
    modifies ndi, objOld`handles
    ensures var w := World(old(ndi.hw), objNew.Snap(), old(objOld.Snap()));
      var steps := DeleteSteps(Ascending(deleted)) + AttrSteps(Ascending(objNew.dirty), Ascending(retained));
      var r := Forward(w, steps, rollingBack);
      && World(ndi.hw, objNew.Snap(), objOld.Snap()) == r.w
      && trakr == rTrakr + Tracked(r, rollingBack) && end == r.end
  {
    ghost var delete := DeleteSteps(Ascending(deleted));
    ghost var attr := AttrSteps(Ascending(objNew.dirty), Ascending(retained));
    ghost var w := World(ndi.hw, objNew.Snap(), objOld.Snap());
    ContinueByRun(Forward(w, delete + attr, rollingBack), rTrakr, w, delete, attr, rTrakr, rollingBack);
    trakr, end := DeleteObjNpulistNdi(objOld, deleted, ndi, rTrakr, rollingBack, objNew.Snap());
    if !end.Finished? {
      return;
    }
    trakr, end := ModifyObjNpulistNdi(objNew, retained, ndi, trakr, rollingBack, objOld.Snap());
  }
}
