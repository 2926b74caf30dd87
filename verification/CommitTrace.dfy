/** The order of the hardware calls a commit makes. */
module CommitTrace {
  import opened NdiHardware
  import opened CommitModel
  import opened CommitTheory

  /** The call a step makes. */
  function ForwardCall(w: World, s: Step): Call {
    match s
    case CreateOn(n) => CreateObj(n, w.objNew.attrs)
    case DeleteFrom(n) => DeleteObj(n, w.objOld.HandleAt(n))
    case SetOn(a, n) => SetAttr(n, w.objNew.HandleAt(n), a, w.objNew.ValueOf(a))
  }

  /**
   * `undo` is the call that takes back the event `e`: a create is met by a delete of the
   * handle it returned, a delete by a create with the old values, a set by a set of the
   * old value through the old object's handle.
   */
  ghost predicate TakesBack(undo: Call, e: Event, objOld: Obj) {
    match e.call
    case CreateObj(n, _) => undo == DeleteObj(n, e.handle)
    case DeleteObj(n, _) => undo == CreateObj(n, objOld.attrs)
    case SetAttr(n, _, a, _) => undo == SetAttr(n, objOld.HandleAt(n), a, objOld.ValueOf(a))
  }

  /** The events of `evs` that were done. */
  ghost function DoneEvents(evs: seq<Event>): seq<Event> {
    if evs == [] then []
    else (if evs[0].fate.Done? then [evs[0]] else []) + DoneEvents(evs[1..])
  }

  /** The tracker element `s` was recorded for the event `e`, whose handle is still the object's. */
  ghost predicate Records(w: World, s: Step, e: Event) {
    match s
    case CreateOn(n) => e.call == CreateObj(n, w.objNew.attrs) && w.objNew.HandleAt(n) == e.handle
    case DeleteFrom(n) => e.call.DeleteObj? && e.call.npu == n
    case SetOn(a, n) => e.call.SetAttr? && e.call.npu == n && e.call.attr == a
  }

  ghost predicate RecordsAll(w: World, tracker: seq<Step>, evs: seq<Event>) {
    |tracker| == |evs| && forall i :: 0 <= i < |tracker| ==> Records(w, tracker[i], evs[i])
  }

  /** Steps of one plan: no NPU is created on and also deleted from or set on. */
  ghost predicate OnePlan(w: World, steps: seq<Step>) {
    Distinct(steps) && AllPlanned(w, Steps(steps))
  }

  /** The event a step adds to the log. */
  function EventOf(w: World, s: Step): Event {
    Push(w, s).hw.log[|w.hw.log|]
  }

  /** What a run adds to the log. */
  function Logged(w: World, steps: seq<Step>, rollingBack: bool): seq<Event>
    decreases |steps|
  {
    if steps == [] || Escapes(w, steps[0]) then [] else
    [EventOf(w, steps[0])] +
    if w.hw.Next().Failed? && !rollingBack then [] else Logged(Push(w, steps[0]), steps[1..], rollingBack)
  }

  lemma {:induction false} ForwardLog(w: World, steps: seq<Step>, rollingBack: bool)
    ensures Forward(w, steps, rollingBack).w.hw.log == w.hw.log + Logged(w, steps, rollingBack)
    decreases |steps|
  {
    if steps != [] && !Escapes(w, steps[0]) {
      var w1 := Push(w, steps[0]);
      assert w1.hw.log == w.hw.log + [EventOf(w, steps[0])];
      if !(w.hw.Next().Failed? && !rollingBack) { ForwardLog(w1, steps[1..], rollingBack); }
    }
  }

  lemma OtherCallsStay(w: World, s: Step, t: Step)
    requires Planned(w, s) && Planned(w, t) && s != t
    ensures ForwardCall(Push(w, s), t) == ForwardCall(w, t)
    ensures !Escapes(w, s) ==> LacksHandle(Push(w, s), t) == LacksHandle(w, t)
    ensures Planned(Push(w, s), t)
  {
  }

  lemma RestOfPlan(w: World, steps: seq<Step>)
    requires OnePlan(w, steps) && steps != []
    ensures OnePlan(w, steps[1..]) && OnePlan(Push(w, steps[0]), steps[1..])
    ensures Planned(w, steps[0]) && steps[0] !in steps[1..]
    ensures forall t :: t in steps[1..] ==> ForwardCall(Push(w, steps[0]), t) == ForwardCall(w, t)
    ensures !Escapes(w, steps[0]) ==>
      forall t :: t in steps[1..] ==> LacksHandle(Push(w, steps[0]), t) == LacksHandle(w, t)
  {
    assert steps == [steps[0]] + steps[1..] && steps[0] in Steps(steps);
    forall t | t in steps[1..]
      ensures Planned(w, t) && Planned(Push(w, steps[0]), t)
      ensures ForwardCall(Push(w, steps[0]), t) == ForwardCall(w, t)
      ensures !Escapes(w, steps[0]) ==> LacksHandle(Push(w, steps[0]), t) == LacksHandle(w, t)
    {
      assert t in Steps(steps);
      OtherCallsStay(w, steps[0], t);
    }
  }

  /** The run of `evs` ended as `end` says: at the end of the plan, at a throw, or before a missing handle. */
  ghost predicate StopsThere(w: World, steps: seq<Step>, evs: seq<Event>, end: End) {
    match end
    case Finished => |evs| == |steps|
    case Threw => 0 < |evs| <= |steps| && evs[|evs| - 1].fate.Failed?
    case Escaped => |evs| < |steps| && LacksHandle(w, steps[|evs|])
  }

  /** One call per step, in plan order, up to where the run ends; only a throw, or rolling back, follows a failure. */
  ghost predicate Traced(w: World, steps: seq<Step>, evs: seq<Event>, end: End, rollingBack: bool) {
    && |evs| <= |steps| && StopsThere(w, steps, evs, end)
    && (forall i :: 0 <= i < |evs| ==> evs[i].call == ForwardCall(w, steps[i]))
    && (forall i :: 0 <= i < |evs| && evs[i].fate.Failed? ==> rollingBack || (end.Threw? && i == |evs| - 1))
  }

  lemma TraceOneMore(w: World, w1: World, steps: seq<Step>, e: Event, evs1: seq<Event>, end: End, rollingBack: bool)
    requires steps != [] && e.call == ForwardCall(w, steps[0]) && (e.fate.Failed? ==> rollingBack)
    requires Traced(w1, steps[1..], evs1, end, rollingBack)
    requires forall t :: t in steps[1..] ==> ForwardCall(w1, t) == ForwardCall(w, t)
    requires forall t :: t in steps[1..] ==> LacksHandle(w1, t) == LacksHandle(w, t)
    ensures Traced(w, steps, [e] + evs1, end, rollingBack)
  {
    forall i | 0 <= i < |evs1| ensures evs1[i].call == ForwardCall(w, steps[i + 1]) {
      assert steps[1..][i] in steps[1..];
    }
    assert |evs1| < |steps[1..]| ==> steps[1..][|evs1|] in steps[1..];
  }

  lemma {:induction false} LoggedInPlanOrder(w: World, steps: seq<Step>, rollingBack: bool)
    requires OnePlan(w, steps)
    ensures Traced(w, steps, Logged(w, steps, rollingBack), Forward(w, steps, rollingBack).end, rollingBack)
    decreases |steps|
  {
    if steps != [] && !Escapes(w, steps[0]) {
      var w1, e, rest := Push(w, steps[0]), EventOf(w, steps[0]), steps[1..];
      RestOfPlan(w, steps);
      assert e.call == ForwardCall(w, steps[0]) && e.fate == w.hw.Next();
      if !(w.hw.Next().Failed? && !rollingBack) {
        LoggedInPlanOrder(w1, rest, rollingBack);
        TraceOneMore(w, w1, steps, e, Logged(w1, rest, rollingBack), Forward(w1, rest, rollingBack).end, rollingBack);
      }
    }
  }

  /** A run changes handles only where a step of its plan creates or deletes. */
  lemma {:induction false} HandlesKept(w: World, steps: seq<Step>, rollingBack: bool)
    ensures var w' := Forward(w, steps, rollingBack).w;
      && w'.objNew.attrs == w.objNew.attrs && w'.objOld.attrs == w.objOld.attrs
      && (forall n :: CreateOn(n) !in steps ==> w'.objNew.HandleAt(n) == w.objNew.HandleAt(n))
      && (forall n :: DeleteFrom(n) !in steps ==> w'.objOld.HandleAt(n) == w.objOld.HandleAt(n))
    decreases |steps|
  {
    if steps != [] && !Escapes(w, steps[0]) && !(w.hw.Next().Failed? && !rollingBack) {
      HandlesKept(Push(w, steps[0]), steps[1..], rollingBack);
    }
  }

  lemma RecordsStay(w: World, s: Step, e: Event, steps: seq<Step>, rollingBack: bool)
    requires Records(w, s, e) && s !in steps
    ensures Records(Forward(w, steps, rollingBack).w, s, e)
  {
    HandlesKept(w, steps, rollingBack);
  }

  lemma RecordOneMore(w: World, s: Step, e: Event, tracker: seq<Step>, evs: seq<Event>)
    requires Records(w, s, e) && RecordsAll(w, tracker, evs)
    ensures RecordsAll(w, [s] + tracker, [e] + evs)
  {
  }

  lemma PushIsRecorded(w: World, s: Step)
    ensures EventOf(w, s).fate == w.hw.Next()
    ensures w.hw.Next().Done? ==> Records(Push(w, s), s, EventOf(w, s))
  {
  }

  lemma DoneOneMore(e: Event, evs: seq<Event>)
    ensures DoneEvents([e] + evs) == if e.fate.Done? then [e] + DoneEvents(evs) else DoneEvents(evs)
  {
    assert ([e] + evs)[1..] == evs;
  }

  lemma NothingRecorded(w: World)
    ensures RecordsAll(w, [], DoneEvents([]))
  {
  }

  /** The tracker records the done calls in order, and the handles the creates returned. */
  lemma {:induction false} TrackerRecords(w: World, steps: seq<Step>, rollingBack: bool)
    requires OnePlan(w, steps)
    ensures var r := Forward(w, steps, rollingBack);
      RecordsAll(r.w, r.done, DoneEvents(Logged(w, steps, rollingBack)))
    decreases |steps|
  {
    hide Push, EventOf, Records, RecordsAll, DoneEvents, OnePlan, Escapes;
    NothingRecorded(w);
    if steps != [] && !Escapes(w, steps[0]) {
      var s, w1, e := steps[0], Push(w, steps[0]), EventOf(w, steps[0]);
      var evs1, r1 := Logged(w1, steps[1..], rollingBack), Forward(w1, steps[1..], rollingBack);
      RestOfPlan(w, steps);
      PushIsRecorded(w, s);
      if w.hw.Next().Failed? && !rollingBack {
        DoneOneMore(e, []);
        NothingRecorded(w1);
      } else {
        TrackerRecords(w1, steps[1..], rollingBack);
        DoneOneMore(e, evs1);
        if e.fate.Done? {
          RecordsStay(w1, s, e, steps[1..], rollingBack);
          RecordOneMore(r1.w, s, e, r1.done, DoneEvents(evs1));
        }
      }
    }
  }

  // ----- the way back -----

  /** What a rollback adds to the log. */
  function UndoLogged(w: World, tracker: seq<Step>): seq<Event>
    decreases |tracker|
  {
    if tracker == [] || UndoEscapes(w, tracker[|tracker| - 1]) then [] else
    var last := tracker[|tracker| - 1];
    var w1 := PushInverse(w, last);
    [w1.hw.log[|w.hw.log|]] + UndoLogged(w1, tracker[..|tracker| - 1])
  }

  lemma UndoOthersStay(w: World, s: Step, t: Step, e: Event)
    requires Planned(w, s) && Planned(w, t) && s != t && Records(w, t, e)
    ensures Planned(PushInverse(w, s), t) && Records(PushInverse(w, s), t, e)
    ensures forall c :: TakesBack(c, e, PushInverse(w, s).objOld) <==> TakesBack(c, e, w.objOld)
  {
  }

  /** What remains of the tracker is untouched by the undo of its newest element. */
  lemma TrackerShrinks(w: World, tracker: seq<Step>, evs: seq<Event>)
    requires OnePlan(w, tracker) && RecordsAll(w, tracker, evs) && tracker != []
    ensures var n := |tracker| - 1;
      var w1 := PushInverse(w, tracker[n]);
      && OnePlan(w1, tracker[..n]) && RecordsAll(w1, tracker[..n], evs[..n])
      && forall i, c :: 0 <= i < n && TakesBack(c, evs[i], w1.objOld) ==> TakesBack(c, evs[i], w.objOld)
  {
    var n := |tracker| - 1;
    var rest, w1 := tracker[..n], PushInverse(w, tracker[n]);
    assert tracker[n] in Steps(tracker);
    forall i | 0 <= i < n
      ensures Planned(w1, rest[i]) && Records(w1, rest[i], evs[i])
      ensures forall c :: TakesBack(c, evs[i], w1.objOld) <==> TakesBack(c, evs[i], w.objOld)
    {
      assert tracker[i] in Steps(tracker) && Records(w, tracker[i], evs[i]);
      UndoOthersStay(w, tracker[n], tracker[i], evs[i]);
    }
    forall t | t in Steps(rest) ensures Planned(w1, t) {
      var i :| 0 <= i < n && rest[i] == t;
    }
  }

  lemma {:induction false} BackwardLog(w: World, tracker: seq<Step>)
    ensures Backward(w, tracker).w.hw.log == w.hw.log + UndoLogged(w, tracker)
    ensures Backward(w, tracker).abandoned == {} ==> |UndoLogged(w, tracker)| == |tracker|
    decreases |tracker|
  {
    if tracker != [] && UndoEscapes(w, tracker[|tracker| - 1]) {
      assert tracker[|tracker| - 1] in Steps(tracker);
    } else if tracker != [] {
      var w1 := PushInverse(w, tracker[|tracker| - 1]);
      assert w1.hw.log == w.hw.log + [w1.hw.log[|w.hw.log|]];
      BackwardLog(w1, tracker[..|tracker| - 1]);
    }
  }

  /** Every tracker element is undone once, newest first, by the call that takes back its event. */
  lemma {:induction false} UndoTakesBack(w: World, tracker: seq<Step>, evs: seq<Event>)
    requires OnePlan(w, tracker) && RecordsAll(w, tracker, evs) && Backward(w, tracker).abandoned == {}
    ensures TakesAllBack(UndoLogged(w, tracker), evs, w.objOld)
    decreases |tracker|
  {
    BackwardLog(w, tracker);
    if tracker != [] {
      var n := |tracker| - 1;
      assert tracker[n] in Steps(tracker) && !UndoEscapes(w, tracker[n]);
      var w1, undo := PushInverse(w, tracker[n]), UndoLogged(w, tracker);
      var undo1 := UndoLogged(w1, tracker[..n]);
      TrackerShrinks(w, tracker, evs);
      UndoTakesBack(w1, tracker[..n], evs[..n]);
      assert Records(w, tracker[n], evs[n]) && TakesBack(undo[0].call, evs[n], w.objOld);
      JoinTakenBack(undo[0], undo1, evs, w1.objOld, w.objOld);
      assert undo == [undo[0]] + undo1;
    }
  }

  lemma JoinTakenBack(first: Event, rest: seq<Event>, evs: seq<Event>, objOld1: Obj, objOld: Obj)
    requires evs != [] && TakesBack(first.call, evs[|evs| - 1], objOld)
    requires TakesAllBack(rest, evs[..|evs| - 1], objOld1)
    requires forall i, c :: 0 <= i < |evs| - 1 && TakesBack(c, evs[i], objOld1) ==> TakesBack(c, evs[i], objOld)
    ensures TakesAllBack([first] + rest, evs, objOld)
  {
  }

  /** The events are the calls of a prefix of the plan, in order, and exactly the last one threw. */
  ghost predicate StopsAtThrow(w: World, plan: seq<Step>, evs: seq<Event>) {
    && 0 < |evs| <= |plan|
    && (forall i :: 0 <= i < |evs| ==> evs[i].call == ForwardCall(w, plan[i]))
    && (forall i :: 0 <= i < |evs| ==> (evs[i].fate.Failed? <==> i == |evs| - 1))
  }

  /** Each of the events is taken back once, newest first. */
  ghost predicate TakesAllBack(undo: seq<Event>, evs: seq<Event>, objOld: Obj) {
    && |undo| == |evs|
    && forall j :: 0 <= j < |undo| ==> TakesBack(undo[j].call, evs[|evs| - 1 - j], objOld)
  }

  /**
   * A commit that throws makes the calls of a prefix of its plan, the last of which threw,
   * and then takes back exactly the ones that were done, newest first.
   */
  lemma FailedCommitTrace(w: World, plan: seq<Step>)
    requires OnePlan(w, plan) && Commit(w, plan, false).end.Threw?
    ensures var r := Forward(w, plan, false);
      var fwd, undo := Logged(w, plan, false), UndoLogged(r.w, r.done);
      && Commit(w, plan, false).w.hw.log == w.hw.log + fwd + undo
      && StopsAtThrow(w, plan, fwd)
      && TakesAllBack(undo, DoneEvents(fwd), r.w.objOld)
  {
    ForwardLog(w, plan, false);
    LoggedInPlanOrder(w, plan, false);
    RollbackTrace(w, plan);
  }

  lemma RollbackTrace(w: World, plan: seq<Step>)
    requires OnePlan(w, plan) && Commit(w, plan, false).end.Threw?
    ensures var r := Forward(w, plan, false);
      && Backward(r.w, r.done).w.hw.log == r.w.hw.log + UndoLogged(r.w, r.done)
      && TakesAllBack(UndoLogged(r.w, r.done), DoneEvents(Logged(w, plan, false)), r.w.objOld)
  {
    var r := Forward(w, plan, false);
    TrackerRecords(w, plan, false);
    DoneIsPlanned(w, plan, false);
    BackwardLog(r.w, r.done);
    UndoTakesBack(r.w, r.done, DoneEvents(Logged(w, plan, false)));
  }

  /**
   * A commit that comes to a missing handle makes the calls of the plan before that step,
   * and that is all: nothing is taken back, not even what was done.
   */
  lemma EscapedCommitTrace(w: World, plan: seq<Step>, rollingBack: bool)
    requires OnePlan(w, plan) && Forward(w, plan, rollingBack).end.Escaped?
    ensures var c, evs := Commit(w, plan, rollingBack), Logged(w, plan, rollingBack);
      && c.end.Escaped? && c.w.hw.log == w.hw.log + evs
      && |evs| < |plan| && LacksHandle(w, plan[|evs|])
      && (forall i :: 0 <= i < |evs| ==> evs[i].call == ForwardCall(w, plan[i]))
      && (rollingBack || forall i :: 0 <= i < |evs| ==> !evs[i].fate.Failed?)
      && c.abandoned == Steps(c.done)
  {
    ForwardLog(w, plan, rollingBack);
    LoggedInPlanOrder(w, plan, rollingBack);
  }

  /** Step number `i` looks a handle up that is not there: a delete the old object's, a set the new one's. */
  predicate StepThrows(w: World, plan: seq<Step>, i: nat)
    requires i < |plan|
  {
    && !w.hw.FateAt(i).Skipped?
    && match plan[i]
       case CreateOn(_) => false
       case DeleteFrom(n) => n !in w.objOld.handles
       case SetOn(_, n) => n !in w.objNew.handles
  }

  /** No step before number `i` failed, or that does not matter. */
  ghost predicate GetsTo(w: World, i: nat, rollingBack: bool) {
    rollingBack || forall j :: 0 <= j < i ==> !w.hw.FateAt(j).Failed?
  }

  lemma GetsToNext(w: World, s: Step, i: nat, rollingBack: bool)
    ensures GetsTo(w, i + 1, rollingBack) <==>
      (rollingBack || !w.hw.Next().Failed?) && GetsTo(Push(w, s), i, rollingBack)
  {
    var w1 := Push(w, s);
    assert w.hw.FateAt(0) == w.hw.Next() && forall j: nat :: w1.hw.FateAt(j) == w.hw.FateAt(j + 1);
    if GetsTo(w1, i, false) && !w.hw.Next().Failed? {
      forall j | 0 <= j < i + 1 ensures !w.hw.FateAt(j).Failed? {
        if j > 0 { assert w1.hw.FateAt(j - 1) == w.hw.FateAt(j); }
      }
    }
  }

  lemma StepsStay(w: World, plan: seq<Step>)
    requires OnePlan(w, plan) && plan != []
    ensures var w1 := Push(w, plan[0]);
      && OnePlan(w1, plan[1..])
      && (Escapes(w, plan[0]) <==> StepThrows(w, plan, 0))
      && (!Escapes(w, plan[0]) ==>
           forall i :: 0 <= i < |plan| - 1 ==> (StepThrows(w1, plan[1..], i) <==> StepThrows(w, plan, i + 1)))
  {
    var w1, rest := Push(w, plan[0]), plan[1..];
    RestOfPlan(w, plan);
    assert w.hw.FateAt(0) == w.hw.Next();
    if !Escapes(w, plan[0]) {
      forall i | 0 <= i < |rest| ensures StepThrows(w1, rest, i) <==> StepThrows(w, plan, i + 1) {
        assert rest[i] in rest && LacksHandle(w1, rest[i]) == LacksHandle(w, plan[i + 1]);
        assert w1.hw.FateAt(i) == w.hw.FateAt(i + 1);
      }
    }
  }

  /** The steps are broken off by the lookup of a handle exactly when they get to one that throws like that. */
  lemma {:induction false} ForwardEscapesIff(w: World, plan: seq<Step>, rollingBack: bool)
    requires OnePlan(w, plan)
    ensures Forward(w, plan, rollingBack).end.Escaped? <==>
      exists i :: 0 <= i < |plan| && StepThrows(w, plan, i) && GetsTo(w, i, rollingBack)
    decreases |plan|
  {
    hide Push, OnePlan, StepThrows, Escapes;
    if plan != [] {
      var w1, rest := Push(w, plan[0]), plan[1..];
      StepsStay(w, plan);
      assert GetsTo(w, 0, rollingBack);
      if !Escapes(w, plan[0]) {
        ForwardEscapesIff(w1, rest, rollingBack);
        if i :| 0 <= i < |plan| && StepThrows(w, plan, i) && GetsTo(w, i, rollingBack) {
          GetsToNext(w, plan[0], i - 1, rollingBack);
          assert StepThrows(w1, rest, i - 1) && GetsTo(w1, i - 1, rollingBack);
        }
        if i :| 0 <= i < |rest| && StepThrows(w1, rest, i) && GetsTo(w1, i, rollingBack) {
          GetsToNext(w, plan[0], i, rollingBack);
          assert StepThrows(w, plan, i + 1);
        }
      }
    }
  }

  /** With rolling back steps are attempted once, in order, all unless a handle is missing, and nothing is undone. */
  lemma RollingBackTrace(w: World, plan: seq<Step>)
    requires OnePlan(w, plan)
    ensures var c, evs := Commit(w, plan, true), Logged(w, plan, true);
      && !c.end.Threw? && c.w.hw.log == w.hw.log + evs && |evs| <= |plan|
      && (c.end.Finished? <==> |evs| == |plan|)
      && (forall i :: 0 <= i < |evs| ==> evs[i].call == ForwardCall(w, plan[i]))
      && (c.done == plan <==> c.end.Finished? && forall i :: 0 <= i < |evs| ==> evs[i].fate.Done?)
  {
    ForwardLog(w, plan, true);
    LoggedInPlanOrder(w, plan, true);
    NeverThrows(w, plan);
    AllDoneIff(w, plan, true);
  }

  lemma {:induction false} NeverThrows(w: World, plan: seq<Step>)
    ensures !Forward(w, plan, true).end.Threw?
    decreases |plan|
  {
    if plan != [] && !Escapes(w, plan[0]) { NeverThrows(Push(w, plan[0]), plan[1..]); }
  }

  lemma {:induction false} AllDoneIff(w: World, plan: seq<Step>, rollingBack: bool)
    ensures var done, evs := Forward(w, plan, rollingBack).done, Logged(w, plan, rollingBack);
      && |done| <= |evs| <= |plan|
      && (|done| == |evs| <==> AllDone(evs))
      && (|done| == |plan| <==> done == plan)
    decreases |plan|
  {
    if plan != [] && !Escapes(w, plan[0]) {
      var e, w1, rest := EventOf(w, plan[0]), Push(w, plan[0]), plan[1..];
      assert e.fate == w.hw.Next() && plan == [plan[0]] + rest;
      if w.hw.Next().Failed? && !rollingBack {
        AllDoneOneMore(e, []);
        assert Logged(w, plan, rollingBack) == [e] + [];
      } else {
        AllDoneIff(w1, rest, rollingBack);
        AllDoneOneMore(e, Logged(w1, rest, rollingBack));
      }
    }
  }

  ghost predicate AllDone(evs: seq<Event>) {
    forall i :: 0 <= i < |evs| ==> evs[i].fate.Done?
  }

  lemma AllDoneOneMore(e: Event, evs: seq<Event>)
    ensures AllDone([e] + evs) <==> e.fate.Done? && AllDone(evs)
  {
    assert ([e] + evs)[0] == e && forall i :: 0 <= i < |evs| ==> ([e] + evs)[i + 1] == evs[i];
  }

  /** A rollback loses no undo exactly when all of its pushes are done. */
  lemma {:induction false} NoneLostIff(w: World, tracker: seq<Step>)
    requires Backward(w, tracker).abandoned == {}
    ensures Backward(w, tracker).lost == {} <==> AllDone(UndoLogged(w, tracker))
    decreases |tracker|
  {
    if tracker != [] {
      var last, rest := tracker[|tracker| - 1], tracker[..|tracker| - 1];
      assert last in Steps(tracker) && !UndoEscapes(w, last);
      var w1 := PushInverse(w, last);
      NoneLostIff(w1, rest);
      AllDoneOneMore(w1.hw.log[|w.hw.log|], UndoLogged(w1, rest));
    }
  }

  /**
   * Undo number `i`, the newest step being number 0, looks a handle up that is not there: a
   * create is undone through the new object's handle, a set through the old object's.
   */
  predicate UndoThrows(w: World, tracker: seq<Step>, i: nat)
    requires i < |tracker|
  {
    && !w.hw.FateAt(i).Skipped?
    && match tracker[|tracker| - 1 - i]
       case CreateOn(n) => n !in w.objNew.handles
       case DeleteFrom(_) => false
       case SetOn(_, n) => n !in w.objOld.handles
  }

  lemma UndoLookupsStay(w: World, s: Step, t: Step)
    requires Planned(w, s) && Planned(w, t) && s != t
    ensures var w1 := PushInverse(w, s);
      Planned(w1, t) && (UndoLacksHandle(w1, t) <==> UndoLacksHandle(w, t))
  {
  }

  lemma UndosStay(w: World, tracker: seq<Step>)
    requires OnePlan(w, tracker) && tracker != []
    ensures var n := |tracker| - 1;
      var w1 := PushInverse(w, tracker[n]);
      && OnePlan(w1, tracker[..n]) && tracker[n] in Steps(tracker)
      && (UndoEscapes(w, tracker[n]) <==> UndoThrows(w, tracker, 0))
      && forall i :: 0 <= i < n ==> (UndoThrows(w1, tracker[..n], i) <==> UndoThrows(w, tracker, i + 1))
  {
    var n := |tracker| - 1;
    var rest, w1 := tracker[..n], PushInverse(w, tracker[n]);
    assert tracker[n] in Steps(tracker) && w.hw.FateAt(0) == w.hw.Next();
    forall t | t in Steps(rest) ensures Planned(w1, t) && (UndoLacksHandle(w1, t) <==> UndoLacksHandle(w, t)) {
      var i :| 0 <= i < n && rest[i] == t;
      assert t in Steps(tracker);
      UndoLookupsStay(w, tracker[n], t);
    }
    forall i | 0 <= i < n ensures UndoThrows(w1, rest, i) <==> UndoThrows(w, tracker, i + 1) {
      assert rest[n - 1 - i] in Steps(rest) && w1.hw.FateAt(i) == w.hw.FateAt(i + 1);
    }
  }

  /** A rollback is broken off exactly when one of its undos throws like that. */
  lemma {:induction false} RollbackEscapesIff(w: World, tracker: seq<Step>)
    requires OnePlan(w, tracker)
    ensures Backward(w, tracker).abandoned != {} <==> exists i :: 0 <= i < |tracker| && UndoThrows(w, tracker, i)
    decreases |tracker|
  {
    hide PushInverse, OnePlan, UndoThrows, UndoEscapes, Steps;
    if tracker != [] {
      var last, rest := tracker[|tracker| - 1], tracker[..|tracker| - 1];
      var w1 := PushInverse(w, last);
      UndosStay(w, tracker);
      RollbackEscapesIff(w1, rest);
      if i :| 1 <= i < |tracker| && UndoThrows(w, tracker, i) { assert UndoThrows(w1, rest, i - 1); }
    }
  }

  /** The calls come to a first failure, and all after it are done. */
  ghost predicate DoneAfterFailure(evs: seq<Event>) {
    exists k :: 0 <= k < |evs| && evs[k].fate.Failed? && (forall i :: 0 <= i < k ==> !evs[i].fate.Failed?)
             && forall i :: k < i < |evs| ==> evs[i].fate.Done?
  }

  ghost predicate NoneFailed(evs: seq<Event>) {
    forall i :: 0 <= i < |evs| ==> !evs[i].fate.Failed?
  }

  /**
   * The calls that a commit added to the log tell whether it failed, whether it missed a step
   * and whether an undo was lost.
   */
  lemma LogTells(w: World, plan: seq<Step>)
    requires OnePlan(w, plan)
    ensures var c := Commit(w, plan, false);
      && w.hw.log <= c.w.hw.log
      && var evs := c.w.hw.log[|w.hw.log|..];
         && (c.end.Finished? ==> NoneFailed(evs) && (c.done == plan <==> AllDone(evs)))
         && (c.end.Threw? ==> !NoneFailed(evs) && (c.lost == {} <==> DoneAfterFailure(evs)))
  {
    hide OnePlan, Forward, Backward, Logged, UndoLogged, AllDone, NoneFailed, DoneAfterFailure;
    var c, r, fwd := Commit(w, plan, false), Forward(w, plan, false), Logged(w, plan, false);
    ForwardLog(w, plan, false);
    BackwardLog(r.w, r.done);
    if c.end.Finished? {
      FinishedLogTells(w, plan);
      assert c.w.hw.log[|w.hw.log|..] == fwd;
    }
    if c.end.Threw? {
      ThrewLogTells(w, plan);
      assert c.w.hw.log[|w.hw.log|..] == fwd + UndoLogged(r.w, r.done);
    }
  }

  lemma FinishedLogTells(w: World, plan: seq<Step>)
    requires OnePlan(w, plan) && Forward(w, plan, false).end.Finished?
    ensures NoneFailed(Logged(w, plan, false))
    ensures Forward(w, plan, false).done == plan <==> AllDone(Logged(w, plan, false))
  {
    hide OnePlan, Forward, Logged, AllDone;
    LoggedInPlanOrder(w, plan, false);
    AllDoneIff(w, plan, false);
  }

  lemma ThrewLogTells(w: World, plan: seq<Step>)
    requires OnePlan(w, plan) && Commit(w, plan, false).end.Threw?
    ensures var r := Forward(w, plan, false);
      var evs := Logged(w, plan, false) + UndoLogged(r.w, r.done);
      !NoneFailed(evs) && (Backward(r.w, r.done).lost == {} <==> DoneAfterFailure(evs))
  {
    hide OnePlan, Forward, Backward, Logged, UndoLogged;
    hide AllDone, NoneFailed, DoneAfterFailure, StopsAtThrow, TakesAllBack;
    var r := Forward(w, plan, false);
    FailedCommitTrace(w, plan);
    NoneLostIff(r.w, r.done);
    FailureEnds(w, plan, Logged(w, plan, false), UndoLogged(r.w, r.done));
  }

  lemma FailureEnds(w: World, plan: seq<Step>, fwd: seq<Event>, undo: seq<Event>)
    requires StopsAtThrow(w, plan, fwd)
    ensures !NoneFailed(fwd + undo) && (DoneAfterFailure(fwd + undo) <==> AllDone(undo))
  {
    var evs, k := fwd + undo, |fwd| - 1;
    assert evs[k] == fwd[k] && forall i :: 0 <= i < |undo| ==> evs[k + 1 + i] == undo[i];
    if AllDone(undo) {
      forall i | k < i < |evs| ensures evs[i].fate.Done? { assert evs[i] == undo[i - k - 1]; }
    }
    if DoneAfterFailure(evs) {
      var m :| 0 <= m < |evs| && evs[m].fate.Failed? && (forall i :: 0 <= i < m ==> !evs[i].fate.Failed?)
            && forall i :: m < i < |evs| ==> evs[i].fate.Done?;
      assert m == k;
    }
  }

  lemma {:induction false} DoneIsPlanned(w: World, steps: seq<Step>, rollingBack: bool)
    requires OnePlan(w, steps)
    ensures var r := Forward(w, steps, rollingBack);
      OnePlan(r.w, r.done) && Steps(r.done) <= Steps(steps)
    decreases |steps|
  {
    if steps != [] && !Escapes(w, steps[0]) && !(w.hw.Next().Failed? && !rollingBack) {
      var s, w1, rest := steps[0], Push(w, steps[0]), steps[1..];
      RestOfPlan(w, steps);
      DoneIsPlanned(w1, rest, rollingBack);
      var r, r1 := Forward(w, steps, rollingBack), Forward(w1, rest, rollingBack);
      assert steps == [s] + rest && s !in Steps(rest);
      assert r.done == r1.done || r.done == [s] + r1.done;
      assert Steps(steps) == {s} + Steps(rest) && Steps(r.done) <= {s} + Steps(r1.done);
      PlannedStays(w, steps, rollingBack, s);
    }
  }

  lemma {:induction false} PlannedStays(w: World, steps: seq<Step>, rollingBack: bool, s: Step)
    ensures Planned(Forward(w, steps, rollingBack).w, s) == Planned(w, s)
    decreases |steps|
  {
    if steps != [] && !Escapes(w, steps[0]) && !(w.hw.Next().Failed? && !rollingBack) {
      PlannedStays(Push(w, steps[0]), steps[1..], rollingBack, s);
    }
  }
}
