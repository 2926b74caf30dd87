/**
 * The NPUs as the commit code sees them: objects addressed by an NPU and the
 * handle that NPU gave out, and an adversary that decides what every push does.
 */
module NdiHardware {

  type NpuId = int
  type AttrId = int
  type Handle = nat
  type Value = int
  type Attrs = map<AttrId, Value>

  /** Where an object lives: the NPU, and the handle returned by its create call. */
  datatype Slot = Slot(npu: NpuId, handle: Handle)

  /**
   * How a push ends: it returns true and took effect, it returns false without
   * calling NDI, or it throws without effect.
   */
  datatype Fate = Done | Skipped | Failed

  datatype Call =
    | CreateObj(npu: NpuId, attrs: Attrs)
    | DeleteObj(npu: NpuId, handle: Handle)
    | SetAttr(npu: NpuId, handle: Handle, attr: AttrId, value: Value)

  /** One push. `handle` is the handle handed out by a create that was done, else 0. */
  datatype Event = Event(call: Call, fate: Fate, handle: Handle)

  /**
   * The state of all NPUs. `script` is the adversary's choice for push number 0, 1, ...;
   * pushes past its end are done. Handles are numbered 1, 2, ... over all NPUs.
   */
  datatype Hw = Hw(script: seq<Fate>, objs: map<Slot, Attrs>, count: nat, log: seq<Event>) {

    /** What the next push will do. */
    function Next(): Fate {
      if |log| < |script| then script[|log|] else Done
    }

    /** What push number `i` from here will do. */
    function FateAt(i: nat): Fate {
      if |log| + i < |script| then script[|log| + i] else Done
    }

    /** No push is ever skipped, as in the unit test's object. */
    ghost predicate NoSkips() {
      forall f :: f in script ==> !f.Skipped?
    }

    function Issue(call: Call): Hw {
      if Next() != Done then this.(log := log + [Event(call, Next(), 0)]) else
      match call
      case CreateObj(n, a) =>
        this.(objs := objs[Slot(n, count + 1) := a], count := count + 1,
              log := log + [Event(call, Done, count + 1)])
      case DeleteObj(n, h) =>
        this.(objs := objs - {Slot(n, h)}, log := log + [Event(call, Done, 0)])
      case SetAttr(n, h, a, v) =>
        this.(objs := if Slot(n, h) in objs then objs[Slot(n, h) := objs[Slot(n, h)][a := v]] else objs,
              log := log + [Event(call, Done, 0)])
    }

    /** No handle in use is above the counter, so the next one is fresh on every NPU. */
    ghost predicate Fresh() {
      forall k :: k in objs ==> k.handle <= count
    }
  }

  /** The NDI entry points. The fate of a call is the adversary's. */
  class Ndi {
    var hw: Hw

    constructor (script: seq<Fate>)
      ensures hw == Hw(script, map[], 0, [])
    {
      hw := Hw(script, map[], 0, []);
    }

    method Push(call: Call) returns (fate: Fate)
      modifies this
      ensures fate == old(hw).Next()
      ensures hw == old(hw).Issue(call)
    {
      fate := hw.Next();
      hw := hw.Issue(call);
    }
  }
}
