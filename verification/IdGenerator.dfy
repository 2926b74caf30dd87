/** Handing out free object IDs from a bitmap with a rotating cursor. */
module IdGenerators {
  import opened Options
  import opened Ordering

  // ----- the generator as a set of free IDs and a cursor -----

  /** IDs are 1 to `maxIds` - 1. ID 0 is never handed out but can be reserved. */
  datatype Gen = Gen(maxIds: nat, pos: int, free: set<int>)

  ghost predicate Valid(g: Gen) {
    1 <= g.pos <= g.maxIds && forall x :: x in g.free ==> 0 <= x < g.maxIds
  }

  /** The free IDs from `lo` up to `hi` - 1. */
  function FreeIn(g: Gen, lo: int, hi: int): set<int> {
    set x | x in g.free && lo <= x < hi
  }

  function Take(g: Gen, id: int): Gen {
    g.(free := g.free - {id}, pos := id + 1)
  }

  /** The least free ID at or after the cursor, else the least of all. */
  function AllocId(g: Gen): (Gen, Option<int>) {
    var ahead := FreeIn(g, g.pos, g.maxIds);
    if g.pos < g.maxIds && ahead != {} then (Take(g, Least(ahead)), Some(Least(ahead))) else
    var all := FreeIn(g, 1, g.maxIds);
    if all != {} then (Take(g, Least(all)), Some(Least(all))) else (g.(pos := 1), None)
  }

  function ReserveId(g: Gen, id: nat): (Gen, bool) {
    if id in g.free then (g.(free := g.free - {id}), true) else (g, false)
  }

  function ReleaseId(g: Gen, id: nat): Gen {
    if id < g.maxIds then g.(free := g.free + {id}) else g
  }

  /** How far an ID is ahead of the cursor, going around from the last ID to ID 1. */
  function Ahead(g: Gen, id: int): int {
    if id >= g.pos then id - g.pos else g.maxIds - g.pos + id - 1
  }

  /**
   * Allocation fails exactly when no ID is free. Otherwise it returns a free ID, the first
   * one going around from the cursor, and takes that one only.
   */
  lemma AllocIsCyclicallyFirst(g: Gen)
    requires Valid(g)
    ensures var (g', id) := AllocId(g);
      && Valid(g')
      && (id.None? <==> forall x :: x in g.free ==> x == 0)
      && (id.None? ==> g' == g.(pos := 1))
      && (id.Some? ==>
           && 1 <= id.value < g.maxIds && id.value in g.free
           && g' == g.(free := g.free - {id.value}, pos := id.value + 1)
           && forall x :: x in g.free && x != 0 ==> Ahead(g, id.value) <= Ahead(g, x))
  {
    var ahead, all := FreeIn(g, g.pos, g.maxIds), FreeIn(g, 1, g.maxIds);
    forall x | x in g.free && x != 0 ensures x in all && (x >= g.pos ==> x in ahead) {}
  }

  // ----- runs -----

  datatype Op = Alloc | Reserve(id: nat) | Release(id: nat)

  /** The generator with the IDs handed out and not yet given back, and whether one was ever handed out twice. */
  datatype Ledger = Ledger(gen: Gen, held: set<int>, twice: bool)

  function Serve(l: Ledger, op: Op): Ledger {
    match op
    case Alloc =>
      var (g, id) := AllocId(l.gen);
      if id.None? then l.(gen := g) else Ledger(g, l.held + {id.value}, l.twice || id.value in l.held)
    case Reserve(id) =>
      var (g, ok) := ReserveId(l.gen, id);
      if !ok then l.(gen := g) else Ledger(g, l.held + {id}, l.twice || id in l.held)
    case Release(id) =>
      Ledger(ReleaseId(l.gen, id), l.held - {id}, l.twice)
  }

  function Run(l: Ledger, ops: seq<Op>): Ledger
    decreases |ops|
  {
    if ops == [] then l else Run(Serve(l, ops[0]), ops[1..])
  }

  /** An ID is free exactly when nobody holds it. */
  ghost predicate Balanced(l: Ledger) {
    && Valid(l.gen) && !l.twice
    && forall x :: 0 <= x < l.gen.maxIds ==> (x in l.gen.free <==> x !in l.held)
  }

  /** Whether an operation succeeds. */
  function Granted(l: Ledger, op: Op): bool {
    match op
    case Alloc => AllocId(l.gen).1.Some?
    case Reserve(id) => ReserveId(l.gen, id).1
    case Release(_) => true
  }

  /**
   * What the operations do to the IDs that are held. A reserve succeeds exactly when the ID
   * is one of the generator's and nobody holds it, wherever the cursor is, and then takes
   * that one; a release gives back that one, and neither moves the cursor. An allocation
   * succeeds exactly when some ID other than 0 is not held, and takes one such.
   */
  lemma HeldExactly(l: Ledger, op: Op)
    requires Balanced(l)
    ensures var l', ok := Serve(l, op), Granted(l, op);
      && l'.gen.maxIds == l.gen.maxIds
      && match op
         case Reserve(id) =>
           && (ok <==> id < l.gen.maxIds && id !in l.held)
           && l'.held == (if ok then l.held + {id} else l.held) && l'.gen.pos == l.gen.pos
         case Release(id) => l'.held == l.held - {id} && l'.gen.pos == l.gen.pos
         case Alloc =>
           && (ok <==> exists id :: 1 <= id < l.gen.maxIds && id !in l.held)
           && (if ok then exists id :: 1 <= id < l.gen.maxIds && id !in l.held && l'.held == l.held + {id}
               else l'.held == l.held)
  {
    AllocIsCyclicallyFirst(l.gen);
    if op.Alloc? && !Granted(l, op) {
      forall id | 1 <= id < l.gen.maxIds ensures id in l.held { assert id !in l.gen.free; }
    }
  }

  /** Over any run of allocations, reservations and releases no ID is handed out while it is held. */
  lemma {:induction false} RunStaysBalanced(l: Ledger, ops: seq<Op>)
    requires Balanced(l)
    ensures Balanced(Run(l, ops))
    decreases |ops|
  {
    if ops != [] {
      AllocIsCyclicallyFirst(l.gen);
      RunStaysBalanced(Serve(l, ops[0]), ops[1..]);
    }
  }

  /** The generator after one operation. */
  function After(g: Gen, op: Op): Gen {
    match op
    case Alloc => AllocId(g).0
    case Reserve(id) => ReserveId(g, id).0
    case Release(id) => ReleaseId(g, id)
  }

  /** The IDs handed out by the allocations of a run, in order. */
  function Allocated(g: Gen, ops: seq<Op>): seq<int>
    decreases |ops|
  {
    if ops == [] then [] else
    var rest := Allocated(After(g, ops[0]), ops[1..]);
    if ops[0].Alloc? && AllocId(g).1.Some? then [AllocId(g).1.value] + rest else rest
  }

  /** Every allocation of the run finds a free ID at or above the cursor. */
  predicate FindsAhead(g: Gen, ops: seq<Op>)
    decreases |ops|
  {
    ops == [] || ((ops[0].Alloc? ==> FreeIn(g, g.pos, g.maxIds) != {}) && FindsAhead(After(g, ops[0]), ops[1..]))
  }

  /** While that is so, the IDs handed out only go up, whatever is released and reserved meanwhile. */
  lemma {:induction false} AllocationsRise(g: Gen, ops: seq<Op>)
    requires Valid(g) && FindsAhead(g, ops)
    ensures StrictlyIncreasing(Allocated(g, ops)) && forall id :: id in Allocated(g, ops) ==> g.pos <= id
    decreases |ops|
  {
    if ops != [] {
      AllocIsCyclicallyFirst(g);
      AllocationsRise(After(g, ops[0]), ops[1..]);
      var rest := Allocated(After(g, ops[0]), ops[1..]);
      assert forall j :: 0 <= j < |rest| ==> rest[j] in rest;
    }
  }

  /** An ID released behind the cursor is not handed out again while every allocation finds one at or above it. */
  lemma ReleasedBehindWaits(g: Gen, released: nat, ops: seq<Op>)
    requires Valid(g) && released < g.pos && FindsAhead(ReleaseId(g, released), ops)
    ensures released !in Allocated(ReleaseId(g, released), ops)
  {
    AllocationsRise(ReleaseId(g, released), ops);
  }

  /** Every allocation of the run succeeds and returns an ID at or above the cursor. */
  predicate StaysAhead(g: Gen, ops: seq<Op>)
    decreases |ops|
  {
    ops == [] ||
    ((ops[0].Alloc? ==> AllocId(g).1.Some? && g.pos <= AllocId(g).1.value) && StaysAhead(After(g, ops[0]), ops[1..]))
  }

  /** An allocation that finds none ahead goes back behind the cursor or fails, and no other one does. */
  lemma {:induction false} FindsAheadIff(g: Gen, ops: seq<Op>)
    requires Valid(g)
    ensures FindsAhead(g, ops) <==> StaysAhead(g, ops)
    decreases |ops|
  {
    if ops != [] {
      AllocIsCyclicallyFirst(g);
      FindsAheadIff(After(g, ops[0]), ops[1..]);
      var id := AllocId(g).1;
      if id.Some? && g.pos <= id.value { assert id.value in FreeIn(g, g.pos, g.maxIds); }
    }
  }

  /** Allocating until there is nothing left. */
  function Drain(g: Gen): seq<int>
    requires Valid(g)
    decreases g.free
  {
    AllocIsCyclicallyFirst(g);
    var (g', id) := AllocId(g);
    if id.None? then [] else [id.value] + Drain(g')
  }

  /** Allocations alone hand out every free ID once: first those from the cursor on, then those before it. */
  lemma {:induction false} DrainGoesAround(g: Gen)
    requires Valid(g)
    ensures Drain(g) == Ascending(FreeIn(g, g.pos, g.maxIds)) + Ascending(FreeIn(g, 1, g.pos))
    decreases g.free
  {
    AllocIsCyclicallyFirst(g);
    var (g', id) := AllocId(g);
    var ahead, behind := FreeIn(g, g.pos, g.maxIds), FreeIn(g, 1, g.pos);
    if id.None? {
      SameElements(ahead, {});
      SameElements(behind, {});
    } else {
      DrainGoesAround(g');
      AfterTaking(g, id.value);
    }
  }

  /** What is ahead of and behind the cursor after one allocation. */
  lemma AfterTaking(g: Gen, id: int)
    requires Valid(g) && AllocId(g).1 == Some(id)
    ensures var g' := AllocId(g).0;
      Ascending(FreeIn(g, g.pos, g.maxIds)) + Ascending(FreeIn(g, 1, g.pos))
      == [id] + (Ascending(FreeIn(g', g'.pos, g'.maxIds)) + Ascending(FreeIn(g', 1, g'.pos)))
  {
    hide Ascending, FreeIn;
    var ahead, behind := FreeIn(g, g.pos, g.maxIds), FreeIn(g, 1, g.pos);
    if g.pos < g.maxIds && ahead != {} {
      TakenAhead(g, id);
      ListFirst(ahead, behind);
    } else {
      TakenAround(g, id);
      ListFirst(behind, {});
    }
  }

  lemma ListFirst(s: set<int>, t: set<int>)
    requires s != {}
    ensures Ascending(s) + Ascending(t) == [Least(s)] + (Ascending(s - {Least(s)}) + Ascending(t))
    ensures Ascending({}) + Ascending(s) == Ascending(s) + Ascending({})
  {
    var least, rest := Least(s), Ascending(s - {Least(s)});
    assert Ascending(s) == [least] + rest;
    Regroup([least], rest, Ascending(t));
    Regroup([], Ascending(s), []);
  }

  lemma Regroup(a: seq<int>, b: seq<int>, c: seq<int>)
    ensures a + b + c == a + (b + c)
    ensures a == c == [] ==> a + b == b + c
  {
  }

  lemma TakenAhead(g: Gen, id: int)
    requires Valid(g) && FreeIn(g, g.pos, g.maxIds) != {} && id == Least(FreeIn(g, g.pos, g.maxIds))
    ensures FreeIn(Take(g, id), id + 1, g.maxIds) == FreeIn(g, g.pos, g.maxIds) - {id}
    ensures FreeIn(Take(g, id), 1, id + 1) == FreeIn(g, 1, g.pos)
  {
    SameElements(FreeIn(Take(g, id), id + 1, g.maxIds), FreeIn(g, g.pos, g.maxIds) - {id});
    assert forall x :: x in g.free && g.pos <= x < g.maxIds ==> x in FreeIn(g, g.pos, g.maxIds);
    SameElements(FreeIn(Take(g, id), 1, id + 1), FreeIn(g, 1, g.pos));
  }

  lemma TakenAround(g: Gen, id: int)
    requires Valid(g) && (g.pos >= g.maxIds || FreeIn(g, g.pos, g.maxIds) == {})
    requires FreeIn(g, 1, g.maxIds) != {} && id == Least(FreeIn(g, 1, g.maxIds))
    ensures FreeIn(g, g.pos, g.maxIds) == {} && FreeIn(g, 1, g.pos) == FreeIn(g, 1, g.maxIds)
    ensures FreeIn(Take(g, id), id + 1, g.maxIds) == FreeIn(g, 1, g.pos) - {id}
    ensures FreeIn(Take(g, id), 1, id + 1) == {}
  {
    SameElements(FreeIn(g, g.pos, g.maxIds), {});
    assert forall x :: x in g.free && g.pos <= x < g.maxIds ==> x in FreeIn(g, g.pos, g.maxIds);
    SameElements(FreeIn(g, 1, g.pos), FreeIn(g, 1, g.maxIds));
    SameElements(FreeIn(Take(g, id), id + 1, g.maxIds), FreeIn(g, 1, g.pos) - {id});
    assert forall x :: x in g.free && 1 <= x < g.maxIds ==> x in FreeIn(g, 1, g.maxIds);
    SameElements(FreeIn(Take(g, id), 1, id + 1), {});
  }

  // ----- the bitmap -----

  class IdGenerator {
    const maxIds: nat
    var pos: nat
    /** One bit for each ID, set while it is free; padding may follow the last. */
    const bitmap: array<bool>
    /** How far a search looks: past the last ID, perhaps into the padding. */
    const searched: nat

    ghost predicate Inv()
      reads this
    {
      1 <= pos <= maxIds <= searched <= bitmap.Length
    }

    ghost function State(): Gen
      requires Inv()
      reads this, bitmap
    {
      Gen(maxIds, pos, FreeBits(bitmap[..maxIds]))
    }

    constructor (max: nat, padding: nat, intoPadding: nat)
      requires intoPadding <= padding
      ensures Inv() && fresh(bitmap)
      ensures State().maxIds == max + 1 && State().pos == 1 && forall x :: x in State().free <==> 0 <= x <= max
    {
      maxIds, pos, searched := max + 1, 1, max + 1 + intoPadding;
      bitmap := new bool[max + 1 + padding](i => true);
      new;
    }

    /** The first set bit at or after `start`, or -1. */
    method FindFirstBit(start: nat) returns (freepos: int)
      requires Inv()
      ensures freepos == -1 ==> forall i :: start <= i < searched ==> !bitmap[i]
      ensures freepos != -1 ==>
        start <= freepos < searched && bitmap[freepos] && forall i :: start <= i < freepos ==> !bitmap[i]
    {
      var i := start;
      while i < searched
        invariant start <= i && forall j :: start <= j < i && j < searched ==> !bitmap[j]
        decreases searched - i
      {
        if bitmap[i] {
          return i;
        }
        i := i + 1;
      }
      freepos := -1;
    }

    method Alloc() returns (id: Option<int>)
      requires Inv()
      modifies this`pos, bitmap
      ensures Inv()
      ensures (State(), id) == AllocId(old(State()))
    {
      ghost var g := State();
      if pos < maxIds {
        var freepos := FindFirstBit(pos);
        if freepos != -1 && freepos < maxIds {
          LeastFree(bitmap[..maxIds], pos, freepos, g);
          TakeBit(freepos);
          return Some(freepos);
        }
        NoneFree(bitmap[..maxIds], pos, g);
      }
      pos := 1;
      var freepos := FindFirstBit(pos);
      if freepos != -1 && freepos < maxIds {
        LeastFree(bitmap[..maxIds], 1, freepos, g);
        TakeBit(freepos);
        return Some(freepos);
      }
      NoneFree(bitmap[..maxIds], 1, g);
      id := None;
    }

    method TakeBit(freepos: nat)
      requires Inv() && 1 <= freepos < maxIds
      modifies this`pos, bitmap
      ensures Inv() && State() == Take(old(State()), freepos)
    {
      pos := freepos;
      bitmap[pos] := false;
      pos := pos + 1;
      SameElements(FreeBits(bitmap[..maxIds]), FreeBits(old(bitmap[..maxIds])) - {freepos});
    }

    method Reserve(id: nat) returns (ok: bool)
      requires Inv()
      modifies bitmap
      ensures Inv()
      ensures (State(), ok) == ReserveId(old(State()), id)
    {
      if id >= maxIds {
        return false;
      }
      if bitmap[id] {
        bitmap[id] := false;
        SameElements(FreeBits(bitmap[..maxIds]), FreeBits(old(bitmap[..maxIds])) - {id});
        return true;
      }
      ok := false;
    }

    method Release(id: nat)
      requires Inv()
      modifies bitmap
      ensures Inv()
      ensures State() == ReleaseId(old(State()), id)
    {
      if id < maxIds {
        bitmap[id] := true;
        SameElements(FreeBits(bitmap[..maxIds]), FreeBits(old(bitmap[..maxIds])) + {id});
      }
    }
  }

  function FreeBits(bits: seq<bool>): set<int> {
    set x | 0 <= x < |bits| && bits[x]
  }

  lemma LeastFree(bits: seq<bool>, lo: nat, found: nat, g: Gen)
    requires g.free == FreeBits(bits) && g.maxIds == |bits|
    requires lo <= found < |bits| && bits[found] && forall i :: lo <= i < found ==> !bits[i]
    ensures FreeIn(g, lo, g.maxIds) != {} && Least(FreeIn(g, lo, g.maxIds)) == found
  {
    assert found in FreeIn(g, lo, g.maxIds);
  }

  lemma NoneFree(bits: seq<bool>, lo: nat, g: Gen)
    requires g.free == FreeBits(bits) && g.maxIds == |bits|
    requires forall i :: lo <= i < |bits| ==> !bits[i]
    ensures FreeIn(g, lo, g.maxIds) == {}
  {
  }
}
