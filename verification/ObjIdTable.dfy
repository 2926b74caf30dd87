/** Carrying a table of per-NPU object IDs in a CPS object. */
module ObjIdTables {
  import opened Integers
  import opened Options
  import opened AttrTree

  type Table = map<int32, uint64>

  const INST_ATTR_ID_START: AttrId := 1
  const NPU_ATTR_ID: AttrId := 1
  const NDI_OBJ_ATTR_ID: AttrId := 2

  class CpsObject {
    var nodes: seq<Node>

    constructor ()
      ensures nodes == []
    {
      nodes := [];
    }

    method Add(path: Path, v: Value) returns (ok: bool)
      modifies this
      ensures match EAdd(old(nodes), path, v)
        case None => !ok && nodes == old(nodes)
        case Some(n) => ok && nodes == n
    {
      match EAdd(nodes, path, v)
      case None => ok := false;
      case Some(n) => nodes := n; ok := true;
    }
  }

  // ----- what the two directions compute -----

  /** Adding one row of a table as instance `inst`; a failure keeps what was added before it. */
  function RowAdded(nodes: seq<Node>, path: Path, inst: AttrId, npu: int32, id: uint64): (seq<Node>, bool) {
    match EAdd(nodes, path + [inst] + [NPU_ATTR_ID], U32(AsUint32(npu)))
    case None => (nodes, false)
    case Some(one) =>
      match EAdd(one, path + [inst] + [NDI_OBJ_ATTR_ID], U64(id))
      case None => (one, false)
      case Some(two) => (two, true)
  }

  /** Adding the rows of a table in the given order, numbered from `inst`, up to the first failure. */
  function Added(nodes: seq<Node>, path: Path, table: Table, order: seq<int32>, inst: AttrId): (seq<Node>, bool)
    requires forall n :: n in order ==> n in table
    decreases |order|
  {
    if order == [] then (nodes, true) else
    var (nodes', ok) := RowAdded(nodes, path, inst, order[0], table[order[0]]);
    if ok then Added(nodes', path, table, order[1..], inst + 1) else (nodes', false)
  }

  /** The NPU and object ID an entry holds, each 0 unless given, the last of each kind winning. */
  function ReadEntry(kids: seq<Node>, npu: int32, id: uint64): (int32, uint64) {
    if kids == [] then (npu, id) else
    match kids[0]
    case Leaf(a, v) =>
      if a == NPU_ATTR_ID then ReadEntry(kids[1..], AsInt32(ReadU32(v)), id)
      else if a == NDI_OBJ_ATTR_ID then ReadEntry(kids[1..], npu, ReadU64(v))
      else ReadEntry(kids[1..], npu, id)
    case Container(_, _) => ReadEntry(kids[1..], npu, id)
  }

  function ReadU32(v: Value): uint32 {
    match v
    case U32(x) => x
    case U64(x) => x % TWO_TO_32
  }

  function ReadU64(v: Value): uint64 {
    match v
    case U32(x) => x
    case U64(x) => x
  }

  function EntryKids(n: Node): seq<Node> {
    if n.Container? then n.kids else []
  }

  /** The table with the entries of `entries` put in, in order. */
  function ReadEntries(entries: seq<Node>, table: Table): Table {
    if entries == [] then table else
    var (npu, id) := ReadEntry(EntryKids(entries[0]), 0, 0);
    ReadEntries(entries[1..], table[npu := id])
  }

  // ----- the two directions -----

  lemma AddedRest(nodes: seq<Node>, path: Path, table: Table, order: seq<int32>, i: nat, inst: AttrId)
    requires i < |order| && forall n :: n in order ==> n in table
    ensures var (nodes', ok) := RowAdded(nodes, path, inst, order[i], table[order[i]]);
      Added(nodes, path, table, order[i..], inst) ==
      if ok then Added(nodes', path, table, order[i + 1..], inst + 1) else (nodes', false)
  {
  }

  /** One turn of the loop below; the path it works on ends as it began. */
  method SerializeRow(obj: CpsObject, attrIds: Path, inst: AttrId, npu: int32, id: uint64)
    returns (ok: bool, internalIds: Path)
    modifies obj
    ensures (obj.nodes, ok) == RowAdded(old(obj.nodes), attrIds, inst, npu, id)
    ensures ok ==> internalIds == attrIds
  {
    internalIds := attrIds + [inst];
    internalIds := internalIds + [NPU_ATTR_ID];
    ok := obj.Add(internalIds, U32(AsUint32(npu)));
    if !ok {
      return;
    }
    internalIds := internalIds[..|internalIds| - 1];
    assert internalIds == attrIds + [inst];
    internalIds := internalIds + [NDI_OBJ_ATTR_ID];
    ok := obj.Add(internalIds, U64(id));
    if !ok {
      return;
    }
    internalIds := internalIds[..|internalIds| - 1];
    assert internalIds == attrIds + [inst];
    internalIds := internalIds[..|internalIds| - 1];
  }

  /** Writes the table in the given iteration order; stops at the first add that fails. */
  method Serialize(table: Table, order: seq<int32>, obj: CpsObject, attrIds: Path) returns (ok: bool)
    requires forall n :: n in order ==> n in table
    modifies obj
    ensures (obj.nodes, ok) == Added(old(obj.nodes), attrIds, table, order, INST_ATTR_ID_START)
  {
    var internalIds := attrIds;
    var inst := INST_ATTR_ID_START;
    ghost var whole := Added(obj.nodes, attrIds, table, order, inst);
    var i := 0;
    while i < |order|
      invariant 0 <= i <= |order| && internalIds == attrIds
      invariant Added(obj.nodes, attrIds, table, order[i..], inst) == whole
    {
      AddedRest(obj.nodes, attrIds, table, order, i, inst);
      ok, internalIds := SerializeRow(obj, internalIds, inst, order[i], table[order[i]]);
      if !ok {
        return;
      }
      inst := inst + 1;
      i := i + 1;
    }
    ok := true;
  }

  /** Reads a table back; the caller's table is replaced only if the path is there. */
  method Unserialize(table: Table, obj: CpsObject, attrIds: Path) returns (ok: bool, table': Table)
    ensures match Find(obj.nodes, attrIds)
      case None => !ok && table' == table
      case Some(n) => ok && table' == ReadEntries(EntryKids(n), map[])
  {
    var found := Find(obj.nodes, attrIds);
    if found.None? {
      return false, table;
    }
    var entries := EntryKids(found.value);
    var temp: Table := map[];
    var inst := 0;
    while inst < |entries|
      invariant 0 <= inst <= |entries|
      invariant ReadEntries(entries[inst..], temp) == ReadEntries(entries, map[])
    {
      assert entries[inst..][0] == entries[inst] && entries[inst..][1..] == entries[inst + 1..];
      var npu, id := ReadOne(EntryKids(entries[inst]));
      temp := temp[npu := id];
      inst := inst + 1;
    }
    return true, temp;
  }

  /** The inner loop of `Unserialize`, over the attributes of one entry. */
  method ReadOne(kids: seq<Node>) returns (npu: int32, id: uint64)
    ensures (npu, id) == ReadEntry(kids, 0, 0)
  {
    npu, id := 0, 0;
    var i := 0;
    while i < |kids|
      invariant 0 <= i <= |kids|
      invariant ReadEntry(kids[i..], npu, id) == ReadEntry(kids, 0, 0)
    {
      assert kids[i..][0] == kids[i] && kids[i..][1..] == kids[i + 1..];
      if kids[i].Leaf? {
        if kids[i].id == NPU_ATTR_ID {
          npu := AsInt32(ReadU32(kids[i].value));
        } else if kids[i].id == NDI_OBJ_ATTR_ID {
          id := ReadU64(kids[i].value);
        }
      }
      i := i + 1;
    }
  }

  // ----- the round trip -----

  function Entry(inst: AttrId, npu: int32, id: uint64): Node {
    Container(inst, [Leaf(NPU_ATTR_ID, U32(AsUint32(npu))), Leaf(NDI_OBJ_ATTR_ID, U64(id))])
  }

  /** The entries of a table in iteration order, numbered from `inst`. */
  function Entries(table: Table, order: seq<int32>, inst: AttrId): (r: seq<Node>)
    requires forall n :: n in order ==> n in table
    ensures |r| == |order| && forall i :: 0 <= i < |r| ==> r[i].id == inst + i
  {
    if order == [] then [] else [Entry(inst, order[0], table[order[0]])] + Entries(table, order[1..], inst + 1)
  }

  lemma {:induction false} NotAmong(nodes: seq<Node>, id: AttrId)
    requires forall i :: 0 <= i < |nodes| ==> nodes[i].id != id
    ensures IndexOf(nodes, id) == |nodes|
  {
  }

  /** Adding the two leaves of a new instance appends one entry. */
  lemma AddEntry(kids: seq<Node>, inst: AttrId, npu: int32, id: uint64)
    requires forall i :: 0 <= i < |kids| ==> kids[i].id != inst
    ensures var one := EAdd(kids, [inst] + [NPU_ATTR_ID], U32(AsUint32(npu)));
      one.Some? && EAdd(one.value, [inst] + [NDI_OBJ_ATTR_ID], U64(id)) == Some(kids + [Entry(inst, npu, id)])
  {
    NotAmong(kids, inst);
    var v, w := U32(AsUint32(npu)), U64(id);
    var first, both := [Leaf(NPU_ATTR_ID, v)], [Leaf(NPU_ATTR_ID, v), Leaf(NDI_OBJ_ATTR_ID, w)];
    assert KidsOf(kids, inst) + [Leaf(NPU_ATTR_ID, v)] == first;
    AddTwo(kids, inst, NPU_ATTR_ID, v);
    var one := PutKids(kids, inst, first);
    IndexAfterPut(kids, inst, first);
    assert KidsOf(one, inst) + [Leaf(NDI_OBJ_ATTR_ID, w)] == both;
    AddTwo(one, inst, NDI_OBJ_ATTR_ID, w);
    PutKidsTwice(kids, inst, first, both);
  }

  /** An add two levels down, at an instance that is a container or absent. */
  lemma AddTwo(kids: seq<Node>, inst: AttrId, a: AttrId, v: Value)
    requires IndexOf(kids, inst) < |kids| ==> kids[IndexOf(kids, inst)].Container?
    ensures EAdd(kids, [inst] + [a], v) == Some(PutKids(kids, inst, KidsOf(kids, inst) + [Leaf(a, v)]))
  {
  }

  /** Where no leaf is in the way, serializing appends the table's entries inside the path. */
  lemma {:induction false} AddedInside(nodes: seq<Node>, path: Path, table: Table, order: seq<int32>, inst: AttrId)
    requires forall n :: n in order ==> n in table
    requires Open(nodes, path) && forall i :: 0 <= i < |Inside(nodes, path)| ==> Inside(nodes, path)[i].id < inst
    ensures var (nodes', ok) := Added(nodes, path, table, order, inst);
      ok && nodes' == if order == [] then nodes else Put(nodes, path, Inside(nodes, path) + Entries(table, order, inst))
    decreases |order|
  {
    if order != [] {
      var entry := Entry(inst, order[0], table[order[0]]);
      var kids := Inside(nodes, path) + [entry];
      var two := Put(nodes, path, kids);
      AddEntryInside(nodes, path, inst, order[0], table[order[0]]);
      PutHolds(nodes, path, kids, kids + Entries(table, order[1..], inst + 1));
      IdsBelow(Inside(nodes, path), entry, inst);
      AddedInside(two, path, table, order[1..], inst + 1);
      EntriesJoin(Inside(nodes, path), table, order, inst);
    }
  }

  lemma IdsBelow(kids: seq<Node>, n: Node, inst: AttrId)
    requires n.id == inst && forall i :: 0 <= i < |kids| ==> kids[i].id < inst
    ensures forall i :: 0 <= i < |kids + [n]| ==> (kids + [n])[i].id < inst + 1
  {
  }

  lemma EntriesJoin(kids: seq<Node>, table: Table, order: seq<int32>, inst: AttrId)
    requires order != [] && forall n :: n in order ==> n in table
    ensures var entry := Entry(inst, order[0], table[order[0]]);
      kids + [entry] + Entries(table, order[1..], inst + 1) == kids + Entries(table, order, inst)
    ensures order[1..] == [] ==> kids + [Entry(inst, order[0], table[order[0]])] == kids + Entries(table, order, inst)
  {
  }

  lemma AddEntryInside(nodes: seq<Node>, path: Path, inst: AttrId, npu: int32, id: uint64)
    requires Open(nodes, path) && forall i :: 0 <= i < |Inside(nodes, path)| ==> Inside(nodes, path)[i].id < inst
    ensures var kids := Inside(nodes, path) + [Entry(inst, npu, id)];
      RowAdded(nodes, path, inst, npu, id) == (Put(nodes, path, kids), true)
  {
    var kids, v, w := Inside(nodes, path), U32(AsUint32(npu)), U64(id);
    AddEntry(kids, inst, npu, id);
    assert path + [inst] + [NPU_ATTR_ID] == path + ([inst] + [NPU_ATTR_ID]);
    assert path + [inst] + [NDI_OBJ_ATTR_ID] == path + ([inst] + [NDI_OBJ_ATTR_ID]);
    AddBelow(nodes, path, [inst] + [NPU_ATTR_ID], v);
    var half := EAdd(kids, [inst] + [NPU_ATTR_ID], v).value;
    PutHolds(nodes, path, half, kids + [Entry(inst, npu, id)]);
    AddBelow(Put(nodes, path, half), path, [inst] + [NDI_OBJ_ATTR_ID], w);
  }

  /** Of each kind the last leaf of an entry counts, in whatever order the kinds come; other nodes say nothing. */
  lemma {:induction false} LastLeafCounts(kids: seq<Node>, n: Node, npu0: int32, id0: uint64)
    ensures var (npu, id) := ReadEntry(kids, npu0, id0);
      && (forall x: int32 :: n == Leaf(NPU_ATTR_ID, U32(AsUint32(x))) ==> ReadEntry(kids + [n], npu0, id0) == (x, id))
      && (forall x: uint64 :: n == Leaf(NDI_OBJ_ATTR_ID, U64(x)) ==> ReadEntry(kids + [n], npu0, id0) == (npu, x))
      && (forall x: uint64 :: n == Leaf(NPU_ATTR_ID, U64(x)) ==>
           ReadEntry(kids + [n], npu0, id0) == (AsInt32(x % 0x1_0000_0000), id))
      && (forall x: uint32 :: n == Leaf(NDI_OBJ_ATTR_ID, U32(x)) ==> ReadEntry(kids + [n], npu0, id0) == (npu, x))
      && (n.Container? || (n.id != NPU_ATTR_ID && n.id != NDI_OBJ_ATTR_ID) ==>
           ReadEntry(kids + [n], npu0, id0) == (npu, id))
    decreases |kids|
  {
    if kids == [] {
      assert [n][1..] == [] && [] + [n] == [n];
      forall x: int32 ensures AsInt32(AsUint32(x)) == x {}
    } else {
      assert (kids + [n])[1..] == kids[1..] + [n];
      var isNpu := kids[0].Leaf? && kids[0].id == NPU_ATTR_ID;
      var isId := kids[0].Leaf? && kids[0].id == NDI_OBJ_ATTR_ID;
      LastLeafCounts(kids[1..], n, if isNpu then AsInt32(ReadU32(kids[0].value)) else npu0,
                     if isId then ReadU64(kids[0].value) else id0);
    }
  }

  /** Of several entries with one NPU the last counts. */
  lemma {:induction false} LastEntryCounts(entries: seq<Node>, n: Node, table: Table)
    ensures var (npu, id) := ReadEntry(EntryKids(n), 0, 0);
      ReadEntries(entries + [n], table) == ReadEntries(entries, table)[npu := id]
    decreases |entries|
  {
    if entries == [] {
      assert [n][1..] == [] && [] + [n] == [n];
    } else {
      assert (entries + [n])[1..] == entries[1..] + [n];
      var (npu, id) := ReadEntry(EntryKids(entries[0]), 0, 0);
      LastEntryCounts(entries[1..], n, table[npu := id]);
    }
  }

  /** A row is added whole or not at all, and it is added exactly when no leaf is in the way of its instance. */
  lemma RowIsWhole(nodes: seq<Node>, path: Path, inst: AttrId, npu: int32, id: uint64)
    ensures var (nodes', ok) := RowAdded(nodes, path, inst, npu, id);
      (ok <==> Open(nodes, path + [inst])) && (!ok ==> nodes' == nodes)
  {
    var at, v, w := path + [inst], U32(AsUint32(npu)), U64(id);
    assert (at + [NPU_ATTR_ID])[..|at|] == at;
    AddFailsIff(nodes, at + [NPU_ATTR_ID], v);
    if Open(nodes, at) {
      AddBelow(nodes, at, [NPU_ATTR_ID], v);
      var kids := EAdd(Inside(nodes, at), [NPU_ATTR_ID], v).value;
      PutHolds(nodes, at, kids, kids);
      AddBelow(Put(nodes, at, kids), at, [NDI_OBJ_ATTR_ID], w);
    }
  }

  /** A serialize that fails has added the rows before the first one with a leaf in its way, and nothing else. */
  lemma {:induction false} FailsAtFirstObstacle(
    nodes: seq<Node>, path: Path, table: Table, order: seq<int32>, inst: AttrId)
    requires forall n :: n in order ==> n in table
    ensures var (nodes', ok) := Added(nodes, path, table, order, inst);
      !ok ==> exists k :: 0 <= k < |order| && Added(nodes, path, table, order[..k], inst) == (nodes', true)
                       && !Open(nodes', path + [inst + k])
    decreases |order|
  {
    hide RowAdded, Open;
    if order != [] {
      var (one, whole) := RowAdded(nodes, path, inst, order[0], table[order[0]]);
      RowIsWhole(nodes, path, inst, order[0], table[order[0]]);
      var (nodes', ok) := Added(nodes, path, table, order, inst);
      if !whole {
        assert order[..0] == [] && path + [inst + 0] == path + [inst];
        assert Added(nodes, path, table, order[..0], inst) == (nodes', true);
      } else if !ok {
        FailsAtFirstObstacle(one, path, table, order[1..], inst + 1);
        var k :| 0 <= k < |order[1..]| && Added(one, path, table, order[1..][..k], inst + 1) == (nodes', true)
              && !Open(nodes', path + [inst + 1 + k]);
        assert order[..k + 1][0] == order[0] && order[..k + 1][1..] == order[1..][..k];
        assert inst + (k + 1) == inst + 1 + k;
        assert Added(nodes, path, table, order[..k + 1], inst) == (nodes', true);
      }
    }
  }

  lemma {:induction false} EntryReadsBack(inst: AttrId, npu: int32, id: uint64)
    ensures ReadEntry(EntryKids(Entry(inst, npu, id)), 0, 0) == (npu, id)
  {
    var kids := Entry(inst, npu, id).kids;
    assert kids[1..] == [Leaf(NDI_OBJ_ATTR_ID, U64(id))] && kids[1..][1..] == [];
    assert ReadEntry(kids[1..], npu, 0) == ReadEntry([], npu, id);
    assert AsInt32(AsUint32(npu)) == npu;
  }

  /** Reading the entries of a table back puts exactly its listed rows in. */
  lemma {:induction false} EntriesReadBack(table: Table, order: seq<int32>, inst: AttrId, into: Table)
    requires forall n :: n in order ==> n in table
    ensures var r := ReadEntries(Entries(table, order, inst), into);
      && (forall n :: n in r <==> n in order || n in into)
      && (forall n :: n in r ==> r[n] == if n in order then table[n] else into[n])
    decreases |order|
  {
    if order != [] {
      var npu := order[0];
      EntryReadsBack(inst, npu, table[npu]);
      var entries := Entries(table, order, inst);
      assert entries[1..] == Entries(table, order[1..], inst + 1);
      EntriesReadBack(table, order[1..], inst + 1, into[npu := table[npu]]);
      assert order == [npu] + order[1..];
    }
  }

  lemma {:induction false} EntryAt(table: Table, order: seq<int32>, inst: AttrId, i: nat)
    requires i < |order| && forall n :: n in order ==> n in table
    ensures Entries(table, order, inst)[i] == Entry(inst + i, order[i], table[order[i]])
    decreases |order|
  {
    if i > 0 { EntryAt(table, order[1..], inst + 1, i - 1); }
  }

  /**
   * The form of a table in the object: at its path one container for each row, numbered from
   * 1, with the NPU as a 32-bit leaf 1 and the object ID as a 64-bit leaf 2.
   */
  lemma WrittenForm(nodes: seq<Node>, path: Path, table: Table, order: seq<int32>, i: nat)
    requires path != [] && Open(nodes, path) && Find(nodes, path) == None
    requires i < |order| && forall n :: n in order ==> n in table
    ensures var (nodes', ok) := Added(nodes, path, table, order, INST_ATTR_ID_START);
      && ok && Find(nodes', path).Some?
      && var entries := EntryKids(Find(nodes', path).value);
         && |entries| == |order|
         && entries[i] == Container(1 + i, [Leaf(1, U32(AsUint32(order[i]))), Leaf(2, U64(table[order[i]]))])
  {
    hide Put, Find, Added, Open, Inside;
    AbsentIsEmpty(nodes, path);
    AddedInside(nodes, path, table, order, INST_ATTR_ID_START);
    var entries := Entries(table, order, INST_ATTR_ID_START);
    assert [] + entries == entries;
    FoundAfterPut(nodes, path, entries);
    EntryAt(table, order, INST_ATTR_ID_START, i);
  }

  /** `order` lists the keys of the table, in any order. */
  ghost predicate Lists(order: seq<int32>, table: Table) {
    forall n :: n in order <==> n in table
  }

  /**
   * Serialize then unserialize at a fresh path. The same table comes back exactly when it
   * is not empty; an empty table leaves no trace, and reading it back fails.
   */
  lemma RoundTrip(nodes: seq<Node>, path: Path, table: Table, order: seq<int32>)
    requires path != [] && Open(nodes, path) && Find(nodes, path) == None && Lists(order, table)
    ensures var (nodes', ok) := Added(nodes, path, table, order, INST_ATTR_ID_START);
      && ok
      && (table != map[] ==>
           Find(nodes', path).Some? && ReadEntries(EntryKids(Find(nodes', path).value), map[]) == table)
      && (table == map[] ==> nodes' == nodes && Find(nodes', path) == None)
  {
    hide Put, Find;
    AbsentIsEmpty(nodes, path);
    AddedInside(nodes, path, table, order, INST_ATTR_ID_START);
    if order == [] {
      assert table == map[];
    } else {
      assert order[0] in order;
      var entries := Entries(table, order, INST_ATTR_ID_START);
      assert [] + entries == entries;
      FoundAfterPut(nodes, path, entries);
      EntriesReadBack(table, order, INST_ATTR_ID_START, map[]);
    }
  }
}
