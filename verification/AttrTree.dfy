/**
 * The attribute tree of a CPS object, as far as nested adds and lookups by path go.
 * Adds under one path prefix share the containers of the prefix.
 */
module AttrTree {
  import opened Integers
  import opened Options

  type AttrId = nat
  type Path = seq<AttrId>

  datatype Value = U32(u32: uint32) | U64(u64: uint64)
  datatype Node = Leaf(id: AttrId, value: Value) | Container(id: AttrId, kids: seq<Node>)

  /** The position of the first node with an id, or the number of nodes. */
  function IndexOf(nodes: seq<Node>, id: AttrId): (i: nat)
    ensures i <= |nodes| && (i < |nodes| ==> nodes[i].id == id)
    ensures forall j :: 0 <= j < i ==> nodes[j].id != id
  {
    if nodes == [] || nodes[0].id == id then 0 else 1 + IndexOf(nodes[1..], id)
  }

  /** What is inside the first node with an id; nothing if there is none or it is a leaf. */
  function KidsOf(nodes: seq<Node>, id: AttrId): seq<Node> {
    var i := IndexOf(nodes, id);
    if i < |nodes| && nodes[i].Container? then nodes[i].kids else []
  }

  /** The first node with an id is replaced by a container, or the container is appended. */
  function PutKids(nodes: seq<Node>, id: AttrId, kids: seq<Node>): seq<Node> {
    var i := IndexOf(nodes, id);
    if i < |nodes| then nodes[i := Container(id, kids)] else nodes + [Container(id, kids)]
  }

  /** Adds a leaf at a path, making the containers it needs; fails when a leaf is in the way. */
  function EAdd(nodes: seq<Node>, path: Path, v: Value): Option<seq<Node>>
    decreases |path|
  {
    if path == [] then None
    else if |path| == 1 then Some(nodes + [Leaf(path[0], v)])
    else
      var i := IndexOf(nodes, path[0]);
      if i < |nodes| && nodes[i].Leaf? then None else
      match EAdd(KidsOf(nodes, path[0]), path[1..], v)
      case None => None
      case Some(kids) => Some(PutKids(nodes, path[0], kids))
  }

  /** The node at a path. */
  function Find(nodes: seq<Node>, path: Path): Option<Node>
    decreases |path|
  {
    if path == [] then None else
    var i := IndexOf(nodes, path[0]);
    if i == |nodes| then None
    else if |path| == 1 then Some(nodes[i])
    else Find(KidsOf(nodes, path[0]), path[1..])
  }

  // ----- working under one path -----

  /** No leaf is in the way of adding under a path. */
  predicate Open(nodes: seq<Node>, path: Path)
    decreases |path|
  {
    path != [] ==>
      && (IndexOf(nodes, path[0]) < |nodes| ==> nodes[IndexOf(nodes, path[0])].Container?)
      && Open(KidsOf(nodes, path[0]), path[1..])
  }

  /** What is inside the container at a path. */
  function Inside(nodes: seq<Node>, path: Path): seq<Node>
    decreases |path|
  {
    if path == [] then nodes else Inside(KidsOf(nodes, path[0]), path[1..])
  }

  /** The tree with the inside of the container at a path replaced. */
  function Put(nodes: seq<Node>, path: Path, kids: seq<Node>): seq<Node>
    decreases |path|
  {
    if path == [] then kids else PutKids(nodes, path[0], Put(KidsOf(nodes, path[0]), path[1..], kids))
  }

  lemma IndexAfterPut(nodes: seq<Node>, id: AttrId, kids: seq<Node>)
    ensures IndexOf(PutKids(nodes, id, kids), id) == IndexOf(nodes, id)
    ensures IndexOf(nodes, id) < |PutKids(nodes, id, kids)|
    ensures KidsOf(PutKids(nodes, id, kids), id) == kids
  {
  }

  lemma PutKidsTwice(nodes: seq<Node>, id: AttrId, a: seq<Node>, b: seq<Node>)
    ensures PutKids(PutKids(nodes, id, a), id, b) == PutKids(nodes, id, b)
  {
    IndexAfterPut(nodes, id, a);
  }

  /** Replacing the inside of a container: it is there, nothing is in the way, and a second replacement wins. */
  lemma {:induction false} PutHolds(nodes: seq<Node>, path: Path, a: seq<Node>, b: seq<Node>)
    ensures Inside(Put(nodes, path, a), path) == a
    ensures Open(nodes, path) ==> Open(Put(nodes, path, a), path)
    ensures Put(Put(nodes, path, a), path, b) == Put(nodes, path, b)
    decreases |path|
  {
    if path != [] {
      var kids := Put(KidsOf(nodes, path[0]), path[1..], a);
      PutHolds(KidsOf(nodes, path[0]), path[1..], a, b);
      IndexAfterPut(nodes, path[0], kids);
      PutKidsTwice(nodes, path[0], kids, Put(kids, path[1..], b));
    }
  }

  /** An add below a path is an add to what is inside. */
  lemma {:induction false} AddBelow(nodes: seq<Node>, path: Path, below: Path, v: Value)
    requires below != [] && Open(nodes, path)
    ensures EAdd(nodes, path + below, v) ==
            match EAdd(Inside(nodes, path), below, v)
            case None => None
            case Some(kids) => Some(Put(nodes, path, kids))
    decreases |path|
  {
    if path == [] {
      assert path + below == below;
    } else {
      assert (path + below)[0] == path[0] && (path + below)[1..] == path[1..] + below;
      AddBelow(KidsOf(nodes, path[0]), path[1..], below, v);
    }
  }

  /** An add fails exactly when its path is empty or a leaf is in the way. */
  lemma {:induction false} AddFailsIff(nodes: seq<Node>, path: Path, v: Value)
    ensures EAdd(nodes, path, v).None? <==> path == [] || !Open(nodes, path[..|path| - 1])
    decreases |path|
  {
    if |path| > 1 {
      AddFailsIff(KidsOf(nodes, path[0]), path[1..], v);
      assert path[..|path| - 1][1..] == path[1..][..|path| - 2] && path[..|path| - 1][0] == path[0];
    }
  }

  lemma {:induction false} FoundAfterPut(nodes: seq<Node>, path: Path, kids: seq<Node>)
    requires path != []
    ensures Find(Put(nodes, path, kids), path) == Some(Container(path[|path| - 1], kids))
    decreases |path|
  {
    IndexAfterPut(nodes, path[0], Put(KidsOf(nodes, path[0]), path[1..], kids));
    if |path| > 1 { FoundAfterPut(KidsOf(nodes, path[0]), path[1..], kids); }
  }

  /** Nothing is inside a container that is not there. */
  lemma {:induction false} AbsentIsEmpty(nodes: seq<Node>, path: Path)
    requires path != [] && Find(nodes, path) == None
    ensures Inside(nodes, path) == []
    decreases |path|
  {
    if IndexOf(nodes, path[0]) == |nodes| {
      InsideNothing(path[1..]);
    } else if |path| > 1 {
      AbsentIsEmpty(KidsOf(nodes, path[0]), path[1..]);
    }
  }

  lemma {:induction false} InsideNothing(path: Path)
    ensures Inside([], path) == []
  {
    if path != [] { InsideNothing(path[1..]); }
  }
}
