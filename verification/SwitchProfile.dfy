/** The switch profile: ACL group pool counts merged from the boot database, NPU key-values, and the walks over both. */
module SwitchProfiles {
  import opened Integers
  import opened Options

  type uint8 = x: int | 0 <= x < 256

  // ----- walking a list by name -----

  /** The first position of a name, or the number of names. */
  function SlotOf(names: seq<string>, name: string): (i: nat)
    ensures i <= |names| && (i < |names| ==> names[i] == name) && forall j :: 0 <= j < i ==> names[j] != name
  {
    if names == [] || names[0] == name then 0 else 1 + SlotOf(names[1..], name)
  }

  /** The slot after the first one with this name. */
  function SlotAfter(names: seq<string>, name: string): Option<nat> {
    var i := SlotOf(names, name);
    if i < |names| && i + 1 < |names| then Some(i + 1) else None
  }

  /** A name that stands anywhere but last is followed by the slot after its first one; an unknown name by none. */
  lemma SlotAfterIs(names: seq<string>, name: string)
    ensures match SlotAfter(names, name)
      case None => forall j :: 0 <= j < |names| - 1 ==> names[j] != name
      case Some(i) => 0 < i < |names| && names[i - 1] == name && forall j :: 0 <= j < i - 1 ==> names[j] != name
  {
    var i := SlotOf(names, name);
    assert i < |names| ==> names[i] == name;
  }

  /** The slot reached by asking `k` more times, each time naming the slot reached last. */
  function Reached(names: seq<string>, k: nat): (r: Option<nat>)
    ensures r.Some? ==> r.value < |names|
  {
    if k == 0 then (if names == [] then None else Some(0)) else
    var at := Reached(names, k - 1);
    if at.None? then None else SlotAfter(names, names[at.value])
  }

  ghost predicate DistinctNames(names: seq<string>) {
    forall i, j :: 0 <= i < j < |names| ==> names[i] != names[j]
  }

  /** The walk from the start visits every slot once, in order, and then ends. */
  ghost predicate WalkComplete(names: seq<string>) {
    forall k :: 0 <= k <= |names| ==> Reached(names, k) == if k < |names| then Some(k) else None
  }

  lemma {:induction false} DistinctReached(names: seq<string>, k: nat)
    requires DistinctNames(names) && k <= |names|
    ensures Reached(names, k) == if k < |names| then Some(k) else None
  {
    if k > 0 {
      DistinctReached(names, k - 1);
      var i := SlotOf(names, names[k - 1]);
      assert i == k - 1;
    }
  }

  /** A walk by name is complete if and only if the names are distinct; otherwise it goes back. */
  lemma WalkCompleteIff(names: seq<string>)
    ensures WalkComplete(names) <==> DistinctNames(names)
  {
    if DistinctNames(names) {
      forall k | 0 <= k <= |names| ensures Reached(names, k) == if k < |names| then Some(k) else None {
        DistinctReached(names, k);
      }
    } else {
      var i, j :| 0 <= i < j < |names| && names[i] == names[j];
      assert SlotOf(names, names[j]) <= i;
      assert Reached(names, j) == Some(j) ==> Reached(names, j + 1) == SlotAfter(names, names[j]);
    }
  }

  /** With two equal names the walk goes on, and never gets past the second of them. */
  lemma {:induction false} NeverPast(names: seq<string>, i: nat, j: nat, k: nat)
    requires i < j < |names| && names[i] == names[j]
    ensures Reached(names, k).Some? && Reached(names, k).value <= j
    decreases k
  {
    if k > 0 {
      NeverPast(names, i, j, k - 1);
      var at := Reached(names, k - 1).value;
      assert SlotOf(names, names[at]) <= if at == j then i else at;
    }
  }

  /** A walk by name never ends if and only if two names are equal. */
  lemma WalkNeverEndsIff(names: seq<string>)
    ensures (forall k :: Reached(names, k).Some?) <==> names != [] && !DistinctNames(names)
  {
    if DistinctNames(names) {
      DistinctReached(names, |names|);
      assert Reached(names, |names|).None?;
    } else {
      var i, j :| 0 <= i < j < |names| && names[i] == names[j];
      forall k ensures Reached(names, k).Some? { NeverPast(names, i, j, k); }
    }
  }

  /** Groups a, b and a again: after the first slot the walk goes back and forth between the other two. */
  lemma {:induction false} WalkGoesAround(k: nat)
    ensures Reached(["a", "b", "a"], 0) == Some(0)
    ensures Reached(["a", "b", "a"], k + 1) == Some(1 + k % 2)
    decreases k
  {
    var names := ["a", "b", "a"];
    assert SlotOf(names, "a") == 0 && SlotOf(names, "b") == 1;
    if k > 0 { WalkGoesAround(k - 1); }
  }

  // ----- ACL application groups -----

  datatype Group = Group(name: string, defaultCount: uint8, currentCount: uint8, nextBootCount: uint8)

  /** An attribute of a database entry. */
  datatype Attr = SwitchId(id: uint32) | GroupId(name: string) | PoolCount(count: uint32) | OtherAttr

  datatype Update = Update(name: string, count: uint32)

  function Names(groups: seq<Group>): (r: seq<string>)
    ensures |r| == |groups| && forall i :: 0 <= i < |r| ==> r[i] == groups[i].name
  {
    seq(|groups|, i requires 0 <= i < |groups| => groups[i].name)
  }

  /** The last group name among the attributes of an entry. */
  function LastName(attrs: seq<Attr>): Option<string> {
    if attrs == [] then None else
    var a := attrs[|attrs| - 1];
    if a.GroupId? then Some(a.name) else LastName(attrs[..|attrs| - 1])
  }

  function LastCount(attrs: seq<Attr>): Option<uint32> {
    if attrs == [] then None else
    var a := attrs[|attrs| - 1];
    if a.PoolCount? then Some(a.count) else LastCount(attrs[..|attrs| - 1])
  }

  /** An entry is complete when it names a group and gives a count. */
  function UpdateOf(attrs: seq<Attr>): Option<Update> {
    if LastName(attrs).Some? && LastCount(attrs).Some?
    then Some(Update(LastName(attrs).value, LastCount(attrs).value))
    else None
  }

  lemma {:induction false} LastNameIs(attrs: seq<Attr>)
    ensures match LastName(attrs)
      case None => forall i :: 0 <= i < |attrs| ==> !attrs[i].GroupId?
      case Some(n) =>
        exists i :: 0 <= i < |attrs| && attrs[i] == GroupId(n) && forall j :: i < j < |attrs| ==> !attrs[j].GroupId?
  {
    if attrs != [] && !attrs[|attrs| - 1].GroupId? {
      var rest := attrs[..|attrs| - 1];
      LastNameIs(rest);
      assert forall i :: 0 <= i < |rest| ==> rest[i] == attrs[i];
    }
  }

  lemma {:induction false} LastCountIs(attrs: seq<Attr>)
    ensures match LastCount(attrs)
      case None => forall i :: 0 <= i < |attrs| ==> !attrs[i].PoolCount?
      case Some(c) =>
        exists i :: 0 <= i < |attrs| && attrs[i] == PoolCount(c) && forall j :: i < j < |attrs| ==> !attrs[j].PoolCount?
  {
    if attrs != [] && !attrs[|attrs| - 1].PoolCount? {
      var rest := attrs[..|attrs| - 1];
      LastCountIs(rest);
      assert forall i :: 0 <= i < |rest| ==> rest[i] == attrs[i];
    }
  }

  /** An entry says something exactly when it has a name and a count, and then the last of each. */
  lemma EntrySays(attrs: seq<Attr>)
    ensures UpdateOf(attrs).Some? <==>
      (exists a :: a in attrs && a.GroupId?) && (exists a :: a in attrs && a.PoolCount?)
    ensures UpdateOf(attrs).Some? ==>
      var u := UpdateOf(attrs).value;
      && (exists i :: 0 <= i < |attrs| && attrs[i] == GroupId(u.name)
                   && forall j :: i < j < |attrs| ==> !attrs[j].GroupId?)
      && (exists i :: 0 <= i < |attrs| && attrs[i] == PoolCount(u.count)
                   && forall j :: i < j < |attrs| ==> !attrs[j].PoolCount?)
  {
    LastNameIs(attrs);
    LastCountIs(attrs);
    if LastName(attrs).Some? { assert exists i :: 0 <= i < |attrs| && attrs[i] == GroupId(LastName(attrs).value); }
    if LastCount(attrs).Some? { assert exists i :: 0 <= i < |attrs| && attrs[i] == PoolCount(LastCount(attrs).value); }
  }

  /** The count given by the last complete entry that names the group. */
  function LastWriter(entries: seq<seq<Attr>>, name: string): Option<uint32> {
    if entries == [] then None else
    var u := UpdateOf(entries[|entries| - 1]);
    if u.Some? && u.value.name == name then Some(u.value.count) else LastWriter(entries[..|entries| - 1], name)
  }

  function WithCount(g: Group, count: uint32): Group {
    g.(currentCount := count % 256, nextBootCount := count % 256)
  }

  /** The groups after some entries: a group's counts are the last writer's, unless a group before it has its name. */
  function Merged(groups: seq<Group>, entries: seq<seq<Attr>>): (r: seq<Group>)
    ensures |r| == |groups|
  {
    seq(|groups|, i requires 0 <= i < |groups| =>
      var last := LastWriter(entries, groups[i].name);
      if last.Some? && SlotOf(Names(groups), groups[i].name) == i then WithCount(groups[i], last.value) else groups[i])
  }

  lemma MergedNames(groups: seq<Group>, entries: seq<seq<Attr>>)
    ensures Names(Merged(groups, entries)) == Names(groups)
  {
  }

  /** One more entry changes at most the first group it names. */
  lemma MergeOneMore(groups: seq<Group>, entries: seq<seq<Attr>>, entry: seq<Attr>)
    ensures var before, after := Merged(groups, entries), Merged(groups, entries + [entry]);
      match UpdateOf(entry)
      case None => after == before
      case Some(u) =>
        var i := SlotOf(Names(groups), u.name);
        after == if i < |groups| then before[i := WithCount(before[i], u.count)] else before
  {
  }

  /** With distinct names every group follows its last writer, or keeps its configured default at boot. */
  lemma LastWriterWins(groups: seq<Group>, entries: seq<seq<Attr>>, i: nat)
    requires DistinctNames(Names(groups)) && i < |groups|
    requires groups[i].currentCount == groups[i].nextBootCount == groups[i].defaultCount
    ensures var g, last := Merged(groups, entries)[i], LastWriter(entries, groups[i].name);
      && g.name == groups[i].name && g.defaultCount == groups[i].defaultCount
      && g.currentCount == g.nextBootCount == if last.Some? then last.value % 256 else groups[i].defaultCount
  {
  }

  class AclProfile {
    const groups: array<Group>
    var valid: bool

    constructor (configured: seq<Group>, valid: bool)
      ensures groups[..] == configured && this.valid == valid && fresh(groups)
    {
      groups := new Group[|configured|](i requires 0 <= i < |configured| => configured[i]);
      this.valid := valid;
    }

    /** Sets the counts of the first group with a name. */
    method UpdateCache(name: string, count: uint32, updateCurrent: bool) returns (ok: bool)
      modifies groups
      ensures var before := old(groups[..]);
        var i := SlotOf(Names(before), name);
        && ok == (valid && i < |before|)
        && groups[..] == if !ok then before else
             before[i := before[i].(nextBootCount := count % 256,
                                    currentCount := if updateCurrent then count % 256 else before[i].currentCount)]
    {
      if !valid {
        return false;
      }
      var idx := 0;
      while idx < groups.Length
        invariant 0 <= idx <= groups.Length
        invariant groups[..] == old(groups[..])
        invariant forall j :: 0 <= j < idx ==> groups[j].name != name
      {
        if name == groups[idx].name {
          assert SlotOf(Names(groups[..]), name) == idx;
          groups[idx] := groups[idx].(nextBootCount := count % 256);
          if updateCurrent {
            groups[idx] := groups[idx].(currentCount := count % 256);
          }
          return true;
        }
        idx := idx + 1;
      }
      assert SlotOf(Names(groups[..]), name) == |groups[..]|;
      ok := false;
    }

    /** Merges the entries of the boot database, in order. */
    method ParseDbAndUpdate(swId: uint32, list: seq<seq<Attr>>)
      modifies groups
      ensures groups[..] == if valid then Merged(old(groups[..]), list) else old(groups[..])
    {
      if !valid {
        return;
      }
      ghost var before := groups[..];
      var name, count := "", 0;
      var ix := 0;
      assert Merged(before, []) == before;
      while ix < |list|
        invariant 0 <= ix <= |list|
        invariant groups[..] == Merged(before, list[..ix])
      {
        var nameFound, countFound;
        name, count, nameFound, countFound := ReadEntry(list[ix], name, count);
        MergeOneMore(before, list[..ix], list[ix]);
        MergedNames(before, list[..ix]);
        assert list[..ix] + [list[ix]] == list[..ix + 1];
        if nameFound && countFound {
          var _ := UpdateCache(name, count, true);
        }
        ix := ix + 1;
      }
      assert list[..ix] == list;
    }

    /** The inner loop: attributes may come in any order and repeat; the last of each kind counts. */
    method ReadEntry(attrs: seq<Attr>, name0: string, count0: uint32)
      returns (name: string, count: uint32, nameFound: bool, countFound: bool)
      ensures nameFound == LastName(attrs).Some? && countFound == LastCount(attrs).Some?
      ensures nameFound ==> name == LastName(attrs).value
      ensures countFound ==> count == LastCount(attrs).value
    {
      name, count, nameFound, countFound := name0, count0, false, false;
      var i := 0;
      while i < |attrs|
        invariant 0 <= i <= |attrs|
        invariant nameFound == LastName(attrs[..i]).Some? && countFound == LastCount(attrs[..i]).Some?
        invariant nameFound ==> name == LastName(attrs[..i]).value
        invariant countFound ==> count == LastCount(attrs[..i]).value
      {
        assert attrs[..i + 1][..i] == attrs[..i];
        match attrs[i] {
          case GroupId(n) => name, nameFound := n, true;
          case PoolCount(c) => count, countFound := c, true;
          case SwitchId(_) =>
          case OtherAttr =>
        }
        i := i + 1;
      }
      assert attrs[..i] == attrs;
    }

    /** The group after the first one with a name, or the first group. */
    method DbGetNext(name: Option<string>) returns (next: Option<(string, uint8)>)
      ensures var names := Names(groups[..]);
        var slot := if name.None? then Reached(names, 0) else SlotAfter(names, name.value);
        next == if slot.None? then None else Some((groups[slot.value].name, groups[slot.value].currentCount))
    {
      var idx := 0;
      while idx < groups.Length
        invariant 0 <= idx <= groups.Length
        invariant name.None? ==> idx == 0
        invariant name.Some? ==> forall j :: 0 <= j < idx ==> groups[j].name != name.value
      {
        if name.None? || name.value == groups[idx].name {
          if name.Some? {
            assert SlotOf(Names(groups[..]), name.value) == idx;
            idx := idx + 1;
            if idx >= groups.Length {
              return None;
            }
          }
          return Some((groups[idx].name, groups[idx].currentCount));
        }
        idx := idx + 1;
      }
      assert name.Some? ==> SlotOf(Names(groups[..]), name.value) == |groups[..]|;
      next := None;
    }
  }

  // ----- NPU key-values -----

  const NPU_PROFILE_ATTR_SIZE: nat := 256

  /** The order of strings, character by character. */
  predicate Less(a: string, b: string) {
    b != "" && (a == "" || a[0] < b[0] || (a[0] == b[0] && Less(a[1..], b[1..])))
  }

  lemma {:induction false} LessIsTotal(a: string, b: string)
    ensures a == b || Less(a, b) || Less(b, a)
  {
    if a != "" && b != "" && a[0] == b[0] {
      LessIsTotal(a[1..], b[1..]);
      assert a == [a[0]] + a[1..] && b == [b[0]] + b[1..];
    }
  }

  lemma {:induction false} LessIsTransitive(a: string, b: string, c: string)
    requires Less(a, b) && Less(b, c)
    ensures Less(a, c)
  {
    if a != "" && a[0] == b[0] == c[0] { LessIsTransitive(a[1..], b[1..], c[1..]); }
  }

  lemma {:induction false} LessIsStrict(a: string)
    ensures !Less(a, a)
  {
    if a != "" { LessIsStrict(a[1..]); }
  }

  /** `a` and `b` agree before `i`, where `a` ends or has the smaller character. */
  predicate FirstDifference(a: string, b: string, i: nat) {
    i <= |a| && i < |b| && a[..i] == b[..i] && (i < |a| ==> a[i] < b[i])
  }

  lemma SameStart(a: string, b: string, i: nat)
    requires FirstDifference(a, b, i)
    ensures i > 0 ==> a[0] == b[0]
  {
    if i > 0 { assert a[0] == a[..i][0] && b[0] == b[..i][0]; }
  }

  lemma {:induction false} LessIsLexicographic(a: string, b: string)
    ensures Less(a, b) <==> exists i :: FirstDifference(a, b, i)
  {
    if a != "" && b != "" && a[0] == b[0] {
      var a1, b1 := a[1..], b[1..];
      assert a == [a[0]] + a1 && b == [b[0]] + b1;
      LessIsLexicographic(a1, b1);
      if i: nat :| FirstDifference(a1, b1, i) {
        assert a[..i + 1] == [a[0]] + a1[..i] && b[..i + 1] == [b[0]] + b1[..i];
        assert FirstDifference(a, b, i + 1);
      }
      if i: nat :| FirstDifference(a, b, i) {
        assert i > 0 && a1[..i - 1] == a[..i][1..] && b1[..i - 1] == b[..i][1..];
        assert FirstDifference(a1, b1, i - 1);
      }
    } else {
      assert Less(a, b) ==> FirstDifference(a, b, 0);
      forall i: nat | FirstDifference(a, b, i) ensures i > 0 ==> a != "" && a[0] == b[0] { SameStart(a, b, i); }
    }
  }

  ghost predicate Sorted(keys: seq<string>) {
    forall i, j :: 0 <= i < j < |keys| ==> Less(keys[i], keys[j])
  }

  lemma SortedIsDistinct(keys: seq<string>)
    requires Sorted(keys)
    ensures DistinctNames(keys)
  {
    forall i, j | 0 <= i < j < |keys| ensures keys[i] != keys[j] { LessIsStrict(keys[i]); }
  }

  lemma InsertKeepsSorted(keys: seq<string>, at: nat, key: string)
    requires Sorted(keys) && at <= |keys| && key !in keys
    requires (forall i :: 0 <= i < at ==> Less(keys[i], key)) && (at < |keys| ==> !Less(keys[at], key))
    ensures Sorted(keys[..at] + [key] + keys[at..])
    ensures forall k :: k in keys[..at] + [key] + keys[at..] <==> k in keys || k == key
  {
    assert keys == keys[..at] + keys[at..];
    if at < |keys| { LessIsTotal(keys[at], key); }
    forall i | at < i < |keys| ensures Less(key, keys[i]) { LessIsTransitive(key, keys[at], keys[i]); }
  }

  /** One configuration node: its key and value, either of which may be missing. */
  datatype Node = Node(id: Option<string>, value: Option<string>)

  predicate Usable(n: Node) {
    n.id.Some? && n.value.Some? && |n.id.value| < NPU_PROFILE_ATTR_SIZE && |n.value.value| < NPU_PROFILE_ATTR_SIZE
  }

  /** The key-values after some nodes: the last usable node with a key wins. */
  function Stored(kv: map<string, string>, nodes: seq<Node>): map<string, string> {
    if nodes == [] then kv else
    var n := nodes[|nodes| - 1];
    var rest := Stored(kv, nodes[..|nodes| - 1]);
    if Usable(n) then rest[n.id.value := n.value.value] else rest
  }

  /** The node gives this key this value: both are there and fit their 256 bytes with the end of the string. */
  predicate Gives(n: Node, key: string, value: string) {
    n == Node(Some(key), Some(value)) && |key| < 256 && |value| < 256
  }

  /** A key has the value that the last node to give it one gives it, or the one it had. */
  lemma {:induction false} StoredIs(kv: map<string, string>, nodes: seq<Node>, key: string)
    ensures var kv' := Stored(kv, nodes);
      || (&& key in kv'
          && exists i :: 0 <= i < |nodes| && Gives(nodes[i], key, kv'[key])
                      && forall j, v :: i < j < |nodes| ==> !Gives(nodes[j], key, v))
      || (&& (forall j, v :: 0 <= j < |nodes| ==> !Gives(nodes[j], key, v))
          && (key in kv' <==> key in kv) && (key in kv ==> kv'[key] == kv[key]))
  {
    if nodes != [] {
      var rest, n := nodes[..|nodes| - 1], nodes[|nodes| - 1];
      StoredIs(kv, rest, key);
      assert forall i :: 0 <= i < |rest| ==> rest[i] == nodes[i];
      if Usable(n) && n.id.value == key { assert Gives(nodes[|nodes| - 1], key, n.value.value); }
    }
  }

  /** Where a walk goes next: an empty name asks for the first pair. */
  function PairAfter(keys: seq<string>, name: string): Option<nat> {
    if name == "" then (if keys == [] then None else Some(0)) else SlotAfter(keys, name)
  }

  function PairReached(keys: seq<string>, k: nat): (r: Option<nat>)
    ensures r.Some? ==> r.value < |keys|
  {
    if k == 0 then PairAfter(keys, "") else
    var at := PairReached(keys, k - 1);
    if at.None? then None else PairAfter(keys, keys[at.value])
  }

  ghost predicate PairWalkComplete(keys: seq<string>) {
    forall k :: 0 <= k <= |keys| ==> PairReached(keys, k) == if k < |keys| then Some(k) else None
  }

  lemma {:induction false} PairReachedIsReached(keys: seq<string>, k: nat)
    requires "" !in keys
    ensures PairReached(keys, k) == Reached(keys, k)
  {
    if k > 0 { PairReachedIsReached(keys, k - 1); }
  }

  /** The walk over the key-values visits every pair once, in key order, if and only if no key is empty. */
  lemma PairWalkCompleteIff(keys: seq<string>)
    requires Sorted(keys)
    ensures PairWalkComplete(keys) <==> "" !in keys
  {
    SortedIsDistinct(keys);
    if "" !in keys {
      forall k | 0 <= k <= |keys| ensures PairReached(keys, k) == if k < |keys| then Some(k) else None {
        PairReachedIsReached(keys, k);
        DistinctReached(keys, k);
      }
    } else {
      var i :| 0 <= i < |keys| && keys[i] == "";
      assert i == 0 by { assert i > 0 ==> Less(keys[0], keys[i]); }
      assert PairReached(keys, 0) == Some(0) && PairReached(keys, 1) == Some(0);
    }
  }

  /** The walk over the key-values never ends if and only if a key is empty, and then it stays at the first pair. */
  lemma PairWalkNeverEndsIff(keys: seq<string>)
    requires Sorted(keys)
    ensures (forall k :: PairReached(keys, k).Some?) <==> "" in keys
    ensures "" in keys ==> forall k :: PairReached(keys, k) == Some(0)
  {
    if "" in keys {
      var i :| 0 <= i < |keys| && keys[i] == "";
      assert i > 0 ==> Less(keys[0], keys[i]);
      forall k ensures PairReached(keys, k) == Some(0) { StaysAtFirst(keys, k); }
    } else {
      PairWalkCompleteIff(keys);
      assert PairReached(keys, |keys|).None?;
    }
  }

  lemma {:induction false} StaysAtFirst(keys: seq<string>, k: nat)
    requires keys != [] && keys[0] == ""
    ensures PairReached(keys, k) == Some(0)
    decreases k
  {
    if k > 0 { StaysAtFirst(keys, k - 1); }
  }

  /** The pairs, held in key order. */
  class NpuProfile {
    var keys: seq<string>
    var kv: map<string, string>

    ghost predicate Valid()
      reads this
    {
      Sorted(keys) && forall k :: k in keys <==> k in kv
    }

    constructor ()
      ensures Valid() && kv == map[]
    {
      keys, kv := [], map[];
    }

    /** Inserts a pair, or overwrites the value of its key. */
    method Put(key: string, value: string)
      requires Valid()
      modifies this
      ensures Valid() && kv == old(kv)[key := value]
    {
      if key !in kv {
        var at := 0;
        while at < |keys| && Less(keys[at], key)
          invariant 0 <= at <= |keys|
          invariant forall i :: 0 <= i < at ==> Less(keys[i], key)
        {
          at := at + 1;
        }
        InsertKeepsSorted(keys, at, key);
        keys := keys[..at] + [key] + keys[at..];
      }
      kv := kv[key := value];
    }

    /** Reads the configuration's nodes; none at all is an error. */
    method UpdateInfo(nodes: seq<Node>) returns (ok: bool)
      requires Valid()
      modifies this
      ensures Valid() && ok == (nodes != []) && kv == Stored(old(kv), nodes)
    {
      if |nodes| == 0 {
        return false;
      }
      var i := 0;
      while i < |nodes|
        invariant 0 <= i <= |nodes| && Valid()
        invariant kv == Stored(old(kv), nodes[..i])
      {
        assert nodes[..i + 1][..i] == nodes[..i];
        var n := nodes[i];
        if n.id.Some? && n.value.Some? {
          if |n.id.value| < NPU_PROFILE_ATTR_SIZE && |n.value.value| < NPU_PROFILE_ATTR_SIZE {
            Put(n.id.value, n.value.value);
          }
        }
        i := i + 1;
      }
      assert nodes[..i] == nodes;
      ok := true;
    }

    /** The pair after a key, or the first pair for an empty key. */
    method GetNextValue(variable: string) returns (next: Option<(string, string)>)
      requires Valid()
      ensures match PairAfter(keys, variable)
        case None => next == None
        case Some(i) => keys[i] in kv && next == Some((keys[i], kv[keys[i]]))
    {
      if variable == "" {
        if |keys| < 1 {
          return None;
        }
        return Some((keys[0], kv[keys[0]]));
      }
      var i := SlotOf(keys, variable);
      if i == |keys| || i + 1 == |keys| {
        return None;
      }
      next := Some((keys[i + 1], kv[keys[i + 1]]));
    }
  }
}
