/** What the interface database promises, over single operations and over whole runs. */
module IfTheory {
  import opened Options
  import opened Ordering
  import opened IfModel

  /** In a database of unique keys a lookup can only find the record with that key. */
  lemma ScanFinds(recs: set<Ctrl>, q: Query, probe: Ctrl, c: Ctrl)
    requires Unique(recs) && c in recs && SameKey(q, probe, c)
    ensures Scan(recs, q, probe) == Some(c)
  {
    var r := Scan(recs, q, probe).value;
    var k := KeyOf(q, probe).value;
    assert QueryOf(k) == q && HasKey(c, k) && HasKey(r, k);
  }

  /** `FirstMatch` is the lookup by the first query, in order, that finds a record. */
  lemma {:induction false} FirstMatchIsFirst(recs: set<Ctrl>, queries: seq<Query>, probe: Ctrl)
    ensures var m := FirstMatch(recs, queries, probe);
      if m.None? then forall q :: q in queries ==> Scan(recs, q, probe).None?
      else exists i :: 0 <= i < |queries| && Scan(recs, queries[i], probe) == m
                    && forall j :: 0 <= j < i ==> Scan(recs, queries[j], probe).None?
  {
    if queries != [] && Scan(recs, queries[0], probe).None? {
      FirstMatchIsFirst(recs, queries[1..], probe);
      var m := FirstMatch(recs, queries, probe);
      if m.Some? {
        var i :| 0 <= i < |queries[1..]| && Scan(recs, queries[1..][i], probe) == m
              && forall j :: 0 <= j < i ==> Scan(recs, queries[1..][j], probe).None?;
        assert queries[i + 1] == queries[1..][i];
        forall j | 0 <= j < i + 1 ensures Scan(recs, queries[j], probe).None? {
          if j > 0 { assert queries[j] == queries[1..][j - 1]; }
        }
      }
    } else if queries != [] {
      assert Scan(recs, queries[0], probe) == FirstMatch(recs, queries, probe);
    }
  }

  lemma EveryQueryListed(q: Query)
    ensures q.FROM_NONE? || q in ALL_QUERIES
  {
  }

  /** A candidate is free when no record has any key of it. */
  ghost predicate Free(recs: set<Ctrl>, c: Ctrl) {
    forall r, k :: r in recs && HasKey(c, k) ==> !HasKey(r, k)
  }

  lemma FreeIffNoMatch(recs: set<Ctrl>, c: Ctrl)
    ensures FirstMatch(recs, ALL_QUERIES, c).None? <==> Free(recs, c)
  {
    FirstMatchIsFirst(recs, ALL_QUERIES, c);
    if FirstMatch(recs, ALL_QUERIES, c).None? {
      forall r, k | r in recs && HasKey(c, k) ensures !HasKey(r, k) {
        EveryQueryListed(QueryOf(k));
        assert !SameKey(QueryOf(k), c, r);
      }
    } else {
      var r := FirstMatch(recs, ALL_QUERIES, c).value;
      var i :| 0 <= i < |ALL_QUERIES| && Scan(recs, ALL_QUERIES[i], c) == Some(r);
      var k := KeyOf(ALL_QUERIES[i], c).value;
      assert QueryOf(k) == ALL_QUERIES[i] && HasKey(c, k) && HasKey(r, k);
    }
  }

  /**
   * Register is atomic. It succeeds exactly when the candidate has a key and none of its
   * keys is taken; then its keys resolve to it and every other lookup is as before, and
   * otherwise nothing changes.
   */
  lemma RegisterIsExact(db: Db, c: Ctrl, q: Query, probe: Ctrl)
    requires Unique(db.recs)
    ensures var (db', ok) := Register(db, c);
      && Unique(db'.recs)
      && (ok <==> Keyed(c) && Free(db.recs, c))
      && (!ok ==> db' == db)
      && (ok ==> c !in db.recs && db'.recs == db.recs + {c})
      && (ok ==> Scan(db'.recs, q, probe) == if SameKey(q, probe, c) then Some(c) else Scan(db.recs, q, probe))
  {
    FreeIffNoMatch(db.recs, c);
    var (db', ok) := Register(db, c);
    if ok {
      var q0 :| KeyOf(q0, c).Some?;
      assert HasKey(c, KeyOf(q0, c).value);
      ScanUnchangedBut(db.recs, db'.recs, c, q, probe);
    }
  }

  /** In the fields themselves: a record is registered exactly when it names an interface that no record names yet. */
  lemma RegisterSucceedsIff(db: Db, c: Ctrl)
    requires Unique(db.recs)
    ensures Register(db, c).1 <==> Clash(c, c) && forall r :: r in db.recs ==> !Clash(c, r)
  {
    RegisterIsExact(db, c, FROM_NONE, c);
    ClashIff(c, c);
    forall r | r in db.recs ensures Clash(c, r) <==> exists k :: HasKey(c, k) && HasKey(r, k) {
      ClashIff(c, r);
      if q :| SameKey(q, c, r) { assert HasKey(c, KeyOf(q, c).value) && HasKey(r, KeyOf(q, c).value); }
      if k :| HasKey(c, k) && HasKey(r, k) { assert SameKey(QueryOf(k), c, r); }
    }
  }

  /**
   * The caller's fields are matched by port first, then by index, tap, name, VLAN, LAG and
   * bridge, whatever the caller's query type.
   */
  lemma MatchOrder(recs: set<Ctrl>, p: Ctrl)
    ensures FirstMatch(recs, ALL_QUERIES, p) ==
      if Scan(recs, FROM_PORT, p).Some? then Scan(recs, FROM_PORT, p)
      else if Scan(recs, FROM_IF, p).Some? then Scan(recs, FROM_IF, p)
      else if Scan(recs, FROM_TAP, p).Some? then Scan(recs, FROM_TAP, p)
      else if Scan(recs, FROM_IF_NAME, p).Some? then Scan(recs, FROM_IF_NAME, p)
      else if Scan(recs, FROM_VLAN, p).Some? then Scan(recs, FROM_VLAN, p)
      else if Scan(recs, FROM_LAG, p).Some? then Scan(recs, FROM_LAG, p)
      else Scan(recs, FROM_BRIDGE_ID, p)
  {
    FirstMatchIsFirst(recs, ALL_QUERIES, p);
    var m := FirstMatch(recs, ALL_QUERIES, p);
    if m.Some? {
      var i :| 0 <= i < |ALL_QUERIES| && Scan(recs, ALL_QUERIES[i], p) == m
            && forall j :: 0 <= j < i ==> Scan(recs, ALL_QUERIES[j], p).None?;
      assert i > 0 ==> Scan(recs, ALL_QUERIES[0], p).None?;
      assert i > 1 ==> Scan(recs, ALL_QUERIES[1], p).None?;
      assert i > 2 ==> Scan(recs, ALL_QUERIES[2], p).None?;
      assert i > 3 ==> Scan(recs, ALL_QUERIES[3], p).None?;
      assert i > 4 ==> Scan(recs, ALL_QUERIES[4], p).None?;
      assert i > 5 ==> Scan(recs, ALL_QUERIES[5], p).None?;
    } else {
      forall q: Query | !q.FROM_NONE? ensures Scan(recs, q, p).None? { EveryQueryListed(q); }
    }
  }

  /**
   * What a lookup for the caller finds: a lookup by port the mapped port with the caller's
   * NPU and port, whether or not the caller marked its own port as mapped, any other the
   * record with the caller's key.
   */
  lemma GetInfoFinds(recs: set<Ctrl>, p: Ctrl, c: Ctrl)
    requires Unique(recs) && c in recs
    ensures GetInfo(recs, p) == Some(c) <==>
      if p.qType.FROM_PORT? then
        && p.kind.Port? && c.kind.Port? && c.kind.mapped
        && p.npu == c.npu && p.kind.portId == c.kind.portId && !(p.npu == -1 && p.kind.portId == 0xFFFF_FFFF)
      else SameKey(p.qType, p, c)
  {
    var probe := InfoProbe(p);
    PortKeyIsNpuAndPort(probe, c);
    if SameKey(p.qType, probe, c) { ScanFinds(recs, p.qType, probe, c); }
  }

  /** Two databases of unique keys that differ in one record differ only in lookups of its keys. */
  lemma ScanUnchangedBut(small: set<Ctrl>, large: set<Ctrl>, c: Ctrl, q: Query, probe: Ctrl)
    requires Unique(small) && Unique(large) && c !in small && large == small + {c}
    ensures Scan(large, q, probe) == if SameKey(q, probe, c) then Some(c) else Scan(small, q, probe)
  {
    if SameKey(q, probe, c) {
      ScanFinds(large, q, probe, c);
    } else if Scan(small, q, probe).Some? {
      ScanFinds(large, q, probe, Scan(small, q, probe).value);
    }
  }

  /**
   * Deregister removes the first match and nothing else: no lookup finds that record any
   * more, and every lookup that found another record still does.
   */
  lemma DeregisterIsExact(db: Db, probe: Ctrl, q: Query, p: Ctrl)
    requires Unique(db.recs)
    ensures var db' := Deregister(db, probe);
      && Unique(db'.recs)
      && match FirstMatch(db.recs, ALL_QUERIES, probe)
         case None => db' == db
         case Some(r) =>
           && r in db.recs && db'.recs == db.recs - {r}
           && Scan(db'.recs, q, p) == if SameKey(q, p, r) then None else Scan(db.recs, q, p)
  {
    FirstMatchIsFirst(db.recs, ALL_QUERIES, probe);
    var m := FirstMatch(db.recs, ALL_QUERIES, probe);
    if m.Some? {
      var db' := Deregister(db, probe);
      assert db.recs == db'.recs + {m.value};
      ScanUnchangedBut(db'.recs, db.recs, m.value, q, p);
      if SameKey(q, p, m.value) && Scan(db'.recs, q, p).Some? {
        ScanFinds(db.recs, q, p, Scan(db'.recs, q, p).value);
      }
    }
  }

  lemma ChangeKeepsKeys(c: Ctrl, ch: Change)
    ensures forall q :: KeyOf(q, Changed(c, ch)) == KeyOf(q, c)
    ensures forall k :: HasKey(Changed(c, ch), k) <==> HasKey(c, k)
    ensures Keyed(Changed(c, ch)) <==> Keyed(c)
  {
  }

  /** Updating a record keeps all keys; a lookup that found it finds the updated record. */
  lemma UpdateIsExact(db: Db, probe: Ctrl, ch: Change, q: Query, p: Ctrl)
    requires Unique(db.recs)
    ensures var (db', ok) := Update(db, probe, ch);
      && Unique(db'.recs) && db'.indexes == db.indexes
      && (ok <==> Scan(db.recs, probe.qType, probe).Some?) && (!ok ==> db' == db)
      && (ok ==> Scan(db'.recs, q, p) ==
                 if Scan(db.recs, q, p) == Scan(db.recs, probe.qType, probe)
                 then Some(Changed(Scan(db.recs, probe.qType, probe).value, ch)) else Scan(db.recs, q, p))
  {
    var (db', ok) := Update(db, probe, ch);
    if ok {
      var r := Scan(db.recs, probe.qType, probe).value;
      var r' := Changed(r, ch);
      ChangeKeepsKeys(r, ch);
      UniqueAfterChange(db.recs, r, ch);
      if Scan(db.recs, q, p).Some? {
        var c := Scan(db.recs, q, p).value;
        if c == r { ScanFinds(db'.recs, q, p, r'); } else { ScanFinds(db'.recs, q, p, c); }
      } else {
        forall c | c in db'.recs ensures !SameKey(q, p, c) {
          assert !SameKey(q, p, if c == r' then r else c);
        }
      }
    }
  }

  /** After an update the caller's lookup gives the record with the one field replaced and all others as they were. */
  lemma UpdateWritesOneField(db: Db, p: Ctrl, r: Ctrl, mac: string, l3: L3Info, desc: Option<string>)
    requires Unique(db.recs) && Scan(db.recs, p.qType, p) == Some(r)
    ensures Scan(Update(db, p, SetMac(mac)).0.recs, p.qType, p) == Some(r.(mac := mac))
    ensures Scan(Update(db, p, SetL3(l3)).0.recs, p.qType, p) == Some(r.(l3 := l3))
    ensures Scan(Update(db, p, SetDesc(desc)).0.recs, p.qType, p) == Some(r.(desc := desc))
  {
    UpdateIsExact(db, p, SetMac(mac), p.qType, p);
    UpdateIsExact(db, p, SetL3(l3), p.qType, p);
    UpdateIsExact(db, p, SetDesc(desc), p.qType, p);
  }

  lemma UniqueAfterChange(recs: set<Ctrl>, r: Ctrl, ch: Change)
    requires Unique(recs) && r in recs
    ensures Unique(recs - {r} + {Changed(r, ch)})
  {
    ChangeKeepsKeys(r, ch);
  }

  // ----- the ordered set of interface indexes -----

  /** The walkable indexes are those of the default VRF's records. */
  ghost predicate Exact(db: Db) {
    forall x :: x in db.indexes <==> exists c :: c in db.recs && c.vrf == 0 && c.ifIndex == x
  }

  /** In the default VRF an index belongs to one record. */
  lemma DefaultVrfIndexUnique(recs: set<Ctrl>, a: Ctrl, b: Ctrl)
    requires Unique(recs) && a in recs && b in recs && a.vrf == 0 && b.vrf == 0 && a.ifIndex == b.ifIndex
    ensures a == b
  {
    IfKeyIsVrfAndIndex(a, b);
    var k := KeyOf(FROM_IF, a).value;
    assert HasKey(a, k) && HasKey(b, k);
  }

  lemma RegisterKeepsExact(db: Db, c: Ctrl)
    requires Exact(db)
    ensures Exact(Register(db, c).0)
  {
  }

  /**
   * The erase on deregister looks at the caller's VRF, not the record's. When the caller
   * says default VRF, the index erased must be the record's own, or nobody's; when it says
   * another VRF, the record must not be in the default one.
   */
  predicate Agrees(db: Db, probe: Ctrl, r: Ctrl) {
    if probe.vrf == 0 then r.vrf == 0 || r.ifIndex !in db.indexes else r.vrf != 0
  }

  /** The walkable indexes stay exact on deregister if and only if the caller's VRF agrees so far. */
  lemma DeregisterKeepsExactIff(db: Db, probe: Ctrl)
    requires Unique(db.recs) && Exact(db)
    ensures Exact(Deregister(db, probe)) <==>
            (FirstMatch(db.recs, ALL_QUERIES, probe).Some? ==>
               Agrees(db, probe, FirstMatch(db.recs, ALL_QUERIES, probe).value))
  {
    FirstMatchIsFirst(db.recs, ALL_QUERIES, probe);
    var m := FirstMatch(db.recs, ALL_QUERIES, probe);
    if m.Some? {
      var r, db' := m.value, Deregister(db, probe);
      if Agrees(db, probe, r) {
        forall x ensures x in db'.indexes <==> exists c :: c in db'.recs && c.vrf == 0 && c.ifIndex == x {
          ExactAfterRemoval(db, r, probe.vrf == 0, x);
        }
      } else {
        DisagreementShows(db, r, probe.vrf == 0);
      }
    }
  }

  lemma ExactAfterRemoval(db: Db, r: Ctrl, erase: bool, x: int)
    requires Unique(db.recs) && Exact(db) && r in db.recs
    requires if erase then r.vrf == 0 || r.ifIndex !in db.indexes else r.vrf != 0
    ensures x in (if erase then db.indexes - {r.ifIndex} else db.indexes) <==>
            exists c :: c in db.recs - {r} && c.vrf == 0 && c.ifIndex == x
  {
    if x in db.indexes {
      var c :| c in db.recs && c.vrf == 0 && c.ifIndex == x;
      if c != r { assert c in db.recs - {r}; }
      if r.vrf == 0 && r.ifIndex == x { DefaultVrfIndexUnique(db.recs, c, r); }
    }
    if c :| c in db.recs - {r} && c.vrf == 0 && c.ifIndex == x {
      assert c in db.recs;
      if r.vrf == 0 && r.ifIndex == x { DefaultVrfIndexUnique(db.recs, c, r); }
    } else if x in db.indexes {
      var c :| c in db.recs && c.vrf == 0 && c.ifIndex == x;
      assert c == r by { assert c !in db.recs - {r}; }
    }
  }

  lemma DisagreementShows(db: Db, r: Ctrl, erase: bool)
    requires Unique(db.recs) && Exact(db) && r in db.recs
    requires if erase then r.vrf != 0 && r.ifIndex in db.indexes else r.vrf == 0
    ensures !Exact(Db(db.recs - {r}, if erase then db.indexes - {r.ifIndex} else db.indexes))
  {
    var db' := Db(db.recs - {r}, if erase then db.indexes - {r.ifIndex} else db.indexes);
    var x: int := r.ifIndex;
    if erase {
      var c :| c in db.recs && c.vrf == 0 && c.ifIndex == x;
      assert c in db'.recs && x !in db'.indexes;
    } else {
      assert x in db'.indexes;
      if c :| c in db'.recs && c.vrf == 0 && c.ifIndex == x { DefaultVrfIndexUnique(db.recs, c, r); }
    }
  }

  /** Two interfaces with one index in two VRFs, and a probe for the second that leaves its VRF at zero. */
  const IN_DEFAULT := ZERO.(name := "a", ifIndex := 7)
  const IN_OTHER := ZERO.(name := "b", vrf := 1, ifIndex := 7)
  const CARELESS := ZERO.(name := "b")

  lemma KeysOfTheTwo()
    ensures Keyed(IN_DEFAULT) && Keyed(IN_OTHER)
    ensures forall q :: !SameKey(q, IN_OTHER, IN_DEFAULT) && !SameKey(q, CARELESS, IN_DEFAULT)
    ensures SameKey(FROM_IF_NAME, CARELESS, IN_OTHER)
  {
    assert KeyOf(FROM_IF_NAME, IN_DEFAULT) == Some(NameKey("a")) && KeyOf(FROM_IF_NAME, IN_OTHER) == Some(NameKey("b"));
    IfKeyIsVrfAndIndex(IN_OTHER, IN_DEFAULT);
    IfKeyIsVrfAndIndex(CARELESS, IN_DEFAULT);
  }

  lemma MatchesOnly(recs: set<Ctrl>, probe: Ctrl, r: Ctrl, q: Query)
    requires r in recs && SameKey(q, probe, r) && forall c, p :: c in recs && c != r ==> !SameKey(p, probe, c)
    ensures FirstMatch(recs, ALL_QUERIES, probe) == Some(r)
  {
    FirstMatchIsFirst(recs, ALL_QUERIES, probe);
    EveryQueryListed(q);
  }

  lemma NoMatch(recs: set<Ctrl>, probe: Ctrl)
    requires forall c, p :: c in recs ==> !SameKey(p, probe, c)
    ensures FirstMatch(recs, ALL_QUERIES, probe) == None
  {
    FirstMatchIsFirst(recs, ALL_QUERIES, probe);
  }

  lemma RegisterTheTwo()
    ensures Register(Db({}, {}), IN_DEFAULT).0 == Db({IN_DEFAULT}, {7})
    ensures Register(Db({IN_DEFAULT}, {7}), IN_OTHER).0 == Db({IN_DEFAULT, IN_OTHER}, {7})
  {
    KeysOfTheTwo();
    NoMatch({}, IN_DEFAULT);
    NoMatch({IN_DEFAULT}, IN_OTHER);
    assert {} + {IN_DEFAULT} == {IN_DEFAULT};
    assert {IN_DEFAULT} + {IN_OTHER} == {IN_DEFAULT, IN_OTHER};
  }

  lemma DeregisterTheSecond()
    ensures Deregister(Db({IN_DEFAULT, IN_OTHER}, {7}), CARELESS) == Db({IN_DEFAULT}, {})
  {
    KeysOfTheTwo();
    MatchesOnly({IN_DEFAULT, IN_OTHER}, CARELESS, IN_OTHER, FROM_IF_NAME);
    assert IN_DEFAULT.name != IN_OTHER.name;
    assert {IN_DEFAULT, IN_OTHER} - {IN_OTHER} == {IN_DEFAULT};
    assert {7} - {7} == {};
  }

  /** Registering both and deregistering the second by name hides the first from walks, though it is still there. */
  lemma WrongVrfHidesAnInterface()
    ensures Run(Db({}, {}), [Reg(IN_DEFAULT), Reg(IN_OTHER), Dereg(CARELESS)]) == Db({IN_DEFAULT}, {})
    ensures IN_DEFAULT.vrf == 0
  {
    var ops := [Reg(IN_DEFAULT), Reg(IN_OTHER), Dereg(CARELESS)];
    RegisterTheTwo();
    DeregisterTheSecond();
    assert ops[1..][1..] == [Dereg(CARELESS)];
    assert Run(Db({IN_DEFAULT, IN_OTHER}, {7}), [Dereg(CARELESS)]) == Db({IN_DEFAULT}, {}) by {
      assert [Dereg(CARELESS)][1..] == [];
    }
  }

  // ----- walking the indexes -----

  /** `upper_bound`: the least element above `x`. */
  function UpperBound(s: set<int>, x: int): Option<int> {
    var above := set y | y in s && y > x;
    if above == {} then None else Some(Least(above))
  }

  function NextIndex(s: set<int>, after: Option<int>): Option<int>
    requires after.None? ==> s != {}
  {
    match after
    case None => Some(Least(s))
    case Some(x) => UpperBound(s, x)
  }

  /** The least of the larger indexes, or nothing when there is none, whether or not `x` is present. */
  lemma NextIndexIsLeastAbove(s: set<int>, x: int)
    ensures match NextIndex(s, Some(x))
      case None => forall y :: y in s ==> y <= x
      case Some(z) => z in s && z > x && forall y :: y in s && y > x ==> z <= y
  {
    var above := set y | y in s && y > x;
    forall y | y in s && y > x ensures y in above {}
  }

  /** Asking for the next index, and from there again, until there is none. */
  function Walk(s: set<int>, after: Option<int>): seq<int>
    requires after.None? ==> s != {}
    decreases if after.None? then |s| + 1 else |set y | y in s && y > after.value|
  {
    var next := NextIndex(s, after);
    if next.None? then [] else
    WalkShrinks(s, after, next.value);
    [next.value] + Walk(s, next)
  }

  lemma WalkShrinks(s: set<int>, after: Option<int>, next: int)
    requires (after.None? ==> s != {}) && NextIndex(s, after) == Some(next)
    ensures |set y | y in s && y > next| < if after.None? then |s| + 1 else |set y | y in s && y > after.value|
  {
    var rest := set y | y in s && y > next;
    if after.None? {
      SubsetSize(rest, s);
    } else {
      var above := set y | y in s && y > after.value;
      assert next in above && next !in rest;
      SubsetSize(rest, above - {next});
    }
  }

  lemma SubsetSize(a: set<int>, b: set<int>)
    requires a <= b
    ensures |a| <= |b|
  {
    assert b == a + (b - a);
  }

  lemma {:induction false} WalkFrom(s: set<int>, x: int)
    ensures var r := Walk(s, Some(x));
      StrictlyIncreasing(r) && forall y :: y in r <==> y in s && y > x
    decreases |set y | y in s && y > x|
  {
    NextIndexIsLeastAbove(s, x);
    var next := NextIndex(s, Some(x));
    if next.Some? {
      WalkShrinks(s, Some(x), next.value);
      WalkFrom(s, next.value);
      PrependLeast(next.value, Walk(s, next));
    }
  }

  lemma PrependLeast(x: int, r: seq<int>)
    requires StrictlyIncreasing(r) && forall y :: y in r ==> x < y
    ensures StrictlyIncreasing([x] + r)
  {
    forall j | 0 <= j < |r| ensures x < r[j] { assert r[j] in r; }
  }

  /** From the start, on a set that does not change, the walk visits every index once, in order, and stops. */
  lemma WalkVisitsAll(s: set<int>)
    requires s != {}
    ensures Walk(s, None) == Ascending(s)
  {
    var first := Least(s);
    WalkShrinks(s, None, first);
    WalkFrom(s, first);
    PrependLeast(first, Walk(s, Some(first)));
    assert Walk(s, None) == [first] + Walk(s, Some(first));
    IncreasingListingIsUnique(Walk(s, None), Ascending(s));
  }

  /** The walk whose calls see `sets[0]`, `sets[1]`, ... as interfaces come and go. */
  function WalkOver(sets: seq<set<int>>, after: Option<int>): seq<int>
    requires after.None? && sets != [] ==> sets[0] != {}
    decreases |sets|
  {
    if sets == [] || NextIndex(sets[0], after).None? then [] else
    var next := NextIndex(sets[0], after);
    [next.value] + WalkOver(sets[1..], next)
  }

  /**
   * Whatever happens between the calls, the walk goes up and gives only indexes that are
   * there when it gives them. When it ends, by a call that finds none, it has visited every
   * index beyond its start that each of its calls could see.
   */
  lemma {:induction false} WalkOverChanges(sets: seq<set<int>>, after: Option<int>)
    requires after.None? && sets != [] ==> sets[0] != {}
    ensures var r := WalkOver(sets, after);
      && StrictlyIncreasing(r) && |r| <= |sets|
      && (forall i :: 0 <= i < |r| ==> r[i] in sets[i] && (after.Some? ==> after.value < r[i]))
      && (|r| < |sets| ==>
           forall y :: (forall i :: 0 <= i <= |r| ==> y in sets[i]) && (after.Some? ==> after.value < y) ==> y in r)
    decreases |sets|
  {
    if sets != [] && NextIndex(sets[0], after).Some? {
      var next, rest := NextIndex(sets[0], after), sets[1..];
      if after.Some? { NextIndexIsLeastAbove(sets[0], after.value); }
      WalkOverChanges(rest, next);
      var r, r1 := WalkOver(sets, after), WalkOver(rest, next);
      assert r == [next.value] + r1;
      if |r| < |sets| {
        forall y | (forall i :: 0 <= i <= |r| ==> y in sets[i]) && (after.Some? ==> after.value < y) ensures y in r {
          assert y in sets[0] && next.value <= y;
          forall i | 0 <= i <= |r1| ensures y in rest[i] { assert y in sets[i + 1]; }
        }
      }
    } else if sets != [] {
      NextIndexIsLeastAbove(sets[0], after.value);
    }
  }

  // ----- runs -----

  datatype Op =
    | Reg(rec: Ctrl)
    | Dereg(probe: Ctrl)
    | Upd(probe: Ctrl, change: Change)

  ghost function Do(db: Db, op: Op): Db {
    match op
    case Reg(c) => Register(db, c).0
    case Dereg(p) => Deregister(db, p)
    case Upd(p, ch) => Update(db, p, ch).0
  }

  ghost function Run(db: Db, ops: seq<Op>): Db
    decreases |ops|
  {
    if ops == [] then db else Run(Do(db, ops[0]), ops[1..])
  }

  /** Every deregister of the run names the VRF as the records have it. */
  ghost predicate AllAgree(db: Db, ops: seq<Op>)
    decreases |ops|
  {
    ops != [] ==>
      && (ops[0].Dereg? && FirstMatch(db.recs, ALL_QUERIES, ops[0].probe).Some? ==>
            Agrees(db, ops[0].probe, FirstMatch(db.recs, ALL_QUERIES, ops[0].probe).value))
      && AllAgree(Do(db, ops[0]), ops[1..])
  }

  lemma UpdateKeepsExact(db: Db, probe: Ctrl, ch: Change)
    requires Exact(db)
    ensures Exact(Update(db, probe, ch).0)
  {
  }

  /** In every reachable database no two records share a key and every record can be found. */
  lemma {:induction false} RunKeepsUnique(db: Db, ops: seq<Op>)
    requires Unique(db.recs)
    ensures Unique(Run(db, ops).recs)
    decreases |ops|
  {
    if ops != [] {
      match ops[0] {
        case Reg(c) => RegisterIsExact(db, c, FROM_NONE, c);
        case Dereg(p) => DeregisterIsExact(db, p, FROM_NONE, p);
        case Upd(p, ch) => UpdateIsExact(db, p, ch, FROM_NONE, p);
      }
      RunKeepsUnique(Do(db, ops[0]), ops[1..]);
    }
  }

  /** While callers agree on VRFs, the walkable indexes are exactly the default VRF's. */
  lemma {:induction false} RunKeepsExact(db: Db, ops: seq<Op>)
    requires Unique(db.recs) && Exact(db) && AllAgree(db, ops)
    ensures Exact(Run(db, ops))
    decreases |ops|
  {
    if ops != [] {
      RunKeepsUnique(db, ops[..1]);
      assert ops[..1][1..] == [] && Run(db, ops[..1]) == Do(db, ops[0]);
      match ops[0] {
        case Reg(c) => RegisterKeepsExact(db, c);
        case Dereg(p) => DeregisterKeepsExactIff(db, p);
        case Upd(p, ch) => UpdateKeepsExact(db, p, ch);
      }
      RunKeepsExact(Do(db, ops[0]), ops[1..]);
    }
  }
}
