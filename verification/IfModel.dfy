/**
 * Interface records and their keys, and the interface database as a plain set of records
 * searched by scanning.
 */
module IfModel {
  import opened Integers
  import opened Options

  const INVALID_KEY: int := 0xFFFF_FFFF_FFFF_FFFF
  const MAX_INTF_DESC_LEN: nat := 256

  datatype PortType = PORT | CPU | FC
  datatype OtherType = LPBK | MGMT | MACVLAN | VLANSUB_INTF | VXLAN | INVALID

  /** The interface type with the member of the union that belongs to it. */
  datatype Kind =
    | Port(portType: PortType, mapped: bool, portId: uint32)
    | Vlan(vlanId: uint16)
    | Lag(lagId: uint64)
    | Bridge(bridgeId: uint64)
    | Other(otherType: OtherType)

  datatype Query = FROM_NONE | FROM_PORT | FROM_IF | FROM_TAP | FROM_IF_NAME | FROM_VLAN | FROM_LAG | FROM_BRIDGE_ID

  datatype L3Info = L3Info(vrf: uint32, ifIndex: int32)

  datatype Ctrl = Ctrl(
    mac: string, name: string, desc: Option<string>, kind: Kind, qType: Query, subType: uint32,
    vrf: uint32, vrfName: string, ifIndex: int32, npu: int32, tap: int32, subInterface: uint32, l3: L3Info)

  /** A record cleared by `memset`. */
  const ZERO := Ctrl("", "", None, Port(PORT, false, 0), FROM_NONE, 0, 0, "", 0, 0, 0, 0, L3Info(0, 0))

  // ----- keys -----

  /** `lhs << 32 | rhs` */
  function Pack(lhs: uint32, rhs: uint32): uint64 {
    lhs * TWO_TO_32 + rhs
  }

  predicate QueryValid(q: Query, kind: Kind) {
    match q
    case FROM_IF => true
    case FROM_IF_NAME => true
    case FROM_PORT => kind.Port?
    case FROM_TAP => kind.Port?
    case FROM_VLAN => kind.Vlan?
    case FROM_LAG => kind.Lag?
    case FROM_BRIDGE_ID => kind.Bridge?
    case FROM_NONE => false
  }

  /** The key of a record under a query that is valid for it. */
  function MkKey(q: Query, c: Ctrl): uint64
    requires QueryValid(q, c.kind)
  {
    match q
    case FROM_PORT => if c.kind.mapped then Pack(AsUint32(c.npu), c.kind.portId) else INVALID_KEY
    case FROM_LAG => c.kind.lagId
    case FROM_VLAN => c.kind.vlanId
    case FROM_IF => Pack(c.vrf, AsUint32(c.ifIndex))
    case FROM_TAP => if c.kind.mapped then SignExtend(c.tap) else INVALID_KEY
    case FROM_BRIDGE_ID => c.kind.bridgeId
    case FROM_IF_NAME => INVALID_KEY
  }

  /** An entry of `if_mappings`, or of `if_name_map`. */
  datatype Key = NumKey(query: Query, num: uint64) | NameKey(name: string)

  function QueryOf(k: Key): Query {
    match k
    case NumKey(q, _) => q
    case NameKey(_) => FROM_IF_NAME
  }

  /** The key of a record under a query, if it has one. */
  function KeyOf(q: Query, c: Ctrl): Option<Key> {
    if !QueryValid(q, c.kind) then None
    else if q.FROM_IF_NAME? then (if c.name == "" then None else Some(NameKey(c.name)))
    else if MkKey(q, c) == INVALID_KEY then None
    else Some(NumKey(q, MkKey(q, c)))
  }

  predicate HasKey(c: Ctrl, k: Key) {
    KeyOf(QueryOf(k), c) == Some(k)
  }

  /** The record can be found by some query. */
  predicate Keyed(c: Ctrl) {
    exists q :: KeyOf(q, c).Some?
  }

  /** The probe and the record have the same key under a query. */
  predicate SameKey(q: Query, probe: Ctrl, c: Ctrl) {
    KeyOf(q, probe).Some? && KeyOf(q, probe) == KeyOf(q, c)
  }

  const ALL_QUERIES := [FROM_PORT, FROM_IF, FROM_TAP, FROM_IF_NAME, FROM_VLAN, FROM_LAG, FROM_BRIDGE_ID]
  const NUM_QUERIES := [FROM_PORT, FROM_IF, FROM_TAP, FROM_VLAN, FROM_LAG, FROM_BRIDGE_ID]

  lemma PackIsInjective(l1: uint32, r1: uint32, l2: uint32, r2: uint32)
    ensures Pack(l1, r1) == Pack(l2, r2) <==> l1 == l2 && r1 == r2
  {
  }

  /** What the packed key says: equal interface keys mean the same VRF and the same index. */
  lemma IfKeyIsVrfAndIndex(a: Ctrl, b: Ctrl)
    ensures SameKey(FROM_IF, a, b) <==>
            a.vrf == b.vrf && a.ifIndex == b.ifIndex && !(a.vrf == 0xFFFF_FFFF && a.ifIndex == -1)
  {
  }

  lemma PortKeyIsNpuAndPort(a: Ctrl, b: Ctrl)
    ensures SameKey(FROM_PORT, a, b) <==>
            && a.kind.Port? && b.kind.Port? && a.kind.mapped && b.kind.mapped
            && a.npu == b.npu && a.kind.portId == b.kind.portId && !(a.npu == -1 && a.kind.portId == 0xFFFF_FFFF)
  {
  }

  lemma VlanKeyIsVlanId(a: Ctrl, b: Ctrl)
    ensures SameKey(FROM_VLAN, a, b) <==> a.kind.Vlan? && b.kind.Vlan? && a.kind.vlanId == b.kind.vlanId
  {
  }

  /** A tap id is widened with its sign, so that -1 is the reserved key. */
  lemma TapKeyIsTap(a: Ctrl, b: Ctrl)
    ensures SameKey(FROM_TAP, a, b) <==>
            && a.kind.Port? && b.kind.Port? && a.kind.mapped && b.kind.mapped
            && a.tap == b.tap && a.tap != -1
  {
  }

  lemma LagAndBridgeKeysAreIds(a: Ctrl, b: Ctrl)
    ensures SameKey(FROM_LAG, a, b) <==>
            a.kind.Lag? && b.kind.Lag? && a.kind.lagId == b.kind.lagId && a.kind.lagId != INVALID_KEY
    ensures SameKey(FROM_BRIDGE_ID, a, b) <==>
            a.kind.Bridge? && b.kind.Bridge? && a.kind.bridgeId == b.kind.bridgeId && a.kind.bridgeId != INVALID_KEY
  {
  }

  lemma NameKeyIsName(a: Ctrl, b: Ctrl)
    ensures SameKey(FROM_IF_NAME, a, b) <==> a.name == b.name && a.name != ""
    ensures !SameKey(FROM_NONE, a, b)
  {
  }

  /** Two records that name one interface by some of their fields. */
  predicate Clash(a: Ctrl, b: Ctrl) {
    || (a.vrf == b.vrf && a.ifIndex == b.ifIndex && !(a.vrf == 0xFFFF_FFFF && a.ifIndex == -1))
    || (a.name == b.name && a.name != "")
    || (a.kind.Port? && b.kind.Port? && a.kind.mapped && b.kind.mapped && PortsClash(a, b))
    || (a.kind.Vlan? && b.kind.Vlan? && a.kind.vlanId == b.kind.vlanId)
    || (a.kind.Lag? && b.kind.Lag? && a.kind.lagId == b.kind.lagId && a.kind.lagId != INVALID_KEY)
    || (a.kind.Bridge? && b.kind.Bridge? && a.kind.bridgeId == b.kind.bridgeId && a.kind.bridgeId != INVALID_KEY)
  }

  predicate PortsClash(a: Ctrl, b: Ctrl)
    requires a.kind.Port? && b.kind.Port?
  {
    || (a.npu == b.npu && a.kind.portId == b.kind.portId && !(a.npu == -1 && a.kind.portId == 0xFFFF_FFFF))
    || (a.tap == b.tap && a.tap != -1)
  }

  /** Two records have a key in common exactly when they clash, and a record has a key when it clashes with itself. */
  lemma ClashIff(a: Ctrl, b: Ctrl)
    ensures Clash(a, b) <==> exists q :: SameKey(q, a, b)
    ensures Clash(a, a) <==> Keyed(a)
  {
    forall c ensures Clash(a, c) <==> exists q :: SameKey(q, a, c) {
      IfKeyIsVrfAndIndex(a, c);
      PortKeyIsNpuAndPort(a, c);
      VlanKeyIsVlanId(a, c);
      TapKeyIsTap(a, c);
      LagAndBridgeKeysAreIds(a, c);
      NameKeyIsName(a, c);
    }
    if q :| KeyOf(q, a).Some? { assert SameKey(q, a, a); }
    if q :| SameKey(q, a, a) { assert KeyOf(q, a).Some?; }
  }

  // ----- the database as a set of records -----

  /** `indexes` is the ordered set of interface indexes kept for walking. */
  datatype Db = Db(recs: set<Ctrl>, indexes: set<int>)

  /** No two records share a key, and every record has one. */
  ghost predicate Unique(recs: set<Ctrl>) {
    && (forall a, b, k :: a in recs && b in recs && HasKey(a, k) && HasKey(b, k) ==> a == b)
    && (forall a :: a in recs ==> Keyed(a))
  }

  /** Some record with the probe's key under the query. */
  ghost function Scan(recs: set<Ctrl>, q: Query, probe: Ctrl): (r: Option<Ctrl>)
    ensures r.Some? ==> r.value in recs && SameKey(q, probe, r.value)
    ensures r.None? ==> forall c :: c in recs ==> !SameKey(q, probe, c)
  {
    if c :| c in recs && SameKey(q, probe, c) then Some(c) else None
  }

  /** The record found by the first query that finds one. */
  ghost function FirstMatch(recs: set<Ctrl>, queries: seq<Query>, probe: Ctrl): Option<Ctrl> {
    if queries == [] then None
    else if Scan(recs, queries[0], probe).Some? then Scan(recs, queries[0], probe)
    else FirstMatch(recs, queries[1..], probe)
  }

  ghost function Register(db: Db, c: Ctrl): (Db, bool) {
    if Keyed(c) && FirstMatch(db.recs, ALL_QUERIES, c).None?
    then (Db(db.recs + {c}, if c.vrf == 0 then db.indexes + {c.ifIndex} else db.indexes), true)
    else (db, false)
  }

  ghost function Deregister(db: Db, probe: Ctrl): Db {
    match FirstMatch(db.recs, ALL_QUERIES, probe)
    case None => db
    case Some(r) => Db(db.recs - {r}, if probe.vrf == 0 then db.indexes - {r.ifIndex} else db.indexes)
  }

  /** The probe a lookup uses: a lookup by port looks for a mapped port. */
  function InfoProbe(p: Ctrl): Ctrl {
    if p.qType.FROM_PORT? && p.kind.Port? then p.(kind := p.kind.(mapped := true)) else p
  }

  ghost function GetInfo(recs: set<Ctrl>, p: Ctrl): Option<Ctrl> {
    Scan(recs, p.qType, InfoProbe(p))
  }

  /** What an update may change: nothing a key is made of. */
  datatype Change = SetMac(mac: string) | SetL3(l3: L3Info) | SetDesc(desc: Option<string>)

  function Changed(c: Ctrl, ch: Change): Ctrl {
    match ch
    case SetMac(m) => c.(mac := m)
    case SetL3(i) => c.(l3 := i)
    case SetDesc(d) => c.(desc := d)
  }

  ghost function Update(db: Db, probe: Ctrl, ch: Change): (Db, bool) {
    match Scan(db.recs, probe.qType, probe)
    case None => (db, false)
    case Some(r) => (db.(recs := db.recs - {r} + {Changed(r, ch)}), true)
  }
}
