/** The lookup helpers built on the interface database, and how they undo each other. */
module IfUtils {
  import opened Integers
  import opened Options
  import opened IfModel
  import opened IfTheory
  import opened IfDatabases

  datatype LagId = LagId(id: uint64) | NoInterface | NotALag

  function IndexProbe(vrf: uint32, ifIndex: int32): Ctrl {
    ZERO.(qType := FROM_IF, vrf := vrf, ifIndex := ifIndex)
  }

  function NameProbe(name: string): Ctrl {
    ZERO.(qType := FROM_IF_NAME, name := name)
  }

  function LagProbe(id: uint64): Ctrl {
    ZERO.(qType := FROM_LAG, kind := Lag(id))
  }

  ghost function NameOfIndex(recs: set<Ctrl>, vrf: uint32, ifIndex: int32): Option<string> {
    match GetInfo(recs, IndexProbe(vrf, ifIndex))
    case None => None
    case Some(c) => Some(c.name)
  }

  ghost function IndexOfName(recs: set<Ctrl>, name: string): Option<int32> {
    match GetInfo(recs, NameProbe(name))
    case None => None
    case Some(c) => Some(c.ifIndex)
  }

  /** The index is looked up in the default VRF only. */
  ghost function LagIdOfIndex(recs: set<Ctrl>, ifIndex: int32): LagId {
    match GetInfo(recs, IndexProbe(0, ifIndex))
    case None => NoInterface
    case Some(c) => if c.kind.Lag? then LagId(c.kind.lagId) else NotALag
  }

  ghost function IndexOfLag(recs: set<Ctrl>, id: uint64): Option<int32> {
    match GetInfo(recs, LagProbe(id))
    case None => None
    case Some(c) => Some(c.ifIndex)
  }

  method GetIfIndexToName(db: IfDatabase, ifIndex: int32, vrf: uint32) returns (name: Option<string>)
    requires db.Valid()
    ensures name == NameOfIndex(db.Abs().recs, vrf, ifIndex)
  {
    var ok, intf := db.GetInterfaceInfo(ZERO.(qType := FROM_IF, ifIndex := ifIndex, vrf := vrf));
    name := if ok then Some(intf.name) else None;
  }

  method GetNameToIfIndex(db: IfDatabase, name: string) returns (ifIndex: Option<int32>)
    requires db.Valid()
    ensures ifIndex == IndexOfName(db.Abs().recs, name)
  {
    var ok, intf := db.GetInterfaceInfo(ZERO.(qType := FROM_IF_NAME, name := name));
    ifIndex := if ok then Some(intf.ifIndex) else None;
  }

  method GetLagIdFromIfIndex(db: IfDatabase, ifIndex: int32) returns (lag: LagId)
    requires db.Valid()
    ensures lag == LagIdOfIndex(db.Abs().recs, ifIndex)
  {
    var ok, intf := db.GetInterfaceInfo(ZERO.(qType := FROM_IF, ifIndex := ifIndex));
    if !ok {
      return NoInterface;
    }
    if !intf.kind.Lag? {
      return NotALag;
    }
    lag := LagId(intf.kind.lagId);
  }

  /** The record found by a LAG id is a LAG, so the type check after the lookup never fails. */
  method GetLagIfIndex(db: IfDatabase, id: uint64) returns (ifIndex: Option<int32>)
    requires db.Valid()
    ensures ifIndex == IndexOfLag(db.Abs().recs, id)
  {
    var ok, intf := db.GetInterfaceInfo(ZERO.(qType := FROM_LAG, kind := Lag(id)));
    if !ok {
      return None;
    }
    if !intf.kind.Lag? {
      return None;
    }
    ifIndex := Some(intf.ifIndex);
  }

  /** Name to index and index to name are inverse on every interface that has both keys. */
  lemma NameAndIndexAreInverse(recs: set<Ctrl>, vrf: uint32, ifIndex: int32, name: string)
    requires Unique(recs) && name != "" && !(vrf == 0xFFFF_FFFF && ifIndex == -1)
    ensures NameOfIndex(recs, vrf, ifIndex) == Some(name) ==> IndexOfName(recs, name) == Some(ifIndex)
    ensures IndexOfName(recs, name) == Some(ifIndex) ==>
              exists c :: c in recs && c.name == name && c.ifIndex == ifIndex
                       && (c.vrf == vrf ==> NameOfIndex(recs, vrf, ifIndex) == Some(name))
  {
    var byIndex, byName := IndexProbe(vrf, ifIndex), NameProbe(name);
    if NameOfIndex(recs, vrf, ifIndex) == Some(name) {
      var c := Scan(recs, FROM_IF, byIndex).value;
      IfKeyIsVrfAndIndex(byIndex, c);
      ScanFinds(recs, FROM_IF_NAME, byName, c);
    }
    if IndexOfName(recs, name) == Some(ifIndex) {
      var c := Scan(recs, FROM_IF_NAME, byName).value;
      if c.vrf == vrf {
        IfKeyIsVrfAndIndex(byIndex, c);
        ScanFinds(recs, FROM_IF, byIndex, c);
      }
    }
  }

  /** What an index says of a LAG: its id, that it is another kind of interface, or that the default VRF has none. */
  lemma LagIdOfIndexIs(recs: set<Ctrl>, ifIndex: int32)
    requires Unique(recs)
    ensures LagIdOfIndex(recs, ifIndex).NoInterface? <==>
      forall c :: c in recs ==> !(c.vrf == 0 && c.ifIndex == ifIndex)
    ensures forall c :: c in recs && c.vrf == 0 && c.ifIndex == ifIndex ==>
      LagIdOfIndex(recs, ifIndex) == if c.kind.Lag? then LagId(c.kind.lagId) else NotALag
  {
    var probe := IndexProbe(0, ifIndex);
    forall c ensures SameKey(FROM_IF, probe, c) <==> c.vrf == 0 && c.ifIndex == ifIndex {
      IfKeyIsVrfAndIndex(probe, c);
    }
    forall c | c in recs && c.vrf == 0 && c.ifIndex == ifIndex ensures Scan(recs, FROM_IF, probe) == Some(c) {
      ScanFinds(recs, FROM_IF, probe, c);
    }
  }

  /** The LAG id found through the index that a LAG id leads to. */
  ghost function LagThere(recs: set<Ctrl>, id: uint64): LagId {
    var ifIndex := IndexOfLag(recs, id);
    if ifIndex.Some? then LagIdOfIndex(recs, ifIndex.value) else NoInterface
  }

  /**
   * A LAG's id leads to its index if and only if it is not the reserved one. From there the
   * index leads back to the id if and only if besides the LAG is in the default VRF.
   */
  lemma LagRoundTripIff(recs: set<Ctrl>, c: Ctrl)
    requires Unique(recs) && c in recs && c.kind.Lag?
    ensures IndexOfLag(recs, c.kind.lagId) == Some(c.ifIndex) <==> c.kind.lagId != INVALID_KEY
    ensures LagThere(recs, c.kind.lagId) == LagId(c.kind.lagId) <==> c.kind.lagId != INVALID_KEY && c.vrf == 0
  {
    if c.kind.lagId != INVALID_KEY { LagRoundTrip(recs, c); }
  }

  lemma LagRoundTrip(recs: set<Ctrl>, c: Ctrl)
    requires Unique(recs) && c in recs && c.kind.Lag? && c.kind.lagId != INVALID_KEY
    ensures IndexOfLag(recs, c.kind.lagId) == Some(c.ifIndex)
    ensures LagIdOfIndex(recs, c.ifIndex) == LagId(c.kind.lagId) <==> c.vrf == 0
  {
    ScanFinds(recs, FROM_LAG, LagProbe(c.kind.lagId), c);
    var probe := IndexProbe(0, c.ifIndex);
    IfKeyIsVrfAndIndex(probe, c);
    if c.vrf == 0 {
      ScanFinds(recs, FROM_IF, probe, c);
    } else if LagIdOfIndex(recs, c.ifIndex) == LagId(c.kind.lagId) {
      var d := Scan(recs, FROM_IF, probe).value;
      IfKeyIsVrfAndIndex(probe, d);
      ScanFinds(recs, FROM_LAG, LagProbe(c.kind.lagId), d);
    }
  }

  /** A bond in VRF 1, and one in the default VRF whose id is the reserved key. */
  const BOND := ZERO.(name := "bond1", kind := Lag(9), vrf := 1, ifIndex := 7)
  const RESERVED_BOND := ZERO.(name := "bond2", kind := Lag(0xFFFF_FFFF_FFFF_FFFF), ifIndex := 8)

  lemma RegisterOne(c: Ctrl)
    requires c.name != ""
    ensures Run(Db({}, {}), [Reg(c)]).recs == {c} && Unique({c})
  {
    assert KeyOf(FROM_IF_NAME, c) == Some(NameKey(c.name));
    NoMatch({}, c);
    assert {} + {c} == {c} && [Reg(c)][1..] == [];
  }

  /** Registering either is all it takes: the first has an index that does not lead back, the second none at all. */
  lemma LagRoundTripFails()
    ensures var recs := Run(Db({}, {}), [Reg(BOND)]).recs;
      recs == {BOND} && IndexOfLag(recs, 9) == Some(7) && LagIdOfIndex(recs, 7) == NoInterface
    ensures var recs := Run(Db({}, {}), [Reg(RESERVED_BOND)]).recs;
      recs == {RESERVED_BOND} && IndexOfLag(recs, 0xFFFF_FFFF_FFFF_FFFF) == None
  {
    RegisterOne(BOND);
    RegisterOne(RESERVED_BOND);
    LagRoundTripIff({BOND}, BOND);
    IfKeyIsVrfAndIndex(IndexProbe(0, 7), BOND);
  }
}
