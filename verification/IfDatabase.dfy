/**
 * The interface database as it is kept: records reached through pointers, an index from
 * keys to pointers, and the set of interface indexes that is walked.
 */
module IfDatabases {
  import opened Integers
  import opened Options
  import opened Ordering
  import opened IfModel
  import opened IfTheory

  /** The address of a record. */
  datatype Ptr = Ptr(addr: nat)

  datatype RegOp = REG | DEREG

  class IfDatabase {
    /** `if_records`, with what each pointer points to. */
    var records: map<Ptr, Ctrl>
    /** `if_mappings` and `if_name_map`. */
    var index: map<Key, Ptr>
    /** `if_indexes` */
    var indexes: set<int>
    var nextAddr: nat

    ghost function Abs(): Db
      reads this
    {
      Db(Values(records), indexes)
    }

    /** Every key of every record leads to it, and every entry leads to a live record with that key. */
    ghost predicate Valid()
      reads this
    {
      Coherent(records, index) && forall p :: p in records ==> p.addr < nextAddr
    }

    constructor ()
      ensures Valid() && Abs() == Db({}, {})
    {
      records, index, indexes, nextAddr := map[], map[], {}, 0;
    }

    /** The record with the caller's key, or none. */
    function Locate(q: Query, c: Ctrl): Option<Ptr>
      reads this
    {
      if !QueryValid(q, c.kind) then None
      else if q.FROM_IF_NAME? then (if NameKey(c.name) in index then Some(index[NameKey(c.name)]) else None)
      else
        var k := MkKey(q, c);
        if k == INVALID_KEY then None
        else if NumKey(q, k) in index then Some(index[NumKey(q, k)]) else None
    }

    /** Looking a key up in the index finds what scanning all the records would. */
    lemma LocateIsScan(q: Query, c: Ctrl)
      requires Valid()
      ensures match Locate(q, c)
        case None => Scan(Abs().recs, q, c) == None
        case Some(p) => p in records && Scan(Abs().recs, q, c) == Some(records[p])
    {
      CoherentIsUnique(records, index);
      match Locate(q, c)
      case None =>
        forall r | r in Abs().recs ensures !SameKey(q, c, r) {
          var p :| p in records && records[p] == r;
          if SameKey(q, c, r) { assert HasKey(records[p], KeyOf(q, r).value); }
        }
      case Some(p) =>
        var k := if q.FROM_IF_NAME? then NameKey(c.name) else NumKey(q, MkKey(q, c));
        assert k in index && HasKey(records[p], k) && KeyOf(q, records[p]) == Some(k);
        ScanFinds(Abs().recs, q, c, records[p]);
    }

    /** Enters one key of a new record. */
    method Add(q: Query, p: Ptr) returns (added: bool)
      requires p in records
      modifies this`index, this`indexes
      ensures added <==> KeyOf(q, records[p]).Some?
      ensures index == if added then old(index)[KeyOf(q, records[p]).value := p] else old(index)
      ensures indexes == if added && records[p].vrf == 0 then old(indexes) + {records[p].ifIndex} else old(indexes)
    {
      var rec := records[p];
      if !QueryValid(q, rec.kind) {
        return false;
      }
      if q.FROM_IF_NAME? {
        if |rec.name| == 0 {
          return false;
        }
        index := index[NameKey(rec.name) := p];
      } else {
        var k := MkKey(q, rec);
        if k == INVALID_KEY {
          return false;
        }
        index := index[NumKey(q, k) := p];
      }
      if rec.vrf == 0 {
        indexes := indexes + {rec.ifIndex};
      }
      added := true;
    }

    /** The first record that matches the caller's fields, in the fixed query order. */
    method FindFirst(rec: Ctrl) returns (found: Option<Ptr>)
      requires Valid()
      ensures match found
        case None => FirstMatch(Abs().recs, ALL_QUERIES, rec) == None
        case Some(p) => p in records && FirstMatch(Abs().recs, ALL_QUERIES, rec) == Some(records[p])
    {
      var ix := 0;
      while ix < |ALL_QUERIES|
        invariant 0 <= ix <= |ALL_QUERIES|
        invariant FirstMatch(Abs().recs, ALL_QUERIES[ix..], rec) == FirstMatch(Abs().recs, ALL_QUERIES, rec)
      {
        assert ALL_QUERIES[ix..][0] == ALL_QUERIES[ix] && ALL_QUERIES[ix..][1..] == ALL_QUERIES[ix + 1..];
        LocateIsScan(ALL_QUERIES[ix], rec);
        found := Locate(ALL_QUERIES[ix], rec);
        if found.Some? {
          return;
        }
        ix := ix + 1;
      }
      found := None;
    }

    method IfRegister(op: RegOp, detail: Ctrl) returns (ok: bool)
      requires Valid()
      modifies this
      ensures Valid()
      ensures (Abs(), ok) == if op.DEREG? then (Deregister(old(Abs()), detail), true) else Register(old(Abs()), detail)
    {
      if op.DEREG? {
        Cleanup(detail);
        return true;
      }
      FreeIffNoMatch(Abs().recs, detail);
      var taken := FindFirst(detail);
      if taken.Some? {
        return false;
      }
      ok := InsertNew(detail);
    }

    /** A record no key of which is taken is entered under all its keys, or not at all if it has none. */
    method InsertNew(detail: Ctrl) returns (ok: bool)
      requires Valid() && Free(Abs().recs, detail)
      modifies this
      ensures Valid()
      ensures ok <==> Keyed(detail)
      ensures Abs() == if !ok then old(Abs()) else
              Db(old(Abs()).recs + {detail}, if detail.vrf == 0 then old(indexes) + {detail.ifIndex} else old(indexes))
    {
      var p := Ptr(nextAddr);
      nextAddr := nextAddr + 1;
      records := records[p := detail];
      ok := AddAll(p, detail);
      if ok {
        CoherentWithNew(old(records), old(index), p, detail, index);
      } else {
        EnteredNothing(old(index), p, detail, index);
        records := records - {p};
        assert records == old(records);
      }
    }

    /** Removes the record the caller's fields lead to first, with all its keys. */
    method Cleanup(rec: Ctrl)
      requires Valid()
      modifies this
      ensures Valid()
      ensures Abs() == Deregister(old(Abs()), rec)
    {
      var found := FindFirst(rec);
      if found.None? {
        return;
      }
      var p := found.value;
      var c := records[p];
      EraseKeys(c);
      CoherentWithout(records, old(index), p, index);
      records := records - {p};
      if rec.vrf == 0 {
        indexes := indexes - {c.ifIndex};
      }
    }

    method EraseKeys(c: Ctrl)
      modifies this`index
      ensures Erased(old(index), c, index)
    {
      var ix := 0;
      while ix < |NUM_QUERIES|
        invariant 0 <= ix <= |NUM_QUERIES|
        invariant forall k :: k in index <==> k in old(index) && !(HasKey(c, k) && QueryOf(k) in NUM_QUERIES[..ix])
        invariant forall k :: k in index ==> index[k] == old(index)[k]
      {
        var q := NUM_QUERIES[ix];
        OneMoreQuery(NUM_QUERIES, ix);
        if QueryValid(q, c.kind) {
          var k := MkKey(q, c);
          if k != INVALID_KEY {
            index := index - {NumKey(q, k)};
          }
        }
        ix := ix + 1;
      }
      if |c.name| > 0 {
        index := index - {NameKey(c.name)};
      }
      assert NUM_QUERIES[..ix] == NUM_QUERIES;
      forall q: Query ensures q.FROM_NONE? || q.FROM_IF_NAME? || q in NUM_QUERIES { NumQueriesListed(q); }
    }

    /** Fills in the caller's record with the one it leads to. */
    method GetInterfaceInfo(p: Ctrl) returns (ok: bool, p': Ctrl)
      requires Valid()
      ensures ok <==> GetInfo(Abs().recs, p).Some?
      ensures p' == if ok then GetInfo(Abs().recs, p).value else InfoProbe(p)
    {
      p' := p;
      if p.qType.FROM_PORT? && p.kind.Port? {
        p' := p.(kind := p.kind.(mapped := true));
      }
      LocateIsScan(p'.qType, p');
      var found := Locate(p'.qType, p');
      ok := found.Some?;
      if ok {
        p' := records[found.value];
      }
    }

    /** Changes non-key fields of the record the caller's fields lead to. */
    method UpdateInterface(p: Ctrl, ch: Change) returns (ok: bool)
      requires Valid()
      modifies this`records
      ensures Valid()
      ensures (Abs(), ok) == Update(old(Abs()), p, ch)
    {
      LocateIsScan(p.qType, p);
      var found := Locate(p.qType, p);
      ok := found.Some?;
      if ok {
        CoherentWithChange(records, index, found.value, ch);
        records := records[found.value := Changed(records[found.value], ch)];
      }
    }

    method UpdateIntfMac(ifx: int32, mac: string) returns (ok: bool)
      requires Valid()
      modifies this`records
      ensures Valid()
      ensures (Abs(), ok) == Update(old(Abs()), ZERO.(ifIndex := ifx, qType := FROM_IF), SetMac(mac))
    {
      CoherentIsUnique(records, index);
      var intf := ZERO.(ifIndex := ifx, qType := FROM_IF, mac := mac);
      SameProbe(Abs().recs, intf, ZERO.(ifIndex := ifx, qType := FROM_IF));
      ok := UpdateInterface(intf, SetMac(mac));
    }

    method UpdateRouterIntfInfo(vrf: uint32, ifx: int32, info: L3Info) returns (ok: bool)
      requires Valid()
      modifies this`records
      ensures Valid()
      ensures (Abs(), ok) == Update(old(Abs()), ZERO.(vrf := vrf, ifIndex := ifx, qType := FROM_IF), SetL3(info))
    {
      ok := UpdateInterface(ZERO.(vrf := vrf, ifIndex := ifx, qType := FROM_IF), SetL3(info));
    }

    /** A description that does not start with a letter or digit clears it. */
    method UpdateIntfDesc(p: Ctrl, desc: string) returns (ok: bool)
      requires Valid()
      modifies this`records
      ensures Valid()
      ensures (Abs(), ok) == if |desc| > 256 then (old(Abs()), false)
                             else Update(old(Abs()), p, SetDesc(if IsShown(desc) then Some(desc) else None))
    {
      if |desc| > MAX_INTF_DESC_LEN {
        return false;
      }
      ok := UpdateInterface(p, SetDesc(if |desc| == 0 || !IsAlnum(desc[0]) then None else Some(desc)));
    }

    /** The least walkable index, or the least above a given one. */
    method GetNextIfindex(ifindex: Option<int>) returns (next: Option<int>)
      requires ifindex.None? ==> indexes != {}
      ensures next == NextIndex(indexes, ifindex)
    {
      if ifindex.None? {
        return Some(Least(indexes));
      }
      var above := UpperBound(indexes, ifindex.value);
      next := above;
    }

    method AddAll(p: Ptr, detail: Ctrl) returns (added: bool)
      requires p in records && records[p] == detail
      modifies this`index, this`indexes
      ensures added <==> Keyed(detail)
      ensures Entered(old(index), p, detail, index)
      ensures indexes == if added && detail.vrf == 0 then old(indexes) + {detail.ifIndex} else old(indexes)
    {
      var ix := 0;
      added := false;
      while ix < |ALL_QUERIES|
        invariant 0 <= ix <= |ALL_QUERIES|
        invariant added <==> exists j :: 0 <= j < ix && KeyOf(ALL_QUERIES[j], detail).Some?
        invariant forall k :: k in index <==> k in old(index) || (HasKey(detail, k) && QueryOf(k) in ALL_QUERIES[..ix])
        invariant forall k :: k in index ==>
          index[k] == if HasKey(detail, k) && QueryOf(k) in ALL_QUERIES[..ix] then p else old(index)[k]
        invariant indexes == if added && detail.vrf == 0 then old(indexes) + {detail.ifIndex} else old(indexes)
      {
        OneMoreQuery(ALL_QUERIES, ix);
        var one := Add(ALL_QUERIES[ix], p);
        if one {
          added := true;
        }
        ix := ix + 1;
      }
      assert ALL_QUERIES[..ix] == ALL_QUERIES;
      forall q: Query ensures q.FROM_NONE? || q in ALL_QUERIES { EveryQueryListed(q); }
    }
  }

  ghost function Values(records: map<Ptr, Ctrl>): set<Ctrl> {
    set p | p in records :: records[p]
  }

  lemma OneMoreQuery(queries: seq<Query>, ix: nat)
    requires ix < |queries|
    ensures forall q :: q in queries[..ix + 1] <==> q in queries[..ix] || q == queries[ix]
  {
  }

  ghost predicate Coherent(records: map<Ptr, Ctrl>, index: map<Key, Ptr>) {
    && (forall p, k :: p in records && HasKey(records[p], k) ==> k in index && index[k] == p)
    && (forall k :: k in index ==> index[k] in records && HasKey(records[index[k]], k))
    && (forall p :: p in records ==> Keyed(records[p]))
  }

  /** `after` is `before` with every key of `c` leading to `p`. */
  ghost predicate Entered(before: map<Key, Ptr>, p: Ptr, c: Ctrl, after: map<Key, Ptr>) {
    && (forall k :: k in after <==> k in before || HasKey(c, k))
    && (forall k :: k in after ==> after[k] == if HasKey(c, k) then p else before[k])
  }

  /** `after` is `before` without any key of `c`. */
  ghost predicate Erased(before: map<Key, Ptr>, c: Ctrl, after: map<Key, Ptr>) {
    && (forall k :: k in after <==> k in before && !HasKey(c, k))
    && (forall k :: k in after ==> after[k] == before[k])
  }

  lemma NumQueriesListed(q: Query)
    ensures q.FROM_NONE? || q.FROM_IF_NAME? || q in NUM_QUERIES
  {
  }

  predicate IsAlnum(c: char) {
    '0' <= c <= '9' || 'A' <= c <= 'Z' || 'a' <= c <= 'z'
  }

  predicate IsShown(desc: string) {
    desc != "" && IsAlnum(desc[0])
  }

  const DIGITS := "0123456789"
  const CAPITALS := "ABCDEFGHIJKLMNOPQRSTUVWXYZ"
  const SMALL_LETTERS := "abcdefghijklmnopqrstuvwxyz"

  lemma DigitsAreRange(c: char)
    ensures c in DIGITS <==> '0' <= c <= '9'
  {
  }

  lemma CapitalsAreRange(c: char)
    ensures c in CAPITALS <==> 'A' <= c <= 'Z'
  {
  }

  lemma SmallLettersAreRange(c: char)
    ensures c in SMALL_LETTERS <==> 'a' <= c <= 'z'
  {
  }

  /** A description is kept when its first character is a letter or a digit, and otherwise clears the one before. */
  lemma DescriptionIsKeptIff(db: Db, p: Ctrl, r: Ctrl, desc: string)
    requires Unique(db.recs) && Scan(db.recs, p.qType, p) == Some(r)
    ensures var db' := Update(db, p, SetDesc(if IsShown(desc) then Some(desc) else None)).0;
      var shown := desc != "" && (desc[0] in DIGITS || desc[0] in CAPITALS || desc[0] in SMALL_LETTERS);
      Scan(db'.recs, p.qType, p) == Some(r.(desc := if shown then Some(desc) else None))
  {
    hide DIGITS, CAPITALS, SMALL_LETTERS;
    if desc != "" {
      DigitsAreRange(desc[0]);
      CapitalsAreRange(desc[0]);
      SmallLettersAreRange(desc[0]);
    }
    UpdateWritesOneField(db, p, r, "", r.l3, if IsShown(desc) then Some(desc) else None);
  }

  /** Lookups read key fields only. */
  lemma SameProbe(recs: set<Ctrl>, a: Ctrl, b: Ctrl)
    requires Unique(recs) && a == b.(mac := a.mac)
    ensures Scan(recs, a.qType, a) == Scan(recs, b.qType, b)
  {
    if Scan(recs, a.qType, a).Some? { ScanFinds(recs, b.qType, b, Scan(recs, a.qType, a).value); }
  }

  lemma EnteredNothing(before: map<Key, Ptr>, p: Ptr, c: Ctrl, after: map<Key, Ptr>)
    requires Entered(before, p, c, after) && !Keyed(c)
    ensures after == before
  {
  }

  lemma CoherentIsUnique(records: map<Ptr, Ctrl>, index: map<Key, Ptr>)
    requires Coherent(records, index)
    ensures Unique(Values(records))
  {
    forall a, b, k | a in Values(records) && b in Values(records) && HasKey(a, k) && HasKey(b, k) ensures a == b {
      var p :| p in records && records[p] == a;
      var r :| r in records && records[r] == b;
      assert index[k] == p && index[k] == r;
    }
  }

  lemma CoherentWithNew(records: map<Ptr, Ctrl>, index: map<Key, Ptr>, p: Ptr, c: Ctrl, index': map<Key, Ptr>)
    requires Coherent(records, index) && p !in records && Keyed(c) && Free(Values(records), c)
    requires Entered(index, p, c, index')
    ensures Coherent(records[p := c], index') && Values(records[p := c]) == Values(records) + {c}
  {
    var records' := records[p := c];
    forall r, k | r in records' && HasKey(records'[r], k) ensures k in index' && index'[k] == r {
      if r != p { assert records[r] in Values(records); }
    }
    ValuesWithNew(records, p, c);
  }

  lemma ValuesWithNew(records: map<Ptr, Ctrl>, p: Ptr, c: Ctrl)
    requires p !in records
    ensures Values(records[p := c]) == Values(records) + {c}
  {
    var records' := records[p := c];
    assert records'[p] == c;
    forall x | x in Values(records) ensures x in Values(records') {
      var r :| r in records && records[r] == x;
      assert records'[r] == x;
    }
  }

  /** Removing a pointer removes its value, if no other pointer has it. */
  lemma ValuesWithout(records: map<Ptr, Ctrl>, p: Ptr)
    requires p in records && forall r :: r in records && r != p ==> records[r] != records[p]
    ensures Values(records - {p}) == Values(records) - {records[p]}
  {
    var records' := records - {p};
    forall x | x in Values(records) && x != records[p] ensures x in Values(records') {
      var r :| r in records && records[r] == x;
      assert records'[r] == x;
    }
  }

  lemma DistinctRecords(records: map<Ptr, Ctrl>, index: map<Key, Ptr>, p: Ptr, r: Ptr)
    requires Coherent(records, index) && p in records && r in records && r != p
    ensures records[r] != records[p]
  {
    var q :| KeyOf(q, records[r]).Some?;
    var k := KeyOf(q, records[r]).value;
    assert HasKey(records[r], k) && index[k] == r;
  }

  lemma CoherentWithout(records: map<Ptr, Ctrl>, index: map<Key, Ptr>, p: Ptr, index': map<Key, Ptr>)
    requires Coherent(records, index) && p in records && Erased(index, records[p], index')
    ensures Coherent(records - {p}, index') && Values(records - {p}) == Values(records) - {records[p]}
  {
    hide HasKey;
    forall r, k | r in records && r != p && HasKey(records[r], k) ensures k in index' && index'[k] == r {
      assert index[k] == r;
    }
    forall k | k in index' ensures index'[k] in records - {p} && HasKey(records[index'[k]], k) {
      assert index'[k] == index[k] && !HasKey(records[p], k);
    }
    forall r | r in records && r != p ensures records[r] != records[p] {
      DistinctRecords(records, index, p, r);
    }
    ValuesWithout(records, p);
  }

  lemma CoherentWithChange(records: map<Ptr, Ctrl>, index: map<Key, Ptr>, p: Ptr, ch: Change)
    requires Coherent(records, index) && p in records
    ensures var records' := records[p := Changed(records[p], ch)];
      Coherent(records', index) && Values(records') == Values(records) - {records[p]} + {Changed(records[p], ch)}
  {
    var c, c' := records[p], Changed(records[p], ch);
    var records' := records[p := c'];
    ChangeKeepsKeys(c, ch);
    forall r | r in records && r != p ensures records[r] != c {
      DistinctRecords(records, index, p, r);
    }
    forall x | x in Values(records) && x != c ensures x in Values(records') {
      var r :| r in records && records[r] == x;
      assert records'[r] == x;
    }
    assert records'[p] == c';
  }
}
