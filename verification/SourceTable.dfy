/**
  `SourceTable`: the NTP sources keyed by address.  Its operations are specified on a finite
  map from address to port; the open-addressing table refines that map after every call.
 */
module SourceTables {
  import opened Common
  import opened Probing

  datatype Status = Success | NoSuchSource | AlreadyInUse | TooManySources | InvalidAf | InvalidName

  datatype Find2 = NoMatch | IpOnly | Both

  const MAX_SOURCES: nat := 65536

  type Sources = map<IpKey, U16>

  // ---- The operations on the map.

  function Match2(m: Sources, addr: RemoteAddr): Find2 {
    if addr.ip !in m then NoMatch else if m[addr.ip] == addr.port then Both else IpOnly
  }

  /** `add_source`: the checks in their order, then one more entry. */
  function Added(m: Sources, addr: RemoteAddr, hasName: bool, ipIsReal: bool): (Status, Sources) {
    if addr.ip in m then (AlreadyInUse, m)
    else if !hasName && !ipIsReal then (InvalidName, m)
    else if |m| >= MAX_SOURCES then (TooManySources, m)
    else if !ValidFamily(addr.ip) then (InvalidAf, m)
    else (Success, m[addr.ip := addr.port])
  }

  /** `change_source_address`: move one source, never onto another source's address. */
  function Changed(m: Sources, from: RemoteAddr, to: RemoteAddr): (Status, Sources) {
    if Match2(m, from) != Both then (NoSuchSource, m)
    else if Match2(m, to) == Both || (to.ip in m && to.ip != from.ip) then (AlreadyInUse, m)
    else (Success, Moved(m, from.ip, to))
  }

  /** `update_source_ntp_address`. */
  function Updated(m: Sources, from: RemoteAddr, to: RemoteAddr, fromReal: bool, toReal: bool): (Status, Sources) {
    if !fromReal || !toReal then (InvalidAf, m)
    else if from.ip != to.ip && to.ip in m then (AlreadyInUse, m)
    else Changed(m, from, to)
  }

  /** `remove_source`. */
  function Removed(m: Sources, ip: IpKey): (Status, Sources) {
    if ip !in m then (NoSuchSource, m) else (Success, m - {ip})
  }

  // ---- What the operations achieve.

  /** The source is there, with this port. */
  predicate Listed(m: Sources, addr: RemoteAddr) { addr.ip in m && m[addr.ip] == addr.port }

  /** Every source but those at the two addresses is as it was. */
  predicate OthersKept(m: Sources, m': Sources, a: IpKey, b: IpKey) {
    (forall ip | ip in m && ip != a && ip != b :: ip in m' && m'[ip] == m[ip])
    && forall ip | ip in m' && ip != a && ip != b :: ip in m
  }

  /** When a source is added, which error it is otherwise, and what the sources are then. */
  lemma AddedExactly(m: Sources, addr: RemoteAddr, hasName: bool, ipIsReal: bool)
    ensures var (status, m') := Added(m, addr, hasName, ipIsReal);
            && (status == Success <==> addr.ip !in m && (hasName || ipIsReal) && |m| < 65536 && ValidFamily(addr.ip))
            && (addr.ip in m ==> status == AlreadyInUse)
            && (addr.ip !in m && !hasName && !ipIsReal ==> status == InvalidName)
            && (addr.ip !in m && (hasName || ipIsReal) && |m| >= 65536 ==> status == TooManySources)
            && (addr.ip !in m && (hasName || ipIsReal) && |m| < 65536 && !ValidFamily(addr.ip) ==> status == InvalidAf)
            && (status != Success ==> m' == m)
            && (status == Success ==> Listed(m', addr) && |m'| == |m| + 1 && OthersKept(m, m', addr.ip, addr.ip))
  {
    assert addr.ip !in m ==> m[addr.ip := addr.port].Keys == m.Keys + {addr.ip};
  }

  /** When a move succeeds, which error it is otherwise, and what the sources are then. */
  lemma ChangedExactly(m: Sources, from: RemoteAddr, to: RemoteAddr)
    ensures var (status, m') := Changed(m, from, to);
            && (status == NoSuchSource <==> !Listed(m, from))
            && (status == AlreadyInUse <==> Listed(m, from) && (to == from || (to.ip in m && to.ip != from.ip)))
            && (status == Success <==> Listed(m, from) && to != from && (to.ip !in m || to.ip == from.ip))
            && (status != Success ==> m' == m)
            && (status == Success ==>
                  && Listed(m', to) && !Listed(m', from) && (to.ip != from.ip ==> from.ip !in m')
                  && |m'| == |m| && OthersKept(m, m', from.ip, to.ip))
  {
    if Changed(m, from, to).0 == Success { MovedCount(m, from.ip, to); }
  }

  /** Moving there and back restores everything. */
  lemma ThereAndBack(m: Sources, from: RemoteAddr, to: RemoteAddr)
    requires Listed(m, from) && to != from && (to.ip !in m || to.ip == from.ip)
    ensures Changed(m, from, to).0 == Success
    ensures Changed(Changed(m, from, to).1, to, from) == (Success, m)
  {
    assert Moved(Moved(m, from.ip, to), to.ip, from) == m;
  }

  /** The update refuses unreal and occupied addresses and is a move otherwise. */
  lemma UpdatedExactly(m: Sources, from: RemoteAddr, to: RemoteAddr, fromReal: bool, toReal: bool)
    ensures var (status, m') := Updated(m, from, to, fromReal, toReal);
            && (status == InvalidAf <==> !fromReal || !toReal)
            && (status == Success <==> fromReal && toReal && Listed(m, from) && to != from && (to.ip !in m || to.ip == from.ip))
            && (status == AlreadyInUse <==> fromReal && toReal && ((to.ip in m && to.ip != from.ip) || (Listed(m, from) && to == from)))
            && (status != Success ==> m' == m)
            && (status == Success ==> Listed(m', to) && |m'| == |m| && OthersKept(m, m', from.ip, to.ip))
  {
    ChangedExactly(m, from, to);
  }

  /** A removal takes exactly its source, and undoes an addition. */
  lemma RemovedExactly(m: Sources, ip: IpKey, port: U16)
    ensures var (status, m') := Removed(m, ip);
            && (status == Success <==> ip in m) && (status == NoSuchSource <==> ip !in m)
            && ip !in m' && OthersKept(m, m', ip, ip) && |m'| == |m| - if ip in m then 1 else 0
    ensures Added(m, RemoteAddr(ip, port), true, true).0 == Success ==>
              Removed(Added(m, RemoteAddr(ip, port), true, true).1, ip) == (Success, m)
  {
    assert ip in m ==> (m - {ip}).Keys == m.Keys - {ip};
    assert ip !in m ==> m[ip := port] - {ip} == m;
  }

  // ---- Facts about the stored records that the operations need.

  /** Replacing the record of one source by a source at a free address. */
  lemma ReplaceHolds(slots: Slots, s: nat, to: RemoteAddr, m: Sources)
    requires Holds(slots, m) && s < |slots| && slots[s].Some?
    requires ValidFamily(to.ip) && (to.ip in m ==> to.ip == slots[s].value.ip)
    ensures Holds(slots[s := Some(to)], (m - {slots[s].value.ip})[to.ip := to.port])
  {
    var from := slots[s].value.ip;
    assert HoldsIp(slots, s, from);
    ClearHolds(slots, s, m);
    PlaceHolds(slots[s := None], s, to, m - {from});
    assert slots[s := None][s := Some(to)] == slots[s := Some(to)];
  }

  lemma ClearHolds(slots: Slots, s: nat, m: Sources)
    requires Holds(slots, m) && s < |slots| && slots[s].Some?
    ensures Holds(slots[s := None], m - {slots[s].value.ip})
  {
    var from, r := slots[s].value.ip, slots[s := None];
    assert HoldsIp(slots, s, from);
    forall t: nat, ip | HoldsIp(r, t, ip)
      ensures ValidFamily(ip) && ip in m - {from} && m[ip] == r[t].value.port
    {
      assert HoldsIp(slots, t, ip);
    }
    forall ip | ip in m - {from} ensures exists t: nat :: HoldsIp(r, t, ip) {
      var t: nat :| HoldsIp(slots, t, ip);
      assert HoldsIp(r, t, ip);
    }
    forall t: nat, u: nat, ip | HoldsIp(r, t, ip) && HoldsIp(r, u, ip) ensures t == u {
      assert HoldsIp(slots, t, ip) && HoldsIp(slots, u, ip);
    }
  }

  /** Changing only the port of a record leaves every walk as it was. */
  lemma {:induction false} WalkIgnoresPort(slots: Slots, h: nat, ip: IpKey, i: nat, s: nat, to: RemoteAddr)
    requires 0 < |slots| && i <= |slots| / 2
    requires HoldsIp(slots, s, to.ip)
    ensures WalkFrom(slots[s := Some(to)], h, ip, i) == WalkFrom(slots, h, ip, i)
    decreases |slots| / 2 - i
  {
    if i < |slots| / 2 { WalkIgnoresPort(slots, h, ip, i + 1, s, to); }
  }

  lemma SamePortWalk(slots: Slots, hash: IpKey -> U32, s: nat, to: RemoteAddr, m: Sources)
    requires 0 < |slots| && Reachable(slots, hash, m) && HoldsIp(slots, s, to.ip) && to.ip in m
    ensures Reachable(slots[s := Some(to)], hash, (m - {to.ip})[to.ip := to.port])
  {
    forall ip | ip in m ensures Probing.FindSlot(slots[s := Some(to)], hash, ip).found {
      if ValidFamily(ip) { WalkIgnoresPort(slots, hash(ip), ip, 0, s, to); }
    }
  }

  /** The map after the source at `from` takes the address `to`. */
  function Moved(m: Sources, from: IpKey, to: RemoteAddr): Sources {
    (m - {from})[to.ip := to.port]
  }

  lemma MovedCount(m: Sources, from: IpKey, to: RemoteAddr)
    requires from in m && (to.ip in m ==> to.ip == from)
    ensures |Moved(m, from, to)| == |m|
  {
    assert Moved(m, from, to).Keys == m.Keys - {from} + {to.ip};
  }

  /** Moving to a new address and rehashing refines the changed map exactly when its family is valid. */
  lemma MovedRefines(slots: Slots, hash: IpKey -> U32, s: nat, to: RemoteAddr, n: nat, m: Sources)
    requires Holds(slots, m) && |m| <= n && s < |slots| && slots[s].Some? && to.ip !in m
    ensures |Moved(m, slots[s].value.ip, to)| == |m|
    ensures var r := Rehashed(slots[s := Some(to)], hash, n);
            var m' := Moved(m, slots[s].value.ip, to);
            if ValidFamily(to.ip) then Holds(r, m') && Reachable(r, hash, m') else !Refines(r, hash, m')
  {
    var from := slots[s].value.ip;
    var m' := Moved(m, from, to);
    assert HoldsIp(slots, s, from);
    MovedCount(m, from, to);
    if ValidFamily(to.ip) {
      ReplaceHolds(slots, s, to, m);
      RehashRefines(slots[s := Some(to)], hash, n, m');
    } else {
      assert to.ip in m' && !Probing.FindSlot(Rehashed(slots[s := Some(to)], hash, n), hash, to.ip).found;
    }
  }

  /** Changing a port in place refines the changed map. */
  lemma PortRefines(slots: Slots, hash: IpKey -> U32, s: nat, to: RemoteAddr, m: Sources)
    requires 0 < |slots| && Holds(slots, m) && Reachable(slots, hash, m) && HoldsIp(slots, s, to.ip)
    ensures var r, m' := slots[s := Some(to)], Moved(m, to.ip, to);
            |m'| == |m| && Holds(r, m') && Reachable(r, hash, m')
  {
    MovedCount(m, to.ip, to);
    ReplaceHolds(slots, s, to, m);
    SamePortWalk(slots, hash, s, to, m);
  }

  class SourceTable {
    const hash: IpKey -> U32
    var slots: Slots
    var nSources: nat
    ghost var sources: Sources

    /** The table refines `sources`, and its size is the least power of two that keeps half of it free. */
    ghost predicate Valid()
      reads this
    {
      && nSources == |sources| <= MAX_SOURCES
      && |slots| == TableSize(nSources)
      && Holds(slots, sources)
      && Reachable(slots, hash, sources)
    }

    /** `NSR_Initialise`; `hash` is the address hash under the process-random seed. */
    constructor (hash: IpKey -> U32)
      ensures Valid() && sources == map[] && this.hash == hash
    {
      this.hash := hash;
      slots, nSources, sources := [None], 0, map[];
    }

    /** `find_slot`. */
    method FindSlot(ip: IpKey) returns (r: Find)
      requires 0 < |slots|
      ensures r == Probing.FindSlot(slots, hash, ip)
    {
      if !ValidFamily(ip) {
        return Find(false, 0);
      }
      var size := |slots|;
      var h := hash(ip);
      var slot := 0;
      var i: nat := 0;
      while i < size / 2
        invariant i <= size / 2 && slot < size
        invariant slot == if i == 0 then 0 else Probe(h, i - 1, size)
        invariant WalkFrom(slots, h, ip, i) == WalkFrom(slots, h, ip, 0)
      {
        TriFormula(i);
        slot := (h + (i + i * i) / 2) % size;
        match slots[slot] {
          case None => return Find(false, slot);
          case Some(rec) =>
            if rec.ip == ip {
              return Find(true, slot);
            }
        }
        i := i + 1;
      }
      return Find(false, slot);
    }

    /** `find_slot2`. */
    method FindSlot2(addr: RemoteAddr) returns (r: Find2, slot: nat)
      requires 0 < |slots|
      ensures slot == Probing.FindSlot(slots, hash, addr.ip).slot < |slots|
      ensures Valid() ==> r == Match2(sources, addr)
      ensures Valid() && r != NoMatch ==> slots[slot] == Some(RemoteAddr(addr.ip, sources[addr.ip]))
      ensures r != NoMatch ==> HoldsIp(slots, slot, addr.ip)
    {
      var f := FindSlot(addr.ip);
      slot := f.slot;
      if Holds(slots, sources) && Reachable(slots, hash, sources) { HoldsRefines(slots, hash, sources); }
      if !f.found {
        return NoMatch, slot;
      }
      r := if slots[slot].value.port == addr.port then Both else IpOnly;
    }

    /** `rehash_records`: size the table for `n` sources and re-insert every record in slot order. */
    method Rehash(n: nat)
      modifies this`slots
      ensures slots == Rehashed(old(slots), hash, n)
    {
      var recs := slots;
      var newSize: nat, e: nat := 1, 0;
      while !(n * 2 <= newSize)
        invariant newSize == Pow2(e) && Exponent(n, e) == Exponent(n, 0)
        decreases 2 * n - newSize
      {
        newSize := newSize * 2;
        e := e + 1;
      }
      slots := seq(newSize, _ => None);
      assert slots == EmptyTable(TableSize(n));
      var i := 0;
      while i < |recs|
        invariant i <= |recs| && |slots| == newSize
        invariant Reinserted(slots, hash, recs, i) == Rehashed(recs, hash, n)
      {
        if recs[i].Some? {
          var _, slot := FindSlot2(recs[i].value);
          slots := slots[slot := recs[i]];
        }
        i := i + 1;
      }
    }

    /** `NSR_AddSource`. */
    method AddSource(addr: RemoteAddr, hasName: bool, ipIsReal: bool) returns (status: Status)
      requires Valid()
      modifies this
      ensures Valid()
      ensures status == Added(old(sources), addr, hasName, ipIsReal).0
      ensures sources == Added(old(sources), addr, hasName, ipIsReal).1
    {
      var present, _ := FindSlot2(addr);
      if present != NoMatch {
        return AlreadyInUse;
      }
      if !hasName && !ipIsReal {
        return InvalidName;
      }
      if nSources >= MAX_SOURCES {
        return TooManySources;
      }
      if !ValidFamily(addr.ip) {
        return InvalidAf;
      }
      Occupy(addr);
      return Success;
    }

    /** The part of `add_source` after its checks: count the source, grow if needed, place it. */
    method Occupy(addr: RemoteAddr)
      requires Valid() && |sources| < MAX_SOURCES && ValidFamily(addr.ip) && addr.ip !in sources
      modifies this
      ensures Valid() && sources == old(sources)[addr.ip := addr.port]
    {
      nSources := nSources + 1;
      GrowFits(nSources - 1, nSources);
      if !(nSources * 2 <= |slots|) {
        RehashRefines(slots, hash, nSources, sources);
        Rehash(nSources);
      }
      var _, slot := FindSlot2(addr);
      PlaceExtends(slots, hash, addr, Exponent(nSources, 0), sources);
      slots := slots[slot := Some(addr)];
      sources := sources[addr.ip := addr.port];
    }

    /**
      `change_source_address`.  With a valid family the table refines the changed map.  A source
      moved to an unspecified address is out of reach for good, and with it the refinement.
     */
    method ChangeSourceAddress(from: RemoteAddr, to: RemoteAddr) returns (status: Status)
      requires Valid()
      modifies this`slots, this`sources
      ensures status == Changed(old(sources), from, to).0
      ensures sources == Changed(old(sources), from, to).1
      ensures if status != Success || ValidFamily(to.ip) then Valid() else !Refines(slots, hash, sources)
      ensures status == Success && to.ip !in old(sources) ==>
                slots == Rehashed(old(slots)[old(Probing.FindSlot(slots, hash, from.ip)).slot := Some(to)], hash, nSources)
    {
      HoldsRefines(slots, hash, sources);
      var foundFrom, slot1 := FindSlot2(from);
      if foundFrom != Both {
        return NoSuchSource;
      }
      var foundTo, slot2 := FindSlot2(to);
      assert foundTo != NoMatch ==> (slot1 == slot2 <==> from.ip == to.ip);
      if foundTo == Both || (foundTo != NoMatch && slot1 != slot2) {
        return AlreadyInUse;
      }
      if foundTo == NoMatch {
        MoveToNewIp(slot1, to);
      } else {
        ChangePort(slot1, to);
      }
      return Success;
    }

    /** Give the source in `slot` a new address; rehash, since its probe sequence is another one now. */
    method MoveToNewIp(slot: nat, to: RemoteAddr)
      requires Valid() && slot < |slots| && slots[slot].Some? && to.ip !in sources
      modifies this`slots, this`sources
      ensures sources == Moved(old(sources), old(slots)[slot].value.ip, to)
      ensures slots == Rehashed(old(slots)[slot := Some(to)], hash, nSources)
      ensures if ValidFamily(to.ip) then Valid() else !Refines(slots, hash, sources)
    {
      MovedRefines(slots, hash, slot, to, nSources, sources);
      sources := Moved(sources, slots[slot].value.ip, to);
      slots := slots[slot := Some(to)];
      Rehash(nSources);
    }

    /** Give the source in `slot` a new port. */
    method ChangePort(slot: nat, to: RemoteAddr)
      requires Valid() && slot < |slots| && HoldsIp(slots, slot, to.ip)
      modifies this`slots, this`sources
      ensures Valid() && sources == Moved(old(sources), to.ip, to)
    {
      PortRefines(slots, hash, slot, to, sources);
      sources := Moved(sources, to.ip, to);
      slots := slots[slot := Some(to)];
    }

    /** `NSR_UpdateSourceNtpAddress`, the path without a record lock. */
    method UpdateSourceNtpAddress(from: RemoteAddr, to: RemoteAddr, fromReal: bool, toReal: bool)
      returns (status: Status)
      requires Valid()
      modifies this`slots, this`sources
      ensures status == Updated(old(sources), from, to, fromReal, toReal).0
      ensures sources == Updated(old(sources), from, to, fromReal, toReal).1
      ensures if status != Success || ValidFamily(to.ip) then Valid() else !Refines(slots, hash, sources)
    {
      HoldsRefines(slots, hash, sources);
      if !fromReal || !toReal {
        return InvalidAf;
      }
      var present := FindSlot(to.ip);
      if from.ip != to.ip && present.found {
        return AlreadyInUse;
      }
      status := ChangeSourceAddress(from, to);
    }

    /** `NSR_RemoveSource`. */
    method RemoveSource(ip: IpKey) returns (status: Status)
      requires Valid()
      modifies this
      ensures Valid()
      ensures status == Removed(old(sources), ip).0
      ensures sources == Removed(old(sources), ip).1
    {
      HoldsRefines(slots, hash, sources);
      var f := FindSlot(ip);
      if !f.found {
        return NoSuchSource;
      }
      ClearHolds(slots, f.slot, sources);
      nSources := nSources - 1;
      sources := sources - {ip};
      RehashRefines(slots[f.slot := None], hash, nSources, sources);
      slots := slots[f.slot := None];
      Rehash(nSources);
      return Success;
    }

    /** `NSR_RemoveAllSources`. */
    method RemoveAll()
      requires Valid()
      modifies this
      ensures Valid() && sources == map[] && slots == [None]
    {
      var i := 0;
      while i < |slots|
        invariant 0 <= i <= |slots| && |slots| == old(|slots|)
        invariant forall j :: 0 <= j < i ==> slots[j].None?
      {
        slots := slots[i := None];
        i := i + 1;
      }
      nSources, sources := 0, map[];
      RehashRefines(slots, hash, 0, sources);
      Rehash(0);
      assert slots[0].Some? ==> HoldsIp(slots, 0, slots[0].value.ip);
    }

    method Apply(call: Call)
      requires Valid() && FamilyOk(call)
      modifies this
      ensures Valid() && sources == Step(old(sources), call)
    {
      match call {
        case AddCall(addr, hasName, ipIsReal) => var _ := AddSource(addr, hasName, ipIsReal);
        case ChangeCall(from, to) => var _ := ChangeSourceAddress(from, to);
        case UpdateCall(from, to, fromReal, toReal) => var _ := UpdateSourceNtpAddress(from, to, fromReal, toReal);
        case RemoveCall(ip) => var _ := RemoveSource(ip);
        case RemoveAllCall => RemoveAll();
      }
    }

    /** Any run of calls whose addresses have valid families keeps the refinement. */
    method Replay(calls: seq<Call>)
      requires Valid()
      requires forall c <- calls :: FamilyOk(c)
      modifies this
      ensures Valid() && Refines(slots, hash, sources)
      ensures sources == Run(old(sources), calls)
    {
      for i := 0 to |calls|
        invariant Valid() && Run(old(sources), calls[..i]) == sources
      {
        assert calls[..i + 1][..i] == calls[..i];
        Apply(calls[i]);
      }
      assert calls[..|calls|] == calls;
      HoldsRefines(slots, hash, sources);
    }
  }

  datatype Call =
    | AddCall(addr: RemoteAddr, hasName: bool, ipIsReal: bool)
    | ChangeCall(from: RemoteAddr, to: RemoteAddr)
    | UpdateCall(from: RemoteAddr, to: RemoteAddr, fromReal: bool, toReal: bool)
    | RemoveCall(ip: IpKey)
    | RemoveAllCall

  /** No source is moved to an unspecified address; a real address never is one. */
  predicate FamilyOk(call: Call) {
    match call
    case ChangeCall(_, to) => ValidFamily(to.ip)
    case UpdateCall(_, to, _, toReal) => toReal ==> ValidFamily(to.ip)
    case _ => true
  }

  function Step(m: Sources, call: Call): Sources {
    match call
    case AddCall(addr, hasName, ipIsReal) => Added(m, addr, hasName, ipIsReal).1
    case ChangeCall(from, to) => Changed(m, from, to).1
    case UpdateCall(from, to, fromReal, toReal) => Updated(m, from, to, fromReal, toReal).1
    case RemoveCall(ip) => Removed(m, ip).1
    case RemoveAllCall => map[]
  }

  function Run(m: Sources, calls: seq<Call>): Sources {
    if calls == [] then m else Step(Run(m, calls[..|calls| - 1]), calls[|calls| - 1])
  }

  /** A table sized for `n` sources that has room for one more is already the right size for it. */
  lemma GrowFits(n: nat, n': nat)
    requires n' == n + 1
    ensures 2 * n' <= TableSize(n) ==> TableSize(n') == TableSize(n)
  {
    if 2 * n' <= TableSize(n) {
      TableSizeIsLeast(n', Exponent(n, 0));
      TableSizeIsLeast(n, Exponent(n', 0));
    }
  }

  /**
    Why an unspecified address is worse than unreachable: re-insertion puts its record into slot
    0 whatever is there, so the source already re-inserted into slot 0 is lost.
   */
  lemma UnspecifiedEvicts(table: Slots, hash: IpKey -> U32, to: RemoteAddr, lost: RemoteAddr)
    requires 0 < |table| && OneSlotEach(table) && table[0] == Some(lost)
    requires !ValidFamily(to.ip) && ValidFamily(lost.ip)
    ensures !Probing.FindSlot(Placed(table, hash, to), hash, lost.ip).found
  {
    var r := Probing.FindSlot(Placed(table, hash, to), hash, lost.ip);
    assert HoldsIp(table, 0, lost.ip);
    assert r.slot != 0 && HoldsIp(Placed(table, hash, to), r.slot, lost.ip) ==> HoldsIp(table, r.slot, lost.ip);
  }

  lemma {:induction false} ReinsertSkips(table: Slots, hash: IpKey -> U32, recs: Slots, i: nat, j: nat)
    requires 0 < |table| && i <= j <= |recs| && forall k | i <= k < j :: recs[k].None?
    ensures Reinserted(table, hash, recs, i) == Reinserted(table, hash, recs, j)
    decreases j - i
  {
    if i < j { ReinsertSkips(table, hash, recs, i + 1, j); }
  }

  /** Of two sources, the one in slot 0 is lost when the other one is moved to an unspecified address. */
  lemma MoveEvicts(slots: Slots, hash: IpKey -> U32, s: nat, to: RemoteAddr, lost: RemoteAddr, n: nat)
    requires 0 < s < |slots| && slots[0] == Some(lost) && forall t | 0 < t < |slots| && t != s :: slots[t].None?
    requires ValidFamily(lost.ip) && !ValidFamily(to.ip) && TableSize(n) > 1 && hash(lost.ip) % TableSize(n) == 0
    ensures !Probing.FindSlot(Rehashed(slots[s := Some(to)], hash, n), hash, lost.ip).found
  {
    var recs, empty := slots[s := Some(to)], EmptyTable(TableSize(n));
    var first := Placed(empty, hash, lost);
    assert Tri(0) == 0;
    assert first[0] == Some(lost) && forall t | 0 < t < |first| :: first[t].None?;
    ReinsertSkips(first, hash, recs, 1, s);
    ReinsertSkips(Placed(first, hash, to), hash, recs, s + 1, |recs|);
    UnspecifiedEvicts(first, hash, to, lost);
  }

  /** The two sources of a map. */
  predicate Pair(m: Sources, a: RemoteAddr, b: RemoteAddr) {
    && a.ip in m && b.ip in m && a.ip != b.ip && m[a.ip] == a.port && m[b.ip] == b.port
    && forall ip | ip in m :: ip == a.ip || ip == b.ip
  }

  predicate Stores(slots: Slots, t: nat, a: RemoteAddr, b: RemoteAddr)
    requires t < |slots|
  {
    slots[t].Some? ==> slots[t] == Some(a) || slots[t] == Some(b)
  }

  /** In a table of four, the walks of the two sources start in slots 0 and 1. */
  predicate StartApart(hash: IpKey -> U32, moved: IpKey, lost: IpKey) { hash(moved) % 4 == 1 && hash(lost) % 4 == 0 }

  /** In a table of four, whatever is found is found at the first or the second probe. */
  lemma SecondProbe(slots: Slots, h: U32, ip: IpKey)
    requires |slots| == 4 && WalkFrom(slots, h, ip, 0).found
    ensures WalkFrom(slots, h, ip, 0).slot == h % 4 || WalkFrom(slots, h, ip, 0).slot == (h + 1) % 4
  {
    assert Tri(0) == 0 && Tri(1) == 1;
    assert !WalkFrom(slots, h, ip, 2).found;
    assert WalkFrom(slots, h, ip, 1).found ==> WalkFrom(slots, h, ip, 1).slot == Probe(h, 1, 4);
  }

  /** Then the one that starts in slot 0 also sits there. */
  lemma LostAtZero(slots: Slots, hash: IpKey -> U32, m: Sources, moved: RemoteAddr, lost: RemoteAddr)
    requires |slots| == 4 && Holds(slots, m) && Reachable(slots, hash, m) && Pair(m, moved, lost) && StartApart(hash, moved.ip, lost.ip)
    ensures slots[0] == Some(lost) && Probing.FindSlot(slots, hash, moved.ip).slot != 0
    ensures forall t: nat {:trigger Stores(slots, t, moved, lost)} | t < 4 :: Stores(slots, t, moved, lost)
  {
    var f := Probing.FindSlot(slots, hash, moved.ip);
    assert f.found && Probing.FindSlot(slots, hash, lost.ip).found && Tri(0) == 0;
    SecondProbe(slots, hash(moved.ip), moved.ip);
    forall t: nat | t < 4 ensures Stores(slots, t, moved, lost) {
      if slots[t].Some? { assert HoldsIp(slots, t, slots[t].value.ip); }
    }
    assert Stores(slots, 0, moved, lost) && HoldsIp(slots, f.slot, moved.ip) && !HoldsIp(slots, 0, moved.ip);
  }

  lemma OtherIsLost(slots: Slots, hash: IpKey -> U32, m: Sources, moved: RemoteAddr, lost: RemoteAddr, to: RemoteAddr, n: nat)
    requires |slots| == 4 == TableSize(n) && Holds(slots, m) && Reachable(slots, hash, m) && Pair(m, moved, lost)
    requires StartApart(hash, moved.ip, lost.ip) && !ValidFamily(to.ip)
    ensures var s := Probing.FindSlot(slots, hash, moved.ip).slot;
            !Probing.FindSlot(Rehashed(slots[s := Some(to)], hash, n), hash, lost.ip).found
  {
    var s := Probing.FindSlot(slots, hash, moved.ip).slot;
    LostAtZero(slots, hash, m, moved, lost);
    assert Probing.FindSlot(slots, hash, moved.ip).found && HoldsIp(slots, 0, lost.ip);
    forall t: nat | 0 < t < 4 && t != s ensures slots[t].None? {
      assert Stores(slots, t, moved, lost);
      assert HoldsIp(slots, s, moved.ip) && !HoldsIp(slots, t, moved.ip) && !HoldsIp(slots, t, lost.ip);
    }
    MoveEvicts(slots, hash, s, to, lost, n);
  }

  lemma PairAdded(a: RemoteAddr, b: RemoteAddr)
    requires ValidFamily(a.ip) && ValidFamily(b.ip) && a.ip != b.ip
    ensures var m := Added(map[], a, true, true).1;
            var m' := Added(m, b, true, true).1;
            Pair(m', a, b) && |m'| == 2
  {
    var m := map[a.ip := a.port];
    assert |m| == 1;
    assert m[b.ip := b.port].Keys == {a.ip, b.ip};
  }

  /** `ip_to_hash`: the bytes of the address, in memory order, mixed into the seed. */
  function IpToHash(seed: U32, ip: IpKey): U32 {
    match ip
    case V4(addr) => (MixedAll(seed, LeBytes(addr)) + seed) % TWO32
    case V6(octets) => (MixedAll(seed, octets) + seed) % TWO32
    case Id(id) => (MixedAll(seed, LeBytes(id)) + seed) % TWO32
    case Unspec => 0
  }

  function LeBytes(x: U32): Bytes { [x % 256, x / 256 % 256, x / TWO16 % 256, x / 0x100_0000] }

  function Mixed(h: U32, b: U8): U32 { (71 * h + b) % TWO32 }

  function MixedAll(h: U32, bs: Bytes): U32
    decreases |bs|
  {
    if bs == [] then h else MixedAll(Mixed(h, bs[0]), bs[1..])
  }

  lemma MixedFour(h: U32, b: U8, h1: U32, h2: U32, h3: U32)
    requires h1 == Mixed(h, b) && h2 == Mixed(h1, 0) && h3 == Mixed(h2, 0)
    ensures MixedAll(h, [b, 0, 0, 0]) == Mixed(h3, 0)
  {
    assert [b, 0, 0, 0][1..] == [0, 0, 0] && [0, 0, 0][1..] == [0, 0] && [0, 0][1..] == [0] && [0][1..] == [];
    assert MixedAll(h, [b, 0, 0, 0]) == MixedAll(h1, [0, 0, 0]) == MixedAll(h2, [0, 0]) == MixedAll(h3, [0]);
  }

  /** With the seed 1, the addresses 0.0.0.1 and 0.0.0.2 start in slots 1 and 0 of a table of four. */
  lemma SeedOne()
    ensures StartApart(ip => IpToHash(1, ip), V4(1), V4(2))
  {
    MixedFour(1, 1, 72, 5112, 362952);
    MixedFour(1, 2, 73, 5183, 367993);
    assert LeBytes(1) == [1, 0, 0, 0] && LeBytes(2) == [2, 0, 0, 0];
  }

  method TwoSources(a: RemoteAddr, b: RemoteAddr, hash: IpKey -> U32) returns (table: SourceTable)
    requires ValidFamily(a.ip) && ValidFamily(b.ip) && a.ip != b.ip
    ensures fresh(table) && table.Valid() && Pair(table.sources, a, b) && |table.slots| == 4 && table.hash == hash
  {
    table := new SourceTable(hash);
    var _ := table.AddSource(a, true, true);
    var _ := table.AddSource(b, true, true);
    PairAdded(a, b);
    assert TableSize(2) == 4;
  }

  /** A table with the seed 1 and a move after which another source is no longer found. */
  method MoveLosesAnother() returns (table: SourceTable, lost: IpKey, status: Status)
    ensures forall ip :: table.hash(ip) == IpToHash(1, ip)
    ensures status == Success && lost in table.sources
    ensures 0 < |table.slots| && !Probing.FindSlot(table.slots, table.hash, lost).found
  {
    var a, b, to := RemoteAddr(V4(1), 123), RemoteAddr(V4(2), 123), RemoteAddr(Unspec, 123);
    table := TwoSources(a, b, ip => IpToHash(1, ip));
    lost := b.ip;
    SeedOne();
    OtherIsLost(table.slots, table.hash, table.sources, a, b, to, table.nSources);
    HoldsRefines(table.slots, table.hash, table.sources);
    status := table.ChangeSourceAddress(a, to);
  }
}
