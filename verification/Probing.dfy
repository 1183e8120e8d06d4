/**
  Open addressing with triangular probing, as the NTP source table uses it: the probe
  sequence, the lookup walk over it, and re-insertion into a table of a new size.
 */
module Probing {
  import opened Common

  /** `IpKey`: the families the table accepts, and `Unspec` for every other one. */
  datatype IpKey = V4(addr: U32) | V6(octets: seq<U8>) | Id(id: U32) | Unspec

  datatype RemoteAddr = RemoteAddr(ip: IpKey, port: U16)

  type Slots = seq<Option<RemoteAddr>>

  /** Result of `find_slot`: whether the address matched, and the slot it names. */
  datatype Find = Find(found: bool, slot: nat)

  /** Triangular numbers, the offsets of quadratic probing. */
  function Tri(i: nat): nat { if i == 0 then 0 else Tri(i - 1) + i }

  function Probe(h: nat, i: nat, size: nat): (s: nat)
    requires size > 0
    ensures s < size
  {
    (h + Tri(i)) % size
  }

  // ---- The probes of a power-of-two table do not repeat.

  /** The closed form that the table computes. */
  lemma {:induction false} TriFormula(i: nat)
    ensures (i + i * i) / 2 == Tri(i) && i + i * i == 2 * Tri(i)
  {
    if i > 0 {
      TriFormula(i - 1);
      assert i * i == (i - 1) * (i - 1) + 2 * i - 1;
    }
  }

  lemma {:induction false} ShlAtLeast(x: nat, k: nat)
    ensures x == 0 ==> Shl(x, k) == 0
    ensures 0 < x ==> Pow2(k) <= Shl(x, k)
  {
    if k > 0 { ShlAtLeast(x, k - 1); }
  }

  /** An odd factor cannot contribute to a power of two. */
  lemma {:induction false} OddFactor(a: nat, b: nat, q: nat, m: nat) returns (d: nat)
    requires a % 2 == 1 && a * b == Shl(q, m)
    ensures b == Shl(d, m)
    decreases m
  {
    if m == 0 {
      d := b;
    } else {
      OddTimes(a, b);
      var c := b / 2;
      assert a * (2 * c) == 2 * (a * c);
      d := OddFactor(a, c, q, m - 1);
    }
  }

  lemma OddTimes(a: nat, b: nat)
    requires a % 2 == 1
    ensures (a * b) % 2 == b % 2
  {
    var c := a / 2;
    assert a * b == 2 * (c * b) + b;
  }

  /** Equal remainders differ by a multiple. */
  lemma SameRemainder(x: nat, y: nat, n: nat) returns (q: nat)
    requires n > 0 && x <= y && x % n == y % n
    ensures y - x == q * n
  {
    var a, b := x / n, y / n;
    assert x == a * n + x % n && y == b * n + y % n;
    assert y - x == (b - a) * n;
    q := b - a;
  }

  lemma SameRemainderPow2(x: nat, y: nat, k: nat) returns (q: nat)
    requires x <= y && x % Pow2(k) == y % Pow2(k)
    ensures y - x == Shl(q, k)
  {
    q := SameRemainder(x, y, Pow2(k));
    ShlIsProduct(q, k);
  }

  /** Triangular numbers below `2^k` are pairwise distinct modulo `2^k`. */
  lemma TriangularDistinct(h: nat, i: nat, j: nat, k: nat)
    requires i < j < Pow2(k)
    ensures Probe(h, i, Pow2(k)) != Probe(h, j, Pow2(k))
  {
    FactorDifference(i, j);
    if Probe(h, i, Pow2(k)) == Probe(h, j, Pow2(k)) {
      var q := SameRemainderPow2(h + Tri(i), h + Tri(j), k);
      OffsetsDiffer(i, j, k, q);
      assert false;
    }
  }

  lemma OffsetsDiffer(i: nat, j: nat, k: nat, q: nat)
    requires i < j < Pow2(k)
    ensures Tri(j) - Tri(i) != Shl(q, k)
  {
    FactorDifference(i, j);
    NoMultiple(j - i, i + j + 1, Tri(j) - Tri(i), q, k);
  }

  lemma {:induction false} FactorDifference(i: nat, j: nat)
    requires i <= j
    ensures (j - i) * (i + j + 1) == 2 * (Tri(j) - Tri(i))
    ensures Tri(i) <= Tri(j)
  {
    if i < j {
      FactorDifference(i, j - 1);
      var a, b := j - 1 - i, i + j;
      assert (a + 1) * (b + 1) == a * b + a + b + 1;
    }
  }

  /** An odd number times something small is no multiple of a power of two. */
  lemma TooSmall(odd: nat, even: nat, product: nat, q: nat, m: nat)
    requires odd % 2 == 1 && 0 < even < Pow2(m) && odd * even == product
    ensures product != Shl(q, m)
  {
    if product == Shl(q, m) {
      var d := OddFactor(odd, even, q, m);
      ShlAtLeast(d, m);
      assert false;
    }
  }

  lemma OneIsOdd(a: nat, b: nat)
    requires (a + b) % 2 == 1
    ensures a % 2 == 1 || b % 2 == 1
    ensures a * b == b * a
  {
  }

  /** Of two factors exactly one is odd: the other one alone would need the power of two. */
  lemma NoMultiple(a: nat, b: nat, t: nat, q: nat, k: nat)
    requires a * b == 2 * t && (a + b) % 2 == 1
    requires 0 < a < Pow2(k + 1) && 0 < b < Pow2(k + 1)
    ensures t != Shl(q, k)
  {
    OneIsOdd(a, b);
    if a % 2 == 1 {
      TooSmall(a, b, 2 * t, q, k + 1);
    } else {
      TooSmall(b, a, 2 * t, q, k + 1);
    }
  }

  // ---- Lookup.

  predicate ValidFamily(ip: IpKey) { !ip.Unspec? }

  /** The slot holds the record of `ip`. */
  predicate HoldsIp(slots: Slots, s: nat, ip: IpKey) {
    s < |slots| && slots[s].Some? && slots[s].value.ip == ip
  }

  /** `find_slot` from probe `i` on; it gives up after half the table. */
  function WalkFrom(slots: Slots, h: nat, ip: IpKey, i: nat): (r: Find)
    requires 0 < |slots| && i <= |slots| / 2
    ensures r.slot < |slots|
    ensures r.found ==> HoldsIp(slots, r.slot, ip)
    decreases |slots| / 2 - i
  {
    if i == |slots| / 2 then Find(false, if i == 0 then 0 else Probe(h, i - 1, |slots|))
    else
      var s := Probe(h, i, |slots|);
      match slots[s]
      case None => Find(false, s)
      case Some(rec) => if rec.ip == ip then Find(true, s) else WalkFrom(slots, h, ip, i + 1)
  }

  /** `find_slot`. */
  function FindSlot(slots: Slots, hash: IpKey -> U32, ip: IpKey): (r: Find)
    requires 0 < |slots|
    ensures r.slot < |slots|
    ensures r.found ==> HoldsIp(slots, r.slot, ip)
  {
    if !ValidFamily(ip) then Find(false, 0) else WalkFrom(slots, hash(ip), ip, 0)
  }

  // ---- A table and the finite map it stands for.

  /** Each source of the map sits in exactly one slot, and nothing else is stored. */
  ghost predicate Holds(slots: Slots, m: map<IpKey, U16>) {
    && (forall s: nat, ip :: HoldsIp(slots, s, ip) ==> ValidFamily(ip) && ip in m && m[ip] == slots[s].value.port)
    && (forall ip :: ip in m ==> exists s: nat :: HoldsIp(slots, s, ip))
    && OneSlotEach(slots)
  }

  ghost predicate OneSlotEach(slots: Slots) {
    forall s: nat, t: nat, ip :: HoldsIp(slots, s, ip) && HoldsIp(slots, t, ip) ==> s == t
  }

  /** Every stored source is found by walking its probe sequence. */
  ghost predicate Reachable(slots: Slots, hash: IpKey -> U32, m: map<IpKey, U16>)
    requires 0 < |slots|
  {
    forall ip :: ip in m ==> FindSlot(slots, hash, ip).found
  }

  /** Looking an address up answers for the map: found exactly when present, with its port. */
  ghost predicate Refines(slots: Slots, hash: IpKey -> U32, m: map<IpKey, U16>) {
    && 0 < |slots|
    && forall ip :: (FindSlot(slots, hash, ip).found <==> ip in m)
                    && (ip in m ==> slots[FindSlot(slots, hash, ip).slot] == Some(RemoteAddr(ip, m[ip])))
  }

  lemma HoldsRefines(slots: Slots, hash: IpKey -> U32, m: map<IpKey, U16>)
    requires 0 < |slots| && Holds(slots, m) && Reachable(slots, hash, m)
    ensures Refines(slots, hash, m)
  {
    forall ip
      ensures FindSlot(slots, hash, ip).found <==> ip in m
      ensures ip in m ==> slots[FindSlot(slots, hash, ip).slot] == Some(RemoteAddr(ip, m[ip]))
    {
      var s := FindSlot(slots, hash, ip).slot;
      if FindSlot(slots, hash, ip).found { assert HoldsIp(slots, s, ip); }
    }
  }

  // ---- Insertion always reaches an empty slot.

  /** The addresses of the records at `probes`. */
  ghost function Met(slots: Slots, probes: seq<nat>): set<IpKey>
    requires forall i :: 0 <= i < |probes| ==> probes[i] < |slots| && slots[probes[i]].Some?
  {
    set i | 0 <= i < |probes| :: slots[probes[i]].value.ip
  }

  /** Distinct slots hold distinct sources. */
  lemma {:induction false} MetCount(slots: Slots, probes: seq<nat>)
    requires OneSlotEach(slots)
    requires forall i :: 0 <= i < |probes| ==> probes[i] < |slots| && slots[probes[i]].Some?
    requires forall i, j :: 0 <= i < j < |probes| ==> probes[i] != probes[j]
    ensures |Met(slots, probes)| == |probes|
  {
    if |probes| > 0 {
      var n := |probes| - 1;
      var rest := probes[..n];
      MetCount(slots, rest);
      var ip := slots[probes[n]].value.ip;
      assert HoldsIp(slots, probes[n], ip);
      forall i | 0 <= i < n ensures slots[rest[i]].value.ip != ip {
        assert slots[rest[i]].value.ip == ip ==> HoldsIp(slots, rest[i], ip);
      }
      assert Met(slots, probes) == Met(slots, rest) + {ip};
    }
  }

  /** The first `n` slots that an address with hash `h` probes. */
  function Probes(h: nat, n: nat, size: nat): (p: seq<nat>)
    requires size > 0
    ensures |p| == n
    ensures forall i :: 0 <= i < n ==> p[i] == Probe(h, i, size)
  {
    seq(n, i requires 0 <= i < n => Probe(h, i, size))
  }

  lemma ProbesDistinct(h: nat, n: nat, k: nat)
    requires n <= Pow2(k)
    ensures var p := Probes(h, n, Pow2(k)); forall i, j :: 0 <= i < j < n ==> p[i] != p[j]
  {
    forall i, j | 0 <= i < j < n ensures Probes(h, n, Pow2(k))[i] != Probes(h, n, Pow2(k))[j] {
      TriangularDistinct(h, i, j, k);
    }
  }

  /** With fewer sources than probes, the walk of an absent address ends on an empty slot. */
  lemma WalkReachesEmpty(slots: Slots, h: nat, ip: IpKey, k: nat, m: map<IpKey, U16>)
    requires |slots| == Pow2(k) && Holds(slots, m) && 2 * |m| + 2 <= |slots| && ip !in m
    ensures !WalkFrom(slots, h, ip, 0).found && slots[WalkFrom(slots, h, ip, 0).slot].None?
  {
    var r := WalkFrom(slots, h, ip, 0);
    if slots[r.slot].Some? {
      WalkSeesAll(slots, h, ip, 0);
      ProbesDistinct(h, |slots| / 2, k);
      var probes := Probes(h, |slots| / 2, |slots|);
      MetCount(slots, probes);
      SubsetSize(Met(slots, probes), m.Keys);
      assert false;
    }
  }

  lemma SubsetSize<T>(a: set<T>, b: set<T>)
    requires a <= b
    ensures |a| <= |b|
  {
    if a != {} {
      var x :| x in a;
      SubsetSize(a - {x}, b - {x});
    }
  }

  /** A walk that ends on a record it did not match has met a record at every probe. */
  lemma {:induction false} WalkSeesAll(slots: Slots, h: nat, ip: IpKey, i: nat)
    requires 0 < |slots| && i <= |slots| / 2
    requires !WalkFrom(slots, h, ip, i).found && slots[WalkFrom(slots, h, ip, i).slot].Some?
    ensures forall j :: i <= j < |slots| / 2 ==> slots[Probe(h, j, |slots|)].Some?
    decreases |slots| / 2 - i
  {
    if i < |slots| / 2 {
      WalkSeesAll(slots, h, ip, i + 1);
    }
  }

  /** Filling an empty slot does not disturb a walk that succeeds. */
  lemma {:induction false} WalkUndisturbed(slots: Slots, h: nat, ip: IpKey, i: nat, s: nat, rec: RemoteAddr)
    requires 0 < |slots| && i <= |slots| / 2
    requires WalkFrom(slots, h, ip, i).found
    requires s < |slots| && slots[s].None?
    ensures WalkFrom(slots[s := Some(rec)], h, ip, i) == WalkFrom(slots, h, ip, i)
    decreases |slots| / 2 - i
  {
    if slots[Probe(h, i, |slots|)].value.ip != ip {
      WalkUndisturbed(slots, h, ip, i + 1, s, rec);
    }
  }

  /** A record put into the empty slot where its walk ended is found by that walk. */
  lemma {:induction false} WalkFindsInserted(slots: Slots, h: nat, rec: RemoteAddr, i: nat)
    requires 0 < |slots| && i <= |slots| / 2
    requires i < |slots| / 2
    requires var r := WalkFrom(slots, h, rec.ip, i); !r.found && slots[r.slot].None?
    ensures var r := WalkFrom(slots, h, rec.ip, i);
            WalkFrom(slots[r.slot := Some(rec)], h, rec.ip, i) == Find(true, r.slot)
    decreases |slots| / 2 - i
  {
    var s := Probe(h, i, |slots|);
    if slots[s].Some? {
      if i + 1 == |slots| / 2 {
        assert false;
      }
      WalkFindsInserted(slots, h, rec, i + 1);
    }
  }

  /** The table with a record put where `find_slot` points. */
  function Placed(slots: Slots, hash: IpKey -> U32, rec: RemoteAddr): (r: Slots)
    requires 0 < |slots|
    ensures |r| == |slots|
  {
    slots[FindSlot(slots, hash, rec.ip).slot := Some(rec)]
  }

  /** One more source fits whenever the table stays at most half full, and all stay reachable. */
  lemma PlaceExtends(slots: Slots, hash: IpKey -> U32, rec: RemoteAddr, k: nat, m: map<IpKey, U16>)
    requires |slots| == Pow2(k) && Holds(slots, m) && Reachable(slots, hash, m)
    requires ValidFamily(rec.ip) && rec.ip !in m && 2 * |m| + 2 <= |slots|
    ensures Holds(Placed(slots, hash, rec), m[rec.ip := rec.port])
    ensures Reachable(Placed(slots, hash, rec), hash, m[rec.ip := rec.port])
  {
    var h := hash(rec.ip);
    WalkReachesEmpty(slots, h, rec.ip, k, m);
    var s := FindSlot(slots, hash, rec.ip).slot;
    PlaceHolds(slots, s, rec, m);
    var r, m' := Placed(slots, hash, rec), m[rec.ip := rec.port];
    forall ip | ip in m' ensures FindSlot(r, hash, ip).found {
      if ip == rec.ip {
        WalkFindsInserted(slots, h, rec, 0);
      } else {
        WalkUndisturbed(slots, hash(ip), ip, 0, s, rec);
      }
    }
  }

  lemma PlaceHolds(slots: Slots, s: nat, rec: RemoteAddr, m: map<IpKey, U16>)
    requires Holds(slots, m) && s < |slots| && slots[s].None?
    requires ValidFamily(rec.ip) && rec.ip !in m
    ensures Holds(slots[s := Some(rec)], m[rec.ip := rec.port])
  {
    var r, m' := slots[s := Some(rec)], m[rec.ip := rec.port];
    forall ip | ip in m' ensures exists t: nat :: HoldsIp(r, t, ip) {
      if ip == rec.ip {
        assert HoldsIp(r, s, ip);
      } else {
        var t: nat :| HoldsIp(slots, t, ip);
        assert HoldsIp(r, t, ip);
      }
    }
    forall t: nat, u: nat, ip | HoldsIp(r, t, ip) && HoldsIp(r, u, ip) ensures t == u {
      assert t != s ==> HoldsIp(slots, t, ip);
      assert u != s ==> HoldsIp(slots, u, ip);
    }
  }

  // ---- Rehashing.

  /** The exponent of the least power of two, from `k` on, that is at least twice `n`. */
  function Exponent(n: nat, k: nat): (e: nat)
    ensures k <= e && 2 * n <= Pow2(e)
    ensures forall j :: k <= j < e ==> Pow2(j) < 2 * n
    decreases 2 * n - Pow2(k)
  {
    if 2 * n <= Pow2(k) then k else Exponent(n, k + 1)
  }

  /** The table size for `n` sources. */
  function TableSize(n: nat): nat { Pow2(Exponent(n, 0)) }

  /** `TableSize` is a power of two, leaves half the slots free, and is the least such. */
  lemma TableSizeIsLeast(n: nat, k: nat)
    ensures 2 * n <= TableSize(n)
    ensures 2 * n <= Pow2(k) ==> TableSize(n) <= Pow2(k)
  {
    if 2 * n <= Pow2(k) { Pow2Mono(Exponent(n, 0), k); }
  }

  lemma {:induction false} Pow2Mono(a: nat, b: nat)
    requires a <= b
    ensures Pow2(a) <= Pow2(b)
    decreases b
  {
    if a < b { Pow2Mono(a, b - 1); }
  }

  function EmptyTable(n: nat): (r: Slots)
    ensures |r| == n
  {
    seq(n, _ => None)
  }

  /** Re-insert the records of `recs` from slot `i` on, in slot order. */
  function Reinserted(table: Slots, hash: IpKey -> U32, recs: Slots, i: nat): (r: Slots)
    requires 0 < |table| && i <= |recs|
    ensures |r| == |table|
    decreases |recs| - i
  {
    if i == |recs| then table
    else Reinserted(if recs[i].Some? then Placed(table, hash, recs[i].value) else table, hash, recs, i + 1)
  }

  /** `rehash_records`. */
  function Rehashed(slots: Slots, hash: IpKey -> U32, n: nat): (r: Slots)
    ensures |r| == TableSize(n)
  {
    Reinserted(EmptyTable(TableSize(n)), hash, slots, 0)
  }

  /** Sources found in the first `i` slots. */
  ghost function Prefix(slots: Slots, m: map<IpKey, U16>, i: nat): map<IpKey, U16>
    requires i <= |slots|
  {
    map ip | ip in m && HoldsBefore(slots, ip, i) :: m[ip]
  }

  ghost predicate HoldsBefore(slots: Slots, ip: IpKey, i: nat) {
    exists s: nat :: s < i && HoldsIp(slots, s, ip)
  }

  /** Re-insertion rebuilds a table for the whole map from one for its first `i` slots. */
  lemma {:induction false} ReinsertAll(table: Slots, hash: IpKey -> U32, recs: Slots, i: nat, k: nat, m: map<IpKey, U16>)
    requires |table| == Pow2(k) && 2 * |m| <= |table| && Holds(recs, m) && i <= |recs|
    requires Holds(table, Prefix(recs, m, i)) && Reachable(table, hash, Prefix(recs, m, i))
    ensures var r := Reinserted(table, hash, recs, i);
            Holds(r, m) && Reachable(r, hash, m)
    decreases |recs| - i
  {
    if i == |recs| {
      PrefixWhole(recs, m);
    } else if recs[i].None? {
      PrefixSkip(recs, m, i);
      ReinsertAll(table, hash, recs, i + 1, k, m);
    } else {
      var rec := recs[i].value;
      assert HoldsIp(recs, i, rec.ip);
      PrefixStep(recs, m, i);
      PrefixRoom(recs, m, i);
      PlaceExtends(table, hash, rec, k, Prefix(recs, m, i));
      ReinsertAll(Placed(table, hash, rec), hash, recs, i + 1, k, m);
    }
  }

  lemma PrefixWhole(recs: Slots, m: map<IpKey, U16>)
    requires Holds(recs, m)
    ensures Prefix(recs, m, |recs|) == m
  {
    forall ip | ip in m ensures HoldsBefore(recs, ip, |recs|) {
      var s: nat :| HoldsIp(recs, s, ip);
    }
  }

  lemma PrefixSkip(recs: Slots, m: map<IpKey, U16>, i: nat)
    requires i < |recs| && recs[i].None?
    ensures Prefix(recs, m, i + 1) == Prefix(recs, m, i)
  {
    forall ip | HoldsBefore(recs, ip, i + 1) ensures HoldsBefore(recs, ip, i) {
      var s: nat :| s < i + 1 && HoldsIp(recs, s, ip);
      assert s < i;
    }
  }

  lemma PrefixStep(recs: Slots, m: map<IpKey, U16>, i: nat)
    requires Holds(recs, m) && i < |recs| && recs[i].Some?
    ensures var rec := recs[i].value;
            && rec.ip !in Prefix(recs, m, i)
            && Prefix(recs, m, i + 1) == Prefix(recs, m, i)[rec.ip := rec.port]
  {
    var rec, p, q := recs[i].value, Prefix(recs, m, i), Prefix(recs, m, i + 1);
    assert HoldsIp(recs, i, rec.ip);
    assert rec.ip in q;
    forall ip | ip in q && ip != rec.ip ensures ip in p {
      var s: nat :| s < i + 1 && HoldsIp(recs, s, ip);
      assert s < i;
    }
  }

  /** A source not yet re-inserted leaves room for itself. */
  lemma PrefixRoom(recs: Slots, m: map<IpKey, U16>, i: nat)
    requires Holds(recs, m) && i < |recs| && recs[i].Some?
    ensures |Prefix(recs, m, i)| < |m|
  {
    var ip, p := recs[i].value.ip, Prefix(recs, m, i);
    assert HoldsIp(recs, i, ip);
    PrefixStep(recs, m, i);
    SubsetSize(p.Keys, m.Keys - {ip});
  }

  /** Rehashing for at least as many sources as the map has refines the map. */
  lemma RehashRefines(slots: Slots, hash: IpKey -> U32, n: nat, m: map<IpKey, U16>)
    requires Holds(slots, m) && |m| <= n
    ensures var r := Rehashed(slots, hash, n);
            Holds(r, m) && Reachable(r, hash, m) && Refines(r, hash, m)
  {
    var empty := EmptyTable(TableSize(n));
    assert Prefix(slots, m, 0) == map[];
    ReinsertAll(empty, hash, slots, 0, Exponent(n, 0), m);
    HoldsRefines(Rehashed(slots, hash, n), hash, m);
  }
}
