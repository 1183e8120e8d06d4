/**
  The hash table of client records as values: cells of sixteen records per slot, an index of
  where each client is, and the facts each change of a cell relies on.
 */
module ClientSlots {
  import opened Common
  import opened TokenBucket
  import Probing

  const SLOT_SIZE: nat := 16
  const MAX_SERVICES: nat := 3

  type ClientIp = Probing.IpKey

  datatype Record = Record(ip: ClientIp, lastHit: seq<U32>, hits: seq<U32>, drops: seq<U16>, tokens: seq<U16>)

  type Records = seq<Record>

  /** The index of the record of each logged client. */
  type Places = map<ClientIp, nat>

  type Hash = ClientIp -> U32

  /** The families `get_record` accepts. */
  predicate Loggable(ip: ClientIp) { ip.V4? || ip.V6? }

  predicate Vacant(r: Record) { r.ip.Unspec? }

  function SlotOf(hash: Hash, ip: ClientIp, slots: nat): (k: nat)
    requires slots > 0
    ensures k < slots
  {
    hash(ip) % slots
  }

  function Cell(records: Records, k: nat, c: nat): Record
    requires SLOT_SIZE * k + c < |records|
  {
    records[SLOT_SIZE * k + c]
  }

  // ---- The invariant.  Each quantifier ranges over a named fact about one client or cell.

  predicate PlaceOk(records: Records, places: Places, ip: ClientIp)
    requires ip in places
  {
    Loggable(ip) && places[ip] < |records| && records[places[ip]].ip == ip
  }

  predicate EntryOk(records: Records, places: Places, i: nat)
    requires i < |records|
  {
    !Vacant(records[i]) ==> records[i].ip in places && places[records[i].ip] == i
  }

  /** `places` is exactly the index of the occupied records, so no client has two. */
  ghost predicate Indexed(records: Records, places: Places) {
    && (forall ip {:trigger PlaceOk(records, places, ip)} | ip in places :: PlaceOk(records, places, ip))
    && (forall i: nat {:trigger EntryOk(records, places, i)} | i < |records| :: EntryOk(records, places, i))
  }

  /** An occupied record sits in the slot of its hash, right behind another one or first. */
  predicate CellOk(records: Records, slots: nat, hash: Hash, k: nat, c: nat)
    requires |records| == SLOT_SIZE * slots && k < slots && c < SLOT_SIZE
  {
    var r := Cell(records, k, c);
    !Vacant(r) ==> SlotOf(hash, r.ip, slots) == k && (c > 0 ==> !Vacant(Cell(records, k, c - 1)))
  }

  ghost predicate InSlots(records: Records, slots: nat, hash: Hash) {
    && |records| == SLOT_SIZE * slots
    && (forall k: nat, c: nat {:trigger CellOk(records, slots, hash, k, c)} | k < slots && c < SLOT_SIZE ::
          CellOk(records, slots, hash, k, c))
  }

  ghost predicate Table(records: Records, slots: nat, hash: Hash, places: Places) {
    Indexed(records, places) && InSlots(records, slots, hash)
  }

  /** What the table says about its clients, wherever it keeps them. */
  ghost function Contents(records: Records, places: Places): map<ClientIp, Record> {
    map ip | ip in places && PlaceOk(records, places, ip) :: records[places[ip]]
  }

  /** The last record of the client's slot is vacant, so the slot has room. */
  predicate Room(records: Records, slots: nat, hash: Hash, ip: ClientIp)
    requires slots > 0 && |records| == SLOT_SIZE * slots
  {
    Vacant(Cell(records, SlotOf(hash, ip, slots), SLOT_SIZE - 1))
  }

  predicate Occupied(records: Records, k: nat, c: nat)
    requires SLOT_SIZE * k + c < |records|
  {
    !Vacant(Cell(records, k, c))
  }

  /** Cell `c` is the first vacant one of slot `k`. */
  ghost predicate FirstVacant(records: Records, k: nat, c: nat) {
    && c < SLOT_SIZE && SLOT_SIZE * k + SLOT_SIZE <= |records|
    && !Occupied(records, k, c)
    && (forall d: nat {:trigger Occupied(records, k, d)} | d < c :: Occupied(records, k, d))
  }

  /** The occupied records of a slot come first. */
  lemma {:induction false} Packed(records: Records, slots: nat, hash: Hash, k: nat, c: nat, d: nat)
    requires InSlots(records, slots, hash) && k < slots && c <= d < SLOT_SIZE && Occupied(records, k, d)
    ensures Occupied(records, k, c)
    decreases d - c
  {
    assert CellOk(records, slots, hash, k, d);
    if c < d { Packed(records, slots, hash, k, c, d - 1); }
  }

  /** The cell a logged client occupies. */
  lemma CellOf(records: Records, slots: nat, hash: Hash, places: Places, ip: ClientIp) returns (c: nat)
    requires slots > 0 && Table(records, slots, hash, places) && ip in places
    ensures c < SLOT_SIZE && places[ip] == SLOT_SIZE * SlotOf(hash, ip, slots) + c < |records|
    ensures Cell(records, SlotOf(hash, ip, slots), c).ip == ip && Loggable(ip)
  {
    assert PlaceOk(records, places, ip);
    var i := places[ip];
    c := i % SLOT_SIZE;
    assert CellOk(records, slots, hash, i / SLOT_SIZE, c);
  }

  predicate Differs(records: Records, k: nat, c: nat, ip: ClientIp)
    requires SLOT_SIZE * k + c < |records|
  {
    Cell(records, k, c).ip != ip
  }

  /** The client is in none of the first `c` cells of slot `k`. */
  ghost predicate Unmet(records: Records, k: nat, c: nat, ip: ClientIp) {
    && c <= SLOT_SIZE && SLOT_SIZE * k + SLOT_SIZE <= |records|
    && (forall d: nat {:trigger Differs(records, k, d, ip)} | d < c :: Differs(records, k, d, ip))
  }

  lemma MetLater(records: Records, k: nat, c: nat, d: nat, ip: ClientIp)
    requires Unmet(records, k, c, ip) && d < c
    ensures Cell(records, k, d).ip != ip
  {
    assert Differs(records, k, d, ip);
  }

  /** Not met before the first vacant cell, or in a full slot: not logged. */
  lemma Absent(records: Records, slots: nat, hash: Hash, places: Places, ip: ClientIp, c: nat)
    requires slots > 0 && Table(records, slots, hash, places)
    requires Unmet(records, SlotOf(hash, ip, slots), c, ip)
    requires c < SLOT_SIZE ==> !Occupied(records, SlotOf(hash, ip, slots), c)
    ensures ip !in places
  {
    if ip in places {
      var k := SlotOf(hash, ip, slots);
      var d := CellOf(records, slots, hash, places, ip);
      if d < c {
        MetLater(records, k, c, d, ip);
      } else {
        Packed(records, slots, hash, k, c, d);
      }
      assert false;
    }
  }

  /** What one written cell does to every cell. */
  lemma CellAfter(records: Records, k0: nat, c0: nat, r: Record, k: nat, c: nat)
    requires c0 < SLOT_SIZE && c < SLOT_SIZE && SLOT_SIZE * k0 + c0 < |records| && SLOT_SIZE * k + c < |records|
    ensures Cell(records[SLOT_SIZE * k0 + c0 := r], k, c) == if k == k0 && c == c0 then r else Cell(records, k, c)
  {}

  // ---- Changing one cell.

  /** A client takes the first vacant cell of its slot, or one that is in use. */
  lemma WriteCell(records: Records, slots: nat, hash: Hash, c: nat, r: Record)
    requires slots > 0 && InSlots(records, slots, hash) && c < SLOT_SIZE && !Vacant(r)
    requires var k := SlotOf(hash, r.ip, slots); Occupied(records, k, c) || FirstVacant(records, k, c)
    ensures InSlots(records[SLOT_SIZE * SlotOf(hash, r.ip, slots) + c := r], slots, hash)
  {
    var k0 := SlotOf(hash, r.ip, slots);
    var after := records[SLOT_SIZE * k0 + c := r];
    assert CellOk(records, slots, hash, k0, c);
    assert c > 0 ==> Occupied(records, k0, c - 1);
    forall k: nat, d: nat | k < slots && d < SLOT_SIZE ensures CellOk(after, slots, hash, k, d) {
      assert CellOk(records, slots, hash, k, d);
      CellAfter(records, k0, c, r, k, d);
      if d > 0 { CellAfter(records, k0, c, r, k, d - 1); }
    }
  }

  /** A client without a record gets one, in place of `gone` if the cell was in use. */
  lemma WriteIndex(records: Records, places: Places, i: nat, r: Record)
    requires Indexed(records, places) && i < |records| && Loggable(r.ip) && r.ip !in places
    ensures Indexed(records[i := r], (places - {records[i].ip})[r.ip := i])
  {
    var after, moved := records[i := r], (places - {records[i].ip})[r.ip := i];
    assert EntryOk(records, places, i);
    forall ip | ip in moved ensures PlaceOk(after, moved, ip) {
      if ip != r.ip { assert PlaceOk(records, places, ip); }
    }
    forall j: nat | j < |after| ensures EntryOk(after, moved, j) {
      assert EntryOk(records, places, j);
    }
  }

  lemma WriteContents(records: Records, places: Places, i: nat, r: Record)
    requires Indexed(records, places) && i < |records| && Loggable(r.ip) && r.ip !in places
    ensures Contents(records[i := r], (places - {records[i].ip})[r.ip := i])
            == (Contents(records, places) - {records[i].ip})[r.ip := r]
  {
    var after, moved := records[i := r], (places - {records[i].ip})[r.ip := i];
    WriteIndex(records, places, i, r);
    forall ip | ip in moved ensures PlaceOk(after, moved, ip) && (ip != r.ip ==> ip in places && PlaceOk(records, places, ip) && places[ip] != i) {
      assert PlaceOk(after, moved, ip);
      if ip != r.ip { assert PlaceOk(records, places, ip); }
    }
  }

  lemma WriteSize(places: Places, gone: ClientIp, ip: ClientIp, i: nat)
    requires ip !in places
    ensures |(places - {gone})[ip := i]| == |places| + if gone in places then 0 else 1
  {}

  lemma VacantNotPlaced(records: Records, places: Places, i: nat)
    requires Indexed(records, places) && i < |records|
    ensures Vacant(records[i]) ==> records[i].ip !in places && places - {records[i].ip} == places
    ensures !Vacant(records[i]) ==> records[i].ip in places && Loggable(records[i].ip)
  {
    var ip := records[i].ip;
    assert EntryOk(records, places, i);
    if ip in places { assert PlaceOk(records, places, ip); }
  }

  /** A record changes but keeps its client. */
  lemma RewriteCell(records: Records, slots: nat, hash: Hash, places: Places, i: nat, r: Record)
    requires Table(records, slots, hash, places) && i < |records| && records[i].ip == r.ip
    ensures Table(records[i := r], slots, hash, places)
  {
    var after := records[i := r];
    assert forall j | 0 <= j < |records| :: after[j].ip == records[j].ip;
    forall ip | ip in places ensures PlaceOk(after, places, ip) { assert PlaceOk(records, places, ip); }
    forall j: nat | j < |after| ensures EntryOk(after, places, j) { assert EntryOk(records, places, j); }
    forall k: nat, c: nat | k < slots && c < SLOT_SIZE ensures CellOk(after, slots, hash, k, c) {
      assert CellOk(records, slots, hash, k, c);
    }
  }

  lemma RewriteContents(records: Records, places: Places, i: nat, r: Record)
    requires Indexed(records, places) && i < |records| && records[i].ip == r.ip
    ensures Contents(records[i := r], places)
            == if Vacant(r) then Contents(records, places) else Contents(records, places)[r.ip := r]
  {
    var after := records[i := r];
    VacantNotPlaced(records, places, i);
    assert EntryOk(records, places, i);
    forall ip | ip in places ensures PlaceOk(after, places, ip) && PlaceOk(records, places, ip) && (places[ip] == i <==> ip == r.ip) {
      assert PlaceOk(records, places, ip);
    }
  }

  // ---- Doubling.

  /** The old slot that feeds new slot `s` when `n` slots become `2 * n`. */
  function Origin(s: nat, n: nat): int { if s < n then s else s - n }

  lemma ModUnique(h: nat, n: nat, q: nat, r: nat)
    requires n > 0 && r < n && h == q * n + r
    ensures h % n == r
  {
    var d := h / n - q;
    assert d * n == r - h % n by { assert h == (h / n) * n + h % n; assert d * n == (h / n) * n - q * n; }
    if d > 0 { MulMono(n, 1, d); } else if d < 0 { MulMono(n, 1, -d); }
  }

  lemma TwiceTimes(q: nat, n: nat)
    ensures q * (2 * n) == (2 * q) * n
    ensures (2 * q + 1) * n == (2 * q) * n + n
  {}

  lemma Quotient(h: nat, m: nat) returns (q: nat)
    requires m > 0
    ensures h == q * m + h % m && h % m < m
  {
    q := h / m;
  }

  lemma HalfModulus(h: nat, n: nat, m: nat)
    requires n > 0 && m == 2 * n
    ensures h % n == Origin(h % m, n)
  {
    var r := h % m;
    var q := Quotient(h, m);
    TwiceTimes(q, n);
    if r < n { ModUnique(h, n, 2 * q, r); } else { ModUnique(h, n, 2 * q + 1, r - n); }
  }

  lemma SlotSplits(hash: Hash, ip: ClientIp, n: nat)
    requires n > 0
    ensures Origin(SlotOf(hash, ip, 2 * n), n) == SlotOf(hash, ip, n)
  {
    HalfModulus(hash(ip), n, 2 * n);
  }

  predicate CellBehind(records: Records, n: nat, i: nat, s: nat, c: nat)
    requires |records| == SLOT_SIZE * (2 * n) && s < 2 * n && c < SLOT_SIZE
  {
    Occupied(records, s, c) ==> SLOT_SIZE * Origin(s, n) + c < i
  }

  /**
    After the first `i` old records have been put back, cell `c` of a new slot is in use only
    if the old slot feeding it had more than `c` records among them.  This is why a new slot
    always has room for the next one.
   */
  ghost predicate Behind(records: Records, n: nat, i: nat) {
    && |records| == SLOT_SIZE * (2 * n)
    && (forall s: nat, c: nat {:trigger CellBehind(records, n, i, s, c)} | s < 2 * n && c < SLOT_SIZE ::
          CellBehind(records, n, i, s, c))
  }

  lemma BehindHasRoom(records: Records, n: nat, i: nat, hash: Hash, ip: ClientIp)
    requires n > 0 && Behind(records, n, i) && i < SLOT_SIZE * n
    requires SlotOf(hash, ip, n) == i / SLOT_SIZE
    ensures Room(records, 2 * n, hash, ip)
  {
    SlotSplits(hash, ip, n);
    assert CellBehind(records, n, i, SlotOf(hash, ip, 2 * n), SLOT_SIZE - 1);
  }

  lemma BehindAdvances(records: Records, n: nat, i: nat, hash: Hash, c: nat, r: Record)
    requires n > 0 && Behind(records, n, i) && i < SLOT_SIZE * n
    requires SlotOf(hash, r.ip, n) == i / SLOT_SIZE
    requires FirstVacant(records, SlotOf(hash, r.ip, 2 * n), c)
    ensures Behind(records[SLOT_SIZE * SlotOf(hash, r.ip, 2 * n) + c := r], n, i + 1)
  {
    SlotSplits(hash, r.ip, n);
    var s0 := SlotOf(hash, r.ip, 2 * n);
    var after := records[SLOT_SIZE * s0 + c := r];
    assert SLOT_SIZE * Origin(s0, n) + c < i + 1 by {
      if c > 0 {
        assert Occupied(records, s0, c - 1);
        assert CellBehind(records, n, i, s0, c - 1);
      }
    }
    var next := i + 1;
    forall s: nat, d: nat | s < 2 * n && d < SLOT_SIZE ensures CellBehind(after, n, next, s, d) {
      CellAfter(records, s0, c, r, s, d);
      assert CellBehind(records, n, i, s, d);
    }
  }

  lemma BehindSkips(records: Records, n: nat, i: nat)
    requires Behind(records, n, i)
    ensures Behind(records, n, i + 1)
  {
    var next := i + 1;
    forall s: nat, c: nat | s < 2 * n && c < SLOT_SIZE ensures CellBehind(records, n, next, s, c) {
      assert CellBehind(records, n, i, s, c);
    }
  }

  /** Whether client `ip` has been put back, and as it was. */
  predicate ClientCarried(was: map<ClientIp, Record>, wasAt: Places, i: nat, clients: map<ClientIp, Record>, ip: ClientIp)
    requires ip in wasAt && ip in was
  {
    if wasAt[ip] < i then ip in clients && clients[ip] == was[ip] else ip !in clients
  }

  /** The clients of the first `i` old records have been put back, unchanged, and nothing else is there. */
  ghost predicate Carried(was: map<ClientIp, Record>, wasAt: Places, i: nat, clients: map<ClientIp, Record>) {
    && was.Keys == wasAt.Keys && clients.Keys <= was.Keys
    && (forall ip {:trigger ClientCarried(was, wasAt, i, clients, ip)} | ip in wasAt :: ClientCarried(was, wasAt, i, clients, ip))
  }

  lemma CarriedAll(was: map<ClientIp, Record>, wasAt: Places, i: nat, clients: map<ClientIp, Record>)
    requires Carried(was, wasAt, i, clients) && forall ip | ip in wasAt :: wasAt[ip] < i
    ensures clients == was
  {
    forall ip | ip in was ensures ip in clients && clients[ip] == was[ip] {
      assert ClientCarried(was, wasAt, i, clients, ip);
    }
  }

  lemma CarriedSkip(was: map<ClientIp, Record>, wasAt: Places, i: nat, clients: map<ClientIp, Record>)
    requires Carried(was, wasAt, i, clients) && forall ip | ip in wasAt :: wasAt[ip] != i
    ensures Carried(was, wasAt, i + 1, clients)
  {
    var next := i + 1;
    forall ip | ip in wasAt ensures ClientCarried(was, wasAt, next, clients, ip) {
      assert ClientCarried(was, wasAt, i, clients, ip);
    }
  }

  lemma CarriedStep(was: map<ClientIp, Record>, wasAt: Places, i: nat, clients: map<ClientIp, Record>, ip: ClientIp)
    requires Carried(was, wasAt, i, clients) && ip in wasAt && wasAt[ip] == i
    requires forall other | other in wasAt && wasAt[other] == i :: other == ip
    ensures ip !in clients
    ensures Carried(was, wasAt, i + 1, clients[ip := was[ip]])
  {
    var after, next := clients[ip := was[ip]], i + 1;
    assert ClientCarried(was, wasAt, i, clients, ip);
    forall other | other in wasAt ensures ClientCarried(was, wasAt, next, after, other) {
      assert ClientCarried(was, wasAt, i, clients, other);
    }
  }
}
