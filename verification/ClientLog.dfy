/**
  The client log: a hash table of client records that doubles when a slot is full and evicts
  when it cannot, with a token bucket per client and service.
 */
module ClientLogs {
  import opened Common
  import opened TokenBucket
  import opened ClientSlots
  import Probing

  const MIN_SLOTS: nat := 1

  type Service = s: nat | s < MAX_SERVICES

  /** A number for each service. */
  type Totals = t: seq<nat> | |t| == MAX_SERVICES witness [0, 0, 0]

  type Clients = map<ClientIp, Record>

  /** Everything a client did since its record was created, per service. */
  type History = seq<seq<Event>>

  /** A request is logged, a client is looked up, or a response to the record at `index` is about to be sent. */
  datatype Call =
    | Access(service: Service, client: ClientIp, now: U32)
    | Lookup(client: ClientIp)
    | Limit(service: Service, index: nat, leak: bool)

  const NO_HISTORY: History := [[], [], []]

  // ---- Records.

  predicate ConfigOk(params: seq<Params>) { |params| == MAX_SERVICES && forall p <- params :: Sane(p) }

  predicate RecordOk(r: Record, params: seq<Params>) {
    && |r.lastHit| == |r.hits| == |r.drops| == |r.tokens| == |params| == MAX_SERVICES
    && forall s: nat | s < MAX_SERVICES :: r.tokens[s] <= params[s].maxTokens
  }

  ghost predicate RecordsOk(records: Records, params: seq<Params>) {
    forall i {:trigger RecordOk(records[i], params)} | 0 <= i < |records| :: RecordOk(records[i], params)
  }

  const VACANT: Record := Record(Probing.Unspec, [0, 0, 0], [0, 0, 0], [0, 0, 0], [0, 0, 0])

  function NewRecord(ip: ClientIp, params: seq<Params>): Record
    requires |params| == MAX_SERVICES
  {
    Record(ip, [INVALID_TS, INVALID_TS, INVALID_TS], [0, 0, 0], [0, 0, 0],
           [params[0].maxTokens, params[1].maxTokens, params[2].maxTokens])
  }

  function BucketOf(r: Record, s: Service): Bucket
    requires |r.lastHit| == |r.tokens| == MAX_SERVICES
  {
    Bucket(r.lastHit[s], r.tokens[s])
  }

  ghost predicate ServiceExplained(h: History, r: Record, params: seq<Params>, s: Service)
    requires ConfigOk(params) && RecordOk(r, params) && |h| == MAX_SERVICES
  {
    BucketOf(r, s) == Run(params[s], h[s]) && r.hits[s] == |Hits(h[s])| % TWO32 && r.drops[s] == Dropped(params[s], h[s]) % TWO16
  }

  /** The buckets and counts of the record are the outcome of its whole history, starting full and at zero. */
  ghost predicate Explains(h: History, r: Record, params: seq<Params>)
    requires ConfigOk(params)
  {
    && RecordOk(r, params) && |h| == MAX_SERVICES
    && (forall s: Service {:trigger ServiceExplained(h, r, params, s)} :: ServiceExplained(h, r, params, s))
  }

  ghost predicate ClientLived(clients: Clients, life: map<ClientIp, History>, params: seq<Params>, ip: ClientIp)
    requires ConfigOk(params) && ip in clients && ip in life
  {
    Explains(life[ip], clients[ip], params)
  }

  ghost predicate Lived(clients: Clients, life: map<ClientIp, History>, params: seq<Params>)
    requires ConfigOk(params)
  {
    && clients.Keys == life.Keys
    && (forall ip {:trigger ClientLived(clients, life, params, ip)} | ip in clients :: ClientLived(clients, life, params, ip))
  }

  lemma NewExplained(ip: ClientIp, params: seq<Params>)
    requires ConfigOk(params)
    ensures Explains(NO_HISTORY, NewRecord(ip, params), params)
  {}

  function Recorded(h: History, s: Service, e: Event): History
    requires |h| == MAX_SERVICES
  {
    h[s := h[s] + [e]]
  }

  ghost predicate SameButService(r: Record, after: Record, s: Service)
    requires |r.lastHit| == |r.hits| == |r.drops| == |r.tokens| == MAX_SERVICES
    requires |after.lastHit| == |after.hits| == |after.drops| == |after.tokens| == MAX_SERVICES
  {
    && after.ip == r.ip
    && (forall t: Service | t != s :: after.lastHit[t] == r.lastHit[t] && after.hits[t] == r.hits[t]
                                      && after.drops[t] == r.drops[t] && after.tokens[t] == r.tokens[t])
  }

  /** A hit adds one to the hits, a refused response one to the drops. */
  ghost predicate CountedBy(r: Record, after: Record, params: seq<Params>, s: Service, e: Event)
    requires ConfigOk(params) && RecordOk(r, params) && RecordOk(after, params)
  {
    && after.hits[s] == (if e.Hit? then (r.hits[s] + 1) % TWO32 else r.hits[s])
    && after.drops[s] == if Refused(params[s], BucketOf(r, s), e) then (r.drops[s] + 1) % TWO16 else r.drops[s]
  }

  lemma StepExplained(h: History, r: Record, params: seq<Params>, s: Service, e: Event, after: Record)
    requires ConfigOk(params) && Explains(h, r, params) && RecordOk(after, params) && SameButService(r, after, s)
    requires BucketOf(after, s) == Step(params[s], BucketOf(r, s), e) && CountedBy(r, after, params, s, e)
    ensures Explains(Recorded(h, s, e), after, params)
  {
    var h' := Recorded(h, s, e);
    forall t: Service ensures ServiceExplained(h', after, params, t) {
      assert ServiceExplained(h, r, params, t);
      if t == s {
        OneMore(params[s], h[s], e);
        WrappedHits(|Hits(h[s])|);
        WrappedDrops(Dropped(params[s], h[s]));
      }
    }
  }

  lemma WrappedHits(n: nat)
    ensures (n % TWO32 + 1) % TWO32 == (n + 1) % TWO32
  {
    var q, r := n / TWO32, n % TWO32;
    assert n + 1 == q * TWO32 + (r + 1);
  }

  lemma WrappedDrops(n: nat)
    ensures (n % TWO16 + 1) % TWO16 == (n + 1) % TWO16
  {
    var q, r := n / TWO16, n % TWO16;
    assert n + 1 == q * TWO16 + (r + 1);
  }

  // ---- Looking through one slot.

  /** Signed 32-bit order of two hit times. */
  function CompareTs(x: U32, y: U32): int {
    if x == y then 0
    else if y == INVALID_TS then 1
    else if 0 < WrapSub32(x, y) < TWO31 then 1
    else -1
  }

  function Later(x: U32, y: U32): U32 { if CompareTs(x, y) < 0 then y else x }

  function LatestHit(r: Record): U32
    requires |r.lastHit| == MAX_SERVICES
  {
    Later(Later(r.lastHit[0], r.lastHit[1]), r.lastHit[2])
  }

  function TotalHits(r: Record): U32
    requires |r.hits| == MAX_SERVICES
  {
    (r.hits[0] + r.hits[1] + r.hits[2]) % TWO32
  }

  /** How long after `base` a time is. */
  function Since(x: U32, base: U32): U32 { WrapSub32(x, base) }

  /** Within half an era from `base`; "never" counts as the time zero, so only from zero on. */
  predicate Orderly(x: U32, base: U32) { Since(x, base) < TWO31 && (x == INVALID_TS ==> base == INVALID_TS) }

  /** Among such times the comparison is the order of time. */
  lemma CompareIsOrder(x: U32, y: U32, base: U32)
    requires Orderly(x, base) && Orderly(y, base)
    ensures CompareTs(x, y) < 0 <==> Since(x, base) < Since(y, base)
    ensures CompareTs(x, y) > 0 <==> Since(x, base) > Since(y, base)
  {}

  /** "Never" is meant to come before every time, and does exactly up to 2^31. */
  lemma NeverIsFirst(y: U32)
    requires y != INVALID_TS
    ensures CompareTs(y, INVALID_TS) > 0
    ensures CompareTs(INVALID_TS, y) < 0 <==> y <= TWO31
  {}

  /** The latest hit is one of the three and none is later. */
  lemma LatestIsLatest(r: Record, base: U32, s: Service)
    requires |r.lastHit| == MAX_SERVICES && forall t: Service :: Orderly(r.lastHit[t], base)
    ensures LatestHit(r) in r.lastHit && Since(r.lastHit[s], base) <= Since(LatestHit(r), base)
  {
    assert Orderly(r.lastHit[0], base) && Orderly(r.lastHit[1], base) && Orderly(r.lastHit[2], base);
    var l := Later(r.lastHit[0], r.lastHit[1]);
    CompareIsOrder(r.lastHit[0], r.lastHit[1], base);
    CompareIsOrder(l, r.lastHit[2], base);
  }

  /** A client that only ever used the second service seems never to have come, exactly from 2^31 on. */
  lemma HitIsHidden(r: Record, y: U32)
    requires r.lastHit == [INVALID_TS, y, INVALID_TS] && y != INVALID_TS
    ensures LatestHit(r) == (if y <= TWO31 then y else INVALID_TS)
  {
    NeverIsFirst(y);
  }

  /** One record is to go before another: its latest hit is earlier, or the same and its hits no more. */
  predicate Staler(r: Record, q: Record, base: U32) {
    && |r.lastHit| == |r.hits| == |q.lastHit| == |q.hits| == MAX_SERVICES
    && (Since(LatestHit(r), base) < Since(LatestHit(q), base) || (LatestHit(r) == LatestHit(q) && TotalHits(r) <= TotalHits(q)))
  }

  predicate OrderlyCell(records: Records, k: nat, d: nat, base: U32)
    requires SLOT_SIZE * k + d < |records|
  {
    |Cell(records, k, d).lastHit| == MAX_SERVICES && Orderly(LatestHit(Cell(records, k, d)), base)
  }

  predicate StalerCell(records: Records, k: nat, o: nat, d: nat, base: U32)
    requires SLOT_SIZE * k + d < |records| && SLOT_SIZE * k + o < |records|
  {
    Staler(Cell(records, k, o), Cell(records, k, d), base)
  }

  /** If the latest hits of the slot's records are within half an era, `o` is the one to go first. */
  ghost predicate Stalest(records: Records, k: nat, o: nat, c: nat, base: U32) {
    && c <= SLOT_SIZE && o < c && SLOT_SIZE * k + SLOT_SIZE <= |records|
    && ((forall d: nat {:trigger OrderlyCell(records, k, d, base)} | d < c :: OrderlyCell(records, k, d, base)) ==>
          forall d: nat {:trigger StalerCell(records, k, o, d, base)} | d < c :: StalerCell(records, k, o, d, base))
  }

  ghost predicate AllStalest(records: Records, k: nat, o: nat) {
    forall base: U32 {:trigger Stalest(records, k, o, SLOT_SIZE, base)} :: Stalest(records, k, o, SLOT_SIZE, base)
  }

  lemma StalestNext(records: Records, params: seq<Params>, k: nat, o: nat, c: nat, o': nat, base: U32)
    requires RecordsOk(records, params) && Stalest(records, k, o, c, base) && c < SLOT_SIZE
    requires RecordOk(Cell(records, k, o), params) && RecordOk(Cell(records, k, c), params)
    requires var r, q := Cell(records, k, o), Cell(records, k, c);
             o' == if CompareTs(LatestHit(r), LatestHit(q)) > 0 || (LatestHit(r) == LatestHit(q) && TotalHits(r) > TotalHits(q)) then c else o
    ensures Stalest(records, k, o', c + 1, base)
  {
    if forall d: nat {:trigger OrderlyCell(records, k, d, base)} | d < c + 1 :: OrderlyCell(records, k, d, base) {
      assert OrderlyCell(records, k, o, base) && OrderlyCell(records, k, c, base);
      CompareIsOrder(LatestHit(Cell(records, k, o)), LatestHit(Cell(records, k, c)), base);
      SameSince(LatestHit(Cell(records, k, o)), LatestHit(Cell(records, k, c)), base);
      forall d: nat | d < c + 1 ensures StalerCell(records, k, o', d, base) {
        if d < c { assert StalerCell(records, k, o, d, base); }
      }
    }
  }

  lemma SameSince(x: U32, y: U32, base: U32)
    ensures Since(x, base) == Since(y, base) <==> x == y
  {}

  datatype Scan = Found(cell: nat) | Free(cell: nat) | Full(oldest: nat)

  /** The scan stops at the client's record, or else at the first vacant one, or else the slot is full. */
  ghost predicate Scanned(records: Records, k: nat, ip: ClientIp, s: Scan) {
    && SLOT_SIZE * k + SLOT_SIZE <= |records|
    && match s
       case Found(c) => c < SLOT_SIZE && Cell(records, k, c).ip == ip
       case Free(c) => FirstVacant(records, k, c) && Unmet(records, k, c, ip)
       case Full(o) =>
         && o < SLOT_SIZE && Unmet(records, k, SLOT_SIZE, ip)
         && forall d: nat {:trigger Occupied(records, k, d)} | d < SLOT_SIZE :: Occupied(records, k, d)
  }

  /** The scan of slot `k` in `get_record`. */
  method ScanSlot(records: Records, params: seq<Params>, k: nat, ip: ClientIp) returns (s: Scan)
    requires RecordsOk(records, params) && SLOT_SIZE * k + SLOT_SIZE <= |records| && !ip.Unspec?
    ensures Scanned(records, k, ip, s)
    ensures s.Full? ==> AllStalest(records, k, s.oldest)
  {
    var c: nat, oldest: Option<nat>, oldestHit := 0, None, 0;
    while c < SLOT_SIZE
      invariant c <= SLOT_SIZE
      invariant Unmet(records, k, c, ip)
      invariant forall d: nat {:trigger Occupied(records, k, d)} | d < c :: Occupied(records, k, d)
      invariant if c == 0 then oldest.None? else
                  && oldest.Some? && oldest.value < c
                  && |Cell(records, k, oldest.value).lastHit| == MAX_SERVICES && oldestHit == LatestHit(Cell(records, k, oldest.value))
                  && forall base: U32 {:trigger Stalest(records, k, oldest.value, c, base)} :: Stalest(records, k, oldest.value, c, base)
    {
      var r := Cell(records, k, c);
      if r.ip == ip {
        return Found(c);
      }
      if Vacant(r) {
        return Free(c);
      }
      assert RecordOk(records[SLOT_SIZE * k + c], params);
      assert oldest.Some? ==> RecordOk(records[SLOT_SIZE * k + oldest.value], params);
      var hit := LatestHit(r);
      ghost var was := oldest;
      if oldest.None? || CompareTs(oldestHit, hit) > 0
         || (oldestHit == hit && TotalHits(Cell(records, k, oldest.value)) > TotalHits(r)) {
        oldest, oldestHit := Some(c), hit;
      }
      forall base: U32 {:trigger Stalest(records, k, oldest.value, c + 1, base)} ensures Stalest(records, k, oldest.value, c + 1, base) {
        if was.Some? { StalestNext(records, params, k, was.value, c, oldest.value, base); }
      }
      c := c + 1;
    }
    s := Full(oldest.value);
  }

  /** `now` is `was` with a fresh record for `ip`, and without the evicted client if any. */
  ghost predicate Admitted<V>(was: map<ClientIp, V>, gone: Option<ClientIp>, ip: ClientIp, entry: V, now: map<ClientIp, V>) {
    match gone
    case None => now == was[ip := entry]
    case Some(v) => v in was && now == (was - {v})[ip := entry]
  }

  /** The whole table: well placed, well formed, and every record explained by its history. */
  ghost predicate State(params: seq<Params>, hash: Hash, records: Records, slots: nat, places: Places, life: map<ClientIp, History>) {
    && ConfigOk(params)
    && Table(records, slots, hash, places)
    && RecordsOk(records, params)
    && Lived(Contents(records, places), life, params)
  }

  lemma LivedPut(clients: Clients, life: map<ClientIp, History>, params: seq<Params>, ip: ClientIp, r: Record, h: History)
    requires ConfigOk(params) && Lived(clients, life, params) && Explains(h, r, params)
    ensures Lived(clients[ip := r], life[ip := h], params)
  {
    var clients', life' := clients[ip := r], life[ip := h];
    forall other | other in clients' ensures ClientLived(clients', life', params, other) {
      if other != ip { assert ClientLived(clients, life, params, other); }
    }
  }

  lemma LivedDrop(clients: Clients, life: map<ClientIp, History>, params: seq<Params>, ip: ClientIp)
    requires ConfigOk(params) && Lived(clients, life, params)
    ensures Lived(clients - {ip}, life - {ip}, params)
  {
    var clients', life' := clients - {ip}, life - {ip};
    forall other | other in clients' ensures ClientLived(clients', life', params, other) {
      assert ClientLived(clients, life, params, other);
    }
  }

  lemma RecordsOkPut(records: Records, params: seq<Params>, i: nat, r: Record)
    requires RecordsOk(records, params) && i < |records| && RecordOk(r, params)
    ensures RecordsOk(records[i := r], params)
  {}

  /** A client without a record gets one, in place of the client of that cell if any. */
  lemma StateWrite(params: seq<Params>, hash: Hash, records: Records, slots: nat, places: Places, life: map<ClientIp, History>,
                   c: nat, ip: ClientIp)
    requires State(params, hash, records, slots, places, life) && slots > 0 && Loggable(ip) && ip !in places && c < SLOT_SIZE
    requires var k := SlotOf(hash, ip, slots); Occupied(records, k, c) || FirstVacant(records, k, c)
    ensures var i, r := SLOT_SIZE * SlotOf(hash, ip, slots) + c, NewRecord(ip, params);
            var gone := records[i].ip;
            && State(params, hash, records[i := r], slots, (places - {gone})[ip := i], (life - {gone})[ip := NO_HISTORY])
            && Contents(records[i := r], (places - {gone})[ip := i]) == (Contents(records, places) - {gone})[ip := r]
  {
    var i, r := SLOT_SIZE * SlotOf(hash, ip, slots) + c, NewRecord(ip, params);
    var gone := records[i].ip;
    WriteCell(records, slots, hash, c, r);
    WriteIndex(records, places, i, r);
    WriteContents(records, places, i, r);
    NewExplained(ip, params);
    RecordsOkPut(records, params, i, r);
    LivedDrop(Contents(records, places), life, params, gone);
    LivedPut(Contents(records, places) - {gone}, life - {gone}, params, ip, r, NO_HISTORY);
  }

  /** A record without a client changes. */
  lemma StateBlank(params: seq<Params>, hash: Hash, records: Records, slots: nat, places: Places, life: map<ClientIp, History>,
                   i: nat, r: Record)
    requires State(params, hash, records, slots, places, life)
    requires i < |records| && Vacant(records[i]) && r.ip == records[i].ip && RecordOk(r, params)
    ensures State(params, hash, records[i := r], slots, places, life)
  {
    RewriteCell(records, slots, hash, places, i, r);
    RewriteContents(records, places, i, r);
    RecordsOkPut(records, params, i, r);
  }

  lemma WithoutVacant(records: Records, places: Places, life: map<ClientIp, History>, gone: ClientIp)
    requires gone !in places && life.Keys == Contents(records, places).Keys
    ensures places - {gone} == places
    ensures life - {gone} == life
    ensures Contents(records, places) - {gone} == Contents(records, places)
  {}

  lemma StateFill(params: seq<Params>, hash: Hash, records: Records, slots: nat, places: Places, life: map<ClientIp, History>,
                  c: nat, ip: ClientIp)
    requires State(params, hash, records, slots, places, life) && slots > 0 && Loggable(ip) && ip !in places
    requires FirstVacant(records, SlotOf(hash, ip, slots), c)
    ensures var i, r := SLOT_SIZE * SlotOf(hash, ip, slots) + c, NewRecord(ip, params);
            && State(params, hash, records[i := r], slots, places[ip := i], life[ip := NO_HISTORY])
            && Contents(records[i := r], places[ip := i]) == Contents(records, places)[ip := r]
            && |places[ip := i]| == |places| + 1
  {
    var i := SLOT_SIZE * SlotOf(hash, ip, slots) + c;
    VacantNotPlaced(records, places, i);
    WithoutVacant(records, places, life, records[i].ip);
    WriteSize(places, records[i].ip, ip, i);
    StateWrite(params, hash, records, slots, places, life, c, ip);
  }

  lemma SlotMate(hash: Hash, records: Records, slots: nat, places: Places, c: nat, ip: ClientIp, i: nat)
    requires Table(records, slots, hash, places) && slots > 0 && c < SLOT_SIZE && i == SLOT_SIZE * SlotOf(hash, ip, slots) + c
    requires Occupied(records, SlotOf(hash, ip, slots), c) && ip !in places
    ensures var gone := records[i].ip;
            && gone in places && SlotOf(hash, gone, slots) == SlotOf(hash, ip, slots)
            && |(places - {gone})[ip := i]| == |places|
  {
    VacantNotPlaced(records, places, i);
    WriteSize(places, records[i].ip, ip, i);
    assert CellOk(records, slots, hash, SlotOf(hash, ip, slots), c);
  }

  /** One client's record changes together with its history. */
  lemma StatePut(params: seq<Params>, hash: Hash, records: Records, slots: nat, places: Places, life: map<ClientIp, History>,
                 i: nat, r: Record, h: History)
    requires State(params, hash, records, slots, places, life)
    requires i < |records| && !Vacant(records[i]) && r.ip == records[i].ip && Explains(h, r, params)
    ensures State(params, hash, records[i := r], slots, places, life[r.ip := h])
    ensures Contents(records[i := r], places) == Contents(records, places)[r.ip := r]
  {
    RewriteCell(records, slots, hash, places, i, r);
    RewriteContents(records, places, i, r);
    RecordsOkPut(records, params, i, r);
    LivedPut(Contents(records, places), life, params, r.ip, r, h);
  }

  datatype Snapshot = Snapshot(records: Records, slots: nat, places: Places, life: map<ClientIp, History>, drops: nat, created: nat)

  /** `after` is `records` with `r` in the first vacant cell, record `i`, of its slot. */
  ghost predicate FilledIn(records: Records, slots: nat, hash: Hash, ip: ClientIp, r: Record, i: nat, after: Records)
    requires slots > 0
  {
    var k := SlotOf(hash, ip, slots);
    && SLOT_SIZE * k <= i < |records|
    && FirstVacant(records, k, i - SLOT_SIZE * k)
    && after == records[i := r]
  }

  lemma FoundIs(records: Records, slots: nat, hash: Hash, places: Places, ip: ClientIp, c: nat)
    requires slots > 0 && Table(records, slots, hash, places) && c < SLOT_SIZE && !ip.Unspec?
    requires Cell(records, SlotOf(hash, ip, slots), c).ip == ip
    ensures ip in places && places[ip] == SLOT_SIZE * SlotOf(hash, ip, slots) + c
  {
    assert EntryOk(records, places, SLOT_SIZE * SlotOf(hash, ip, slots) + c);
  }

  lemma SameKeys(records: Records, places: Places)
    requires Indexed(records, places)
    ensures Contents(records, places).Keys == places.Keys
  {}

  ghost predicate Restored(life: map<ClientIp, History>, was: map<ClientIp, History>) {
    life.Keys <= was.Keys && forall ip | ip in life :: life[ip] == was[ip]
  }

  lemma RestoredPut(life: map<ClientIp, History>, was: map<ClientIp, History>, ip: ClientIp)
    requires ip in was && Restored(life - {ip}, was)
    ensures Restored(life[ip := was[ip]], was)
  {}

  lemma RestoredAll(life: map<ClientIp, History>, was: map<ClientIp, History>)
    requires Restored(life, was) && life.Keys == was.Keys
    ensures life == was
  {}

  /** Filling the first vacant cell and then overwriting it puts record `i` of the old table back. */
  lemma Advance(params: seq<Params>, before: Records, clients: Clients, all: Clients, wasAt: Places, wasLife: map<ClientIp, History>,
                n: nat, i: nat, hash: Hash, blank: Record, r: Record, j: nat, mid: Records)
    requires n > 0 && Behind(before, n, i) && Carried(all, wasAt, i, clients) && i < SLOT_SIZE * n
    requires ConfigOk(params) && FromOld(params, hash, n, all, wasAt, wasLife, i, r)
    requires FilledIn(before, 2 * n, hash, r.ip, blank, j, mid)
    ensures Behind(mid[j := r], n, i + 1)
    ensures Carried(all, wasAt, i + 1, clients[r.ip := blank][r.ip := r])
  {
    BehindAdvances(before, n, i, hash, j - SLOT_SIZE * SlotOf(hash, r.ip, 2 * n), r);
    CarriedStep(all, wasAt, i, clients, r.ip);
    assert mid[j := r] == before[j := r];
    assert clients[r.ip := blank][r.ip := r] == clients[r.ip := r];
  }

  lemma EmptyState(params: seq<Params>, hash: Hash, slots: nat, records: Records)
    requires ConfigOk(params) && records == seq(SLOT_SIZE * slots, _ => VACANT)
    ensures State(params, hash, records, slots, map[], map[])
    ensures Contents(records, map[]) == map[]
  {}

  lemma EmptyBehind(records: Records, n: nat)
    requires records == seq(SLOT_SIZE * (2 * n), _ => VACANT)
    ensures Behind(records, n, 0)
  {}

  lemma EmptyCarried(all: Clients, wasAt: Places)
    requires all.Keys == wasAt.Keys
    ensures Carried(all, wasAt, 0, map[])
  {}

  lemma PlacesBelow(records: Records, places: Places)
    requires Indexed(records, places)
    ensures forall ip | ip in places :: places[ip] < |records|
  {
    forall ip | ip in places ensures places[ip] < |records| { assert PlaceOk(records, places, ip); }
  }

  lemma NoPlaces(records: Records, places: Places)
    requires Indexed(records, places) && records == []
    ensures places == map[] && Contents(records, places) == map[]
  {
    PlacesBelow(records, places);
  }

  lemma VacantUnplaced(records: Records, places: Places, i: nat)
    requires Indexed(records, places) && i < |records| && Vacant(records[i])
    ensures forall ip | ip in places :: places[ip] != i
  {
    forall ip | ip in places ensures places[ip] != i { assert PlaceOk(records, places, ip); }
  }

  /** What the old table, of `n` slots, says about its record `i`. */
  ghost predicate FromOld(params: seq<Params>, hash: Hash, n: nat, all: Clients, wasAt: Places, wasLife: map<ClientIp, History>,
                          i: nat, r: Record)
    requires ConfigOk(params) && n > 0
  {
    && Loggable(r.ip) && r.ip in wasAt && wasAt[r.ip] == i < SLOT_SIZE * n && SlotOf(hash, r.ip, n) == i / SLOT_SIZE
    && r.ip in all && all[r.ip] == r
    && r.ip in wasLife && Explains(wasLife[r.ip], r, params)
    && (forall other | other in wasAt && wasAt[other] == i :: other == r.ip)
  }

  lemma OldRecord(params: seq<Params>, hash: Hash, was: Records, n: nat, wasAt: Places, wasLife: map<ClientIp, History>, i: nat)
    requires State(params, hash, was, n, wasAt, wasLife) && n > 0 && i < |was| && !Vacant(was[i])
    ensures FromOld(params, hash, n, Contents(was, wasAt), wasAt, wasLife, i, was[i])
  {
    var ip := was[i].ip;
    VacantNotPlaced(was, wasAt, i);
    assert EntryOk(was, wasAt, i);
    assert PlaceOk(was, wasAt, ip);
    assert CellOk(was, n, hash, i / SLOT_SIZE, i % SLOT_SIZE);
    assert ClientLived(Contents(was, wasAt), wasLife, params, ip);
    forall other | other in wasAt && wasAt[other] == i ensures other == ip { assert PlaceOk(was, wasAt, other); }
  }

  /** The record found for a client carries its address. */
  lemma PutBack(hash: Hash, slots: nat, places: Places, records: Records, ip: ClientIp)
    requires Table(records, slots, hash, places) && ip in places
    ensures places[ip] < |records| && records[places[ip]].ip == ip && Loggable(ip)
  {
    assert PlaceOk(records, places, ip);
  }

  /** One more for this service. */
  function Counted(totals: Totals, s: Service): Totals { totals[s := totals[s] + 1] }

  /** Every access counts, whether or not the client has a record. */
  function HitsAfter(totals: Totals, calls: seq<Call>): Totals {
    if calls == [] then totals
    else
      var before, c := HitsAfter(totals, calls[..|calls| - 1]), calls[|calls| - 1];
      if c.Access? then Counted(before, c.service) else before
  }

  ghost predicate Logged(r: Record, after: Record, params: seq<Params>, s: Service, now: U32) {
    && ConfigOk(params) && RecordOk(r, params) && RecordOk(after, params)
    && SameButService(r, after, s)
    && BucketOf(after, s) == Step(params[s], BucketOf(r, s), Hit(now))
    && after.hits[s] == (r.hits[s] + 1) % TWO32 && after.drops[s] == r.drops[s]
  }

  ghost predicate Limited(r: Record, after: Record, params: seq<Params>, s: Service, leak: bool) {
    && ConfigOk(params) && RecordOk(r, params) && RecordOk(after, params)
    && SameButService(r, after, s)
    && BucketOf(after, s) == Step(params[s], BucketOf(r, s), Response(leak))
    && after.hits[s] == r.hits[s]
    && after.drops[s] == if params[s].perHit > 0 && r.tokens[s] < params[s].perHit && !leak then (r.drops[s] + 1) % TWO16 else r.drops[s]
  }

  /** The record after a hit. */
  method Touch(r: Record, params: seq<Params>, s: Service, now: U32) returns (after: Record)
    requires ConfigOk(params) && RecordOk(r, params)
    ensures Logged(r, after, params, s, now)
  {
    var p, prev, tokens := params[s], r.lastHit[s], r.tokens[s];
    if prev != INVALID_TS && !Backwards(prev, now) {
      RefillFits(p, tokens, prev, now);
      tokens := Min(tokens + Earned(p, prev, now), p.maxTokens);
    }
    after := r.(lastHit := r.lastHit[s := now], hits := r.hits[s := (r.hits[s] + 1) % TWO32], tokens := r.tokens[s := tokens]);
  }

  /** The record after a response, and whether that response is dropped. */
  method Charge(r: Record, params: seq<Params>, s: Service, leak: bool) returns (after: Record, drop: bool)
    requires ConfigOk(params) && RecordOk(r, params)
    ensures Limited(r, after, params, s, leak)
    ensures drop <==> params[s].perHit > 0 && r.tokens[s] < params[s].perHit && !leak
  {
    if params[s].perHit == 0 {
      return r, false;
    }
    if r.tokens[s] >= params[s].perHit {
      return r.(tokens := r.tokens[s := r.tokens[s] - params[s].perHit]), false;
    }
    if leak {
      return r.(tokens := r.tokens[s := 0]), false;
    }
    return r.(drops := r.drops[s := (r.drops[s] + 1) % TWO16]), true;
  }

  /** The histories right after the client's record was found or created. */
  ghost predicate IsBase(life: map<ClientIp, History>, gone: Option<ClientIp>, client: ClientIp, base: map<ClientIp, History>) {
    && client in base && |base[client]| == MAX_SERVICES
    && if client in life then base == life else Admitted(life, gone, client, NO_HISTORY, base)
  }

  lemma ClientAt(params: seq<Params>, hash: Hash, records: Records, slots: nat, places: Places, life: map<ClientIp, History>, i: nat)
    requires State(params, hash, records, slots, places, life) && i < |records| && !Vacant(records[i])
    ensures records[i].ip in life && Explains(life[records[i].ip], records[i], params)
  {
    var ip := records[i].ip;
    VacantNotPlaced(records, places, i);
    assert EntryOk(records, places, i);
    assert PlaceOk(records, places, ip);
    assert ClientLived(Contents(records, places), life, params, ip);
  }

  predicate OrderlyClient(clients: Clients, ip: ClientIp, base: U32)
    requires ip in clients
  {
    |clients[ip].lastHit| == MAX_SERVICES && Orderly(LatestHit(clients[ip]), base)
  }

  predicate StalerClient(clients: Clients, v: ClientIp, ip: ClientIp, base: U32)
    requires v in clients && ip in clients
  {
    Staler(clients[v], clients[ip], base)
  }

  /** Of the clients in slot `k`, `v` was active least recently, if their latest hits are within half an era. */
  ghost predicate FirstToGo(clients: Clients, hash: Hash, slots: nat, k: nat, v: ClientIp, base: U32)
    requires slots > 0
  {
    v in clients
    && ((forall ip {:trigger OrderlyClient(clients, ip, base)} | ip in clients && SlotOf(hash, ip, slots) == k :: OrderlyClient(clients, ip, base)) ==>
          forall ip {:trigger StalerClient(clients, v, ip, base)} | ip in clients && SlotOf(hash, ip, slots) == k :: StalerClient(clients, v, ip, base))
  }

  lemma VictimIsFirst(records: Records, slots: nat, hash: Hash, places: Places, k: nat, o: nat, base: U32)
    requires slots > 0 && Table(records, slots, hash, places) && k < slots && o < SLOT_SIZE && |records| == SLOT_SIZE * slots
    requires forall d: nat {:trigger Occupied(records, k, d)} | d < SLOT_SIZE :: Occupied(records, k, d)
    requires Stalest(records, k, o, SLOT_SIZE, base)
    ensures FirstToGo(Contents(records, places), hash, slots, k, Cell(records, k, o).ip, base)
  {
    var clients, v := Contents(records, places), Cell(records, k, o).ip;
    assert Occupied(records, k, o);
    InCell(records, slots, hash, places, k, o);
    if forall ip {:trigger OrderlyClient(clients, ip, base)} | ip in clients && SlotOf(hash, ip, slots) == k :: OrderlyClient(clients, ip, base) {
      forall d: nat | d < SLOT_SIZE ensures OrderlyCell(records, k, d, base) {
        assert Occupied(records, k, d);
        InCell(records, slots, hash, places, k, d);
        assert OrderlyClient(clients, Cell(records, k, d).ip, base);
      }
      forall ip | ip in clients && SlotOf(hash, ip, slots) == k ensures StalerClient(clients, v, ip, base) {
        var d := CellOf(records, slots, hash, places, ip);
        InCell(records, slots, hash, places, k, d);
        assert StalerCell(records, k, o, d, base);
      }
    }
  }

  lemma InCell(records: Records, slots: nat, hash: Hash, places: Places, k: nat, d: nat)
    requires slots > 0 && Table(records, slots, hash, places) && k < slots && d < SLOT_SIZE && |records| == SLOT_SIZE * slots
    requires Occupied(records, k, d)
    ensures var ip := Cell(records, k, d).ip;
            ip in Contents(records, places) && Contents(records, places)[ip] == Cell(records, k, d) && SlotOf(hash, ip, slots) == k
  {
    var i := SLOT_SIZE * k + d;
    assert CellOk(records, slots, hash, k, d);
    assert EntryOk(records, places, i);
    assert PlaceOk(records, places, records[i].ip);
  }

  class ClientLog {
    const active: bool
    const maxSlots: nat
    const hash: Hash
    const params: seq<Params>

    var records: Records
    var slots: nat
    var totalRecordDrops: nat
    /** Hits and dropped responses of each service, whoever they were for. */
    var totalHits: Totals
    var totalDrops: Totals

    ghost var places: Places
    ghost var life: map<ClientIp, History>
    ghost var created: nat

    ghost predicate Sound()
      reads this
    {
      && State(params, hash, records, slots, places, life)
      && slots <= maxSlots
      && |places| + totalRecordDrops == created
    }

    ghost predicate Valid()
      reads this
    {
      Sound() && (active ==> slots > 0)
    }

    /** Records created, records evicted and the table only ever grow. */
    ghost predicate Progress(was: nat, wasDrops: nat, wasSlots: nat)
      reads this
    {
      was <= created && wasDrops <= totalRecordDrops && wasSlots <= slots
    }

    ghost function Clients(): Clients
      requires Sound()
      reads this
    {
      Contents(records, places)
    }

    ghost function Snap(): Snapshot
      reads this
    {
      Snapshot(records, slots, places, life, totalRecordDrops, created)
    }

    /** Writes a record for a client that has none into the first vacant cell of its slot. */
    method Fill(c: nat, ip: ClientIp)
      requires Sound() && slots > 0 && Loggable(ip) && ip !in places
      requires FirstVacant(records, SlotOf(hash, ip, slots), c)
      modifies this`records, this`slots, this`totalRecordDrops, this`places, this`life, this`created
      ensures Sound() && slots == old(slots)
      ensures var i := SLOT_SIZE * SlotOf(hash, ip, slots) + c;
              records == old(records)[i := NewRecord(ip, params)] && places == old(places)[ip := i]
      ensures Clients() == old(Clients())[ip := NewRecord(ip, params)]
      ensures life == old(life)[ip := NO_HISTORY]
      ensures totalRecordDrops == old(totalRecordDrops) && created == old(created) + 1
    {
      var i := SLOT_SIZE * SlotOf(hash, ip, slots) + c;
      var r := NewRecord(ip, params);
      StateFill(params, hash, records, slots, places, life, c, ip);
      records := records[i := r];
      places, life, created := places[ip := i], life[ip := NO_HISTORY], created + 1;
    }

    /** Overwrites a client's record, together with the history that explains it. */
    method Put(i: nat, r: Record, ghost h: History)
      requires Sound() && i < |records| && !Vacant(records[i]) && r.ip == records[i].ip && Explains(h, r, params)
      modifies this`records, this`life
      ensures Sound() && records == old(records)[i := r] && life == old(life)[r.ip := h]
      ensures Clients() == old(Clients())[r.ip := r]
    {
      StatePut(params, hash, records, slots, places, life, i, r, h);
      records := records[i := r];
      life := life[r.ip := h];
    }

    /** Writes a record for a client that has none over another record of its slot. */
    method Evict(c: nat, ip: ClientIp) returns (ghost gone: ClientIp)
      requires Sound() && slots > 0 && Loggable(ip) && ip !in places
      requires c < SLOT_SIZE && Occupied(records, SlotOf(hash, ip, slots), c)
      modifies this`records, this`slots, this`totalRecordDrops, this`places, this`life, this`created
      ensures Sound() && slots == old(slots)
      ensures gone in old(places) && SlotOf(hash, gone, slots) == SlotOf(hash, ip, slots)
      ensures gone == old(Cell(records, SlotOf(hash, ip, slots), c).ip)
      ensures ip in places && places[ip] == SLOT_SIZE * SlotOf(hash, ip, slots) + c
      ensures Clients() == (old(Clients()) - {gone})[ip := NewRecord(ip, params)]
      ensures life == (old(life) - {gone})[ip := NO_HISTORY]
      ensures totalRecordDrops == old(totalRecordDrops) + 1 && created == old(created) + 1
    {
      var i := SLOT_SIZE * SlotOf(hash, ip, slots) + c;
      var r := NewRecord(ip, params);
      gone := records[i].ip;
      StateWrite(params, hash, records, slots, places, life, c, ip);
      SlotMate(hash, records, slots, places, c, ip, i);
      records := records[i := r];
      totalRecordDrops := totalRecordDrops + 1;
      places, life, created := (places - {gone})[ip := i], (life - {gone})[ip := NO_HISTORY], created + 1;
    }

    /**
      `get_record`.  A logged client is found and nothing changes.  A new one gets a full-bucket
      record; another client loses its record only if the table cannot double any more, and
      then it is one of the same slot.
     */
    method GetRecord(ip: ClientIp) returns (r: Option<nat>, ghost gone: Option<ClientIp>)
      requires Valid()
      modifies this`records, this`slots, this`totalRecordDrops, this`places, this`life, this`created
      ensures Valid() && Progress(old(created), old(totalRecordDrops), old(slots))
      ensures r.Some? <==> active && Loggable(ip)
      ensures r.None? || ip in old(places) ==> Snap() == old(Snap())
      ensures r.Some? ==> ip in places && r.value == places[ip]
      ensures r.Some? && ip !in old(places) ==>
                && Admitted(old(Clients()), gone, ip, NewRecord(ip, params), Clients())
                && Admitted(old(life), gone, ip, NO_HISTORY, life)
                && created == old(created) + 1
                && totalRecordDrops == old(totalRecordDrops) + (if gone.Some? then 1 else 0)
      ensures gone.Some? ==> 2 * slots > maxSlots && gone.value != ip && SlotOf(hash, gone.value, slots) == SlotOf(hash, ip, slots)
      ensures gone.Some? ==>
                forall base: U32 {:trigger FirstToGo(old(Clients()), hash, slots, SlotOf(hash, ip, slots), gone.value, base)} ::
                  FirstToGo(old(Clients()), hash, slots, SlotOf(hash, ip, slots), gone.value, base)
      ensures r.Some? && ip !in old(places) && old(Room(records, slots, hash, ip)) ==>
                gone.None? && slots == old(slots) && FilledIn(old(records), slots, hash, ip, NewRecord(ip, params), r.value, records)
      decreases maxSlots - slots, 3
    {
      gone := None;
      if !active || !Loggable(ip) {
        return None, None;
      }
      var s := FindCell(ip);
      if s.Found? {
        FoundIs(records, slots, hash, places, ip, s.cell);
        return Some(SLOT_SIZE * SlotOf(hash, ip, slots) + s.cell), None;
      }
      var i;
      i, gone := AddClient(ip, s);
      r := Some(i);
    }

    /** The end of `get_record`: a new record, in the vacant cell or over the oldest record. */
    method AddClient(ip: ClientIp, s: Scan) returns (i: nat, ghost gone: Option<ClientIp>)
      requires Valid() && slots > 0 && Loggable(ip) && Scanned(records, SlotOf(hash, ip, slots), ip, s) && !s.Found?
      requires s.Full? ==> AllStalest(records, SlotOf(hash, ip, slots), s.oldest)
      modifies this`records, this`slots, this`totalRecordDrops, this`places, this`life, this`created
      ensures Valid() && slots == old(slots)
      ensures ip in places && i == places[ip] && ip !in old(places)
      ensures Admitted(old(Clients()), gone, ip, NewRecord(ip, params), Clients())
      ensures Admitted(old(life), gone, ip, NO_HISTORY, life)
      ensures created == old(created) + 1
      ensures totalRecordDrops == old(totalRecordDrops) + (if gone.Some? then 1 else 0)
      ensures gone.Some? <==> s.Full?
      ensures gone.Some? ==> gone.value != ip && SlotOf(hash, gone.value, slots) == SlotOf(hash, ip, slots)
      ensures s.Full? ==> !old(Room(records, slots, hash, ip))
      ensures gone.Some? ==>
                forall base: U32 {:trigger FirstToGo(old(Clients()), hash, slots, SlotOf(hash, ip, slots), gone.value, base)} ::
                  FirstToGo(old(Clients()), hash, slots, SlotOf(hash, ip, slots), gone.value, base)
      ensures s.Free? ==> FilledIn(old(records), slots, hash, ip, NewRecord(ip, params), i, records)
    {
      var k := SlotOf(hash, ip, slots);
      match s {
        case Free(c) =>
          Absent(records, slots, hash, places, ip, c);
          Fill(c, ip);
          return SLOT_SIZE * k + c, None;
        case Full(o) =>
          Absent(records, slots, hash, places, ip, SLOT_SIZE);
          assert Occupied(records, k, SLOT_SIZE - 1);
          assert Occupied(records, k, o);
          ghost var clients, v := Clients(), Cell(records, k, o).ip;
          forall base: U32 {:trigger FirstToGo(clients, hash, slots, k, v, base)} ensures FirstToGo(clients, hash, slots, k, v, base) {
            assert Stalest(records, k, o, SLOT_SIZE, base);
            VictimIsFirst(records, slots, hash, places, k, o, base);
          }
          var lost := Evict(o, ip);
          return SLOT_SIZE * k + o, Some(lost);
      }
    }

    /** The loop of `get_record`: look through the slot, doubling the table while it is full and may grow. */
    method FindCell(ip: ClientIp) returns (s: Scan)
      requires Valid() && active && Loggable(ip)
      modifies this`records, this`slots, this`totalRecordDrops, this`places, this`life, this`created
      ensures Valid() && old(slots) <= slots
      ensures Scanned(records, SlotOf(hash, ip, slots), ip, s) && (s.Full? ==> 2 * slots > maxSlots)
      ensures s.Full? ==> AllStalest(records, SlotOf(hash, ip, slots), s.oldest)
      ensures Clients() == old(Clients()) && life == old(life) && places.Keys == old(places).Keys
      ensures totalRecordDrops == old(totalRecordDrops) && created == old(created)
      ensures if slots == old(slots) then Snap() == old(Snap()) else ip !in old(places) && !old(Room(records, slots, hash, ip))
      decreases maxSlots - slots, 2
    {
      while true
        invariant Valid() && old(slots) <= slots
        invariant Clients() == old(Clients()) && life == old(life) && places.Keys == old(places).Keys
        invariant totalRecordDrops == old(totalRecordDrops) && created == old(created)
        invariant if slots == old(slots) then Snap() == old(Snap()) else ip !in old(places) && !old(Room(records, slots, hash, ip))
        decreases maxSlots - slots
      {
        var k := SlotOf(hash, ip, slots);
        s := ScanSlot(records, params, k, ip);
        if !s.Full? {
          return;
        }
        Absent(records, slots, hash, places, ip, SLOT_SIZE);
        assert Occupied(records, k, SLOT_SIZE - 1);
        var grown := ExpandHashtable();
        if !grown {
          return;
        }
      }
    }

    /**
      `expand_hashtable`.  Doubling keeps every client, its record and its history; it evicts
      nobody and creates nothing.
     */
    method ExpandHashtable() returns (grown: bool)
      requires Sound() && active && MIN_SLOTS <= maxSlots
      modifies this`records, this`slots, this`totalRecordDrops, this`places, this`life, this`created
      ensures Valid()
      ensures grown <==> old(slots) == 0 || 2 * old(slots) <= maxSlots
      ensures if grown then slots == Max(MIN_SLOTS, 2 * old(slots)) else Snap() == old(Snap())
      ensures Clients() == old(Clients()) && life == old(life) && places.Keys == old(places).Keys
      ensures totalRecordDrops == old(totalRecordDrops) && created == old(created)
      decreases maxSlots - slots, 1
    {
      if |records| != 0 && 2 * slots > maxSlots {
        return false;
      }
      var was := records;
      ghost var n, wasAt, wasLife, all := slots, places, life, Clients();
      SameKeys(records, places);
      Clear(Max(MIN_SLOTS, 2 * slots));
      if |was| == 0 {
        NoPlaces(was, wasAt);
        return true;
      }
      Rebuild(was, n, all, wasAt, wasLife);
      return true;
    }

    /** A new, empty table. */
    method Clear(size: nat)
      requires ConfigOk(params) && MIN_SLOTS <= size <= maxSlots
      modifies this`records, this`slots, this`totalRecordDrops, this`places, this`life, this`created
      ensures Valid() && slots == size && records == seq(SLOT_SIZE * size, _ => VACANT)
      ensures Clients() == map[] && life == map[] && places == map[]
      ensures totalRecordDrops == old(totalRecordDrops) == created
    {
      slots := size;
      records := seq(SLOT_SIZE * slots, _ => VACANT);
      places, life, created := map[], map[], totalRecordDrops;
      EmptyState(params, hash, slots, records);
    }

    /** The loop of `expand_hashtable`: every old record goes back into the doubled table. */
    method Rebuild(was: Records, ghost n: nat, ghost all: Clients, ghost wasAt: Places, ghost wasLife: map<ClientIp, History>)
      requires Valid() && active && n > 0 && slots == 2 * n && records == seq(SLOT_SIZE * (2 * n), _ => VACANT)
      requires Clients() == map[] && life == map[]
      requires State(params, hash, was, n, wasAt, wasLife) && all == Contents(was, wasAt)
      modifies this`records, this`slots, this`totalRecordDrops, this`places, this`life, this`created
      ensures Valid() && slots == 2 * n && totalRecordDrops == old(totalRecordDrops)
      ensures Clients() == all && life == wasLife && places.Keys == wasAt.Keys
      decreases maxSlots - slots, 6
    {
      SameKeys(was, wasAt);
      EmptyBehind(records, n);
      EmptyCarried(all, wasAt);
      var i := 0;
      while i < |was|
        invariant i <= |was|
        invariant Valid() && slots == 2 * n
        invariant Behind(records, n, i) && Carried(all, wasAt, i, Clients()) && Restored(life, wasLife)
        invariant totalRecordDrops == old(totalRecordDrops)
      {
        if Vacant(was[i]) {
          BehindSkips(records, n, i);
          VacantUnplaced(was, wasAt, i);
          CarriedSkip(all, wasAt, i, Clients());
        } else {
          OldRecord(params, hash, was, n, wasAt, wasLife, i);
          Reinsert(was[i], i, n, all, wasAt, wasLife);
        }
        i := i + 1;
      }
      PlacesBelow(was, wasAt);
      CarriedAll(all, wasAt, i, Clients());
      SameKeys(records, places);
      RestoredAll(life, wasLife);
    }

    /** The lookup of a new client whose slot has room. */
    method CreateRecord(ip: ClientIp) returns (idx: nat)
      requires Valid() && active && slots > 0 && Loggable(ip) && ip !in places && Room(records, slots, hash, ip)
      modifies this`records, this`slots, this`totalRecordDrops, this`places, this`life, this`created
      ensures Valid() && slots == old(slots) && totalRecordDrops == old(totalRecordDrops) && ip in places && idx == places[ip]
      ensures FilledIn(old(records), slots, hash, ip, NewRecord(ip, params), idx, records)
      ensures Clients() == old(Clients())[ip := NewRecord(ip, params)] && life == old(life)[ip := NO_HISTORY]
      decreases maxSlots - slots, 4
    {
      var found, gone := GetRecord(ip);
      idx := found.value;
    }

    /** The body of the loop of `expand_hashtable`: look the client up, then copy its record. */
    method Reinsert(r: Record, ghost i: nat, ghost n: nat, ghost all: Clients, ghost wasAt: Places, ghost wasLife: map<ClientIp, History>)
      requires Valid() && active && n > 0 && slots == 2 * n
      requires FromOld(params, hash, n, all, wasAt, wasLife, i, r)
      requires Behind(records, n, i) && Carried(all, wasAt, i, Clients()) && Restored(life, wasLife)
      modifies this`records, this`slots, this`totalRecordDrops, this`places, this`life, this`created
      ensures Valid() && slots == 2 * n && totalRecordDrops == old(totalRecordDrops)
      ensures Behind(records, n, i + 1) && Carried(all, wasAt, i + 1, Clients()) && Restored(life, wasLife)
      decreases maxSlots - slots, 5
    {
      BehindHasRoom(records, n, i, hash, r.ip);
      CarriedStep(all, wasAt, i, Clients(), r.ip);
      SameKeys(records, places);
      ghost var before, clients := records, Clients();
      var idx := CreateRecord(r.ip);
      PutBack(hash, slots, places, records, r.ip);
      Advance(params, before, clients, all, wasAt, wasLife, n, i, hash, NewRecord(r.ip, params), r, idx, records);
      RestoredPut(life, wasLife, r.ip);
      Put(idx, r, wasLife[r.ip]);
    }

    // ---- Requests and responses.

    constructor (active: bool, maxSlots: nat, hash: Hash, params: seq<Params>)
      requires ConfigOk(params) && MIN_SLOTS <= maxSlots
      ensures Valid() && this.active == active && this.maxSlots == maxSlots && this.hash == hash && this.params == params
      ensures totalHits == totalDrops == [0, 0, 0] && Clients() == map[] && created == totalRecordDrops == 0 && slots == if active then MIN_SLOTS else 0
    {
      this.active, this.maxSlots, this.hash, this.params := active, maxSlots, hash, params;
      records, slots, totalRecordDrops := [], 0, 0;
      totalHits, totalDrops := [0, 0, 0], [0, 0, 0];
      places, life, created := map[], map[], 0;
      new;
      EmptyState(params, hash, 0, records);
      if active {
        var _ := ExpandHashtable();
      }
    }

    /** `update_record`, without the rate estimate. */
    method UpdateRecord(s: Service, i: nat, now: U32)
      requires Valid() && i < |records| && !Vacant(records[i])
      modifies this`records, this`life
      ensures Valid()
      ensures var r := old(records[i]); Logged(r, records[i], params, s, now) && records == old(records)[i := records[i]]
      ensures var ip := old(records[i].ip);
              && ip in old(life) && |old(life)[ip]| == MAX_SERVICES
              && life == old(life)[ip := Recorded(old(life)[ip], s, Hit(now))]
    {
      var r := records[i];
      ClientAt(params, hash, records, slots, places, life, i);
      var after := Touch(r, params, s, now);
      StepExplained(life[r.ip], r, params, s, Hit(now), after);
      Put(i, after, Recorded(life[r.ip], s, Hit(now)));
    }

    /** `log_service_access`: find or create the client's record and log the hit. */
    method LogServiceAccess(s: Service, client: ClientIp, now: U32)
      returns (r: Option<nat>, ghost gone: Option<ClientIp>, ghost base: map<ClientIp, History>)
      requires Valid()
      modifies this`records, this`slots, this`totalRecordDrops, this`places, this`life, this`created, this`totalHits
      ensures Valid() && Progress(old(created), old(totalRecordDrops), old(slots))
      ensures totalHits == Counted(old(totalHits), s)
      ensures r.Some? <==> active && Loggable(client)
      ensures r.None? ==> Snap() == old(Snap())
      ensures r.Some? ==> r.value < |records| && records[r.value].ip == client
      ensures r.Some? ==> IsBase(old(life), gone, client, base) && life == base[client := Recorded(base[client], s, Hit(now))]
    {
      totalHits := Counted(totalHits, s);
      r, gone := GetRecord(client);
      base := life;
      if r.Some? {
        PutBack(hash, slots, places, records, client);
        ClientAt(params, hash, records, slots, places, life, r.value);
        UpdateRecord(s, r.value, now);
      }
    }

    /**
      `limit_service_rate`.  A response is dropped only when the service is limited, the bucket
      cannot pay and the leak did not let it through; otherwise it is paid for, or the bucket
      is emptied.
     */
    method LimitServiceRate(s: Service, i: nat, leak: bool) returns (drop: bool)
      requires Valid() && i < |records|
      modifies this`records, this`life, this`totalDrops
      ensures Valid() && totalDrops == if drop then Counted(old(totalDrops), s) else old(totalDrops)
      ensures var r := old(records[i]);
              && Limited(r, records[i], params, s, leak) && records == old(records)[i := records[i]]
              && (drop <==> params[s].perHit > 0 && r.tokens[s] < params[s].perHit && !leak)
              && records[i].tokens[s] == (if params[s].perHit == 0 || drop then r.tokens[s] else Max(r.tokens[s] - params[s].perHit, 0))
              && records[i].drops[s] == if drop then (r.drops[s] + 1) % TWO16 else r.drops[s]
      ensures if old(Vacant(records[i])) then life == old(life) else
                var ip := old(records[i].ip);
                && ip in old(life) && |old(life)[ip]| == MAX_SERVICES
                && life == old(life)[ip := Recorded(old(life)[ip], s, Response(leak))]
    {
      var r := records[i];
      assert RecordOk(records[i], params);
      var after;
      after, drop := Charge(r, params, s, leak);
      if Vacant(r) {
        StateBlank(params, hash, records, slots, places, life, i, after);
        records := records[i := after];
      } else {
        ClientAt(params, hash, records, slots, places, life, i);
        StepExplained(life[r.ip], r, params, s, Response(leak), after);
        Put(i, after, Recorded(life[r.ip], s, Response(leak)));
      }
      if drop {
        totalDrops := Counted(totalDrops, s);
      }
    }

    /** What was paid to a client and what it may still spend, in tokens of the service. */
    ghost function Spent(ip: ClientIp, s: Service): nat
      requires Valid() && ip in places
      reads this
    {
      Explained(ip, s);
      Paid(params[s], life[ip][s]) * params[s].perHit + Clients()[ip].tokens[s]
    }

    lemma Explained(ip: ClientIp, s: Service)
      requires Valid() && ip in places
      ensures ip in life && |life[ip]| == MAX_SERVICES && ip in Clients() && RecordOk(Clients()[ip], params)
      ensures Clients()[ip].tokens[s] == Run(params[s], life[ip][s]).tokens
    {
      SameKeys(records, places);
      assert ClientLived(Clients(), life, params, ip);
      assert ServiceExplained(life[ip], Clients()[ip], params, s);
    }

    /** The record of a client counts all its hits and dropped responses since it was created, modulo their widths. */
    lemma CountsEverything(ip: ClientIp, s: Service)
      requires Valid() && ip in places
      ensures ip in life && |life[ip]| == MAX_SERVICES && ip in Clients() && RecordOk(Clients()[ip], params)
      ensures Clients()[ip].hits[s] == |Hits(life[ip][s])| % TWO32
      ensures Clients()[ip].drops[s] == Dropped(params[s], life[ip][s]) % TWO16
    {
      Explained(ip, s);
      assert ClientLived(Clients(), life, params, ip);
      assert ServiceExplained(life[ip], Clients()[ip], params, s);
    }

    /**
      At every moment of every run, and whatever else happened to the table meanwhile, no
      logged client has spent more than one full bucket plus what its hits earned; and if their
      times never decreased, that is the refill of the time between the first and the last hit.
     */
    lemma EveryClientIsLimited(ip: ClientIp, s: Service)
      requires Valid() && ip in places
      ensures ip in life && |life[ip]| == MAX_SERVICES
      ensures Spent(ip, s) <= params[s].maxTokens + TotalGain(params[s], Hits(life[ip][s]))
      ensures NonDecreasing(Hits(life[ip][s])) ==> Spent(ip, s) <= params[s].maxTokens + Lifetime(params[s], Hits(life[ip][s]))
    {
      Explained(ip, s);
      AnyTimesBudget(params[s], life[ip][s]);
      if NonDecreasing(Hits(life[ip][s])) { TokenBudget(params[s], life[ip][s]); }
    }

    /**
      What a client can rely on: if it keeps the configured interval, and is answered once for
      each hit, every response so far was paid for, and after a hit the next one will be.
     */
    lemma PoliteClientIsServed(ip: ClientIp, s: Service)
      requires Valid() && ip in places && ip in life && |life[ip]| == MAX_SERVICES && params[s].perHit > 0
      requires OnePerHit(life[ip][s]) && Spaced(params[s], Hits(life[ip][s]))
      ensures Paid(params[s], life[ip][s]) == Responses(life[ip][s])
      ensures ip in Clients() && RecordOk(Clients()[ip], params) && Clients()[ip].drops[s] == 0
      ensures var h := life[ip][s]; h != [] && h[|h| - 1].Hit? ==> Clients()[ip].tokens[s] >= params[s].perHit
    {
      var h := life[ip][s];
      Explained(ip, s);
      CountsEverything(ip, s);
      PoliteIsServed(params[s], h);
      PaidOrDropped(params[s], h);
      if h != [] && h[|h| - 1].Hit? { PaysAfterHit(params[s], h); }
    }

    /** ... and whatever it does, its first responses are paid for, as many as fit a full bucket. */
    lemma FirstBurstOfClient(ip: ClientIp, s: Service, burst: nat)
      requires Valid() && ip in places && ip in life && |life[ip]| == MAX_SERVICES && params[s].perHit > 0
      requires burst * params[s].perHit <= params[s].maxTokens && Responses(life[ip][s]) <= burst
      ensures Paid(params[s], life[ip][s]) == Responses(life[ip][s])
      ensures ip in Clients() && RecordOk(Clients()[ip], params) && Clients()[ip].drops[s] == 0
    {
      CountsEverything(ip, s);
      PaidOrDropped(params[s], life[ip][s]);
      FirstBurstIsServed(params[s], life[ip][s], burst);
    }

    /** The same in true time, over any number of wraps of the 32-bit time. */
    lemma EveryClientIsLimitedForever(ip: ClientIp, s: Service, clock: seq<nat>)
      requires Valid() && ip in places && ip in life && |life[ip]| == MAX_SERVICES && Reads(Hits(life[ip][s]), clock)
      ensures clock != [] ==> clock[0] <= clock[|clock| - 1]
      ensures Spent(ip, s) <= params[s].maxTokens + Span(params[s], clock) + Extra(params[s], Wraps(Hits(life[ip][s])))
    {
      Explained(ip, s);
      ClockBudget(params[s], life[ip][s], clock);
    }

    ghost predicate WithinBudget(ip: ClientIp, s: Service)
      requires Valid() && ip in places
      reads this
    {
      && ip in life && |life[ip]| == MAX_SERVICES
      && Spent(ip, s) <= params[s].maxTokens + TotalGain(params[s], Hits(life[ip][s]))
    }

    method Apply(c: Call)
      requires Valid()
      modifies this
      ensures Valid() && Progress(old(created), old(totalRecordDrops), old(slots))
      ensures totalHits == HitsAfter(old(totalHits), [c])
    {
      assert [c][..0] == [];
      match c
      case Access(s, client, now) => var _, _, _ := LogServiceAccess(s, client, now);
      case Lookup(client) => var _, _ := GetRecord(client);
      case Limit(s, i, leak) =>
        if i < |records| {
          var _ := LimitServiceRate(s, i, leak);
        }
    }

    /** Every run of the calls keeps the table, its counts, and every client within its budget. */
    method Replay(calls: seq<Call>)
      requires Valid()
      modifies this
      ensures Valid() && Progress(old(created), old(totalRecordDrops), old(slots))
      ensures |places| + totalRecordDrops == created && totalHits == HitsAfter(old(totalHits), calls)
      ensures forall ip, s: Service {:trigger WithinBudget(ip, s)} | ip in places :: WithinBudget(ip, s)
    {
      for i := 0 to |calls|
        invariant Valid() && Progress(old(created), old(totalRecordDrops), old(slots))
        invariant totalHits == HitsAfter(old(totalHits), calls[..i])
      {
        assert calls[..i + 1][..i] == calls[..i] && [calls[i]][..0] == [];
        Apply(calls[i]);
      }
      assert calls[..|calls|] == calls;
      forall ip, s: Service {:trigger WithinBudget(ip, s)} | ip in places ensures WithinBudget(ip, s) {
        EveryClientIsLimited(ip, s);
      }
    }
  }
}
