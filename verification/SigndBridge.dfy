/**
  The asynchronous client of the signing daemon: a ring of sixteen slots, driven by enqueues
  and by writable and readable events of one stream socket.  The host's answers (was a socket
  obtained, how much was written, what was read) are parameters.
 */
module SigndBridges {
  import opened Common
  import opened SigndFrames

  const MAX_QUEUE_LENGTH: nat := 16

  datatype SignInstance = SignInstance(remote: U64, local: U64, fd: I32, sent: nat, received: nat, request: Bytes, response: Bytes)

  const UNUSED: SignInstance := SignInstance(0, 0, 0, 0, 0, [], [])

  /** A signed packet handed to the NTP send path, with the request it answers and its frame. */
  datatype Emission = Emission(serial: nat, frame: Bytes, packet: Bytes, remote: U64, local: U64)

  /** What may happen to the bridge: a client asks, the socket is writable, the socket is readable. */
  datatype Event =
    | Sign(opens: bool, keyId: U32, packet: Bytes, infoLength: int, remote: U64, local: U64, fd: I32)
    | Writable(res: int)
    | Readable(data: Option<Bytes>, serverSocket: bool)

  function Next(i: nat): (n: nat)
    requires i < MAX_QUEUE_LENGTH
    ensures n < MAX_QUEUE_LENGTH
  {
    if i + 1 == MAX_QUEUE_LENGTH then 0 else i + 1
  }

  /** How many requests wait between `head` and `tail`. */
  function Count(head: nat, tail: nat): (n: nat)
    requires head < MAX_QUEUE_LENGTH && tail < MAX_QUEUE_LENGTH
    ensures n < MAX_QUEUE_LENGTH
  {
    if head <= tail then tail - head else tail + MAX_QUEUE_LENGTH - head
  }

  /** The slot of the `j`-th waiting request. */
  function SlotAt(head: nat, j: nat): (i: nat)
    requires head < MAX_QUEUE_LENGTH && j < MAX_QUEUE_LENGTH
    ensures i < MAX_QUEUE_LENGTH
  {
    if head + j < MAX_QUEUE_LENGTH then head + j else head + j - MAX_QUEUE_LENGTH
  }

  /** `a` starts `b`. */
  predicate Starts(a: Bytes, b: Bytes) { a <= b }

  /** A waiting request: what the queue slot remembers of it, and what went over the wire. */
  predicate Waits(inst: SignInstance, q: Request, wire: Bytes, slot: nat) {
    && q.slot == slot && WellFormed(q)
    && inst.request == Serialised(q) && inst.remote == q.remote && inst.local == q.local && inst.fd == q.fd
    && inst.sent <= |inst.request| && wire == inst.request[..inst.sent]
    && |inst.response| == RESPONSE_SIZE && inst.received <= RESPONSE_SIZE
    && Judge(inst.response[..inst.received]).Waiting?
  }

  predicate Untouched(inst: SignInstance) { inst.sent == 0 && inst.received == 0 }

  /** The slot of a request just accepted. */
  function Fresh(q: Request): (inst: SignInstance)
    requires WellFormed(q)
    ensures Waits(inst, q, [], q.slot) && Untouched(inst)
  {
    SignInstance(q.remote, q.local, q.fd, 0, 0, Serialised(q), Repeated(0, RESPONSE_SIZE))
  }

  /** At most slot `i` differs. */
  ghost predicate OthersKept(before: seq<SignInstance>, i: nat, after: seq<SignInstance>) {
    |after| == |before| && forall j | 0 <= j < |before| && j != i :: after[j] == before[j]
  }

  predicate EntryOk(queue: seq<SignInstance>, head: nat, accepted: seq<Request>, wires: seq<Bytes>, first: nat, j: nat)
    requires |queue| == MAX_QUEUE_LENGTH && head < MAX_QUEUE_LENGTH && j < MAX_QUEUE_LENGTH
    requires first + j < |accepted| == |wires|
  {
    var i := SlotAt(head, j);
    Waits(queue[i], accepted[first + j], wires[first + j], i) && (j > 0 ==> Untouched(queue[i]))
  }

  /** The waiting requests are the last accepted ones, in order; only the first is under way. */
  ghost predicate QueueOk(queue: seq<SignInstance>, head: nat, tail: nat, accepted: seq<Request>, wires: seq<Bytes>) {
    && |queue| == MAX_QUEUE_LENGTH && head < MAX_QUEUE_LENGTH && tail < MAX_QUEUE_LENGTH
    && |accepted| == |wires| && Count(head, tail) <= |accepted|
    && var first := |accepted| - Count(head, tail);
       forall j: nat {:trigger EntryOk(queue, head, accepted, wires, first, j)} | j < Count(head, tail) ::
         EntryOk(queue, head, accepted, wires, first, j)
  }

  /** Reused slots keep a request that was at most written to its end. */
  ghost predicate SlotsOk(queue: seq<SignInstance>) {
    forall i {:trigger SlotOk(queue[i])} | 0 <= i < |queue| :: SlotOk(queue[i])
  }

  predicate SlotOk(inst: SignInstance) { inst.sent <= |inst.request| }

  lemma SlotChanged(queue: seq<SignInstance>, i: nat, inst: SignInstance)
    requires SlotsOk(queue) && i < |queue| && SlotOk(inst)
    ensures SlotsOk(queue[i := inst])
  {}

  predicate WireOk(accepted: seq<Request>, wires: seq<Bytes>, k: nat)
    requires k < |accepted| == |wires|
  {
    WellFormed(accepted[k]) && Starts(wires[k], Serialised(accepted[k]))
  }

  ghost predicate WiresOk(accepted: seq<Request>, wires: seq<Bytes>) {
    && |accepted| == |wires|
    && (forall k: nat {:trigger WireOk(accepted, wires, k)} | k < |accepted| :: WireOk(accepted, wires, k))
  }

  /** The emission answers its request: same slot id, success, the frame's payload, the recorded addresses. */
  ghost predicate Answers(e: Emission, q: Request) {
    && RESPONSE_HEADER <= |e.frame| <= RESPONSE_SIZE
    && FromBe32(e.frame[..4]) + 4 == |e.frame|
    && FromBe32(e.frame[8..12]) == SIGNING_SUCCESS
    && FromBe32(e.frame[12..16]) == q.slot
    && e.packet == e.frame[RESPONSE_HEADER..]
    && e.remote == q.remote && e.local == q.local
  }

  ghost predicate EmissionOk(emitted: seq<Emission>, accepted: seq<Request>, below: nat, i: nat)
    requires i < |emitted|
  {
    && emitted[i].serial < below <= |accepted|
    && Answers(emitted[i], accepted[emitted[i].serial])
    && (i > 0 ==> emitted[i - 1].serial < emitted[i].serial)
  }

  /** Every emission answers a request before the head; at most one each, in queue order. */
  ghost predicate EmissionsOk(emitted: seq<Emission>, accepted: seq<Request>, below: nat) {
    forall i: nat {:trigger EmissionOk(emitted, accepted, below, i)} | i < |emitted| :: EmissionOk(emitted, accepted, below, i)
  }

  lemma {:induction false} AtMostOneEach(emitted: seq<Emission>, accepted: seq<Request>, below: nat, i: nat, j: nat)
    requires EmissionsOk(emitted, accepted, below) && i < j < |emitted|
    ensures emitted[i].serial < emitted[j].serial
    decreases j - i
  {
    assert EmissionOk(emitted, accepted, below, j);
    if i + 1 < j { AtMostOneEach(emitted, accepted, below, i, j - 1); }
  }

  // ---- Steps of the queue.

  lemma Enqueued(queue: seq<SignInstance>, head: nat, tail: nat, accepted: seq<Request>, wires: seq<Bytes>, inst: SignInstance, q: Request)
    requires QueueOk(queue, head, tail, accepted, wires) && Next(tail) != head
    requires Waits(inst, q, [], tail) && Untouched(inst)
    ensures QueueOk(queue[tail := inst], head, Next(tail), accepted + [q], wires + [[]])
    ensures Count(head, Next(tail)) == Count(head, tail) + 1
  {
    var n, first := Count(head, tail), |accepted| - Count(head, tail);
    var queue', accepted', wires' := queue[tail := inst], accepted + [q], wires + [[]];
    forall j: nat | j < n + 1 ensures EntryOk(queue', head, accepted', wires', first, j) {
      if j < n { assert EntryOk(queue, head, accepted, wires, first, j); }
    }
  }

  /** The head's slot changes: more written or more read. */
  lemma HeadChanged(queue: seq<SignInstance>, head: nat, tail: nat, accepted: seq<Request>, wires: seq<Bytes>, inst: SignInstance, wire: Bytes)
    requires QueueOk(queue, head, tail, accepted, wires) && head != tail
    requires Waits(inst, accepted[|accepted| - Count(head, tail)], wire, head)
    ensures QueueOk(queue[head := inst], head, tail, accepted, wires[|accepted| - Count(head, tail) := wire])
  {
    var n, first := Count(head, tail), |accepted| - Count(head, tail);
    var queue', wires' := queue[head := inst], wires[first := wire];
    forall j: nat | j < n ensures EntryOk(queue', head, accepted, wires', first, j) {
      assert EntryOk(queue, head, accepted, wires, first, j);
    }
  }

  lemma Dequeued(queue: seq<SignInstance>, head: nat, tail: nat, accepted: seq<Request>, wires: seq<Bytes>, inst: SignInstance)
    requires QueueOk(queue, head, tail, accepted, wires) && head != tail
    ensures QueueOk(queue[head := inst], Next(head), tail, accepted, wires)
    ensures Count(Next(head), tail) == Count(head, tail) - 1
    ensures Next(head) != tail ==> Untouched(queue[Next(head)]) && |queue[Next(head)].request| == REQUEST_HEADER + NTP_HEADER_LENGTH
  {
    var n, first := Count(head, tail), |accepted| - Count(head, tail);
    var queue' := queue[head := inst];
    var head', first' := Next(head), first + 1;
    forall j: nat | j < n - 1 ensures EntryOk(queue', head', accepted, wires, first', j) {
      assert EntryOk(queue, head, accepted, wires, first, j + 1);
      assert SlotAt(head', j) == SlotAt(head, j + 1);
    }
    if head' != tail { assert EntryOk(queue, head, accepted, wires, first, 1); }
  }

  lemma EmptyChanged(queue: seq<SignInstance>, head: nat, accepted: seq<Request>, wires: seq<Bytes>, inst: SignInstance)
    requires QueueOk(queue, head, head, accepted, wires)
    ensures QueueOk(queue[head := inst], head, head, accepted, wires)
  {}

  lemma HeadWaits(queue: seq<SignInstance>, head: nat, tail: nat, accepted: seq<Request>, wires: seq<Bytes>)
    requires QueueOk(queue, head, tail, accepted, wires) && head != tail
    ensures var k := |accepted| - Count(head, tail); Waits(queue[head], accepted[k], wires[k], head)
  {
    assert EntryOk(queue, head, accepted, wires, |accepted| - Count(head, tail), 0);
  }

  lemma EmissionsGrow(emitted: seq<Emission>, accepted: seq<Request>, below: nat, more: seq<Request>, above: nat)
    requires EmissionsOk(emitted, accepted, below) && below <= above <= |accepted + more|
    ensures EmissionsOk(emitted, accepted + more, above)
  {
    var all := accepted + more;
    forall i: nat | i < |emitted| ensures EmissionOk(emitted, all, above, i) {
      assert EmissionOk(emitted, accepted, below, i);
    }
  }

  lemma Emitted(emitted: seq<Emission>, accepted: seq<Request>, below: nat, e: Emission)
    requires EmissionsOk(emitted, accepted, below) && e.serial == below < |accepted| && Answers(e, accepted[below])
    ensures EmissionsOk(emitted + [e], accepted, below + 1)
  {
    var all, above := emitted + [e], below + 1;
    forall i: nat | i < |all| ensures EmissionOk(all, accepted, above, i) {
      if i < |emitted| { assert EmissionOk(emitted, accepted, below, i); }
      else if i > 0 { assert EmissionOk(emitted, accepted, below, i - 1); }
    }
  }

  lemma EmittedOrNot(emitted: seq<Emission>, accepted: seq<Request>, below: nat, sent: seq<Emission>)
    requires EmissionsOk(emitted, accepted, below) && below < |accepted|
    requires sent == [] || (|sent| == 1 && sent[0].serial == below && Answers(sent[0], accepted[below]))
    ensures EmissionsOk(emitted + sent, accepted, below + 1)
  {
    if sent == [] {
      EmissionsGrow(emitted, accepted, below, [], below + 1);
      assert accepted + [] == accepted && emitted + sent == emitted;
    } else {
      Emitted(emitted, accepted, below, sent[0]);
      assert sent == [sent[0]];
    }
  }

  lemma WireGrows(accepted: seq<Request>, wires: seq<Bytes>, k: nat, wire: Bytes)
    requires WiresOk(accepted, wires) && k < |accepted| && WellFormed(accepted[k]) && Starts(wire, Serialised(accepted[k]))
    ensures WiresOk(accepted, wires[k := wire])
  {
    var wires' := wires[k := wire];
    forall j: nat | j < |accepted| ensures WireOk(accepted, wires', j) { assert WireOk(accepted, wires, j); }
  }

  lemma WireAdded(accepted: seq<Request>, wires: seq<Bytes>, q: Request)
    requires WiresOk(accepted, wires) && WellFormed(q)
    ensures WiresOk(accepted + [q], wires + [[]])
  {
    var accepted', wires' := accepted + [q], wires + [[]];
    forall j: nat | j < |accepted'| ensures WireOk(accepted', wires', j) {
      if j < |accepted| { assert WireOk(accepted, wires, j); }
    }
  }

  /** The response is for this request and reports success. */
  predicate Accepts(frame: Frame, slot: nat) {
    FromBe32(frame[12..16]) == slot && FromBe32(frame[8..12]) == SIGNING_SUCCESS
  }

  /** What a complete frame emits for request `k`: its payload, or nothing. */
  ghost function Outcome(k: nat, q: Request, frame: Frame, serverSocket: bool): seq<Emission> {
    if Accepts(frame, q.slot) && serverSocket then [Emission(k, frame, frame[RESPONSE_HEADER..], q.remote, q.local)] else []
  }

  /** The request is answered although it was not fully written. */
  function TooSoon(k: nat, inst: SignInstance): seq<nat> { if inst.sent < |inst.request| then [k] else [] }

  // ---- What was written for the requests that were answered.

  /** The request behind an emission was written to its end, unless its response came too soon. */
  ghost predicate WrittenFirst(e: Emission, accepted: seq<Request>, wires: seq<Bytes>, hasty: seq<nat>) {
    && e.serial < |accepted| == |wires| && WellFormed(accepted[e.serial])
    && (e.serial in hasty || wires[e.serial] == Serialised(accepted[e.serial]))
  }

  ghost predicate AllWrittenFirst(emitted: seq<Emission>, accepted: seq<Request>, wires: seq<Bytes>, hasty: seq<nat>) {
    forall i {:trigger emitted[i]} | 0 <= i < |emitted| :: WrittenFirst(emitted[i], accepted, wires, hasty)
  }

  lemma WrittenFirstEnqueued(emitted: seq<Emission>, accepted: seq<Request>, wires: seq<Bytes>, hasty: seq<nat>, q: Request)
    requires AllWrittenFirst(emitted, accepted, wires, hasty) && |accepted| == |wires|
    ensures AllWrittenFirst(emitted, accepted + [q], wires + [[]], hasty)
  {
    forall i | 0 <= i < |emitted| ensures WrittenFirst(emitted[i], accepted + [q], wires + [[]], hasty) {
      assert WrittenFirst(emitted[i], accepted, wires, hasty);
    }
  }

  /** Writing goes on for the head only, and every emission is of a request before it. */
  lemma WrittenFirstKept(emitted: seq<Emission>, accepted: seq<Request>, wires: seq<Bytes>, hasty: seq<nat>, k: nat, wire: Bytes)
    requires AllWrittenFirst(emitted, accepted, wires, hasty) && EmissionsOk(emitted, accepted, k) && k < |wires|
    ensures AllWrittenFirst(emitted, accepted, wires[k := wire], hasty)
  {
    forall i: nat | i < |emitted| ensures WrittenFirst(emitted[i], accepted, wires[k := wire], hasty) {
      assert EmissionOk(emitted, accepted, k, i) && WrittenFirst(emitted[i], accepted, wires, hasty);
    }
  }

  lemma WrittenFirstNext(emitted: seq<Emission>, accepted: seq<Request>, wires: seq<Bytes>, hasty: seq<nat>, k: nat, sent: seq<Emission>, late: seq<nat>)
    requires AllWrittenFirst(emitted, accepted, wires, hasty) && k < |accepted| == |wires| && WellFormed(accepted[k])
    requires sent == [] || (|sent| == 1 && sent[0].serial == k)
    requires k in late || wires[k] == Serialised(accepted[k])
    ensures AllWrittenFirst(emitted + sent, accepted, wires, hasty + late)
  {
    forall i | 0 <= i < |emitted + sent| ensures WrittenFirst((emitted + sent)[i], accepted, wires, hasty + late) {
      if i < |emitted| { assert WrittenFirst(emitted[i], accepted, wires, hasty); }
    }
  }

  /** More may be written for a request, but nothing is taken back. */
  ghost predicate WiresGrow(before: seq<Bytes>, after: seq<Bytes>) {
    |before| <= |after| && forall k {:trigger Starts(before[k], after[k])} | 0 <= k < |before| :: Starts(before[k], after[k])
  }

  class SigndBridge {
    const enabled: bool
    var sockOpen: bool
    var queue: seq<SignInstance>
    var head: nat
    var tail: nat

    /** The scheduler's writable event is enabled for the socket. */
    var armed: bool
    /** The last response was early: its request was not fully written, and no writable event settled that. */
    ghost var early: bool
    /** Every accepted request, the bytes written for it, and the bytes written for none. */
    ghost var accepted: seq<Request>
    ghost var wires: seq<Bytes>
    ghost var stray: Bytes
    ghost var emitted: seq<Emission>
    /** The requests that were answered before they were fully written. */
    ghost var hasty: seq<nat>

    /** The serial number of the request at the head, if any waits. */
    ghost function HeadSerial(): int
      requires head < MAX_QUEUE_LENGTH && tail < MAX_QUEUE_LENGTH
      reads this
    {
      |accepted| - Count(head, tail)
    }

    predicate Idle()
      reads this
    {
      head == tail
    }

    /** What the daemon has sent so far for the request at the head. */
    function Buffered(): Bytes
      reads this
    {
      if head == tail || head >= |queue| || queue[head].received > |queue[head].response| then []
      else queue[head].response[..queue[head].received]
    }

    ghost predicate Valid()
      reads this
    {
      && QueueOk(queue, head, tail, accepted, wires) && SlotsOk(queue)
      && WiresOk(accepted, wires)
      && EmissionsOk(emitted, accepted, HeadSerial())
      && AllWrittenFirst(emitted, accepted, wires, hasty)
      && (head != tail ==> sockOpen && (armed <==> queue[head].sent < |queue[head].request|))
      && (head == tail ==> (armed <==> early))
    }

    constructor (enabled: bool)
      ensures Valid() && this.enabled == enabled && !sockOpen && !armed && !early
      ensures accepted == [] && wires == [] && emitted == [] && stray == [] && hasty == [] && head == tail == 0
    {
      this.enabled, sockOpen, head, tail := enabled, false, 0, 0;
      queue := seq(MAX_QUEUE_LENGTH, _ => UNUSED);
      armed, early, accepted, wires, stray, emitted, hasty := false, false, [], [], [], [], [];
    }

    /** `close_socket`: the connection and everything still waiting is gone. */
    method Close()
      requires Valid()
      modifies this`sockOpen, this`head, this`tail, this`armed, this`early
      ensures Valid() && !sockOpen && !armed && !early && head == tail == 0
    {
      EmissionsGrow(emitted, accepted, HeadSerial(), [], |accepted|);
      assert accepted + [] == accepted;
      sockOpen, head, tail := false, 0, 0;
      armed, early := false, false;
    }

    /** `open_socket`: a new connection starts with only the readable event. */
    method Open(opens: bool) returns (ok: bool)
      requires Valid()
      modifies this`sockOpen, this`armed, this`early
      ensures Valid() && ok == sockOpen == (old(sockOpen) || opens)
      ensures armed == (old(armed) && !(!old(sockOpen) && opens))
      ensures early ==> old(early)
    {
      if !sockOpen && opens {
        sockOpen := true;
        armed, early := false, false;
      }
      ok := sockOpen;
    }

    /**
      `sign_and_send_packet`.  The request is queued unless signing is off, fifteen requests
      wait already, the packet is not a bare header, or there is no socket.
     */
    method SignAndSendPacket(opens: bool, keyId: U32, packet: Bytes, infoLength: int, remote: U64, local: U64, fd: I32) returns (queued: bool)
      requires Valid() && (infoLength == NTP_HEADER_LENGTH ==> infoLength <= |packet|)
      modifies this`sockOpen, this`armed, this`early, this`queue, this`tail, this`accepted, this`wires
      ensures Valid()
      ensures queued <==> enabled && old(Count(head, tail)) < 15 && infoLength == NTP_HEADER_LENGTH && (old(sockOpen) || opens)
      ensures Buffered() == old(Buffered()) && HeadSerial() == old(HeadSerial()) && (early ==> old(early))
      ensures if queued then
                var q := Request(old(tail), keyId, packet[..infoLength], remote, local, fd);
                && WellFormed(q) && accepted == old(accepted) + [q] && wires == old(wires) + [[]]
                && tail == Next(old(tail)) && queue == old(queue)[old(tail) := Fresh(q)] && sockOpen
              else
                && accepted == old(accepted) && wires == old(wires) && tail == old(tail) && queue == old(queue)
                && sockOpen == old(sockOpen) && armed == old(armed)
    {
      if !enabled || head == Next(tail) || infoLength != NTP_HEADER_LENGTH {
        return false;
      }
      var ok := Open(opens);
      if !ok {
        return false;
      }
      var q := Request(tail, keyId, packet[..infoLength], remote, local, fd);
      Enqueue(Fresh(q), q);
      queued := true;
    }

    method Enqueue(inst: SignInstance, ghost q: Request)
      requires Valid() && sockOpen && head != Next(tail) && Waits(inst, q, [], tail) && Untouched(inst)
      modifies this`queue, this`tail, this`armed, this`accepted, this`wires
      ensures Valid() && tail == Next(old(tail)) && queue == old(queue)[old(tail) := inst]
      ensures accepted == old(accepted) + [q] && wires == old(wires) + [[]]
      ensures Buffered() == old(Buffered()) && HeadSerial() == old(HeadSerial())
    {
      Enqueued(queue, head, tail, accepted, wires, inst, q);
      EmissionsGrow(emitted, accepted, HeadSerial(), [q], HeadSerial());
      WireAdded(accepted, wires, q);
      WrittenFirstEnqueued(emitted, accepted, wires, hasty, q);
      SlotChanged(queue, tail, inst);
      if head == tail {
        armed := true;
      }
      queue := queue[tail := inst];
      tail := Next(tail);
      accepted, wires := accepted + [q], wires + [[]];
    }

    /** Bytes of the head slot's request not yet written. */
    function Remaining(): (n: nat)
      requires Valid()
      reads this
    {
      assert SlotOk(queue[head]);
      |queue[head].request| - queue[head].sent
    }

    /**
      The writable event.  What is written goes out for the request at the head, right behind
      what was written before.  With nothing waiting, what is left of an abandoned request in
      that slot goes out instead; an enabled event allows that only after an early response.
     */
    method OnOutput(res: int)
      requires Valid() && res <= Remaining()
      modifies this`sockOpen, this`head, this`tail, this`armed, this`early, this`queue, this`wires, this`stray
      ensures Valid() && WiresGrow(old(wires), wires) && (early ==> old(early))
      ensures res < 0 ==> !sockOpen && head == tail == 0 && wires == old(wires) && stray == old(stray)
      ensures res >= 0 ==> head == old(head) && tail == old(tail) && sockOpen == old(sockOpen) && Buffered() == old(Buffered())
      ensures res >= 0 && old(head != tail) ==>
                var k, inst := old(HeadSerial()), old(queue[head]);
                && wires == old(wires)[k := old(wires[k]) + inst.request[inst.sent..inst.sent + res]] && stray == old(stray)
                && WellFormed(accepted[k]) && (!armed <==> wires[k] == Serialised(accepted[k]))
      ensures res >= 0 && old(head == tail) ==>
                var inst := old(queue[head]);
                wires == old(wires) && stray == old(stray) + inst.request[inst.sent..inst.sent + res] && (old(armed) <==> old(early))
    {
      if res < 0 {
        Close();
        return;
      }
      var inst := queue[head].(sent := queue[head].sent + res);
      ghost var written := inst.request[queue[head].sent..inst.sent];
      if head == tail {
        SlotChanged(queue, head, inst);
        EmptyChanged(queue, head, accepted, wires, inst);
        stray := stray + written;
        queue := queue[head := inst];
        if inst.sent == |inst.request| {
          armed, early := false, false;
        }
      } else {
        Written(inst);
      }
    }

    /** More of the head request has been written. */
    method Written(inst: SignInstance)
      requires Valid() && head != tail && 0 <= HeadSerial() < |accepted| == |wires|
      requires queue[head].sent <= inst.sent <= |inst.request| && inst == queue[head].(sent := inst.sent)
      modifies this`queue, this`armed, this`wires
      ensures Valid() && Buffered() == old(Buffered())
      ensures var k := HeadSerial();
              && wires == old(wires)[k := old(wires[k]) + inst.request[old(queue[head].sent)..inst.sent]]
              && WellFormed(accepted[k]) && (!armed <==> wires[k] == Serialised(accepted[k]))
    {
      ghost var k := HeadSerial();
      ghost var wire := wires[k] + inst.request[queue[head].sent..inst.sent];
      HeadWaits(queue, head, tail, accepted, wires);
      assert wire == inst.request[..inst.sent];
      HeadChanged(queue, head, tail, accepted, wires, inst, wire);
      WireGrows(accepted, wires, k, wire);
      WrittenFirstKept(emitted, accepted, wires, hasty, k, wire);
      SlotChanged(queue, head, inst);
      wires := wires[k := wire];
      queue := queue[head := inst];
      if inst.sent == |inst.request| {
        armed := false;
      }
    }

    /**
      After a request is finished: the next one is untouched and its writable event enabled; with
      none left, the event stays enabled exactly if the finished request was not fully written.
     */
    ghost predicate NextIsReady(finished: SignInstance)
      requires Valid()
      reads this
    {
      if head == tail then armed <==> finished.sent < |finished.request|
      else armed && Untouched(queue[head])
    }

    /** The head request is answered for good; the next one, if any, may be written. */
    method Advance(inst: SignInstance, ghost sent: seq<Emission>)
      requires Valid() && head != tail && SlotOk(inst) && 0 <= HeadSerial() < |accepted|
      requires sent == [] || (|sent| == 1 && sent[0].serial == HeadSerial() && Answers(sent[0], accepted[HeadSerial()]))
      requires inst.sent == queue[head].sent && inst.request == queue[head].request
      modifies this`queue, this`head, this`armed, this`early, this`emitted, this`hasty
      ensures Valid() && head == Next(old(head)) && queue == old(queue)[old(head) := inst]
      ensures emitted == old(emitted) + sent && hasty == old(hasty) + TooSoon(old(HeadSerial()), inst)
      ensures early == (inst.sent < |inst.request|)
      ensures Buffered() == [] && HeadSerial() == old(HeadSerial()) + 1 && NextIsReady(old(queue[head]))
    {
      ghost var k := HeadSerial();
      HeadWaits(queue, head, tail, accepted, wires);
      Dequeued(queue, head, tail, accepted, wires, inst);
      SlotChanged(queue, head, inst);
      EmittedOrNot(emitted, accepted, k, sent);
      WrittenFirstNext(emitted, accepted, wires, hasty, k, sent, TooSoon(k, inst));
      early := inst.sent < |inst.request|;
      emitted, hasty := emitted + sent, hasty + TooSoon(k, inst);
      queue := queue[head := inst];
      head := Next(head);
      if head != tail {
        armed := true;
      }
    }

    /** More of a response, still not decided. */
    method Extend(inst: SignInstance)
      requires Valid() && head != tail && HeadSerial() < |accepted|
      requires Waits(inst, accepted[HeadSerial()], wires[HeadSerial()], head)
      requires inst.sent == queue[head].sent && inst.request == queue[head].request
      modifies this`queue
      ensures Valid() && Buffered() == inst.response[..inst.received] && queue == old(queue)[head := inst]
    {
      HeadChanged(queue, head, tail, accepted, wires, inst, wires[HeadSerial()]);
      assert wires[HeadSerial() := wires[HeadSerial()]] == wires;
      SlotChanged(queue, head, inst);
      queue := queue[head := inst];
    }

    /**
      The readable event.  The bytes read so far are judged as a whole: a broken length, an
      error or unexpected data drops the connection; a complete frame finishes the exchange and
      emits its payload exactly if it answers the head request and the client's socket is
      still there.
     */
    method OnInput(data: Option<Bytes>, serverSocket: bool)
      requires Valid() && (head != tail && data.Some? ==> 0 < |data.value| <= RESPONSE_SIZE - |Buffered()|)
      modifies this`sockOpen, this`head, this`tail, this`armed, this`early, this`queue, this`emitted, this`hasty
      ensures Valid() && OthersKept(old(queue), old(head), queue)
      ensures old(head == tail) || data.None? ==> !sockOpen && head == tail == 0 && emitted == old(emitted) && hasty == old(hasty) && !early
      ensures old(head != tail) && data.Some? ==>
                var k, inst := old(HeadSerial()), old(queue[head]);
                match Judge(old(Buffered()) + data.value)
                case Waiting =>
                  && head == old(head) && tail == old(tail) && Buffered() == old(Buffered()) + data.value && sockOpen
                  && emitted == old(emitted) && hasty == old(hasty) && early == old(early)
                case Broken => !sockOpen && head == tail == 0 && emitted == old(emitted) && hasty == old(hasty) && !early
                case Complete(f) =>
                  && head == Next(old(head)) && tail == old(tail) && Buffered() == [] && sockOpen
                  && HeadSerial() == k + 1 && NextIsReady(inst)
                  && emitted == old(emitted) + Outcome(k, accepted[k], f, serverSocket) && hasty == old(hasty) + TooSoon(k, inst)
                  && early == (inst.sent < |inst.request|)
    {
      if head == tail || data.None? {
        Close();
        return;
      }
      HeadWaits(queue, head, tail, accepted, wires);
      var broken := OnData(data.value, serverSocket);
      if broken {
        Close();
      }
    }

    /** What was read for the head request; it is for the caller to drop the connection if that is broken. */
    method OnData(data: Bytes, serverSocket: bool) returns (broken: bool)
      requires Valid() && head != tail && 0 < |data| <= RESPONSE_SIZE - |Buffered()| && 0 <= HeadSerial() < |accepted|
      modifies this`head, this`armed, this`early, this`queue, this`emitted, this`hasty
      ensures Valid() && OthersKept(old(queue), old(head), queue) && broken == Judge(old(Buffered()) + data).Broken?
      ensures var k, inst := old(HeadSerial()), old(queue[head]);
              match Judge(old(Buffered()) + data)
              case Waiting =>
                && head == old(head) && Buffered() == old(Buffered()) + data
                && emitted == old(emitted) && hasty == old(hasty) && early == old(early)
              case Broken => emitted == old(emitted) && hasty == old(hasty)
              case Complete(f) =>
                && head == Next(old(head)) && Buffered() == [] && HeadSerial() == k + 1 && NextIsReady(inst)
                && emitted == old(emitted) + Outcome(k, accepted[k], f, serverSocket) && hasty == old(hasty) + TooSoon(k, inst)
                && early == (inst.sent < |inst.request|)
    {
      HeadWaits(queue, head, tail, accepted, wires);
      var inst := Received(queue[head], data);
      var got := inst.response[..inst.received];
      broken := false;
      if |got| < 4 {
        Extend(inst);
        return;
      }
      var length := FromBe32(got[..4]) + 4;
      if length < RESPONSE_HEADER || length > RESPONSE_SIZE {
        return true;
      }
      if |got| < length {
        Extend(inst);
        return;
      }
      assert Judge(got) == Complete(got[..length]);
      Finish(inst, got[..length], serverSocket);
    }

    /** `process_response`, and the move to the next request. */
    method Finish(inst: SignInstance, frame: Frame, serverSocket: bool)
      requires Valid() && head != tail && SlotOk(inst) && 0 <= HeadSerial() < |accepted|
      requires inst.sent == queue[head].sent && inst.request == queue[head].request
      requires inst.remote == queue[head].remote && inst.local == queue[head].local
      requires |frame| <= RESPONSE_SIZE && FromBe32(frame[..4]) + 4 == |frame|
      modifies this`queue, this`head, this`armed, this`early, this`emitted, this`hasty
      ensures Valid() && head == Next(old(head)) && queue == old(queue)[old(head) := inst]
      ensures Buffered() == [] && HeadSerial() == old(HeadSerial()) + 1 && NextIsReady(old(queue[head]))
      ensures var k := old(HeadSerial());
              emitted == old(emitted) + Outcome(k, accepted[k], frame, serverSocket) && hasty == old(hasty) + TooSoon(k, inst)
      ensures early == (inst.sent < |inst.request|)
    {
      ghost var k := HeadSerial();
      HeadWaits(queue, head, tail, accepted, wires);
      SerialisedRoundTrip(accepted[k]);
      ghost var out := [];
      if FromBe16(inst.request[12..14]) == FromBe32(frame[12..16]) && FromBe32(frame[8..12]) == SIGNING_SUCCESS && serverSocket {
        out := [Emission(k, frame, frame[RESPONSE_HEADER..], inst.remote, inst.local)];
      }
      Advance(inst, out);
    }

    /** The host reports a writable event only if it is enabled, and never moves more bytes than it was given room for. */
    predicate Happens(e: Event)
      requires Valid()
      reads this
    {
      match e
      case Sign(_, _, packet, infoLength, _, _, _) => infoLength == NTP_HEADER_LENGTH ==> infoLength <= |packet|
      case Writable(res) => armed && res <= Remaining()
      case Readable(data, _) => head != tail && data.Some? ==> 0 < |data.value| <= RESPONSE_SIZE - |Buffered()|
    }
  }

  /** The slot after a read appended to its response buffer. */
  function Received(inst: SignInstance, data: Bytes): (r: SignInstance)
    requires inst.received + |data| <= |inst.response|
    ensures r.received == inst.received + |data| && |r.response| == |inst.response|
    ensures r.response[..r.received] == inst.response[..inst.received] + data
  {
    inst.(received := inst.received + |data|,
          response := inst.response[..inst.received] + data + inst.response[inst.received + |data|..])
  }
}
