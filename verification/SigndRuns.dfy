/**
  Whole runs of the signing bridge: every order of requests, writable and readable events.  The
  run is told as a story of connections, from the events alone; the bridge is proved to be, and
  to have emitted, what the story says.
 */
module SigndRuns {
  import opened Common
  import opened SigndFrames
  import opened SigndBridges

  /**
    A connection to the daemon: the serial number of its first request, what each read returned,
    and, for each exchange it finished, whether the client's socket was still there.
   */
  datatype Connection = Connection(first: nat, chunks: seq<Bytes>, answers: seq<bool>)

  function Heard(c: Connection): Frames { Session([], c.chunks) }

  /** One more read, which leads to `r`. */
  function Hears(c: Connection, data: Bytes, r: Frames, serverSocket: bool): Connection {
    Connection(c.first, c.chunks + [data], c.answers + Flags(r.frames, serverSocket))
  }

  function Flags(frames: seq<Frame>, serverSocket: bool): seq<bool> { if frames == [] then [] else [serverSocket] }

  /** What the frames emit for the requests from `first` on, one each and in order. */
  ghost function Answered(first: nat, accepted: seq<Request>, frames: seq<Frame>, answers: seq<bool>): seq<Emission>
    requires |frames| == |answers| && first + |frames| <= |accepted|
    decreases |frames|
  {
    if frames == [] then []
    else
      var n := |frames| - 1;
      Answered(first, accepted, frames[..n], answers[..n]) + Outcome(first + n, accepted[first + n], frames[n], answers[n])
  }

  /** What a connection has brought: what was emitted, the next request to be answered, and what is there of its response. */
  datatype Part = Part(emitted: seq<Emission>, serial: nat, rest: Bytes)

  ghost function PartOf(first: nat, accepted: seq<Request>, h: Frames, answers: seq<bool>): Option<Part> {
    if |h.frames| == |answers| && first + |h.frames| <= |accepted| then
      Some(Part(Answered(first, accepted, h.frames, answers), first + |h.frames|, h.rest))
    else None
  }

  ghost function Brought(c: Connection, accepted: seq<Request>): Option<Part> { PartOf(c.first, accepted, Heard(c), c.answers) }

  /** What all connections emitted, one after the other. */
  ghost function Sent(cs: seq<Connection>, accepted: seq<Request>): Option<seq<Emission>> {
    if cs == [] then Some([])
    else
      var before, last := Sent(cs[..|cs| - 1], accepted), Brought(cs[|cs| - 1], accepted);
      if before.Some? && last.Some? then Some(before.value + last.value.emitted) else None
  }

  /** Requests accepted after a connection has been heard leave what it sent as it was. */
  lemma {:induction false} AnsweredKept(first: nat, accepted: seq<Request>, q: Request, frames: seq<Frame>, answers: seq<bool>)
    requires |frames| == |answers| && first + |frames| <= |accepted|
    ensures Answered(first, accepted + [q], frames, answers) == Answered(first, accepted, frames, answers)
    decreases |frames|
  {
    if frames != [] { AnsweredKept(first, accepted, q, frames[..|frames| - 1], answers[..|frames| - 1]); }
  }

  lemma BroughtKept(c: Connection, accepted: seq<Request>, q: Request)
    requires Brought(c, accepted).Some?
    ensures Brought(c, accepted + [q]) == Brought(c, accepted)
  {
    AnsweredKept(c.first, accepted, q, Heard(c).frames, c.answers);
  }

  lemma {:induction false} SentKept(cs: seq<Connection>, accepted: seq<Request>, q: Request)
    requires Sent(cs, accepted).Some?
    ensures Sent(cs, accepted + [q]) == Sent(cs, accepted)
  {
    if cs != [] {
      BroughtKept(cs[|cs| - 1], accepted, q);
      SentKept(cs[..|cs| - 1], accepted, q);
    }
  }

  lemma SentOneMore(cs: seq<Connection>, c: Connection, accepted: seq<Request>)
    requires Sent(cs, accepted).Some? && Brought(c, accepted).Some?
    ensures Sent(cs + [c], accepted) == Some(Sent(cs, accepted).value + Brought(c, accepted).value.emitted)
  {
    assert (cs + [c])[..|cs|] == cs;
  }

  /** What the frame of a read, if it completes one, emits for request `k`. */
  ghost function Answer(k: nat, accepted: seq<Request>, frames: seq<Frame>, serverSocket: bool): seq<Emission> {
    if frames == [] || k >= |accepted| then [] else Outcome(k, accepted[k], frames[0], serverSocket)
  }

  lemma AnsweredNext(first: nat, accepted: seq<Request>, frames: seq<Frame>, answers: seq<bool>, more: seq<Frame>, ss: bool,
                     all: seq<Frame>, flags: seq<bool>, out: seq<Emission>)
    requires |frames| == |answers| && first + |frames| < |accepted| && |more| <= 1
    requires all == frames + more && flags == answers + Flags(more, ss)
    requires out == Answered(first, accepted, frames, answers) + Answer(first + |frames|, accepted, more, ss)
    ensures |all| == |flags| && first + |all| <= |accepted| && Answered(first, accepted, all, flags) == out
  {
    if more == [] {
      assert all == frames && flags == answers;
      assert out == Answered(first, accepted, frames, answers) + [] == Answered(first, accepted, frames, answers);
    } else {
      assert more == [more[0]] && Flags(more, ss) == [ss];
      AnsweredSnoc(first, accepted, frames, answers, more[0], ss, all, flags);
    }
  }

  lemma AnsweredSnoc(first: nat, accepted: seq<Request>, frames: seq<Frame>, answers: seq<bool>, f: Frame, ss: bool, all: seq<Frame>, flags: seq<bool>)
    requires |frames| == |answers| && first + |frames| < |accepted| && all == frames + [f] && flags == answers + [ss]
    ensures |all| == |flags| && first + |all| <= |accepted|
    ensures Answered(first, accepted, all, flags)
            == Answered(first, accepted, frames, answers) + Outcome(first + |frames|, accepted[first + |frames|], f, ss)
  {
    var n := |frames|;
    assert all[..n] == frames && flags[..n] == answers;
  }

  // ---- The story of a run.

  type Index = i: nat | i < MAX_QUEUE_LENGTH

  /** The connections before this one, this one, whether it is open, the next free slot, and every accepted request. */
  datatype Story = Story(open: bool, tail: Index, accepted: seq<Request>, past: seq<Connection>, link: Connection)

  const BEGINNING: Story := Story(false, 0, [], [], Connection(0, [], []))

  /** The serial number of the next request to be answered. */
  function Serial(s: Story): nat { s.link.first + |Heard(s.link).frames| }

  /** The connection is over; another one may follow. */
  function Over(s: Story): Story {
    s.(open := false, tail := 0, past := s.past + [s.link], link := Connection(|s.accepted|, [], []))
  }

  function ToldRead(s: Story, r: Frames): Story { if Judge(r.rest).Broken? then Over(s) else s }

  /** How the story goes on. */
  function Told(s: Story, enabled: bool, e: Event): Story {
    match e
    case Sign(opens, keyId, packet, infoLength, remote, local, fd) =>
      if enabled && |s.accepted| - Serial(s) < 15 && infoLength == NTP_HEADER_LENGTH <= |packet| && (s.open || opens) then
        s.(open := true, tail := Next(s.tail), accepted := s.accepted + [Request(s.tail, keyId, packet[..infoLength], remote, local, fd)])
      else s
    case Writable(res) => if res < 0 then Over(s) else s
    case Readable(data, serverSocket) =>
      if |s.accepted| == Serial(s) || data.None? then Over(s)
      else
        var r := Read(Heard(s.link).rest, data.value);
        ToldRead(s.(link := Hears(s.link, data.value, r, serverSocket)), r)
  }

  function Run(enabled: bool, log: seq<Event>): Story {
    if log == [] then BEGINNING else Told(Run(enabled, log[..|log| - 1]), enabled, log[|log| - 1])
  }

  lemma RunNext(enabled: bool, log: seq<Event>, e: Event)
    ensures Run(enabled, log + [e]) == Told(Run(enabled, log), enabled, e)
  {
    assert (log + [e])[..|log|] == log;
  }

  // ---- What there is to see of a bridge, and of a story.

  datatype Sight = Sight(open: bool, tail: nat, accepted: seq<Request>, emitted: seq<Emission>, serial: nat, buffered: Bytes)

  ghost function Seen(b: SigndBridge): Sight
    requires b.Valid()
    reads b
  {
    Sight(b.sockOpen, b.tail, b.accepted, b.emitted, b.HeadSerial(), b.Buffered())
  }

  ghost function View(s: Story): Option<Sight> {
    var before, part := Sent(s.past, s.accepted), Brought(s.link, s.accepted);
    if before.Some? && part.Some? then
      Some(Sight(s.open, s.tail, s.accepted, before.value + part.value.emitted, part.value.serial, part.value.rest))
    else None
  }

  /** What each event does to what there is to see. */
  ghost function See(v: Sight, enabled: bool, e: Event): Sight
    requires v.tail < MAX_QUEUE_LENGTH
  {
    match e
    case Sign(opens, keyId, packet, infoLength, remote, local, fd) =>
      if enabled && |v.accepted| - v.serial < 15 && infoLength == NTP_HEADER_LENGTH <= |packet| && (v.open || opens) then
        var q := Request(v.tail, keyId, packet[..infoLength], remote, local, fd);
        Sight(true, Next(v.tail), v.accepted + [q], v.emitted, v.serial, v.buffered)
      else v
    case Writable(res) => if res < 0 then Hidden(v) else v
    case Readable(data, serverSocket) =>
      if v.serial >= |v.accepted| || data.None? then Hidden(v)
      else
        var r := Read(v.buffered, data.value);
        SeeRead(v, r, v.emitted + Answer(v.serial, v.accepted, r.frames, serverSocket))
  }

  ghost function SeeRead(v: Sight, r: Frames, out: seq<Emission>): Sight {
    if Judge(r.rest).Broken? then Hidden(v) else Sight(v.open, v.tail, v.accepted, out, v.serial + |r.frames|, r.rest)
  }

  /** After a reset. */
  ghost function Hidden(v: Sight): Sight { Sight(false, 0, v.accepted, v.emitted, |v.accepted|, []) }

  lemma ViewEnqueued(s: Story, v: Sight, q: Request, tail: Index)
    requires View(s) == Some(v)
    ensures View(s.(open := true, tail := tail, accepted := s.accepted + [q]))
            == Some(Sight(true, tail, v.accepted + [q], v.emitted, v.serial, v.buffered))
  {
    SentKept(s.past, s.accepted, q);
    BroughtKept(s.link, s.accepted, q);
  }

  lemma NothingBrought(first: nat, accepted: seq<Request>)
    requires first <= |accepted|
    ensures Brought(Connection(first, [], []), accepted) == Some(Part([], first, []))
  {}

  lemma ViewOver(s: Story, v: Sight)
    requires View(s) == Some(v)
    ensures View(Over(s)) == Some(Hidden(v))
  {
    SentOneMore(s.past, s.link, s.accepted);
    NothingBrought(|s.accepted|, s.accepted);
    assert v.emitted + [] == v.emitted;
  }

  lemma ReadIsOne(b: Bytes, data: Bytes)
    ensures |Read(b, data).frames| <= 1
  {}

  lemma PartNext(first: nat, accepted: seq<Request>, h: Frames, answers: seq<bool>, part: Part, r: Frames, ss: bool, out: seq<Emission>)
    requires PartOf(first, accepted, h, answers) == Some(part) && part.serial < |accepted| && |r.frames| <= 1
    requires out == part.emitted + Answer(part.serial, accepted, r.frames, ss)
    ensures PartOf(first, accepted, Frames(h.frames + r.frames, r.rest), answers + Flags(r.frames, ss))
            == Some(Part(out, part.serial + |r.frames|, r.rest))
  {
    AnsweredNext(first, accepted, h.frames, answers, r.frames, ss, h.frames + r.frames, answers + Flags(r.frames, ss), out);
  }

  /** One more read of a connection, with a request waiting. */
  lemma BroughtNext(c: Connection, accepted: seq<Request>, part: Part, data: Bytes, r: Frames, ss: bool, out: seq<Emission>)
    requires Brought(c, accepted) == Some(part) && part.serial < |accepted| && r == Read(part.rest, data)
    requires out == part.emitted + Answer(part.serial, accepted, r.frames, ss)
    ensures Brought(Hears(c, data, r, ss), accepted) == Some(Part(out, part.serial + |r.frames|, r.rest))
  {
    ReadIsOne(part.rest, data);
    SessionNext([], c.chunks, data);
    PartNext(c.first, accepted, Heard(c), c.answers, part, r, ss, out);
  }

  lemma ViewRead(s: Story, v: Sight, data: Bytes, r: Frames, ss: bool, out: seq<Emission>)
    requires View(s) == Some(v) && v.serial < |v.accepted| && r == Read(v.buffered, data)
    requires out == v.emitted + Answer(v.serial, v.accepted, r.frames, ss)
    ensures View(s.(link := Hears(s.link, data, r, ss)))
            == Some(Sight(v.open, v.tail, v.accepted, out, v.serial + |r.frames|, r.rest))
  {
    var before, part, more := Sent(s.past, s.accepted).value, Brought(s.link, s.accepted).value, Answer(v.serial, v.accepted, r.frames, ss);
    BroughtNext(s.link, s.accepted, part, data, r, ss, part.emitted + more);
    Regroup(before, part.emitted, more);
  }

  lemma ViewBeginning()
    ensures View(BEGINNING) == Some(Sight(false, 0, [], [], 0, []))
  {
    NothingBrought(0, []);
    var none: seq<Emission> := [];
    assert none + none == none;
  }

  lemma SignTold(s: Story, v: Sight, enabled: bool, e: Event)
    requires View(s) == Some(v) && e.Sign?
    ensures View(Told(s, enabled, e)) == Some(See(v, enabled, e))
  {
    if e.infoLength == NTP_HEADER_LENGTH <= |e.packet| {
      ViewEnqueued(s, v, Request(v.tail, e.keyId, e.packet[..e.infoLength], e.remote, e.local, e.fd), Next(v.tail));
    }
  }

  lemma SameSight(s: Story, v: Sight)
    requires View(s) == Some(v)
    ensures Serial(s) == v.serial && Heard(s.link).rest == v.buffered && s.accepted == v.accepted
  {}

  lemma ReadTold(s: Story, v: Sight, data: Bytes, r: Frames, ss: bool, out: seq<Emission>)
    requires View(s) == Some(v) && v.serial < |v.accepted| && r == Read(v.buffered, data)
    requires out == v.emitted + Answer(v.serial, v.accepted, r.frames, ss)
    ensures View(ToldRead(s.(link := Hears(s.link, data, r, ss)), r)) == Some(SeeRead(v, r, out))
  {
    var more, w := s.(link := Hears(s.link, data, r, ss)), Sight(v.open, v.tail, v.accepted, out, v.serial + |r.frames|, r.rest);
    ViewRead(s, v, data, r, ss, out);
    if Judge(r.rest).Broken? {
      BrokenAddsNothing(v, data, r, ss, out);
      ViewBroken(more, w, v);
      assert ToldRead(more, r) == Over(more) && SeeRead(v, r, out) == Hidden(v);
    } else {
      assert ToldRead(more, r) == more && SeeRead(v, r, out) == w;
    }
  }

  lemma ViewBroken(s: Story, w: Sight, v: Sight)
    requires View(s) == Some(w) && w.emitted == v.emitted && w.accepted == v.accepted
    ensures View(Over(s)) == Some(Hidden(v))
  {
    ViewOver(s, w);
  }

  /** A read that breaks the connection completes no frame. */
  lemma BrokenAddsNothing(v: Sight, data: Bytes, r: Frames, ss: bool, out: seq<Emission>)
    requires r == Read(v.buffered, data) && Judge(r.rest).Broken? && out == v.emitted + Answer(v.serial, v.accepted, r.frames, ss)
    ensures out == v.emitted
  {
    assert r.frames == [];
    assert v.emitted + [] == v.emitted;
  }

  /** The story shows what each event does. */
  lemma ViewTold(s: Story, v: Sight, enabled: bool, e: Event)
    requires View(s) == Some(v)
    ensures View(Told(s, enabled, e)) == Some(See(v, enabled, e))
  {
    if e.Sign? {
      SignTold(s, v, enabled, e);
    } else if e.Readable? && e.data.Some? && v.serial < |v.accepted| {
      SameSight(s, v);
      var r := Read(v.buffered, e.data.value);
      ReadTold(s, v, e.data.value, r, e.serverSocket, v.emitted + Answer(v.serial, v.accepted, r.frames, e.serverSocket));
    } else {
      ViewOver(s, v);
    }
  }

  // ---- How the streams were cut.

  /** A connection without its cuts: all bytes it brought. */
  datatype Stream = Stream(first: nat, bytes: Bytes, answers: seq<bool>)

  function Streams(cs: seq<Connection>): seq<Stream> {
    if cs == [] then []
    else var c := cs[|cs| - 1]; Streams(cs[..|cs| - 1]) + [Stream(c.first, Joined(c.chunks), c.answers)]
  }

  /** What the frames of the streams emit, one after the other. */
  ghost function StreamsSent(ts: seq<Stream>, accepted: seq<Request>): Option<seq<Emission>> {
    if ts == [] then Some([])
    else
      var t := ts[|ts| - 1];
      var before, last := StreamsSent(ts[..|ts| - 1], accepted), PartOf(t.first, accepted, Ideal(t.bytes), t.answers);
      if before.Some? && last.Some? then Some(before.value + last.value.emitted) else None
  }

  ghost predicate NeverCrosses(c: Connection) { AllAligned([], c.chunks) }

  /** A connection is heard as its stream if and only if no read crosses a frame end. */
  lemma HeardIsStream(c: Connection)
    ensures Heard(c) == Ideal(Joined(c.chunks)) <==> NeverCrosses(c)
  {
    assert [] + Joined(c.chunks) == Joined(c.chunks);
    SessionIsIdeal([], c.chunks);
  }

  /** Then it does not matter how the streams were cut. */
  lemma {:induction false} SentIsStreamsSent(cs: seq<Connection>, accepted: seq<Request>)
    requires forall c <- cs :: NeverCrosses(c)
    ensures StreamsSent(Streams(cs), accepted) == Sent(cs, accepted)
  {
    if cs != [] {
      var c, before := cs[|cs| - 1], cs[..|cs| - 1];
      var ts := Streams(cs);
      assert ts[..|ts| - 1] == Streams(before);
      HeardIsStream(c);
      SentIsStreamsSent(before, accepted);
    }
  }

  // ---- Runs.

  /** Nothing is taken back: requests, bytes written for them or for none, emissions. */
  twostate predicate Grows(b: SigndBridge)
    reads b
  {
    && old(b.accepted) <= b.accepted && WiresGrow(old(b.wires), b.wires) && old(b.stray) <= b.stray
    && old(b.emitted) <= b.emitted && old(b.hasty) <= b.hasty
  }

  lemma WiresGrowTwice(a: seq<Bytes>, b: seq<Bytes>, c: seq<Bytes>)
    requires WiresGrow(a, b) && WiresGrow(b, c)
    ensures WiresGrow(a, c)
  {
    forall k | 0 <= k < |a| ensures Starts(a[k], c[k]) { assert Starts(a[k], b[k]) && Starts(b[k], c[k]); }
  }

  method SignAndSendPacket(b: SigndBridge, e: Event)
    requires b.Valid() && e.Sign? && b.Happens(e)
    modifies b
    ensures b.Valid() && Seen(b) == See(old(Seen(b)), b.enabled, e)
    ensures Grows(b) && b.stray == old(b.stray) && b.hasty == old(b.hasty) && (b.early ==> old(b.early))
  {
    var _ := b.SignAndSendPacket(e.opens, e.keyId, e.packet, e.infoLength, e.remote, e.local, e.fd);
  }

  method OnOutput(b: SigndBridge, e: Event)
    requires b.Valid() && e.Writable? && b.Happens(e)
    modifies b
    ensures b.Valid() && Seen(b) == See(old(Seen(b)), b.enabled, e)
    ensures Grows(b) && (b.stray != old(b.stray) ==> old(b.Idle() && b.early)) && b.hasty == old(b.hasty) && (b.early ==> old(b.early))
  {
    b.OnOutput(e.res);
  }

  method OnInput(b: SigndBridge, e: Event)
    requires b.Valid() && e.Readable? && b.Happens(e)
    modifies b
    ensures b.Valid() && Seen(b) == See(old(Seen(b)), b.enabled, e)
    ensures Grows(b) && b.stray == old(b.stray) && (b.early && b.hasty == old(b.hasty) ==> old(b.early))
  {
    b.OnInput(e.data, e.serverSocket);
  }

  /** Any event: the bridge shows what it does. */
  method Happen(b: SigndBridge, e: Event)
    requires b.Valid() && b.Happens(e)
    modifies b
    ensures b.Valid() && Seen(b) == See(old(Seen(b)), b.enabled, e) && Grows(b)
    ensures b.stray != old(b.stray) ==> old(b.Idle() && b.early)
    ensures b.early && b.hasty == old(b.hasty) ==> old(b.early)
    ensures !e.Readable? ==> b.hasty == old(b.hasty)
  {
    match e
    case Sign(_, _, _, _, _, _, _) => SignAndSendPacket(b, e);
    case Writable(_) => OnOutput(b, e);
    case Readable(_, _) => OnInput(b, e);
  }

  class SigndRun {
    const bridge: SigndBridge
    /** What happened so far. */
    ghost var log: seq<Event>

    /** The bridge is as the story of the run has it. */
    ghost predicate Valid()
      reads this, bridge
    {
      bridge.Valid() && View(Run(bridge.enabled, log)) == Some(Seen(bridge))
    }

    constructor (enabled: bool)
      ensures Valid() && fresh(bridge) && log == [] && bridge.enabled == enabled
      ensures bridge.accepted == [] && bridge.emitted == [] && bridge.stray == [] && bridge.hasty == [] && !bridge.early
    {
      bridge := new SigndBridge(enabled);
      log := [];
      ViewBeginning();
    }

    /** Every connection of the run so far. */
    ghost function Connections(): seq<Connection>
      reads this
    {
      var s := Run(bridge.enabled, log);
      s.past + [s.link]
    }

    /**
      In every state of every run: everything emitted is what the frames heard over the
      connections emit for the accepted requests, one each and in order; and if no read ever crossed a
      frame end, these are the frames of the streams.
     */
    lemma EmittedIsSent()
      requires Valid()
      ensures Sent(Connections(), bridge.accepted) == Some(bridge.emitted)
      ensures (forall c <- Connections() :: NeverCrosses(c)) ==> StreamsSent(Streams(Connections()), bridge.accepted) == Some(bridge.emitted)
    {
      var s := Run(bridge.enabled, log);
      SentOneMore(s.past, s.link, s.accepted);
      if forall c <- Connections() :: NeverCrosses(c) { SentIsStreamsSent(Connections(), bridge.accepted); }
    }

    /** Where the next exchange stands: behind the frames of the last connection, with what is left of its stream. */
    lemma HeadIsNext()
      requires Valid()
      ensures var c := Run(bridge.enabled, log).link;
              && bridge.HeadSerial() == c.first + |Heard(c).frames| && bridge.Buffered() == Heard(c).rest
              && (NeverCrosses(c) ==> Heard(c) == Ideal(Joined(c.chunks)))
    {
      var s := Run(bridge.enabled, log);
      SameSight(s, Seen(bridge));
      HeardIsStream(s.link);
    }

    /** One event; if the host cannot report it now, nothing happens. */
    method Step(e: Event)
      requires Valid()
      modifies this, bridge
      ensures Valid() && log == old(log) + (if old(bridge.Happens(e)) then [e] else []) && Grows(bridge)
      ensures bridge.stray != old(bridge.stray) ==> old(bridge.Idle() && bridge.early)
      ensures bridge.early && bridge.hasty == old(bridge.hasty) ==> old(bridge.early)
      ensures !e.Readable? ==> bridge.hasty == old(bridge.hasty)
    {
      if !bridge.Happens(e) {
        assert log + [] == log;
        return;
      }
      RunNext(bridge.enabled, log, e);
      ViewTold(Run(bridge.enabled, log), Seen(bridge), bridge.enabled, e);
      Happen(bridge, e);
      log := log + [e];
    }

    /**
      Every run of the bridge, in any order of its events.  Nothing is taken back; everything
      emitted is what the frames of the connections emit; every request behind an emission was
      written to its end, unless its response came too soon; and as long as no response does,
      nothing but requests is written.
     */
    method Replay(events: seq<Event>)
      requires Valid()
      modifies this, bridge
      ensures Valid() && old(log) <= log && Grows(bridge)
      ensures Sent(Connections(), bridge.accepted) == Some(bridge.emitted)
      ensures AllWrittenFirst(bridge.emitted, bridge.accepted, bridge.wires, bridge.hasty)
      ensures bridge.hasty == old(bridge.hasty) && !old(bridge.early) ==> bridge.stray == old(bridge.stray)
      ensures (forall e <- events :: !e.Readable?) ==> bridge.hasty == old(bridge.hasty)
    {
      for i := 0 to |events|
        invariant Valid() && old(log) <= log && Grows(bridge)
        invariant bridge.hasty == old(bridge.hasty) && !old(bridge.early) ==> bridge.stray == old(bridge.stray) && !bridge.early
        invariant (forall e <- events :: !e.Readable?) ==> bridge.hasty == old(bridge.hasty)
      {
        ghost var wires := bridge.wires;
        Step(events[i]);
        WiresGrowTwice(old(bridge.wires), wires, bridge.wires);
      }
      EmittedIsSent();
    }
  }

  /** Two runs that accept the same requests and read the same streams, however cut, emit the same. */
  lemma CutsDoNotMatter(a: SigndRun, b: SigndRun)
    requires a.Valid() && b.Valid() && a.bridge.accepted == b.bridge.accepted && Streams(a.Connections()) == Streams(b.Connections())
    requires (forall c <- a.Connections() :: NeverCrosses(c)) && forall c <- b.Connections() :: NeverCrosses(c)
    ensures a.bridge.emitted == b.bridge.emitted
  {
    a.EmittedIsSent();
    b.EmittedIsSent();
  }

  // ---- What a daemon achieves.

  /** The response signs what it is asked to sign. */
  predicate Signs(r: Response, q: Request) { r.op == SIGNING_SUCCESS && r.id == q.slot }

  /** The signed packet goes to the client that asked, if the response is for it and its socket is still there. */
  ghost function Served(k: nat, q: Request, r: Response, serverSocket: bool): seq<Emission>
  {
    if Signs(r, q) && serverSocket then [Packet(k, q, r)] else []
  }

  function Packet(k: nat, q: Request, r: Response): Emission
  {
    Emission(k, FrameOf(r), r.payload, q.remote, q.local)
  }

  lemma OutcomeIsServed(k: nat, q: Request, r: Response, serverSocket: bool)
    ensures Outcome(k, q, FrameOf(r), serverSocket) == Served(k, q, r, serverSocket)
  {
    FieldsOfFrame(r);
  }

  /** Each response signs the request it comes for, and each client's socket is still there. */
  predicate AllServe(first: nat, accepted: seq<Request>, rs: seq<Response>, answers: seq<bool>)
    decreases |rs|
  {
    && |rs| == |answers| && first + |rs| <= |accepted|
    && (rs == [] || var n := |rs| - 1;
                    Signs(rs[n], accepted[first + n]) && answers[n] && AllServe(first, accepted, rs[..n], answers[..n]))
  }

  /** Each client gets its own signed packet. */
  ghost function Packets(first: nat, accepted: seq<Request>, rs: seq<Response>): (out: seq<Emission>)
    requires first + |rs| <= |accepted|
    ensures |out| == |rs|
  {
    if rs == [] then []
    else
      var n := |rs| - 1;
      Packets(first, accepted, rs[..n]) + [Packet(first + n, accepted[first + n], rs[n])]
  }

  /**
    A connection whose stream is the right responses, one for each request: whatever else happens
    on the way, each client gets exactly its signed packet.
   */
  lemma {:induction false} EveryClientServed(first: nat, accepted: seq<Request>, rs: seq<Response>, answers: seq<bool>, frames: seq<Frame>, out: seq<Emission>)
    requires AllServe(first, accepted, rs, answers) && frames == FramesOf(rs) && out == Packets(first, accepted, rs)
    ensures Answered(first, accepted, frames, answers) == out
    decreases |rs|
  {
    if rs != [] {
      var n := |rs| - 1;
      var before, sent := FramesOf(rs[..n]), Packets(first, accepted, rs[..n]);
      EveryClientServed(first, accepted, rs[..n], answers[..n], before, sent);
      FramesOfPrefix(rs, n);
      OutcomeIsPacket(first + n, accepted[first + n], rs[n]);
      OneMoreServed(first, accepted, before, answers[..n], sent, FrameOf(rs[n]), Packet(first + n, accepted[first + n], rs[n]), frames, answers);
    }
  }

  lemma OneMoreServed(first: nat, accepted: seq<Request>, before: seq<Frame>, flags: seq<bool>, sent: seq<Emission>, f: Frame, e: Emission,
                      frames: seq<Frame>, answers: seq<bool>)
    requires |before| == |flags| && first + |before| < |accepted| && Answered(first, accepted, before, flags) == sent
    requires Outcome(first + |before|, accepted[first + |before|], f, true) == [e]
    requires frames == before + [f] && |answers| == |frames| && answers[..|before|] == flags && answers[|before|]
    ensures Answered(first, accepted, frames, answers) == sent + [e]
  {
    AllButLast(answers, |before|);
    AnsweredSnoc(first, accepted, before, flags, f, true, frames, answers);
  }

  lemma OutcomeIsPacket(k: nat, q: Request, r: Response)
    requires Signs(r, q)
    ensures Outcome(k, q, FrameOf(r), true) == [Packet(k, q, r)]
  {
    OutcomeIsServed(k, q, r, true);
  }

  /** The same for a connection as it was heard, in any pieces that respect the frame ends. */
  lemma ConnectionServed(c: Connection, accepted: seq<Request>, rs: seq<Response>)
    requires AllServe(c.first, accepted, rs, c.answers) && NeverCrosses(c) && Joined(c.chunks) == Joined(FramesOf(rs))
    ensures Brought(c, accepted) == Some(Part(Packets(c.first, accepted, rs), c.first + |rs|, []))
  {
    var frames, out := FramesOf(rs), Packets(c.first, accepted, rs);
    HeardResponses(c, rs);
    EveryClientServed(c.first, accepted, rs, c.answers, frames, out);
    PartIs(c.first, accepted, frames, c.answers, out);
  }

  lemma HeardResponses(c: Connection, rs: seq<Response>)
    requires NeverCrosses(c) && Joined(c.chunks) == Joined(FramesOf(rs))
    ensures Heard(c) == Frames(FramesOf(rs), [])
  {
    HeardIsStream(c);
    ResponsesAreFrames(rs);
  }

  lemma PartIs(first: nat, accepted: seq<Request>, frames: seq<Frame>, answers: seq<bool>, out: seq<Emission>)
    requires |frames| == |answers| && first + |frames| <= |accepted| && Answered(first, accepted, frames, answers) == out
    ensures PartOf(first, accepted, Frames(frames, []), answers) == Some(Part(out, first + |frames|, []))
  {}

  lemma {:induction false} FramesOfPrefix(rs: seq<Response>, n: nat)
    requires |rs| == n + 1
    ensures FramesOf(rs) == FramesOf(rs[..n]) + [FrameOf(rs[n])]
    decreases n
  {
    if n > 0 {
      FramesOfPrefix(rs[1..], n - 1);
      assert rs[..n][1..] == rs[1..][..n - 1];
    }
  }

  /** One response in any pieces: the waiting client gets the signed packet, exactly if it is meant for it. */
  method Deliver(b: SigndBridge, r: Response, chunks: seq<Bytes>, serverSocket: bool)
    requires b.Valid() && !b.Idle() && b.Buffered() == []
    requires Joined(chunks) == FrameOf(r) && forall i | 0 <= i < |chunks| :: |chunks[i]| > 0
    modifies b
    ensures b.Valid() && b.accepted == old(b.accepted) && b.wires == old(b.wires) && b.stray == old(b.stray)
    ensures b.head == Next(old(b.head)) && b.tail == old(b.tail) && b.sockOpen && b.Buffered() == []
    ensures 0 <= old(b.HeadSerial()) < |b.accepted|
    ensures var k := old(b.HeadSerial()); b.emitted == old(b.emitted) + Served(k, b.accepted[k], r, serverSocket)
  {
    HeadWaits(b.queue, b.head, b.tail, b.accepted, b.wires);
    OutcomeIsServed(b.HeadSerial(), b.accepted[b.HeadSerial()], r, serverSocket);
    assert Joined(chunks) == [] + Joined(chunks);
    DeliverRest(b, r, chunks, serverSocket);
  }

  method DeliverRest(b: SigndBridge, r: Response, chunks: seq<Bytes>, serverSocket: bool)
    requires b.Valid() && !b.Idle() && FrameOf(r) == b.Buffered() + Joined(chunks) && |b.Buffered()| < |FrameOf(r)|
    requires forall i | 0 <= i < |chunks| :: |chunks[i]| > 0
    requires 0 <= b.HeadSerial() < |b.accepted|
    modifies b
    ensures b.Valid() && b.accepted == old(b.accepted) && b.wires == old(b.wires) && b.stray == old(b.stray)
    ensures b.head == Next(old(b.head)) && b.tail == old(b.tail) && b.sockOpen && b.Buffered() == []
    ensures var k := old(b.HeadSerial()); b.emitted == old(b.emitted) + Outcome(k, b.accepted[k], FrameOf(r), serverSocket)
    decreases |chunks|
  {
    ghost var before, f := b.Buffered(), FrameOf(r);
    var c, later := chunks[0], chunks[1..];
    assert f == before + c + Joined(later);
    if later == [] {
      assert before + c == f && f + [] == f;
      ResponseIsComplete(r, []);
      b.OnInput(Some(c), serverSocket);
    } else {
      assert |later[0]| > 0 && Joined(later) == later[0] + Joined(later[1..]);
      assert before + c == f[..|before + c|];
      PartIsWaiting(r, |before + c|);
      b.OnInput(Some(c), serverSocket);
      DeliverRest(b, r, later, serverSocket);
    }
  }

  // ---- Two runs that go wrong.

  /** A client asks for a signature of its first packet. */
  method Ask(b: SigndBridge)
    requires b.Valid() && b.enabled && Count(b.head, b.tail) < 15
    modifies b
    ensures b.Valid() && b.tail == Next(old(b.tail)) && b.head == old(b.head) && b.Buffered() == old(b.Buffered())
    ensures b.wires == old(b.wires) + [[]] && b.stray == old(b.stray) && b.hasty == old(b.hasty)
    ensures OthersKept(old(b.queue), old(b.tail), b.queue) && Untouched(b.queue[old(b.tail)])
    ensures var n := |old(b.accepted)|;
            && old(b.accepted) <= b.accepted && |b.accepted| == n + 1 && WellFormed(b.accepted[n])
            && b.queue[old(b.tail)].request == Serialised(b.accepted[n])
  {
    var packet := Repeated(0, NTP_HEADER_LENGTH);
    var _ := b.SignAndSendPacket(true, 0, packet, NTP_HEADER_LENGTH, 0, 0, 0);
  }

  /** The slot holds the second request, nothing of it written. */
  predicate SecondIsWhole(inst: SignInstance, accepted: seq<Request>) {
    |accepted| >= 2 && WellFormed(accepted[1]) && inst.request == Serialised(accepted[1]) && Untouched(inst)
  }

  method TwoWaiting() returns (b: SigndBridge)
    ensures fresh(b) && b.Valid() && b.enabled && b.head == 0 && b.tail == 2 && b.Buffered() == []
    ensures |b.accepted| == 2 && b.wires == [[], []] && b.stray == [] && b.hasty == [] && SecondIsWhole(b.queue[1], b.accepted)
  {
    b := new SigndBridge(true);
    Ask(b);
    Ask(b);
  }

  /**
    A read that crosses a frame end: both responses arrive at once, the first one finishes the
    first request, and the second request goes on waiting for a response that is gone.
   */
  method CrossingReadHappens() returns (b: SigndBridge)
    ensures b.Valid() && |b.accepted| == 2 && b.HeadSerial() == 1 && b.Buffered() == []
    ensures |Ideal(BareResponse() + BareResponse()).frames| == 2
  {
    b := TwoWaiting();
    CrossingReadLoses(BareResponse());
    BareIsComplete();
    JudgeStable(BareResponse(), BareResponse());
    var data := BareResponse() + BareResponse();
    assert [] + data == data;
    b.OnInput(Some(data), true);
  }

  /** After a reset with two requests waiting, a third one is answered before any of it was written. */
  method AnsweredTooSoon() returns (b: SigndBridge)
    ensures fresh(b) && b.Valid() && b.head == b.tail == 1 && b.armed
    ensures |b.accepted| == 3 && b.wires == [[], [], []] && b.stray == [] && b.hasty == [2] && SecondIsWhole(b.queue[1], b.accepted)
  {
    b := TwoWaiting();
    b.OnInput(None, true);
    Ask(b);
    BareIsComplete();
    assert [] + BareResponse() == BareResponse();
    b.OnInput(Some(BareResponse()), true);
  }

  /** The writable event, still enabled on the empty queue, then sends the abandoned second request. */
  method StaleBytesHappen() returns (b: SigndBridge, ghost enabled: bool)
    ensures b.Valid() && enabled && b.head == b.tail && b.wires == [[], [], []] && b.hasty == [2]
    ensures |b.accepted| == 3 && WellFormed(b.accepted[1]) && b.stray == Serialised(b.accepted[1])
  {
    b := AnsweredTooSoon();
    enabled := b.armed;
    var rest := b.Remaining();
    ghost var whole := b.queue[1].request;
    assert [] + whole[0..|whole|] == whole;
    b.OnOutput(rest);
  }
}
