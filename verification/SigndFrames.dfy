/**
  The wire format of the signing daemon, and how a response stream is cut into frames.
 */
module SigndFrames {
  import opened Common

  const NTP_HEADER_LENGTH: nat := 48
  const NTP_PACKET_SIZE: nat := 1140
  const SIGND_VERSION: U32 := 0
  const SIGN_TO_CLIENT: U32 := 0
  const SIGNING_SUCCESS: U32 := 3
  const REQUEST_HEADER: nat := 20
  const RESPONSE_HEADER: nat := 16
  const RESPONSE_SIZE: nat := RESPONSE_HEADER + NTP_PACKET_SIZE

  /** One signing request as accepted into queue slot `slot`. */
  datatype Request = Request(slot: nat, keyId: U32, packet: Bytes, remote: U64, local: U64, fd: I32)

  predicate WellFormed(q: Request) { q.slot < 16 && |q.packet| == NTP_HEADER_LENGTH }

  /** The serialised request: length, version, op, slot id, padding, key id and packet. */
  function Serialised(q: Request): (b: Bytes)
    requires WellFormed(q)
    ensures |b| == REQUEST_HEADER + NTP_HEADER_LENGTH
  {
    Be32(REQUEST_HEADER + NTP_HEADER_LENGTH - 4) + Be32(SIGND_VERSION) + Be32(SIGN_TO_CLIENT)
    + Be16(q.slot) + [0, 0] + Be32(q.keyId) + q.packet
  }

  /** The receiver of a request reads back its length, slot id, key and packet. */
  lemma SerialisedRoundTrip(q: Request)
    requires WellFormed(q)
    ensures var b := Serialised(q);
            && FromBe32(b[..4]) + 4 == |b| && FromBe32(b[4..8]) == 0 && FromBe32(b[8..12]) == 0
            && FromBe16(b[12..14]) == q.slot && FromBe16(b[14..16]) == 0
            && FromBe32(b[16..20]) == q.keyId
            && b[20..] == q.packet
  {
    var b := Serialised(q);
    assert b[..4] == Be32(64) && b[4..8] == Be32(0) && b[8..12] == Be32(0);
    assert b[12..14] == Be16(q.slot) && b[14..16] == [0, 0] && b[16..20] == Be32(q.keyId);
    Be32RoundTrip(64);
    Be32RoundTrip(0);
    Be32RoundTrip(q.keyId);
  }

  // ---- Responses.

  /** A response with at least its header. */
  type Frame = f: Bytes | |f| >= RESPONSE_HEADER witness Repeated(0, RESPONSE_HEADER)

  /** Whether the bytes received so far decide an exchange, and how. */
  datatype Verdict = Waiting | Broken | Complete(frame: Frame)

  function Judge(b: Bytes): (v: Verdict)
    ensures v.Complete? ==> RESPONSE_HEADER <= |v.frame| <= RESPONSE_SIZE && v.frame <= b
    ensures v.Complete? ==> FromBe32(v.frame[..4]) + 4 == |v.frame|
  {
    if |b| < 4 then Waiting
    else
      var n := FromBe32(b[..4]) + 4;
      if n < RESPONSE_HEADER || n > RESPONSE_SIZE then Broken
      else if |b| < n then Waiting
      else assert b[..n][..4] == b[..4]; Complete(b[..n])
  }

  /** What the daemon sends: length, version, op, packet id and the signed packet. */
  datatype AnyResponse = Response(version: U32, op: U32, id: U32, payload: Bytes)

  type Response = r: AnyResponse | |r.payload| <= NTP_PACKET_SIZE witness Response(0, 0, 0, [])

  function FrameOf(r: Response): (f: Frame)
    ensures |f| == RESPONSE_HEADER + |r.payload|
  {
    Be32(RESPONSE_HEADER - 4 + |r.payload|) + Be32(r.version) + Be32(r.op) + Be32(r.id) + r.payload
  }

  /** The fields of a frame. */
  function Fields(f: Frame): Response
    requires |f| <= RESPONSE_SIZE
  {
    Response(FromBe32(f[4..8]), FromBe32(f[8..12]), FromBe32(f[12..16]), f[RESPONSE_HEADER..])
  }

  lemma FieldsOfFrame(r: Response)
    ensures Fields(FrameOf(r)) == r && FromBe32(FrameOf(r)[..4]) + 4 == |FrameOf(r)|
  {
    var f, n := FrameOf(r), RESPONSE_HEADER - 4 + |r.payload|;
    assert f[..4] == Be32(n) && f[4..8] == Be32(r.version) && f[8..12] == Be32(r.op) && f[12..16] == Be32(r.id);
    assert f[RESPONSE_HEADER..] == r.payload;
    Be32RoundTrip(n);
    Be32RoundTrip(r.version);
    Be32RoundTrip(r.op);
    Be32RoundTrip(r.id);
  }

  /** Every response that may be sent, with whatever behind it, completes an exchange as it was written. */
  lemma ResponseIsComplete(r: Response, more: Bytes)
    ensures Judge(FrameOf(r) + more) == Complete(FrameOf(r))
  {
    var f := FrameOf(r);
    FieldsOfFrame(r);
    assert (f + more)[..4] == f[..4] && (f + more)[..|f|] == f;
  }

  /** Nothing else does: a complete frame is what its fields write. */
  lemma CompleteIsResponse(b: Bytes)
    requires Judge(b).Complete?
    ensures var f := Judge(b).frame; f == FrameOf(Fields(f))
  {
    var f := Judge(b).frame;
    FromBe32RoundTrip(f[..4]);
    FromBe32RoundTrip(f[4..8]);
    FromBe32RoundTrip(f[8..12]);
    FromBe32RoundTrip(f[12..16]);
    assert f == f[..4] + f[4..8] + f[8..12] + f[12..16] + f[RESPONSE_HEADER..];
  }

  /** A response that is still on its way is waited for. */
  lemma PartIsWaiting(r: Response, n: nat)
    requires n < |FrameOf(r)|
    ensures Judge(FrameOf(r)[..n]).Waiting?
  {
    FieldsOfFrame(r);
    if n >= 4 { assert FrameOf(r)[..n][..4] == FrameOf(r)[..4]; }
  }

  /** The connection breaks exactly on a length that no response has. */
  lemma BrokenExactly(b: Bytes)
    ensures Judge(b).Broken? <==> |b| >= 4 && !(RESPONSE_HEADER <= FromBe32(b[..4]) + 4 <= RESPONSE_HEADER + NTP_PACKET_SIZE)
  {}

  /** The shortest response there is: a header that announces nothing behind it. */
  function BareResponse(): Frame { FrameOf(Response(0, 0, 0, [])) }

  lemma BareIsComplete()
    ensures |BareResponse()| == RESPONSE_HEADER && Judge(BareResponse()) == Complete(BareResponse())
  {
    ResponseIsComplete(Response(0, 0, 0, []), []);
    assert BareResponse() + [] == BareResponse();
  }

  /** A decision never changes when more bytes arrive. */
  lemma JudgeStable(b: Bytes, more: Bytes)
    requires !Judge(b).Waiting?
    ensures Judge(b + more) == Judge(b)
  {
    assert (b + more)[..4] == b[..4];
    if Judge(b).Complete? { var n := |Judge(b).frame|; assert (b + more)[..n] == b[..n]; }
  }

  /** While waiting there is always room for another read. */
  lemma WaitingHasRoom(b: Bytes)
    requires Judge(b).Waiting?
    ensures |b| < RESPONSE_SIZE
  {}

  /** One exchange read chunk by chunk, stopping at the first decision. */
  function Exchange(b: Bytes, chunks: seq<Bytes>): Verdict
    decreases |chunks|
  {
    if !Judge(b).Waiting? || chunks == [] then Judge(b) else Exchange(b + chunks[0], chunks[1..])
  }

  /** How the stream was chunked does not matter: reading to the first decision is judging all of it. */
  lemma {:induction false} ChunkingIrrelevant(b: Bytes, chunks: seq<Bytes>)
    ensures Exchange(b, chunks) == Judge(b + Joined(chunks))
    decreases |chunks|
  {
    if !Judge(b).Waiting? {
      JudgeStable(b, Joined(chunks));
    } else if chunks == [] {
      assert b + Joined(chunks) == b;
    } else {
      ChunkingIrrelevant(b + chunks[0], chunks[1..]);
      assert b + chunks[0] + Joined(chunks[1..]) == b + Joined(chunks);
    }
  }

  // ---- Several exchanges over one stream.

  /** The frames of a stream, each starting where the previous one ended, and the bytes left over. */
  datatype Frames = Frames(frames: seq<Frame>, rest: Bytes)

  function Ideal(b: Bytes): Frames
    decreases |b|
  {
    match Judge(b)
    case Complete(f) => var tail := Ideal(b[|f|..]); Frames([f] + tail.frames, tail.rest)
    case _ => Frames([], b)
  }

  function FramesOf(rs: seq<Response>): seq<Frame>
    ensures |FramesOf(rs)| == |rs|
  {
    if rs == [] then [] else [FrameOf(rs[0])] + FramesOf(rs[1..])
  }

  /** The frames of a stream of responses are those responses, one by one. */
  lemma {:induction false} ResponsesAreFrames(rs: seq<Response>)
    ensures Ideal(Joined(FramesOf(rs))) == Frames(FramesOf(rs), [])
  {
    if rs != [] {
      var f := FrameOf(rs[0]);
      var later: Bytes := Joined(FramesOf(rs[1..]));
      ResponseIsComplete(rs[0], later);
      assert FramesOf(rs)[1..] == FramesOf(rs[1..]);
      assert Joined(FramesOf(rs)) == f + later && (f + later)[|f|..] == later;
      ResponsesAreFrames(rs[1..]);
    }
  }

  /** What one read does to the receive buffer: a completed frame takes the whole buffer with it. */
  function Read(b: Bytes, chunk: Bytes): Frames {
    match Judge(b + chunk)
    case Complete(f) => Frames([f], [])
    case _ => Frames([], b + chunk)
  }

  function Session(b: Bytes, chunks: seq<Bytes>): Frames
    decreases |chunks|
  {
    if chunks == [] then Frames([], b)
    else
      var r := Read(b, chunks[0]);
      var tail := Session(r.rest, chunks[1..]);
      Frames(r.frames + tail.frames, tail.rest)
  }

  /** One more read at the end. */
  lemma {:induction false} SessionNext(b: Bytes, chunks: seq<Bytes>, chunk: Bytes)
    ensures var s := Session(b, chunks);
            var r := Read(s.rest, chunk);
            Session(b, chunks + [chunk]) == Frames(s.frames + r.frames, r.rest)
    decreases |chunks|
  {
    var all := chunks + [chunk];
    if chunks == [] {
      assert all[1..] == [];
    } else {
      var r := Read(b, chunks[0]);
      assert all[1..] == chunks[1..] + [chunk];
      SessionNext(r.rest, chunks[1..], chunk);
      var s := Session(r.rest, chunks[1..]);
      Regroup(r.frames, s.frames, Read(s.rest, chunk).frames);
    }
  }

  /** The read does not reach beyond the end of the frame it completes. */
  predicate Aligned(b: Bytes, chunk: Bytes) {
    Judge(b + chunk).Complete? ==> Judge(b + chunk).frame == b + chunk
  }

  ghost predicate AllAligned(b: Bytes, chunks: seq<Bytes>)
    decreases |chunks|
  {
    chunks != [] ==> Aligned(b, chunks[0]) && AllAligned(Read(b, chunks[0]).rest, chunks[1..])
  }

  lemma {:induction false} AlignedIsIdeal(b: Bytes, chunks: seq<Bytes>)
    requires AllAligned(b, chunks) && !Judge(b).Complete?
    ensures Session(b, chunks) == Ideal(b + Joined(chunks))
    decreases |chunks|
  {
    if chunks == [] {
      assert b + Joined(chunks) == b;
    } else {
      var first, later := b + chunks[0], Joined(chunks[1..]);
      assert b + Joined(chunks) == first + later;
      match Judge(first) {
        case Complete(f) =>
          JudgeStable(first, later);
          assert (first + later)[|f|..] == later == [] + later;
          AlignedIsIdeal([], chunks[1..]);
        case _ =>
          AlignedIsIdeal(first, chunks[1..]);
      }
    }
  }

  /** The bytes accounted for, in frames or left over. */
  function Accounted(s: Frames): nat { |Joined(s.frames)| + |s.rest| }

  /** Cutting a stream into frames drops nothing. */
  lemma {:induction false} IdealKeepsAll(b: Bytes)
    ensures Accounted(Ideal(b)) == |b|
    decreases |b|
  {
    if Judge(b).Complete? {
      var f := Judge(b).frame;
      IdealKeepsAll(b[|f|..]);
      JoinedParts([f], Ideal(b[|f|..]).frames);
      assert Joined([f]) == f + Joined([]) == f;
    }
  }

  /** A session accounts for every byte if and only if no read crosses a frame end. */
  lemma {:induction false} SessionLoses(b: Bytes, chunks: seq<Bytes>)
    ensures Accounted(Session(b, chunks)) <= |b| + |Joined(chunks)|
    ensures Accounted(Session(b, chunks)) == |b| + |Joined(chunks)| <==> AllAligned(b, chunks)
    decreases |chunks|
  {
    if chunks != [] {
      var r := Read(b, chunks[0]);
      SessionLoses(r.rest, chunks[1..]);
      JoinedParts(r.frames, Session(r.rest, chunks[1..]).frames);
      if r.frames != [] { assert Joined(r.frames) == r.frames[0] + Joined([]) == r.frames[0]; }
      ReadLoses(b, chunks[0]);
    }
  }

  lemma ReadLoses(b: Bytes, chunk: Bytes)
    ensures var v := Judge(b + chunk);
            v.Complete? ==> |v.frame| <= |b + chunk| && (|v.frame| == |b + chunk| <==> Aligned(b, chunk))
  {
    var v := Judge(b + chunk);
    if v.Complete? && |v.frame| == |b + chunk| { assert v.frame == b + chunk; }
  }

  /** A session yields the frames of the stream, in order, and its rest, if and only if no read crosses a frame end. */
  lemma SessionIsIdeal(b: Bytes, chunks: seq<Bytes>)
    requires !Judge(b).Complete?
    ensures Session(b, chunks) == Ideal(b + Joined(chunks)) <==> AllAligned(b, chunks)
  {
    if AllAligned(b, chunks) { AlignedIsIdeal(b, chunks); }
    SessionLoses(b, chunks);
    IdealKeepsAll(b + Joined(chunks));
  }

  /** A read of two frames at once: the stream has both, the session only the first. */
  lemma CrossingReadLoses(r: Frame)
    requires r == BareResponse()
    ensures |r + r| <= RESPONSE_SIZE && !Aligned([], r + r)
    ensures Session([], [r + r]) == Frames([r], []) && Ideal(r + r) == Frames([r, r], [])
  {
    BareIsComplete();
    JudgeStable(r, r);
    assert [] + (r + r) == r + r && (r + r)[|r|..] == r && r[|r|..] == [];
    assert [r + r][1..] == [];
    assert Ideal(r) == Frames([r] + Ideal([]).frames, []);
  }
}
