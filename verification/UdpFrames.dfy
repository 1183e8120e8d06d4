/**
  Finding the UDP payload, remote address and port in a raw Ethernet frame, against a grammar
  of such frames.
 */
module UdpFrames {
  import opened Common

  const UDP: U8 := 17
  const UDP_HEADER: nat := 8

  const IPADDR_UNSPEC: int := 0
  const IPADDR_INET4: int := 1
  const IPADDR_INET6: int := 2

  datatype RemoteAddr = RemoteAddr(family: int, in4: U32, in6: Bytes, port: U16)

  const NO_IN6: Bytes := [0, 0, 0, 0, 0, 0, 0, 0, 0, 0, 0, 0, 0, 0, 0, 0]

  const NO_ADDR: RemoteAddr := RemoteAddr(IPADDR_UNSPEC, 0, NO_IN6, 0)

  // ---- The grammar.

  /** A network header: IPv4 with any options, or IPv6 with a chain of extension headers. */
  datatype Net = V4(header: Bytes) | V6(header: Bytes, exts: seq<Bytes>)

  /** Addresses, 802.1Q tags, ethertype, network header, UDP header, payload. */
  datatype Frame = Frame(macs: Bytes, tags: seq<Bytes>, ethertype: Bytes, net: Net, udp: Bytes, payload: Bytes)

  predicate IsTag(b: Bytes) { |b| == 4 && b[0] == 0x81 && b[1] == 0x00 }

  predicate IsEthertype(b: Bytes) { b == [0x08, 0x00] || b == [0x86, 0xdd] }

  /** The high and the low four bits of a byte. */
  function High(b: nat): nat { b / 16 }

  function Low(b: nat): nat { b % 16 }

  /** A 16-bit number shifted right by three. */
  function Eighth(n: nat): nat { n / 8 }

  /** The length of an extension header, by kind and its second to fourth byte; only a first fragment has one. */
  function ExtLength(kind: U8, b1: U8, b2: U8, b3: U8): (n: Option<nat>)
    ensures n.Some? ==> n.value >= 8
  {
    if kind == 44 then if Eighth(b2 as int * 256 + b3) == 0 then Some(8) else None
    else if kind == 0 || kind == 43 || kind == 60 || kind == 135 then Some(8 * (b1 as int + 1))
    else if kind == 51 then Some(4 * (b1 as int + 2))
    else None
  }

  /**
    An extension header as it is built: options, routing or mobility data in units of eight
    bytes, the first fragment of a packet, or authentication data in units of four.
   */
  datatype Ext =
    | Sized(kind: U8, next: U8, units: U8, body: Bytes)
    | FirstFragment(next: U8, reserved: U8, flags: U8, id: Bytes)
    | Authentication(next: U8, units: U8, body: Bytes)

  predicate ExtOk(e: Ext) {
    match e
    case Sized(kind, _, units, body) => (kind == 0 || kind == 43 || kind == 60 || kind == 135) && |body| == 6 + 8 * units
    case FirstFragment(_, _, flags, id) => flags < 8 && |id| == 4
    case Authentication(_, units, body) => |body| == 6 + 4 * units
  }

  function KindOf(e: Ext): U8 {
    match e
    case Sized(kind, _, _, _) => kind
    case FirstFragment(_, _, _, _) => 44
    case Authentication(_, _, _) => 51
  }

  function ExtBytes(e: Ext): Bytes {
    match e
    case Sized(_, next, units, body) => [next, units] + body
    case FirstFragment(next, reserved, flags, id) => [next, reserved, 0, flags] + id
    case Authentication(next, units, body) => [next, units] + body
  }

  /** Every header that can be built is one, and names the header behind it. */
  lemma BuiltIsExt(e: Ext)
    requires ExtOk(e)
    ensures IsExt(KindOf(e), ExtBytes(e)) && ExtBytes(e)[0] == e.next
  {}

  /** Nothing else is one. */
  lemma ExtIsBuilt(kind: U8, b: Bytes) returns (e: Ext)
    requires IsExt(kind, b)
    ensures ExtOk(e) && KindOf(e) == kind && ExtBytes(e) == b
  {
    if kind == 44 {
      e := FirstFragment(b[0], b[1], b[3], b[4..]);
    } else if kind == 51 {
      e := Authentication(b[0], b[1], b[2..]);
    } else {
      e := Sized(kind, b[0], b[1], b[2..]);
    }
  }

  predicate IsExt(kind: U8, b: Bytes) { |b| >= 8 && ExtLength(kind, b[1], b[2], b[3]) == Some(|b|) }

  /** Each header names the kind of the next; the last names UDP. */
  predicate Chained(kind: U8, exts: seq<Bytes>)
    decreases |exts|
  {
    if exts == [] then kind == UDP else IsExt(kind, exts[0]) && Chained(exts[0][0], exts[1..])
  }

  /** The length field of an IPv4 header, in bytes. */
  function HeaderLength(first: U8): nat { 4 * Low(first) }

  predicate NetOk(net: Net) {
    match net
    case V4(h) => 20 <= |h| <= 60 && |h| % 4 == 0 && h[0] as int == 0x40 + |h| / 4 && h[9] == UDP
    case V6(h, exts) => |h| == 40 && 0x60 <= h[0] < 0x70 && Chained(h[6], exts)
  }

  predicate FrameOk(f: Frame) {
    |f.macs| == 12 && (forall t <- f.tags :: IsTag(t)) && IsEthertype(f.ethertype) && NetOk(f.net) && |f.udp| == UDP_HEADER
  }

  function NetBytes(net: Net): Bytes {
    match net
    case V4(h) => h
    case V6(h, exts) => h + Joined(exts)
  }

  function FrameBytes(f: Frame): Bytes { f.macs + (Joined(f.tags) + (f.ethertype + (NetBytes(f.net) + (f.udp + f.payload)))) }

  // ---- Parsing at an offset.

  /** Where the tags that start at `off` end. */
  function TagsEnd(f: Bytes, off: nat): (n: nat)
    requires off <= |f|
    ensures off <= n <= |f|
    decreases |f| - off
  {
    if off + 4 <= |f| && f[off] == 0x81 && f[off + 1] == 0x00 then TagsEnd(f, off + 4) else off
  }

  /** Where the extension headers that start at `off` end, if a whole UDP header follows. */
  function ExtsEnd(f: Bytes, off: nat, kind: U8): (n: Option<nat>)
    requires off + UDP_HEADER <= |f|
    ensures n.Some? ==> off <= n.value && n.value + UDP_HEADER <= |f|
    decreases |f| - off
  {
    if kind == UDP then Some(off)
    else
      match ExtLength(kind, f[off + 1], f[off + 2], f[off + 3])
      case None => None
      case Some(l) => if off + l + UDP_HEADER > |f| then None else ExtsEnd(f, off + l, f[off])
  }

  /** What is found: where the payload starts, and the address as far as it was filled in. */
  datatype Extract = Extract(payload: Option<nat>, addr: RemoteAddr)

  function Port(f: Bytes, udp: nat): U16
    requires udp + 4 <= |f|
  {
    FromBe16(f[udp + 2..udp + 4])
  }

  predicate IsV4(f: Bytes, off: nat) { off + 20 <= |f| && High(f[off]) == 4 }

  predicate IsV6(f: Bytes, off: nat) { off + 48 <= |f| && High(f[off]) == 6 }

  /** The packet that starts at `off`. */
  function NetExtract(f: Bytes, off: nat): (r: Extract)
    ensures r.payload.Some? ==> r.payload.value <= |f|
    ensures r.payload.Some? <==> r.addr.family != IPADDR_UNSPEC
  {
    if IsV4(f, off) then
      var udp := off + HeaderLength(f[off]);
      if udp + UDP_HEADER > |f| || f[off + 9] != UDP then Extract(None, NO_ADDR)
      else Extract(Some(udp + UDP_HEADER), RemoteAddr(IPADDR_INET4, FromBe32(f[off + 16..off + 20]), NO_IN6, Port(f, udp)))
    else if IsV6(f, off) then
      var to := f[off + 24..off + 40];
      match ExtsEnd(f, off + 40, f[off + 6])
      case None => Extract(None, RemoteAddr(IPADDR_UNSPEC, 0, to, 0))
      case Some(udp) => Extract(Some(udp + UDP_HEADER), RemoteAddr(IPADDR_INET6, 0, to, Port(f, udp)))
    else Extract(None, NO_ADDR)
  }

  predicate HasEthertype(f: Bytes, off: nat) { off + 2 <= |f| && IsEthertype(f[off..off + 2]) }

  /** The whole frame. */
  function FrameExtract(f: Bytes): (r: Extract)
    ensures r.payload.Some? ==> r.payload.value <= |f|
    ensures r.payload.Some? <==> r.addr.family != IPADDR_UNSPEC
  {
    if |f| < 12 || !HasEthertype(f, TagsEnd(f, 12)) then Extract(None, NO_ADDR) else NetExtract(f, TagsEnd(f, 12) + 2)
  }

  // ---- Every frame of the grammar is parsed.

  /** `part` stands at `off`. */
  predicate Holds(f: Bytes, off: nat, part: Bytes) {
    off + |part| <= |f| && f[off..off + |part|] == part
  }

  lemma HoldsSplit(f: Bytes, off: nat, a: Bytes, b: Bytes)
    requires Holds(f, off, a + b)
    ensures Holds(f, off, a) && Holds(f, off + |a|, b)
  {
    var s := f[off..off + |a + b|];
    assert (a + b)[..|a|] == a && (a + b)[|a|..] == b;
    assert s[..|a|] == f[off..off + |a|];
    assert s[|a|..] == f[off + |a|..off + |a| + |b|];
  }

  lemma HoldsAt(f: Bytes, off: nat, part: Bytes, i: nat)
    requires Holds(f, off, part) && i < |part|
    ensures f[off + i] == part[i]
  {
    assert f[off..off + |part|][i] == part[i];
  }

  lemma HoldsSlice(f: Bytes, off: nat, part: Bytes, lo: nat, hi: nat)
    requires Holds(f, off, part) && lo <= hi <= |part|
    ensures f[off + lo..off + hi] == part[lo..hi]
  {
    forall i | 0 <= i < hi - lo ensures f[off + lo..off + hi][i] == part[lo..hi][i] { HoldsAt(f, off, part, lo + i); }
  }

  lemma {:induction false} TagsAreSkipped(f: Bytes, off: nat, tags: seq<Bytes>)
    requires Holds(f, off, Joined(tags)) && (forall t <- tags :: IsTag(t))
    requires var end := off + |Joined(tags)|; end < |f| && f[end] != 0x81
    ensures TagsEnd(f, off) == off + |Joined(tags)|
    decreases |tags|
  {
    if tags != [] {
      assert IsTag(tags[0]);
      HoldsSplit(f, off, tags[0], Joined(tags[1..]));
      HoldsAt(f, off, tags[0], 0);
      HoldsAt(f, off, tags[0], 1);
      TagsAreSkipped(f, off + 4, tags[1..]);
    }
  }

  lemma ExtIsRead(f: Bytes, off: nat, kind: U8, e: Bytes)
    requires Holds(f, off, e) && IsExt(kind, e)
    ensures f[off] == e[0] && ExtLength(kind, f[off + 1], f[off + 2], f[off + 3]) == Some(|e|)
  {
    HoldsAt(f, off, e, 0);
    HoldsAt(f, off, e, 1);
    HoldsAt(f, off, e, 2);
    HoldsAt(f, off, e, 3);
  }

  lemma NextExt(f: Bytes, off: nat, kind: U8, l: nat)
    requires off + l + UDP_HEADER <= |f| && ExtLength(kind, f[off + 1], f[off + 2], f[off + 3]) == Some(l)
    ensures ExtsEnd(f, off, kind) == ExtsEnd(f, off + l, f[off])
  {}

  lemma {:induction false} ExtsAreSkipped(f: Bytes, off: nat, kind: U8, exts: seq<Bytes>)
    requires Holds(f, off, Joined(exts)) && Chained(kind, exts) && off + |Joined(exts)| + UDP_HEADER <= |f|
    ensures ExtsEnd(f, off, kind) == Some(off + |Joined(exts)|)
    decreases |exts|
  {
    if exts != [] {
      var e, later := exts[0], Joined(exts[1..]);
      HoldsSplit(f, off, e, later);
      OneExt(f, off, kind, e, |later|);
      ExtsAreSkipped(f, off + |e|, e[0], exts[1..]);
    }
  }

  lemma OneExt(f: Bytes, off: nat, kind: U8, e: Bytes, more: nat)
    requires Holds(f, off, e) && IsExt(kind, e) && off + |e| + more + UDP_HEADER <= |f|
    ensures ExtsEnd(f, off, kind) == ExtsEnd(f, off + |e|, e[0])
  {
    ExtIsRead(f, off, kind, e);
    NextExt(f, off, kind, |e|);
  }

  /** The parsed address of a network header and a UDP header. */
  function Address(net: Net, udp: Bytes): RemoteAddr
    requires NetOk(net) && |udp| == UDP_HEADER
  {
    match net
    case V4(h) => RemoteAddr(IPADDR_INET4, FromBe32(h[16..20]), NO_IN6, FromBe16(udp[2..4]))
    case V6(h, _) => RemoteAddr(IPADDR_INET6, 0, h[24..40], FromBe16(udp[2..4]))
  }

  lemma V4IsExtracted(f: Bytes, off: nat, h: Bytes, udp: Bytes)
    requires NetOk(V4(h)) && |udp| == UDP_HEADER && Holds(f, off, h) && Holds(f, off + |h|, udp)
    ensures NetExtract(f, off) == Extract(Some(off + |h| + UDP_HEADER), Address(V4(h), udp))
  {
    HoldsAt(f, off, h, 0);
    HoldsAt(f, off, h, 9);
    HoldsSlice(f, off, h, 16, 20);
    HoldsSlice(f, off + |h|, udp, 2, 4);
  }

  lemma V6IsExtracted(f: Bytes, off: nat, h: Bytes, exts: seq<Bytes>, udp: Bytes)
    requires NetOk(V6(h, exts)) && |udp| == UDP_HEADER
    requires Holds(f, off, h + Joined(exts)) && Holds(f, off + |h + Joined(exts)|, udp)
    ensures NetExtract(f, off) == Extract(Some(off + |h + Joined(exts)| + UDP_HEADER), Address(V6(h, exts), udp))
  {
    HoldsSplit(f, off, h, Joined(exts));
    HoldsAt(f, off, h, 6);
    ExtsAreSkipped(f, off + 40, h[6], exts);
    V6Header(f, off, h, off + 40 + |Joined(exts)|, udp);
  }

  lemma V6Header(f: Bytes, off: nat, h: Bytes, at: nat, udp: Bytes)
    requires |h| == 40 && High(h[0]) == 6 && |udp| == UDP_HEADER && Holds(f, off, h) && Holds(f, at, udp) && off + 40 <= at
    requires ExtsEnd(f, off + 40, f[off + 6]) == Some(at)
    ensures NetExtract(f, off) == Extract(Some(at + UDP_HEADER), RemoteAddr(IPADDR_INET6, 0, h[24..40], FromBe16(udp[2..4])))
  {
    HoldsAt(f, off, h, 0);
    HoldsSlice(f, off, h, 24, 40);
    HoldsSlice(f, at, udp, 2, 4);
  }

  lemma NetIsExtracted(f: Bytes, off: nat, net: Net, udp: Bytes)
    requires NetOk(net) && |udp| == UDP_HEADER && Holds(f, off, NetBytes(net)) && Holds(f, off + |NetBytes(net)|, udp)
    ensures NetExtract(f, off) == Extract(Some(off + |NetBytes(net)| + UDP_HEADER), Address(net, udp))
  {
    match net {
      case V4(h) => V4IsExtracted(f, off, h, udp);
      case V6(h, exts) => V6IsExtracted(f, off, h, exts, udp);
    }
  }

  /** Where the packet of a frame starts. */
  function PacketAt(fr: Frame): nat { 14 + |Joined(fr.tags)| }

  /** The pieces of a frame stand one behind the other. */
  predicate Laid(fr: Frame, f: Bytes) {
    var at, n := PacketAt(fr), |NetBytes(fr.net)|;
    && Holds(f, 12, Joined(fr.tags)) && Holds(f, at - 2, fr.ethertype)
    && Holds(f, at, NetBytes(fr.net)) && Holds(f, at + n, fr.udp)
    && Holds(f, at + n + UDP_HEADER, fr.payload)
    && |f| == at + n + UDP_HEADER + |fr.payload|
  }

  lemma FramePieces(fr: Frame, f: Bytes)
    requires FrameOk(fr) && f == FrameBytes(fr)
    ensures Laid(fr, f)
  {
    var rest := fr.udp + fr.payload;
    var packet := NetBytes(fr.net) + rest;
    var typed := fr.ethertype + packet;
    var tagged := Joined(fr.tags) + typed;
    assert Holds(f, 0, f);
    HoldsSplit(f, 0, fr.macs, tagged);
    HoldsSplit(f, 12, Joined(fr.tags), typed);
    HoldsSplit(f, PacketAt(fr) - 2, fr.ethertype, packet);
    HoldsSplit(f, PacketAt(fr), NetBytes(fr.net), rest);
    HoldsSplit(f, PacketAt(fr) + |NetBytes(fr.net)|, fr.udp, fr.payload);
  }

  /** The link layer of a frame is skipped whole. */
  lemma LinkIsSkipped(fr: Frame, f: Bytes)
    requires FrameOk(fr) && Holds(f, 12, Joined(fr.tags)) && Holds(f, PacketAt(fr) - 2, fr.ethertype)
    ensures TagsEnd(f, 12) + 2 == PacketAt(fr) && HasEthertype(f, TagsEnd(f, 12))
  {
    HoldsAt(f, PacketAt(fr) - 2, fr.ethertype, 0);
    TagsAreSkipped(f, 12, fr.tags);
  }

  /** From every frame of the grammar exactly its payload, destination address and port are extracted. */
  lemma FrameIsExtracted(fr: Frame, f: Bytes)
    requires FrameOk(fr) && f == FrameBytes(fr)
    ensures FrameExtract(f) == Extract(Some(|f| - |fr.payload|), Address(fr.net, fr.udp))
    ensures Holds(f, |f| - |fr.payload|, fr.payload)
  {
    FramePieces(fr, f);
    LaidIsExtracted(fr, f);
  }

  lemma LaidIsExtracted(fr: Frame, f: Bytes)
    requires FrameOk(fr) && Laid(fr, f)
    ensures FrameExtract(f) == Extract(Some(|f| - |fr.payload|), Address(fr.net, fr.udp))
    ensures Holds(f, |f| - |fr.payload|, fr.payload)
  {
    LinkIsSkipped(fr, f);
    NetIsExtracted(f, PacketAt(fr), fr.net, fr.udp);
  }

  // ---- Only frames of the grammar are parsed, but for one laxity.

  /** An IPv4 packet whose length field is below the 20 bytes of its fixed part. */
  predicate ShortHeader(f: Bytes, off: nat) { IsV4(f, off) && HeaderLength(f[off]) < 20 }

  lemma JoinSlices(f: Bytes, a: nat, b: nat, c: nat)
    requires a <= b <= c <= |f|
    ensures f[a..b] + f[b..c] == f[a..c]
  {}

  lemma {:induction false} TagsBuilt(f: Bytes, off: nat) returns (tags: seq<Bytes>)
    requires off <= |f|
    ensures (forall t <- tags :: IsTag(t)) && Joined(tags) == f[off..TagsEnd(f, off)]
    decreases |f| - off
  {
    tags := [];
    if off + 4 <= |f| && f[off] == 0x81 && f[off + 1] == 0x00 {
      var later := TagsBuilt(f, off + 4);
      tags := [f[off..off + 4]] + later;
      assert tags[1..] == later;
      JoinSlices(f, off, off + 4, TagsEnd(f, off));
    }
  }

  lemma {:induction false} ExtsBuilt(f: Bytes, off: nat, kind: U8) returns (exts: seq<Bytes>)
    requires off + UDP_HEADER <= |f| && ExtsEnd(f, off, kind).Some?
    ensures Chained(kind, exts) && Joined(exts) == f[off..ExtsEnd(f, off, kind).value]
    decreases |f| - off
  {
    exts := [];
    if kind != UDP {
      var l := ExtLength(kind, f[off + 1], f[off + 2], f[off + 3]).value;
      var e := f[off..off + l];
      var later := ExtsBuilt(f, off + l, f[off]);
      exts := [e] + later;
      assert exts[1..] == later;
      assert e[0] == f[off] && e[1] == f[off + 1] && e[2] == f[off + 2] && e[3] == f[off + 3];
      JoinSlices(f, off, off + l, ExtsEnd(f, off, kind).value);
    }
  }

  lemma V4Built(f: Bytes, off: nat) returns (net: Net)
    requires IsV4(f, off) && NetExtract(f, off).payload.Some? && !ShortHeader(f, off)
    ensures NetOk(net) && NetBytes(net) == f[off..NetExtract(f, off).payload.value - UDP_HEADER]
  {
    var h := f[off..off + HeaderLength(f[off])];
    assert h[0] == f[off] && h[9] == f[off + 9];
    net := V4(h);
  }

  lemma V6Built(f: Bytes, off: nat) returns (net: Net)
    requires !IsV4(f, off) && NetExtract(f, off).payload.Some?
    ensures NetOk(net) && NetBytes(net) == f[off..NetExtract(f, off).payload.value - UDP_HEADER]
  {
    var h := f[off..off + 40];
    var exts := ExtsBuilt(f, off + 40, f[off + 6]);
    assert h[0] == f[off] && h[6] == f[off + 6];
    JoinSlices(f, off, off + 40, NetExtract(f, off).payload.value - UDP_HEADER);
    net := V6(h, exts);
  }

  lemma NetBuilt(f: Bytes, off: nat) returns (net: Net)
    requires NetExtract(f, off).payload.Some? && !ShortHeader(f, off)
    ensures off <= NetExtract(f, off).payload.value - UDP_HEADER
    ensures NetOk(net) && NetBytes(net) == f[off..NetExtract(f, off).payload.value - UDP_HEADER]
  {
    if IsV4(f, off) { net := V4Built(f, off); } else { net := V6Built(f, off); }
  }

  lemma Assembled(f: Bytes, a: nat, b: nat, c: nat)
    requires 12 <= a && a + 2 <= b && b + UDP_HEADER == c <= |f|
    ensures f == f[..12] + (f[12..a] + (f[a..a + 2] + (f[a + 2..b] + (f[b..c] + f[c..]))))
  {
    JoinSlices(f, b, c, |f|);
    JoinSlices(f, a + 2, b, |f|);
    JoinSlices(f, a, a + 2, |f|);
    JoinSlices(f, 12, a, |f|);
  }

  /**
    Whatever bytes an address is extracted from are a frame of the grammar, with that payload,
    unless the IPv4 length field is below the fixed header.
   */
  lemma ExtractedIsFrame(f: Bytes) returns (fr: Frame)
    requires FrameExtract(f).payload.Some? && !ShortHeader(f, TagsEnd(f, 12) + 2)
    ensures FrameOk(fr) && FrameBytes(fr) == f && fr.payload == f[FrameExtract(f).payload.value..]
  {
    var tags := TagsBuilt(f, 12);
    var net := NetBuilt(f, TagsEnd(f, 12) + 2);
    fr := Put(f, TagsEnd(f, 12), FrameExtract(f).payload.value, tags, net);
  }

  lemma Put(f: Bytes, a: nat, c: nat, tags: seq<Bytes>, net: Net) returns (fr: Frame)
    requires 12 <= a && a + 2 + UDP_HEADER <= c <= |f| && IsEthertype(f[a..a + 2])
    requires (forall t <- tags :: IsTag(t)) && Joined(tags) == f[12..a]
    requires NetOk(net) && NetBytes(net) == f[a + 2..c - UDP_HEADER]
    ensures FrameOk(fr) && FrameBytes(fr) == f && fr.payload == f[c..]
  {
    fr := Frame(f[..12], tags, f[a..a + 2], net, f[c - UDP_HEADER..c], f[c..]);
    SameBytes(fr, f, a, c);
  }

  lemma SameBytes(fr: Frame, f: Bytes, a: nat, c: nat)
    requires 12 <= a && a + 2 + UDP_HEADER <= c <= |f|
    requires fr.macs == f[..12] && Joined(fr.tags) == f[12..a] && fr.ethertype == f[a..a + 2]
    requires NetBytes(fr.net) == f[a + 2..c - UDP_HEADER] && fr.udp == f[c - UDP_HEADER..c] && fr.payload == f[c..]
    ensures FrameBytes(fr) == f
  {
    Assembled(f, a, c - UDP_HEADER, c);
  }

  /** The grammar has no such packet. */
  lemma FrameIsNotShort(fr: Frame, f: Bytes)
    requires FrameOk(fr) && f == FrameBytes(fr)
    ensures !ShortHeader(f, TagsEnd(f, 12) + 2)
  {
    FramePieces(fr, f);
    LinkIsSkipped(fr, f);
    match fr.net {
      case V4(h) => HoldsAt(f, PacketAt(fr), h, 0);
      case V6(h, exts) =>
        HoldsSplit(f, PacketAt(fr), h, Joined(exts));
        HoldsAt(f, PacketAt(fr), h, 0);
    }
  }

  ghost predicate IsFrame(f: Bytes) { exists fr :: FrameOk(fr) && FrameBytes(fr) == f }

  /** An IPv4 packet for UDP whose length field is below the fixed header, with room for a UDP header right behind that length. */
  predicate ShortPacket(f: Bytes, off: nat) {
    ShortHeader(f, off) && f[off + 9] == UDP && off + HeaderLength(f[off]) + UDP_HEADER <= |f|
  }

  predicate IsShortFrame(f: Bytes) {
    |f| >= 12 && HasEthertype(f, TagsEnd(f, 12)) && ShortPacket(f, TagsEnd(f, 12) + 2)
  }

  /** A payload is found in exactly the frames of the grammar and, besides, in frames with a short IPv4 header. */
  lemma AcceptedExactly(f: Bytes)
    ensures FrameExtract(f).payload.Some? <==> IsFrame(f) || IsShortFrame(f)
    ensures !IsFrame(f) || !IsShortFrame(f)
  {
    if IsFrame(f) {
      var fr :| FrameOk(fr) && FrameBytes(fr) == f;
      FrameIsExtracted(fr, f);
      FrameIsNotShort(fr, f);
    } else if FrameExtract(f).payload.Some? && !ShortHeader(f, TagsEnd(f, 12) + 2) {
      var _ := ExtractedIsFrame(f);
    }
  }

  /** With an IPv4 header of length zero, the UDP header is read over it. */
  lemma ZeroLengthIsAccepted(f: Bytes)
    requires |f| >= 34 && f[12] == 8 && f[13] == 0 && f[14] == 64 && f[23] == UDP
    ensures !IsFrame(f) && FrameExtract(f).payload == Some(22)
    ensures FrameExtract(f).addr == RemoteAddr(IPADDR_INET4, FromBe32(f[30..34]), NO_IN6, FromBe16(f[16..18]))
  {
    assert f[12..14] == [8, 0];
    AcceptedExactly(f);
  }

  const SHORT_FRAME: Bytes :=
    [0, 0, 0, 0, 0, 0, 0, 0, 0, 0, 0, 0, 8, 0, 64, 0, 0, 123, 0, 0, 0, 0, 64, 17, 0, 0, 0, 0, 0, 0, 127, 0, 0, 1]

  lemma ShortFrameIsAccepted()
    ensures !IsFrame(SHORT_FRAME) && FrameExtract(SHORT_FRAME).payload == Some(22)
  {
    ZeroLengthIsAccepted(SHORT_FRAME);
  }

  // ---- The parser.

  /** The tag loop. */
  method SkipTags(msg: array<U8>, start: nat) returns (off: nat)
    requires start <= msg.Length
    ensures off == TagsEnd(msg[..], start)
  {
    ghost var f := msg[..];
    off := start;
    var len: nat := msg.Length - start;
    while len >= 4 && msg[off] == 0x81 && msg[off + 1] == 0x00
      invariant off + len == msg.Length
      invariant TagsEnd(f, start) == TagsEnd(f, off)
    {
      len := len - 4;
      off := off + 4;
    }
  }

  /** The extension header loop: `None` where the walk gives up. */
  method SkipExts(msg: array<U8>, start: nat, kind: U8) returns (end: Option<nat>)
    requires start + UDP_HEADER <= msg.Length
    ensures end == ExtsEnd(msg[..], start, kind)
  {
    ghost var f := msg[..];
    var off, next := start, kind;
    var len: nat := msg.Length - start;
    while next != UDP
      invariant off + len == msg.Length && len >= UDP_HEADER
      invariant ExtsEnd(f, start, kind) == ExtsEnd(f, off, next)
      decreases len
    {
      var l := ExtLength(next, msg[off + 1], msg[off + 2], msg[off + 3]);
      if l.None? || len < l.value + UDP_HEADER {
        return None;
      }
      next := msg[off];
      len := len - l.value;
      off := off + l.value;
    }
    end := Some(off);
  }

  /** The packet behind the ethertype. */
  method ReadPacket(msg: array<U8>, off: nat) returns (r: Extract)
    requires off <= msg.Length
    ensures r == NetExtract(msg[..], off)
  {
    ghost var f := msg[..];
    var len := msg.Length - off;
    if len >= 20 && High(msg[off]) == 4 {
      var ihl := 4 * Low(msg[off]);
      if len < ihl + UDP_HEADER || msg[off + 9] != UDP {
        return Extract(None, NO_ADDR);
      }
      assert f[off + 16..off + 20] == msg[off + 16..off + 20] && f[off + ihl + 2..off + ihl + 4] == msg[off + ihl + 2..off + ihl + 4];
      return Extract(Some(off + ihl + UDP_HEADER),
                     RemoteAddr(IPADDR_INET4, FromBe32(msg[off + 16..off + 20]), NO_IN6, FromBe16(msg[off + ihl + 2..off + ihl + 4])));
    }
    if len >= 48 && High(msg[off]) == 6 {
      var to := msg[off + 24..off + 40];
      assert f[off + 24..off + 40] == to;
      var udp := SkipExts(msg, off + 40, msg[off + 6]);
      if udp.None? {
        return Extract(None, RemoteAddr(IPADDR_UNSPEC, 0, to, 0));
      }
      assert f[udp.value + 2..udp.value + 4] == msg[udp.value + 2..udp.value + 4];
      return Extract(Some(udp.value + UDP_HEADER), RemoteAddr(IPADDR_INET6, 0, to, FromBe16(msg[udp.value + 2..udp.value + 4])));
    }
    return Extract(None, NO_ADDR);
  }

  /**
    `extract_udp_data`: the payload found is moved to the front, within the frame; nothing
    else changes, and nothing at all if there is none.  An empty payload and a failure both have
    length zero; the address family tells them apart.
   */
  method ExtractUdpData(msg: array<U8>) returns (n: nat, addr: RemoteAddr)
    modifies msg
    ensures addr == FrameExtract(old(msg[..])).addr
    ensures match FrameExtract(old(msg[..])).payload
            case Some(at) => n == msg.Length - at && msg[..n] == old(msg[at..]) && msg[n..] == old(msg[n..])
            case None => n == 0 && msg[..] == old(msg[..])
    ensures FrameExtract(old(msg[..])).payload.Some? <==> addr.family != IPADDR_UNSPEC
  {
    if msg.Length < 12 {
      return 0, NO_ADDR;
    }
    var off := SkipTags(msg, 12);
    if msg.Length - off < 2 || !IsEthertype(msg[..][off..off + 2]) {
      return 0, NO_ADDR;
    }
    var r := ReadPacket(msg, off + 2);
    addr := r.addr;
    if r.payload.None? {
      return 0, addr;
    }
    n := msg.Length - r.payload.value;
    MoveToFront(msg, r.payload.value);
  }

  method MoveToFront(msg: array<U8>, at: nat)
    requires at <= msg.Length
    modifies msg
    ensures var n := msg.Length - at; msg[..n] == old(msg[at..]) && msg[n..] == old(msg[n..])
  {
    forall i | 0 <= i < msg.Length - at {
      msg[i] := msg[at + i];
    }
  }
}
