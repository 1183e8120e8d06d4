/**
  What a history of allow and deny rules means for an address, without any trie: which rules
  cover it bit by bit, which survive later pruning rules, and which one decides.
 */
module AddressRules {
  import opened Common

  /** An address as big-endian 32-bit words: one for IPv4, four for IPv6. */
  type Words = seq<U32>

  /** Trie indices from the root: four address bits per level. */
  type Path = seq<nat>

  /** A node's access state; `AsParent` inherits the nearest explicit ancestor. */
  datatype State = Deny | Allow | AsParent

  /** `get_subnet`: the four address bits at bit offset `at`. */
  function GetSubnet(ip: Words, at: nat): (r: nat)
    requires at / 32 < |ip| && at % 4 == 0
    ensures r < 16
  {
    Shr(ip[at / 32], 28 - at % 32) % 16
  }

  function Nibbles(ip: Words): (p: Path)
    ensures |p| == 8 * |ip|
    ensures forall i :: 0 <= i < |p| ==> p[i] == GetSubnet(ip, 4 * i) < 16
  {
    seq(8 * |ip|, i requires 0 <= i < 8 * |ip| => GetSubnet(ip, 4 * i))
  }

  /** Bit `b` of an address, the most significant first. */
  function Bit(ip: Words, b: nat): (r: nat)
    requires b / 32 < |ip|
    ensures r < 2
  {
    Shr(ip[b / 32], 31 - b % 32) % 2
  }

  /** `x` lies in the subnet `ip/bits`: the two agree on the first `bits` bits. */
  ghost predicate Covers(ip: Words, bits: nat, x: Words)
    requires bits <= 32 * |ip| && |x| == |ip|
  {
    forall b: nat :: b < bits ==> SameBit(ip, x, b)
  }

  /** The trie level a subnet of this width is stored at. */
  function Level(bits: nat): nat { (bits + 3) / 4 }

  /** How many indices of its level a subnet spans. */
  function Span(bits: nat): (n: nat)
    ensures n == 1 || n == 2 || n == 4 || n == 8
  {
    if bits % 4 == 0 then 1 else if bits % 4 == 1 then 8 else if bits % 4 == 2 then 4 else 2
  }

  /** `p` is one of the nodes that a rule for `ip/bits` sets. */
  ghost predicate Matches(ip: Words, bits: nat, p: Path)
    requires bits <= 32 * |ip|
  {
    && |p| == Level(bits)
    && (forall i :: 0 <= i < bits / 4 ==> p[i] == Nibbles(ip)[i])
    && (bits % 4 != 0 ==> p[bits / 4] / Span(bits) == Nibbles(ip)[bits / 4] / Span(bits))
  }

  // ---- Agreement on bits is agreement on trie indices.

  /** A nibble is made of its four bits. */
  lemma NibbleBits(ip: Words, i: nat)
    requires i < 8 * |ip|
    ensures Nibbles(ip)[i] == 8 * Bit(ip, 4 * i) + 4 * Bit(ip, 4 * i + 1) + 2 * Bit(ip, 4 * i + 2) + Bit(ip, 4 * i + 3)
  {
    NibbleBitsAt(ip, i / 8, i % 8, i);
  }

  lemma NibbleBitsAt(ip: Words, k: nat, j: nat, i: nat)
    requires k < |ip| && j < 8 && i == 8 * k + j
    ensures Nibbles(ip)[i] == 8 * Bit(ip, 4 * i) + 4 * Bit(ip, 4 * i + 1) + 2 * Bit(ip, 4 * i + 2) + Bit(ip, 4 * i + 3)
  {
    WordBits(ip[k], j);
    NibbleAt(ip, k, j, i);
    FourBitsAt(ip, k, j, i);
  }

  lemma FourBitsAt(ip: Words, k: nat, j: nat, i: nat)
    requires k < |ip| && j < 8 && i == 8 * k + j
    ensures Bit(ip, 4 * i) == Shr(ip[k], 31 - 4 * j) % 2
    ensures Bit(ip, 4 * i + 1) == Shr(ip[k], 31 - (4 * j + 1)) % 2
    ensures Bit(ip, 4 * i + 2) == Shr(ip[k], 31 - (4 * j + 2)) % 2
    ensures Bit(ip, 4 * i + 3) == Shr(ip[k], 31 - (4 * j + 3)) % 2
  {
    BitAt(ip, k, 4 * j, 4 * i);
    BitAt(ip, k, 4 * j + 1, 4 * i + 1);
    BitAt(ip, k, 4 * j + 2, 4 * i + 2);
    BitAt(ip, k, 4 * j + 3, 4 * i + 3);
  }

  lemma NibbleAt(ip: Words, k: nat, j: nat, i: nat)
    requires k < |ip| && j < 8 && i == 8 * k + j
    ensures Nibbles(ip)[i] == Shr(ip[k], 28 - 4 * j) % 16
  {
    assert 4 * i / 32 == k && 4 * i % 32 == 4 * j;
  }

  lemma BitAt(ip: Words, k: nat, r: nat, b: nat)
    requires k < |ip| && r < 32 && b == 32 * k + r
    ensures b / 32 < |ip| && Bit(ip, b) == Shr(ip[k], 31 - r) % 2
  {
  }

  lemma WordBits(w: U32, j: nat)
    requires j < 8
    ensures Shr(w, 28 - 4 * j) % 16 ==
            8 * (Shr(w, 31 - 4 * j) % 2) + 4 * (Shr(w, 31 - (4 * j + 1)) % 2)
            + 2 * (Shr(w, 31 - (4 * j + 2)) % 2) + Shr(w, 31 - (4 * j + 3)) % 2
  {
    var n := 28 - 4 * j;
    FourBits(Shr(w, n), Shr(w, n + 1), Shr(w, n + 2), Shr(w, n + 3));
  }

  lemma FourBits(a: nat, b: nat, c: nat, d: nat)
    requires b == a / 2 && c == b / 2 && d == c / 2
    ensures a % 16 == 8 * (d % 2) + 4 * (c % 2) + 2 * (b % 2) + a % 2
  {
  }

  /** Two nibbles agree on their leading bits exactly when their quotients do. */
  lemma LeadingBits(a: nat, a3: nat, a2: nat, a1: nat, a0: nat, b: nat, b3: nat, b2: nat, b1: nat, b0: nat)
    requires a == 8 * a3 + 4 * a2 + 2 * a1 + a0 && a3 < 2 && a2 < 2 && a1 < 2 && a0 < 2
    requires b == 8 * b3 + 4 * b2 + 2 * b1 + b0 && b3 < 2 && b2 < 2 && b1 < 2 && b0 < 2
    ensures a / 8 == b / 8 <==> a3 == b3
    ensures a / 4 == b / 4 <==> a3 == b3 && a2 == b2
    ensures a / 2 == b / 2 <==> a3 == b3 && a2 == b2 && a1 == b1
    ensures a == b <==> a3 == b3 && a2 == b2 && a1 == b1 && a0 == b0
  {
  }

  ghost predicate SameBit(ip: Words, x: Words, b: nat) {
    b / 32 < |ip| && |x| == |ip| && Bit(ip, b) == Bit(x, b)
  }

  lemma NibbleAgrees(ip: Words, x: Words, i: nat)
    requires |x| == |ip| && i < 8 * |ip|
    ensures var a, b := Nibbles(ip)[i], Nibbles(x)[i];
            && (a / 8 == b / 8 <==> SameBit(ip, x, 4 * i))
            && (a / 4 == b / 4 <==> SameBit(ip, x, 4 * i) && SameBit(ip, x, 4 * i + 1))
            && (a / 2 == b / 2 <==> SameBit(ip, x, 4 * i) && SameBit(ip, x, 4 * i + 1) && SameBit(ip, x, 4 * i + 2))
            && (a == b <==> SameBit(ip, x, 4 * i) && SameBit(ip, x, 4 * i + 1)
                            && SameBit(ip, x, 4 * i + 2) && SameBit(ip, x, 4 * i + 3))
  {
    NibbleBits(ip, i);
    NibbleBits(x, i);
    LeadingBits(Nibbles(ip)[i], Bit(ip, 4 * i), Bit(ip, 4 * i + 1), Bit(ip, 4 * i + 2), Bit(ip, 4 * i + 3),
                Nibbles(x)[i], Bit(x, 4 * i), Bit(x, 4 * i + 1), Bit(x, 4 * i + 2), Bit(x, 4 * i + 3));
  }

  /** The bits `4i .. 4i + n` that lie below `bits` agree. */
  ghost predicate SameNibbleBits(ip: Words, x: Words, i: nat, bits: nat) {
    && (4 * i < bits ==> SameBit(ip, x, 4 * i))
    && (4 * i + 1 < bits ==> SameBit(ip, x, 4 * i + 1))
    && (4 * i + 2 < bits ==> SameBit(ip, x, 4 * i + 2))
    && (4 * i + 3 < bits ==> SameBit(ip, x, 4 * i + 3))
  }

  lemma CoversByNibble(ip: Words, bits: nat, x: Words)
    requires bits <= 32 * |ip| && |x| == |ip|
    ensures Covers(ip, bits, x) <==> forall i: nat :: i < Level(bits) ==> SameNibbleBits(ip, x, i, bits)
  {
    if forall i: nat :: i < Level(bits) ==> SameNibbleBits(ip, x, i, bits) {
      forall b: nat | b < bits ensures SameBit(ip, x, b) {
        assert SameNibbleBits(ip, x, b / 4, bits);
        assert b == 4 * (b / 4) + b % 4;
      }
    }
  }

  lemma NibbleMatch(ip: Words, bits: nat, x: Words, i: nat)
    requires bits <= 32 * |ip| && |x| == |ip| && i < Level(bits)
    ensures SameNibbleBits(ip, x, i, bits) <==>
            if i < bits / 4 then Nibbles(x)[i] == Nibbles(ip)[i]
            else Nibbles(x)[i] / Span(bits) == Nibbles(ip)[i] / Span(bits)
  {
    NibbleAgrees(ip, x, i);
  }

  /** A rule covers an address exactly when the address's path runs through one of the rule's nodes. */
  lemma CoversIsMatch(ip: Words, bits: nat, x: Words)
    requires bits <= 32 * |ip| && |x| == |ip|
    ensures Covers(ip, bits, x) <==> Matches(ip, bits, Nibbles(x)[..Level(bits)])
  {
    CoversByNibble(ip, bits, x);
    var n, m, p := Nibbles(ip), Nibbles(x), Nibbles(x)[..Level(bits)];
    forall i: nat | i < Level(bits)
      ensures SameNibbleBits(ip, x, i, bits) <==>
              if i < bits / 4 then p[i] == n[i] else p[i] / Span(bits) == n[i] / Span(bits)
    {
      NibbleMatch(ip, bits, x, i);
    }
    if bits % 4 != 0 { assert SameNibbleBits(ip, x, bits / 4, bits) <==> p[bits / 4] / Span(bits) == n[bits / 4] / Span(bits); }
  }

  // ---- Rules and their reading.

  datatype Subnet = V4(ip: Words) | V6(ip: Words) | Unspec

  /** One `allow`, `deny`, `allow all` or `deny all` call. */
  datatype Rule = Rule(subnet: Subnet, bits: int, state: State, all: bool)

  function WordCount(v6: bool): nat { if v6 then 4 else 1 }

  /** Number of trie levels of a family. */
  function Depth(v6: bool): nat { 8 * WordCount(v6) }

  predicate WellFormed(r: Rule) {
    && r.state != AsParent
    && match r.subnet
       case V4(ip) => |ip| == 1
       case V6(ip) => |ip| == 4
       case Unspec => true
  }

  /** The rule is accepted for this family: its width is in range, and zero for both families at once. */
  predicate Applies(r: Rule, v6: bool) {
    match r.subnet
    case V4(_) => !v6 && 0 <= r.bits <= 32
    case V6(_) => v6 && 0 <= r.bits <= 128
    case Unspec => r.bits == 0
  }

  function Zeros(n: nat): (w: Words)
    ensures |w| == n
  {
    seq(n, _ => 0)
  }

  /** The address whose leading bits the rule fixes. */
  function Target(r: Rule, v6: bool): (ip: Words)
    requires WellFormed(r) && Applies(r, v6)
    ensures |ip| == WordCount(v6)
  {
    if r.subnet.Unspec? then Zeros(WordCount(v6)) else r.subnet.ip
  }

  /** An accepted rule that covers `x`. */
  ghost predicate Hits(r: Rule, v6: bool, x: Words) {
    WellFormed(r) && Applies(r, v6) && |x| == WordCount(v6) && Covers(Target(r, v6), r.bits, x)
  }

  /** What the history says about `x` at level `l`: the later rule wins, and an `all` rule erases deeper levels. */
  ghost function Layer(h: seq<Rule>, v6: bool, x: Words, l: nat): State {
    if h == [] then if l == 0 then Deny else AsParent
    else
      var r, before := h[|h| - 1], h[..|h| - 1];
      if !Hits(r, v6, x) then Layer(before, v6, x, l)
      else if Level(r.bits) == l then r.state
      else if r.all && Level(r.bits) < l then AsParent
      else Layer(before, v6, x, l)
  }

  /** The deepest layer, at or above `l`, that says something. */
  ghost function Reading(h: seq<Rule>, v6: bool, x: Words, l: nat): State {
    var s := Layer(h, v6, x, l);
    if s != AsParent then s else if l == 0 then Deny else Reading(h, v6, x, l - 1)
  }

  // ---- The reading, in terms of surviving rules.

  /** Rule `i` covers `x`, and no later `all` rule at a shallower level does. */
  ghost predicate Survives(h: seq<Rule>, v6: bool, x: Words, i: nat) {
    && i < |h| && Hits(h[i], v6, x)
    && forall j: nat :: i < j < |h| && Hits(h[j], v6, x) && h[j].all ==> Level(h[i].bits) <= Level(h[j].bits)
  }

  /** Rule `i` survives and beats every other survivor: deeper, or as deep and later. */
  ghost predicate Wins(h: seq<Rule>, v6: bool, x: Words, i: nat) {
    && Survives(h, v6, x, i)
    && forall j: nat :: j != i && Survives(h, v6, x, j) ==>
         Level(h[j].bits) < Level(h[i].bits) || (Level(h[j].bits) == Level(h[i].bits) && j < i)
  }

  /** The latest surviving rule at level `l`; `|h|` when there is none. */
  ghost predicate LatestAt(h: seq<Rule>, v6: bool, x: Words, l: nat, i: nat) {
    && (i < |h| ==> Survives(h, v6, x, i) && Level(h[i].bits) == l)
    && i <= |h|
    && forall j: nat :: Survives(h, v6, x, j) && Level(h[j].bits) == l ==> i < |h| && j <= i
  }

  lemma SurvivesStep(h: seq<Rule>, v6: bool, x: Words, j: nat)
    requires h != [] && j < |h| - 1
    ensures var r := h[|h| - 1];
            Survives(h, v6, x, j) <==>
            Survives(h[..|h| - 1], v6, x, j) && !(Hits(r, v6, x) && r.all && Level(r.bits) < Level(h[j].bits))
  {
    var before := h[..|h| - 1];
    if Survives(before, v6, x, j) {
      forall k: nat | j < k < |h| - 1 && Hits(h[k], v6, x) && h[k].all ensures Level(h[j].bits) <= Level(h[k].bits) {
        assert h[k] == before[k];
      }
    }
    if Survives(h, v6, x, j) {
      forall k: nat | j < k < |before| && Hits(before[k], v6, x) && before[k].all
        ensures Level(before[j].bits) <= Level(before[k].bits)
      {
        assert h[k] == before[k];
      }
    }
  }

  /** A layer is what the latest surviving rule of its level says. */
  lemma {:induction false} LayerIsLatest(h: seq<Rule>, v6: bool, x: Words, l: nat) returns (i: nat)
    ensures LatestAt(h, v6, x, l, i)
    ensures Layer(h, v6, x, l) == if i < |h| then h[i].state else if l == 0 then Deny else AsParent
  {
    if h == [] {
      i := 0;
    } else {
      var n := |h| - 1;
      var r, before := h[n], h[..n];
      forall j: nat | j < n
        ensures Survives(h, v6, x, j) <==>
                Survives(before, v6, x, j) && !(Hits(r, v6, x) && r.all && Level(r.bits) < Level(h[j].bits))
      {
        SurvivesStep(h, v6, x, j);
      }
      assert Survives(h, v6, x, n) <==> Hits(r, v6, x);
      var k := LayerIsLatest(before, v6, x, l);
      if !Hits(r, v6, x) {
        i := if k < n then k else |h|;
      } else if Level(r.bits) == l {
        i := n;
      } else if r.all && Level(r.bits) < l {
        i := |h|;
      } else {
        i := if k < n then k else |h|;
      }
    }
  }

  /**
    The reading is the verdict of the winning rule: among the surviving rules that cover the
    address, the deepest level, and the latest rule there; with no surviving rule, deny.
   */
  lemma {:induction false} ReadingIsWinner(h: seq<Rule>, v6: bool, x: Words, l: nat)
    requires forall j: nat :: Survives(h, v6, x, j) ==> Level(h[j].bits) <= l
    ensures forall i: nat :: Wins(h, v6, x, i) ==> Reading(h, v6, x, l) == h[i].state
    ensures (forall i: nat :: !Survives(h, v6, x, i)) ==> Reading(h, v6, x, l) == Deny
    ensures (exists i: nat :: Survives(h, v6, x, i)) ==> exists i: nat :: Wins(h, v6, x, i)
  {
    var k := LayerIsLatest(h, v6, x, l);
    if k < |h| {
      assert Survives(h, v6, x, k) && h[k].state != AsParent;
      assert Wins(h, v6, x, k);
      forall i: nat | Wins(h, v6, x, i) ensures i == k {}
    } else if l > 0 {
      ReadingIsWinner(h, v6, x, l - 1);
    }
  }

  // ---- Every path of full length is the path of an address.

  /** The number written by the first `n` nibbles of `p`. */
  function Pack(p: Path, n: nat): (w: nat)
    requires n <= |p|
  {
    if n == 0 then 0 else 16 * Pack(p, n - 1) + p[n - 1]
  }

  ghost predicate IsAddressPath(x: Path, depth: nat) { |x| == depth && forall i :: 0 <= i < depth ==> x[i] < 16 }

  lemma PackBound(p: Path)
    requires IsAddressPath(p, 8)
    ensures Pack(p, 8) < TWO32
  {
    assert Pack(p, 1) < 0x10;
    assert Pack(p, 2) < 0x100;
    assert Pack(p, 3) < 0x1000;
    assert Pack(p, 4) < 0x1_0000;
    assert Pack(p, 5) < 0x10_0000;
    assert Pack(p, 6) < 0x100_0000;
    assert Pack(p, 7) < 0x1000_0000;
  }

  lemma {:induction false} ShrAdd(w: nat, a: nat, b: nat)
    ensures Shr(w, a + b) == Shr(Shr(w, a), b)
  {
    if b > 0 { ShrAdd(w, a, b - 1); }
  }

  lemma ShrNibble(a: nat, d: nat)
    requires d < 16
    ensures Shr(16 * a + d, 4) == a
  {
    assert Shr(16 * a + d, 1) == (16 * a + d) / 2;
    assert Shr(16 * a + d, 2) == (16 * a + d) / 4;
    assert Shr(16 * a + d, 3) == (16 * a + d) / 8;
  }

  /** Shifting a packed number drops its last nibbles. */
  lemma {:induction false} ShrPack(p: Path, n: nat, m: nat)
    requires m <= n <= |p| && forall i :: 0 <= i < n ==> p[i] < 16
    ensures Shr(Pack(p, n), 4 * m) == Pack(p, n - m)
  {
    if m > 0 {
      ShrPack(p, n, m - 1);
      ShrAdd(Pack(p, n), 4 * (m - 1), 4);
      ShrNibble(Pack(p, n - m), p[n - m]);
    }
  }

  lemma WordOf(p: Path)
    requires IsAddressPath(p, 8)
    ensures Pack(p, 8) < TWO32
    ensures forall j :: 0 <= j < 8 ==> Shr(Pack(p, 8), 28 - 4 * j) % 16 == p[j]
  {
    PackBound(p);
    forall j: nat | j < 8 ensures Shr(Pack(p, 8), 28 - 4 * j) % 16 == p[j] {
      PackDigit(p, j);
    }
  }

  lemma PackDigit(p: Path, j: nat)
    requires IsAddressPath(p, 8) && j < 8
    ensures Shr(Pack(p, 8), 28 - 4 * j) % 16 == p[j]
  {
    ShrPack(p, 8, 7 - j);
  }

  lemma {:induction false} AddressOf(x: Path, n: nat) returns (ip: Words)
    requires IsAddressPath(x, 8 * n)
    ensures |ip| == n && Nibbles(ip) == x
  {
    if n == 0 {
      ip := [];
    } else {
      var rest := AddressOf(x[..8 * (n - 1)], n - 1);
      var p := x[8 * (n - 1)..];
      WordOf(p);
      ip := rest + [Pack(p, 8)];
      forall i | 0 <= i < 8 * n ensures Nibbles(ip)[i] == x[i] {
        NibbleAt(ip, i / 8, i % 8, i);
        if i < 8 * (n - 1) { NibbleAt(rest, i / 8, i % 8, i); }
      }
    }
  }
}
