/**
  Streaming MD5 against RFC 1321: the padded message of sections 3.1 and 3.2 folded with the
  compression of section 3.4.
 */
module Md5s {
  import opened Common

  type Byte = U8
  type Word = bv32

  /** The four registers, for any kind of word. */
  datatype Regs<W> = Regs(a: W, b: W, c: W, d: W)

  type State = Regs<Word>

  const INIT: State := Regs(0x67452301, 0xefcdab89, 0x98badcfe, 0x10325476)

  const BLOCK: nat := 64

  type Chunk = b: Bytes | |b| == BLOCK witness seq(BLOCK, _ => 0)

  /** The sine-derived constants of section 3.4. */
  const K: seq<Word> := [
    0xd76aa478, 0xe8c7b756, 0x242070db, 0xc1bdceee, 0xf57c0faf, 0x4787c62a, 0xa8304613, 0xfd469501,
    0x698098d8, 0x8b44f7af, 0xffff5bb1, 0x895cd7be, 0x6b901122, 0xfd987193, 0xa679438e, 0x49b40821,
    0xf61e2562, 0xc040b340, 0x265e5a51, 0xe9b6c7aa, 0xd62f105d, 0x02441453, 0xd8a1e681, 0xe7d3fbc8,
    0x21e1cde6, 0xc33707d6, 0xf4d50d87, 0x455a14ed, 0xa9e3e905, 0xfcefa3f8, 0x676f02d9, 0x8d2a4c8a,
    0xfffa3942, 0x8771f681, 0x6d9d6122, 0xfde5380c, 0xa4beea44, 0x4bdecfa9, 0xf6bb4b60, 0xbebfbc70,
    0x289b7ec6, 0xeaa127fa, 0xd4ef3085, 0x04881d05, 0xd9d4d039, 0xe6db99e5, 0x1fa27cf8, 0xc4ac5665,
    0xf4292244, 0x432aff97, 0xab9423a7, 0xfc93a039, 0x655b59c3, 0x8f0ccc92, 0xffeff47d, 0x85845dd1,
    0x6fa87e4f, 0xfe2ce6e0, 0xa3014314, 0x4e0811a1, 0xf7537e82, 0xbd3af235, 0x2ad7d2bb, 0xeb86d391]

  const SHIFTS: seq<seq<nat>> := [[7, 12, 17, 22], [5, 9, 14, 20], [4, 11, 16, 23], [6, 10, 15, 21]]

  type Step = i: nat | i < 64

  function Shift(i: Step): (n: nat)
    ensures n < 32
  {
    SHIFTS[i / 16][i % 4]
  }

  /** `x <<< n`. */
  function RotateLeft(x: Word, n: nat): Word
    requires n < 32
  {
    (x << n) | (x >> (32 - n))
  }

  // ---- Section 3.4, registers in place.

  function F(x: Word, y: Word, z: Word): Word { (x & y) | (!x & z) }
  function G(x: Word, y: Word, z: Word): Word { (x & z) | (y & !z) }
  function H(x: Word, y: Word, z: Word): Word { x ^ y ^ z }
  function I(x: Word, y: Word, z: Word): Word { y ^ (x | !z) }

  /** The message word of each step of rounds 2, 3 and 4. */
  const ROUND2: seq<nat> := [1, 6, 11, 0, 5, 10, 15, 4, 9, 14, 3, 8, 13, 2, 7, 12]
  const ROUND3: seq<nat> := [5, 8, 11, 14, 1, 4, 7, 10, 13, 0, 3, 6, 9, 12, 15, 2]
  const ROUND4: seq<nat> := [0, 7, 14, 5, 12, 3, 10, 1, 8, 15, 6, 13, 4, 11, 2, 9]

  function RfcWord(i: Step): nat {
    if i < 16 then i else if i < 32 then ROUND2[i - 16] else if i < 48 then ROUND3[i - 32] else ROUND4[i - 48]
  }

  function Mix(i: Step, x: Word, y: Word, z: Word): Word {
    if i < 16 then F(x, y, z) else if i < 32 then G(x, y, z) else if i < 48 then H(x, y, z) else I(x, y, z)
  }

  /** `b + ((a + f(b, c, d) + X[k] + T[i]) <<< s)`. */
  function OperationWith(f: (Step, Word, Word, Word) -> Word, i: Step, a: Word, b: Word, c: Word, d: Word, x: Word): Word {
    AddRotated(i, a, b, f(i, b, c, d), x)
  }

  function AddRotated(i: Step, a: Word, b: Word, mixed: Word, x: Word): Word {
    b + RotateLeft(a + mixed + K[i] + x, Shift(i))
  }

  function Operation(i: Step, a: Word, b: Word, c: Word, d: Word, x: Word): Word { OperationWith(Mix, i, a, b, c, d, x) }

  lemma RfcWordInRange(i: Step)
    ensures RfcWord(i) < 16
  {}

  /** What a step computes from its number, the registers `a`, `b`, `c`, `d` and a message word. */
  type Op<!W> = (Step, W, W, W, W, W) -> W

  /** The operations in the order ABCD, DABC, CDAB, BCDA; each replaces one register. */
  function RfcStep<W>(op: Op<W>, i: Step, s: Regs<W>, m: seq<W>): Regs<W>
    requires |m| == 16
  {
    RfcWordInRange(i);
    Replace(op, i, s, m[RfcWord(i)])
  }

  function Replace<W>(op: Op<W>, i: Step, s: Regs<W>, x: W): Regs<W> {
    if i % 4 == 0 then s.(a := op(i, s.a, s.b, s.c, s.d, x))
    else if i % 4 == 1 then s.(d := op(i, s.d, s.a, s.b, s.c, x))
    else if i % 4 == 2 then s.(c := op(i, s.c, s.d, s.a, s.b, x))
    else s.(b := op(i, s.b, s.c, s.d, s.a, x))
  }

  function RfcRounds<W>(op: Op<W>, n: nat, s: Regs<W>, m: seq<W>): Regs<W>
    requires n <= 64 && |m| == 16
  {
    if n == 0 then s else RfcStep(op, n - 1, RfcRounds(op, n - 1, s, m), m)
  }

  function Sum(s: State, t: State): State { Regs(s.a + t.a, s.b + t.b, s.c + t.c, s.d + t.d) }

  /** The compression of one block. */
  function Compress(s: State, block: Chunk): State {
    Sum(s, RfcRounds(Operation, 64, s, Words(block)))
  }

  /** The number that the bytes stand for, least significant first. */
  function Number(b: Bytes): nat { if b == [] then 0 else b[0] + 256 * Number(b[1..]) }

  /** The `n` lowest bytes of a number, least significant first. */
  function LowBytes(x: nat, n: nat): (b: Bytes)
    ensures |b| == n
  {
    if n == 0 then [] else [x % 256] + LowBytes(x / 256, n - 1)
  }

  /** The two are inverse to each other, as long as the number fits. */
  lemma {:induction false} BytesOfNumber(b: Bytes)
    ensures Number(b) < Pow2(8 * |b|) && LowBytes(Number(b), |b|) == b
  {
    if b != [] {
      BytesOfNumber(b[1..]);
      Pow256(|b| - 1);
    }
  }

  lemma {:induction false} NumberOfBytes(x: nat, n: nat)
    requires x < Pow2(8 * n)
    ensures Number(LowBytes(x, n)) == x
  {
    if n > 0 {
      Pow256(n - 1);
      NumberOfBytes(x / 256, n - 1);
      assert LowBytes(x, n)[1..] == LowBytes(x / 256, n - 1);
    }
  }

  lemma Pow256(n: nat)
    ensures Pow2(8 * (n + 1)) == 256 * Pow2(8 * n)
  {
    var k := 8 * n;
    assert Pow2(k + 8) == 2 * Pow2(k + 7) == 4 * Pow2(k + 6) == 8 * Pow2(k + 5) == 16 * Pow2(k + 4);
    assert Pow2(k + 4) == 2 * Pow2(k + 3) == 4 * Pow2(k + 2) == 8 * Pow2(k + 1) == 16 * Pow2(k);
  }

  lemma WordFits(b: Bytes)
    requires |b| == 4
    ensures Number(b) < TWO32
  {
    BytesOfNumber(b);
    Pow256(0);
    Pow256(1);
    Pow256(2);
    Pow256(3);
  }

  function LittleEndian(b: Bytes): Word
    requires |b| == 4
  {
    WordFits(b);
    Number(b) as Word
  }

  /** The sixteen little-endian words of a block. */
  function Words(b: Chunk): (m: seq<Word>)
    ensures |m| == 16
  {
    seq(16, i requires 0 <= i < 16 => LittleEndian(b[4 * i..4 * i + 4]))
  }

  // ---- The table-driven loop.

  /** The registers as the loop holds them before step `i`: rotated by one place per step. */
  function View<W>(i: nat, s: Regs<W>): Regs<W> {
    if i % 4 == 0 then s
    else if i % 4 == 1 then Regs(s.d, s.a, s.b, s.c)
    else if i % 4 == 2 then Regs(s.c, s.d, s.a, s.b)
    else Regs(s.b, s.c, s.d, s.a)
  }

  /** The word index the loop computes. */
  function LoopWord(i: Step): (g: nat)
    ensures g < 16
  {
    if i < 16 then i else if i < 32 then (5 * i + 1) % 16 else if i < 48 then (3 * i + 5) % 16 else (7 * i) % 16
  }

  lemma Schedule2(j: nat)
    requires j < 16
    ensures ROUND2[j] == (5 * (16 + j) + 1) % 16
  {}

  lemma Schedule3(j: nat)
    requires j < 16
    ensures ROUND3[j] == (3 * (32 + j) + 5) % 16
  {}

  lemma Schedule4(j: nat)
    requires j < 16
    ensures ROUND4[j] == (7 * (48 + j)) % 16
  {}

  lemma SameSchedule(i: Step)
    ensures LoopWord(i) == RfcWord(i)
  {
    if 16 <= i < 32 { Schedule2(i - 16); } else if 32 <= i < 48 { Schedule3(i - 32); } else if 48 <= i { Schedule4(i - 48); }
  }

  function LoopMix(i: Step, b: Word, c: Word, d: Word): Word {
    if i < 16 then (b & c) | (!b & d)
    else if i < 32 then (d & b) | (!d & c)
    else if i < 48 then b ^ c ^ d
    else c ^ (b | !d)
  }

  lemma AndCommutes(x: Word, y: Word)
    ensures x & y == y & x
  {}

  lemma SameMix(i: Step, b: Word, c: Word, d: Word)
    ensures LoopMix(i, b, c, d) == Mix(i, b, c, d)
  {
    if 16 <= i < 32 {
      AndCommutes(d, b);
      AndCommutes(!d, c);
    }
  }

  /** What the loop computes in one turn. */
  function LoopOperation(i: Step, a: Word, b: Word, c: Word, d: Word, x: Word): Word {
    OperationWith(LoopMix, i, a, b, c, d, x)
  }

  lemma SameOperation(i: Step, a: Word, b: Word, c: Word, d: Word, x: Word)
    ensures LoopOperation(i, a, b, c, d, x) == Operation(i, a, b, c, d, x)
  {
    SameMix(i, b, c, d);
    Congruent(LoopMix, Mix, i, a, b, c, d, x);
  }

  lemma Congruent(f: (Step, Word, Word, Word) -> Word, g: (Step, Word, Word, Word) -> Word,
                  i: Step, a: Word, b: Word, c: Word, d: Word, x: Word)
    requires f(i, b, c, d) == g(i, b, c, d)
    ensures OperationWith(f, i, a, b, c, d, x) == OperationWith(g, i, a, b, c, d, x)
  {}

  lemma TurnedView<W>(op: Op<W>, i: Step, s: Regs<W>, x: W)
    ensures var v := View(i, s); View(i + 1, Replace(op, i, s, x)) == Regs(v.d, op(i, v.a, v.b, v.c, v.d, x), v.b, v.c)
  {}

  /** The loop turns the registers instead of naming another one each time. */
  method Rounds<W>(op: Op<W>, s: Regs<W>, m: seq<W>) returns (r: Regs<W>)
    requires |m| == 16
    ensures r == RfcRounds(op, 64, s, m)
  {
    var a, b, c, d := s.a, s.b, s.c, s.d;
    var i: nat := 0;
    while i < 64
      invariant i <= 64
      invariant Regs(a, b, c, d) == View(i, RfcRounds(op, i, s, m))
    {
      SameSchedule(i);
      TurnedView(op, i, RfcRounds(op, i, s, m), m[LoopWord(i)]);
      a, d, c, b := d, c, b, op(i, a, b, c, d, m[LoopWord(i)]);
      i := i + 1;
    }
    r := Regs(a, b, c, d);
  }

  lemma {:induction false} SameRounds<W>(f: Op<W>, g: Op<W>, n: nat, s: Regs<W>, m: seq<W>)
    requires n <= 64 && |m| == 16
    requires forall i: Step, a: W, b: W, c: W, d: W, x: W {:trigger SameOp(f, g, i, a, b, c, d, x)} :: SameOp(f, g, i, a, b, c, d, x)
    ensures RfcRounds(f, n, s, m) == RfcRounds(g, n, s, m)
  {
    if n > 0 {
      SameRounds(f, g, n - 1, s, m);
      RfcWordInRange(n - 1);
      var v, x := View(n - 1, RfcRounds(g, n - 1, s, m)), m[RfcWord(n - 1)];
      assert SameOp(f, g, n - 1, v.a, v.b, v.c, v.d, x);
      SameReplace(f, g, n - 1, RfcRounds(g, n - 1, s, m), x);
    }
  }

  predicate SameOp<W(==)>(f: Op<W>, g: Op<W>, i: Step, a: W, b: W, c: W, d: W, x: W) {
    f(i, a, b, c, d, x) == g(i, a, b, c, d, x)
  }

  lemma SameReplace<W>(f: Op<W>, g: Op<W>, i: Step, s: Regs<W>, x: W)
    requires var v := View(i, s); SameOp(f, g, i, v.a, v.b, v.c, v.d, x)
    ensures Replace(f, i, s, x) == Replace(g, i, s, x)
  {}

  /** `transform`: the table-driven loop over turning registers is the compression of section 3.4. */
  method Transform(state: State, block: Chunk) returns (r: State)
    ensures r == Compress(state, block)
  {
    var m := Words(block);
    var t := Rounds(LoopOperation, state, m);
    forall i: Step, a: Word, b: Word, c: Word, d: Word, x: Word
      ensures SameOp(LoopOperation, Operation, i, a, b, c, d, x)
    {
      SameOperation(i, a, b, c, d, x);
    }
    SameRounds(LoopOperation, Operation, 64, state, m);
    r := Sum(state, t);
  }

  // ---- Sections 3.1 and 3.2, and the whole digest.

  /** The bytes beyond the last whole block. */
  function Rest(n: nat): (r: nat)
    ensures r < BLOCK && r <= n
  {
    n % BLOCK
  }

  lemma RestAdd(n: nat, k: nat)
    ensures Rest(n + k) == Rest(Rest(n) + k)
  {}

  lemma RestDrops(n: nat)
    ensures Rest(n - Rest(n)) == 0
  {}

  /** A number modulo 2^64. */
  function Wrap64(x: nat): U64 { x % TWO64 }

  function BitLength(n: nat): U64 { Wrap64(8 * n) }

  /** A 64-bit length, least significant byte first. */
  function LittleEndian64(x: U64): (b: Bytes)
    ensures |b| == 8
  {
    LowBytes(x, 8)
  }

  /** The number of zero bytes after the single one bit: the least that leaves 8 bytes in the last block. */
  function ZeroCount(n: nat): (z: nat)
    ensures z < BLOCK && Rest(n + 1 + z) == 56
  {
    var z := if Rest(n) < 56 then 55 - Rest(n) else 119 - Rest(n);
    RestAdd(n, 1 + z);
    z
  }

  /** A one bit, zeros, and the length in bits modulo 2^64. */
  function Padding(n: nat): (p: Bytes)
    ensures |p| == 1 + ZeroCount(n) + 8
  {
    [0x80] + Repeated(0, ZeroCount(n)) + LittleEndian64(BitLength(n))
  }

  function Padded(message: Bytes): (p: Bytes)
    ensures Rest(|p|) == 0
  {
    var n := |message|;
    RestAdd(n + 1 + ZeroCount(n), 8);
    message + Padding(n)
  }

  /** Different messages are padded differently, whatever their lengths. */
  lemma PaddingKeepsApart(a: Bytes, b: Bytes)
    requires Padded(a) == Padded(b)
    ensures a == b
  {
    var p := Padded(a);
    EndsInLength(a);
    EndsInLength(b);
    assert LittleEndian64(BitLength(|a|)) == LittleEndian64(BitLength(|b|));
    LengthRoundTrip(BitLength(|a|));
    LengthRoundTrip(BitLength(|b|));
    SameRest(|a|, |b|);
    assert |a| == |b|;
    assert a == p[..|a|] && b == p[..|b|];
  }

  lemma EndsInLength(message: Bytes)
    ensures var p := Padded(message); |p| >= 8 && p[|p| - 8..] == LittleEndian64(BitLength(|message|)) && p[..|message|] == message
  {}

  lemma LengthRoundTrip(x: nat)
    requires x < TWO64
    ensures Number(LittleEndian64(x)) == x
  {
    Pow256(0);
    Pow256(1);
    Pow256(2);
    Pow256(3);
    Pow256(4);
    Pow256(5);
    Pow256(6);
    Pow256(7);
    NumberOfBytes(x, 8);
  }

  lemma SameRest(m: nat, n: nat)
    requires BitLength(m) == BitLength(n)
    ensures Rest(m) == Rest(n) && ZeroCount(m) == ZeroCount(n)
  {
    var k := 8 * m / TWO64 - 8 * n / TWO64;
    assert m - n == BLOCK * (TWO64 / 8 / BLOCK * k);
    SameModulo(m, n, TWO64 / 8 / BLOCK * k);
  }

  lemma SameModulo(m: nat, n: nat, k: int)
    requires m - n == BLOCK * k
    ensures Rest(m) == Rest(n)
  {}

  /** Folding a function over whole blocks. */
  function Fold<S>(f: (S, Chunk) -> S, s: S, blocks: Bytes): S
    requires Rest(|blocks|) == 0
  {
    if blocks == [] then s
    else
      var n := |blocks| - BLOCK;
      f(Fold(f, s, blocks[..n]), blocks[n..])
  }

  lemma FoldStep<S>(f: (S, Chunk) -> S, s: S, blocks: Bytes, last: Chunk)
    requires Rest(|blocks|) == 0
    ensures Rest(|blocks + last|) == 0
    ensures Fold(f, s, blocks + last) == f(Fold(f, s, blocks), last)
  {}

  function Folded(blocks: Bytes): State
    requires Rest(|blocks|) == 0
  {
    Fold(Compress, INIT, blocks)
  }

  function Bytes4(w: Word): Bytes { LowBytes(w as int, 4) }

  /** A word is read back from its bytes. */
  lemma WordRoundTrip(w: Word)
    ensures LittleEndian(Bytes4(w)) == w
  {
    Pow256(0);
    Pow256(1);
    Pow256(2);
    Pow256(3);
    NumberOfBytes(w as int, 4);
  }

  function Output(s: State): Bytes { Bytes4(s.a) + Bytes4(s.b) + Bytes4(s.c) + Bytes4(s.d) }

  /** MD5 of a message, as RFC 1321 defines it. */
  function Digest(message: Bytes): Bytes { Output(Folded(Padded(message))) }

  /** The part of the message that fills whole blocks. */
  function Whole(message: Bytes): (w: Bytes)
    ensures Rest(|w|) == 0 && w <= message && |message| - |w| == Rest(|message|)
  {
    RestDrops(|message|);
    message[..|message| - Rest(|message|)]
  }

  lemma WholeIs(w: Bytes, t: Bytes)
    requires Rest(|w|) == 0 && |t| < BLOCK
    ensures Whole(w + t) == w && (w + t)[|w|..] == t && Rest(|w + t|) == |t|
  {
    RestAdd(|w|, |t|);
  }

  /** A few more bytes that stay within the last block leave the whole blocks alone. */
  lemma StillPartial(message: Bytes, more: Bytes)
    requires Rest(|message|) + |more| < BLOCK
    ensures Whole(message + more) == Whole(message)
    ensures (message + more)[|Whole(message)|..] == message[|Whole(message)|..] + more
    ensures Rest(|message + more|) == Rest(|message|) + |more|
  {
    var w := Whole(message);
    var t := message[|w|..];
    assert message == w + t;
    Regroup(w, t, more);
    WholeIs(w, t + more);
  }

  /** Bytes that complete the last block add exactly that block. */
  lemma CompletesBlock(message: Bytes, more: Bytes)
    requires Rest(|message|) + |more| == BLOCK
    ensures Whole(message + more) == message + more == Whole(message) + (message[|Whole(message)|..] + more)
    ensures Rest(|message + more|) == 0
  {
    var w := Whole(message);
    var t := message[|w|..];
    assert message == w + t;
    Regroup(w, t, more);
    RestAdd(|w|, BLOCK);
    WholeIs(message + more, []);
    assert message + more + [] == message + more;
  }

  /** A completed block is folded in, and nothing waits behind it. */
  lemma FoldsBlock(f: (State, Chunk) -> State, message: Bytes, more: Bytes, block: Chunk)
    requires Rest(|message|) + |more| == BLOCK && block == message[|Whole(message)|..] + more
    ensures Rest(|message + more|) == 0
    ensures var all := message + more; Fold(f, INIT, Whole(all)) == f(Fold(f, INIT, Whole(message)), block) && all[|Whole(all)|..] == []
  {
    CompletesBlock(message, more);
    FoldStep(f, INIT, Whole(message), block);
  }

  /** A compression by another name: kept apart so that streaming does not look inside it. */
  ghost predicate IsCompress(f: (State, Chunk) -> State) {
    forall s, b {:trigger SameAt(f, s, b)} :: SameAt(f, s, b)
  }

  ghost predicate SameAt(f: (State, Chunk) -> State, s: State, b: Chunk) { f(s, b) == Compress(s, b) }

  class Md5 {
    var state: State
    var bits: U64
    const buffer: array<Byte>
    var buflen: nat

    /** Everything fed in so far. */
    ghost var message: Bytes
    ghost const compress: (State, Chunk) -> State

    /** The whole blocks are folded into the state; the rest waits in the buffer. */
    ghost predicate Sound()
      reads this, buffer
    {
      && buffer.Length == BLOCK && IsCompress(compress)
      && buflen == Rest(|message|)
      && buffer[..buflen] == message[|Whole(message)|..]
      && state == Fold(compress, INIT, Whole(message))
    }

    ghost predicate Valid()
      reads this, buffer
    {
      Sound() && bits == BitLength(|message|)
    }

    constructor ()
      ensures Valid() && message == [] && fresh(buffer) && compress == Compress
    {
      state, bits, buflen, message := INIT, 0, 0, [];
      buffer := new Byte[BLOCK](_ => 0);
      compress := Compress;
      new;
      Itself();
      assert Whole(message) == [];
    }

    /** `transform` on the full buffer. */
    method FoldBuffer(block: Chunk)
      requires IsCompress(compress)
      modifies this`state
      ensures state == compress(old(state), block)
    {
      assert SameAt(compress, state, block);
      state := Transform(state, block);
    }

    /** Copies bytes that fit behind those already in the buffer. */
    method Append(data: Bytes)
      requires buffer.Length == BLOCK && buflen + |data| <= BLOCK
      modifies this`buflen, buffer
      ensures buflen == old(buflen) + |data| && buffer[..buflen] == old(buffer[..buflen]) + data
    {
      forall i | 0 <= i < |data| {
        buffer[buflen + i] := data[i];
      }
      assert buffer[..buflen + |data|] == old(buffer[..buflen]) + data;
      buflen := buflen + |data|;
    }

    /** Takes bytes that fit into the buffer, and folds the buffer in when it is full. */
    method Take(data: Bytes)
      requires Sound() && buflen + |data| <= BLOCK
      modifies this`state, this`buflen, this`message, buffer
      ensures Sound() && message == old(message) + data
    {
      ghost var was := message;
      Append(data);
      message := was + data;
      if buflen == BLOCK {
        var block: Chunk := buffer[..buflen];
        FoldsBlock(compress, was, data, block);
        FoldBuffer(block);
        buflen := 0;
      } else {
        StillPartial(was, data);
      }
    }

    /** `update`: in whatever pieces a message arrives, the state is that of the message so far. */
    method Update(data: Bytes)
      requires Valid()
      modifies this`state, this`buflen, this`message, this`bits, buffer
      ensures Valid() && message == old(message) + data
    {
      ghost var n := |message| + |data|;
      BitsAdd(|message|, |data|);
      bits := Wrap64(bits + Wrap64(8 * |data|));
      assert bits == BitLength(n);
      Absorb(data);
      assert |message| == n;
    }

    /** The loop of `update`. */
    method Absorb(data: Bytes)
      requires Sound()
      modifies this`state, this`buflen, this`message, buffer
      ensures Sound() && message == old(message) + data
    {
      ghost var before := message;
      var i := 0;
      while i < |data|
        invariant i <= |data| && Sound() && message == before + data[..i]
      {
        var take: nat := Min(BLOCK - buflen, |data| - i);
        ghost var done, more := data[..i], data[i..i + take];
        Regroup(before, done, more);
        assert done + more == data[..i + take];
        Take(data[i..i + take]);
        i := i + take;
      }
      assert data[..|data|] == data;
    }

    method Feed(pieces: seq<Bytes>)
      requires Valid() && message == []
      modifies this`state, this`buflen, this`message, this`bits, buffer
      ensures Valid() && message == Joined(pieces)
    {
      if pieces != [] {
        var n := |pieces| - 1;
        JoinedParts(pieces[..n], [pieces[n]]);
        assert pieces[..n] + [pieces[n]] == pieces;
        Feed(pieces[..n]);
        Update(pieces[n]);
      }
    }

    /** `finalize`: the digest RFC 1321 defines for everything fed in. */
    method Finalize() returns (out: Bytes)
      requires Valid()
      modifies this`state, this`buflen, this`message, this`bits, buffer
      ensures out == Output(Fold(compress, INIT, Padded(old(message))))
    {
      ghost var before := message;
      var length := LittleEndian64(bits);
      PaddingIs(|message|, buflen);
      WholePadded(message);
      Update(FirstPadding(buflen));
      Update(length);
      Regroup(before, FirstPadding(Rest(|before|)), length);
      out := Output(state);
    }
  }

  /** The bytes from the one bit up to the length. */
  function FirstPadding(buflen: nat): Bytes
    requires buflen < BLOCK
  {
    var pad := [0x80] + Repeated(0, 71);
    pad[..if buflen < 56 then 56 - buflen else 120 - buflen]
  }

  lemma PaddingIs(n: nat, buflen: nat)
    requires buflen == Rest(n)
    ensures Padding(n) == FirstPadding(buflen) + LittleEndian64(BitLength(n))
  {}

  lemma WholePadded(message: Bytes)
    ensures Whole(Padded(message)) == Padded(message)
  {}

  lemma BitsAdd(n: nat, k: nat)
    ensures Wrap64(BitLength(n) + Wrap64(8 * k)) == BitLength(n + k)
  {
  }

  /** For every way of cutting a message into updates, the digest is that of the whole message. */
  method DigestOf(pieces: seq<Bytes>) returns (out: Bytes)
    ensures out == Digest(Joined(pieces))
  {
    var ctx := new Md5();
    ctx.Feed(pieces);
    out := ctx.Finalize();
  }


  lemma Itself()
    ensures IsCompress(Compress)
  {}
}
