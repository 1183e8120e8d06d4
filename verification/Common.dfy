/** Shared value types: an option type, machine words as bounded integers, powers of two. */
module Common {

  datatype Option<+T> = None | Some(value: T)

  const TWO16: int := 0x1_0000
  const TWO31: int := 0x8000_0000
  const TWO32: int := 0x1_0000_0000
  const TWO63: int := 0x8000_0000_0000_0000
  const TWO64: int := 0x1_0000_0000_0000_0000

  type U8 = x: int | 0 <= x < 0x100
  type U16 = x: int | 0 <= x < TWO16
  type U32 = x: int | 0 <= x < TWO32
  type U64 = x: int | 0 <= x < TWO64
  type I32 = x: int | -TWO31 <= x < TWO31

  function Pow2(k: nat): (r: nat)
    ensures r >= 1
    ensures k < r
  {
    if k == 0 then 1 else 2 * Pow2(k - 1)
  }

  lemma MulMono(p: nat, a: nat, b: nat)
    requires a <= b
    ensures p * a <= p * b
  {
  }

  lemma MulLess(a: nat, b: nat, p: nat)
    requires a * p < b * p
    ensures a < b
  {}

  lemma DivBounds(a: nat, b: nat)
    requires b > 0
    ensures (a / b) * b <= a < (a / b) * b + b
  {}

  function Repeated<T>(x: T, n: nat): (s: seq<T>)
    ensures |s| == n
  {
    seq(n, _ => x)
  }

  lemma Regroup<T>(a: seq<T>, b: seq<T>, c: seq<T>)
    ensures (a + b) + c == a + (b + c)
  {}

  lemma AllButLast<T>(s: seq<T>, n: nat)
    requires |s| == n + 1
    ensures s == s[..n] + [s[n]]
  {}

  function Min(a: int, b: int): int { if a <= b then a else b }

  function Max(a: int, b: int): int { if a <= b then b else a }

  /** `u64::wrapping_sub`. */
  function WrapSub64(a: U64, b: U64): U64 {
    if a >= b then a - b else a - b + TWO64
  }

  /** `as i64`. */
  function Signed64(x: U64): int {
    if x < TWO63 then x else x - TWO64
  }

  /** `u32::wrapping_sub`. */
  function WrapSub32(a: U32, b: U32): U32 {
    if a >= b then a - b else a - b + TWO32
  }

  /** Logical right shift. */
  function Shr(x: nat, n: nat): nat { if n == 0 then x else Shr(x, n - 1) / 2 }

  /** `x << n` before any truncation. */
  function Shl(x: nat, n: nat): nat { if n == 0 then x else 2 * Shl(x, n - 1) }

  lemma {:induction false} ShlIsProduct(x: nat, n: nat)
    ensures Shl(x, n) == x * Pow2(n)
  {
    if n > 0 {
      ShlIsProduct(x, n - 1);
      assert x * (2 * Pow2(n - 1)) == 2 * (x * Pow2(n - 1));
    }
  }

  // ---- Bytes.

  type Bytes = seq<U8>

  /** The pieces one after the other. */
  function Joined(pieces: seq<Bytes>): Bytes {
    if pieces == [] then [] else pieces[0] + Joined(pieces[1..])
  }

  lemma {:induction false} JoinedParts(a: seq<Bytes>, b: seq<Bytes>)
    ensures Joined(a + b) == Joined(a) + Joined(b)
  {
    if a == [] {
      assert a + b == b;
    } else {
      assert (a + b)[1..] == a[1..] + b;
      JoinedParts(a[1..], b);
      Regroup(a[0], Joined(a[1..]), Joined(b));
    }
  }

  function Be16(x: U16): (b: Bytes) ensures |b| == 2 { [x / 256, x % 256] }

  function Be32(x: U32): (b: Bytes) ensures |b| == 4 { Be16(x / TWO16) + Be16(x % TWO16) }

  function FromBe16(b: Bytes): U16 requires |b| == 2 { b[0] as int * 256 + b[1] }

  function FromBe32(b: Bytes): U32 requires |b| == 4 { FromBe16(b[..2]) * TWO16 + FromBe16(b[2..]) }

  lemma Be32RoundTrip(x: U32)
    ensures FromBe32(Be32(x)) == x
  {}

  lemma FromBe32RoundTrip(b: Bytes)
    requires |b| == 4
    ensures Be32(FromBe32(b)) == b
  {}
}
