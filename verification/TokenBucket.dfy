/**
  The per-service token bucket of the response rate limiter, over 32-bit fixed-point time with
  four fractional bits.
 */
module TokenBucket {
  import opened Common

  const TS_FRAC: int := 4
  const INVALID_TS: U32 := 0
  const MIN_LIMIT_INTERVAL: int := -19
  const MAX_LIMIT_INTERVAL: int := 12
  const MIN_LIMIT_BURST: int := 1
  const MAX_LIMIT_BURST: int := 255

  datatype Params = Params(maxTokens: U16, perHit: U16, shift: int)

  function Clamp(lo: int, x: int, hi: int): (r: int)
    requires lo <= hi
    ensures lo <= r <= hi && (lo <= x <= hi ==> r == x) && (x < lo ==> r == lo) && (x > hi ==> r == hi)
  {
    Min(Max(x, lo), hi)
  }

  /** The configurations `set_bucket_params` can produce, and the all-zero one of an unlimited service. */
  predicate Sane(p: Params) {
    && -15 <= p.shift <= 8
    && (p.shift < 0 ==> p.perHit == 1 && Shl(1, -p.shift) <= p.maxTokens <= 32768)
    && p.perHit <= p.maxTokens
  }

  lemma ShlProduct(x: nat, n: nat)
    ensures Shl(x, n) == x * Shl(1, n)
  {
    ShlIsProduct(x, n);
    ShlIsProduct(1, n);
  }

  lemma {:induction false} ShlAdd(x: nat, a: nat, b: nat)
    ensures Shl(Shl(x, a), b) == Shl(x, a + b)
  {
    if b > 0 { ShlAdd(x, a, b - 1); }
  }

  lemma {:induction false} ShlMono(x: nat, y: nat, a: nat, b: nat)
    requires x <= y && a <= b
    ensures Shl(x, a) <= Shl(y, b)
    decreases b
  {
    if a < b { ShlMono(x, y, a, b - 1); } else if a > 0 { ShlMono(x, y, a - 1, b - 1); }
  }

  /** A burst of at most 255 hits overflows 16 bits only when shifted by more than eight. */
  lemma BurstFits(b: nat, n: nat)
    requires b <= 255 && n <= 8
    ensures Shl(b, n) < TWO16
  {
    ShlMono(b, 255, n, 8);
    assert Shl(255, 4) == 4080;
  }

  /** With a resolution of `2^s` ticks per token, a full bucket does not fit 16 bits. */
  predicate TooFine(b: nat, e: nat, s: nat) { s <= e && Shl(b, e - s) >= TWO16 }

  ghost predicate NoneFiner(b: nat, e: nat, shift: nat) { forall s: nat :: s < shift ==> TooFine(b, e, s) }

  lemma TooFineEarly(b: nat, e: nat, s: nat)
    requires b <= 255 && e <= 16 && TooFine(b, e, s)
    ensures s < e - 8
  {
    if s >= e - 8 {
      BurstFits(b, e - s);
      assert false;
    }
  }

  /** The finest token resolution at which a bucket of `b` hits, `2^e` ticks each, fits 16 bits. */
  method Scale(e: nat, b: nat) returns (shift: nat)
    requires e <= 16 && b <= 255
    ensures shift <= e && shift <= 8 && !TooFine(b, e, shift)
    ensures NoneFiner(b, e, shift)
  {
    shift := 0;
    while shift < e
      invariant shift <= e && shift <= Max(e - 8, 0)
      invariant forall s: nat :: s < shift ==> TooFine(b, e, s)
    {
      if Shl(b, e - shift) < TWO16 {
        return;
      }
      TooFineEarly(b, e, shift);
      shift := shift + 1;
    }
  }

  /**
    One hit is paid back in `2^i` seconds, at the finest resolution that fits, and the bucket holds
    `b` hits, or more for very short intervals.
   */
  ghost predicate Configured(p: Params, i: int, b: nat) {
    if i >= -TS_FRAC then
      && p.shift >= 0 && Shl(p.perHit, p.shift) == Shl(1, i + TS_FRAC) && p.maxTokens as int == b * p.perHit
      && NoneFiner(b, i + TS_FRAC, p.shift)
    else p.shift == i + TS_FRAC && p.perHit == 1 && p.maxTokens as int == Max(b, Shl(1, -p.shift))
  }

  /**
    `set_bucket_params`.  Neither cast to 16 bits loses anything; the bucket holds `burst` hits
    (more for very short intervals); and one hit is paid back in exactly the configured
    interval: `perHit` tokens at one token per `2^shift` ticks.
   */
  method SetBucketParams(interval: int, burst: int) returns (p: Params)
    ensures Sane(p) && p.perHit > 0
    ensures Configured(p, Clamp(MIN_LIMIT_INTERVAL, interval, MAX_LIMIT_INTERVAL), Clamp(MIN_LIMIT_BURST, burst, MAX_LIMIT_BURST))
  {
    p := ParamsFor(Clamp(MIN_LIMIT_INTERVAL, interval, MAX_LIMIT_INTERVAL), Clamp(MIN_LIMIT_BURST, burst, MAX_LIMIT_BURST));
  }

  lemma FineFits(b: nat, n: nat, shift: nat)
    requires b >= 1 && Shl(b, n) < TWO16
    ensures 0 < Shl(1, n) <= Shl(1, n) * b < TWO16 && Shl(Shl(1, n), shift) == Shl(1, n + shift)
  {
    ShlProduct(b, n);
    ShlAdd(1, n, shift);
    ShlMono(1, 1, 0, n);
    MulMono(Shl(1, n), 1, b);
  }

  method ParamsFor(i: int, b: nat) returns (p: Params)
    requires MIN_LIMIT_INTERVAL <= i <= MAX_LIMIT_INTERVAL && MIN_LIMIT_BURST <= b <= MAX_LIMIT_BURST
    ensures Sane(p) && p.perHit > 0 && Configured(p, i, b)
  {
    if i >= -TS_FRAC {
      var shift := Scale(i + TS_FRAC, b);
      var n: nat := TS_FRAC + i - shift;
      FineFits(b, n, shift);
      p := Params(Shl(1, n) * b, Shl(1, n), shift);
    } else {
      var shift := i + TS_FRAC;
      ShlMono(1, 1, -shift, 15);
      ShlMono(1, 1, 0, -shift);
      assert Shl(1, 8) == 256;
      p := Params(Max(b, Shl(1, -shift)), 1, shift);
    }
  }

  // ---- Refilling.

  lemma {:induction false} ShrBounds(x: nat, n: nat)
    ensures Shr(x, n) <= x
    ensures n > 0 ==> 2 * Shr(x, n) <= x
  {
    if n > 0 { ShrBounds(x, n - 1); }
  }

  lemma {:induction false} ShrMono(a: nat, b: nat, n: nat)
    requires a <= b
    ensures Shr(a, n) <= Shr(b, n)
  {
    if n > 0 { ShrMono(a, b, n - 1); }
  }

  lemma {:induction false} ShrLess(x: nat, m: nat, n: nat)
    requires m <= n
    ensures Shr(x, n) <= Shr(x, m)
  {
    if m < n { ShrLess(x, m, n - 1); }
  }

  /** Shifting a difference gives at most the difference of the shifted. */
  lemma {:induction false} ShrDifference(a: nat, b: nat, n: nat)
    requires b <= a
    ensures Shr(a - b, n) <= Shr(a, n) - Shr(b, n)
  {
    if n > 0 { ShrDifference(a, b, n - 1); }
  }

  /** ... and falls short of it by at most one. */
  lemma {:induction false} ShrShortfall(a: nat, b: nat, n: nat)
    requires b <= a
    ensures Shr(a, n) - Shr(b, n) <= Shr(a - b, n) + 1
  {
    if n > 0 { ShrShortfall(a, b, n - 1); }
  }

  /** Shifting a multiple of `2^n` loses nothing. */
  lemma {:induction false} ShrWhole(x: nat, y: nat, n: nat)
    ensures Shr(x + Shl(y, n), n) == Shr(x, n) + y
    decreases n
  {
    if n > 0 {
      ShlAdd(y, 1, n - 1);
      assert Shl(y, 1) == 2 * y;
      ShrWhole(x, 2 * y, n - 1);
    }
  }

  lemma {:induction false} ShlSum(x: nat, y: nat, n: nat)
    ensures Shl(x + y, n) == Shl(x, n) + Shl(y, n)
    ensures Shl(x, n) >= x
  {
    if n > 0 { ShlSum(x, y, n - 1); }
  }

  /** The time went backwards, as a signed 32-bit difference sees it. */
  predicate Backwards(prev: U32, now: U32) { WrapSub32(now, prev) >= TWO31 }

  /** Tokens earned between two hits, before the cap. */
  function Earned(p: Params, prev: U32, now: U32): nat
    requires Sane(p)
  {
    if p.shift >= 0 then
      ShrBounds(now, p.shift);
      ShrBounds(prev, p.shift);
      WrapSub32(Shr(now, p.shift), Shr(prev, p.shift))
    else if WrapSub32(now, prev) > p.maxTokens then p.maxTokens
    else Shl(WrapSub32(now, prev), -p.shift)
  }

  /** The refill in `update_record`. */
  function Refilled(p: Params, tokens: U16, prev: U32, now: U32): (r: U16)
    requires Sane(p) && tokens <= p.maxTokens
    ensures r <= p.maxTokens
    ensures tokens <= r
  {
    if prev == INVALID_TS || Backwards(prev, now) then tokens
    else Min(tokens + Earned(p, prev, now), p.maxTokens)
  }

  /**
    No step of the refill leaves its machine type, for any configuration and any two timestamps,
    even across the wrap of the 32-bit clock: the earned tokens and their sum with the bucket
    are below 2^32.
   */
  lemma RefillFits(p: Params, tokens: U16, prev: U32, now: U32)
    requires Sane(p) && tokens <= p.maxTokens && !Backwards(prev, now)
    ensures tokens + Earned(p, prev, now) < TWO32
  {
    if p.shift < 0 {
      if WrapSub32(now, prev) <= p.maxTokens {
        ShlMono(WrapSub32(now, prev), 32768, -p.shift, 15);
        assert Shl(32768, 15) == 0x4000_0000 by { assert Shl(32768, 8) == 0x80_0000; }
      }
    } else if prev <= now {
      ShrBounds(now, p.shift);
      ShrMono(prev, now, p.shift);
    } else {
      WrapGap(prev, now, p.shift);
    }
  }

  /** Across the wrap the shifted times are at least 2^23 apart. */
  lemma WrapGap(prev: U32, now: U32, shift: nat)
    requires now < prev && !Backwards(prev, now) && shift <= 8
    ensures shift > 0 ==> Shr(prev, shift) - Shr(now, shift) >= 0x80_0000
    ensures shift > 0 ==> Shr(prev, shift) <= TWO31
  {
    if shift > 0 {
      ShrDifference(prev, now, shift);
      ShrMono(TWO31, prev - now, shift);
      ShrLess(TWO31, shift, 8);
      assert Shr(TWO31, 4) == 0x800_0000;
      assert Shr(TWO31, 8) == 0x80_0000;
      ShrBounds(prev, shift);
    }
  }

  /** With a coarse resolution, the first hit after the clock wraps finds a full bucket. */
  lemma WrapFillsBucket(p: Params, tokens: U16, prev: U32, now: U32)
    requires Sane(p) && tokens <= p.maxTokens && p.shift > 0
    requires prev != INVALID_TS && now < prev && !Backwards(prev, now)
    ensures Refilled(p, tokens, prev, now) == p.maxTokens
  {
    WrapGap(prev, now, p.shift);
    ShrBounds(prev, p.shift);
  }

  /** What an elapsed time is worth in tokens, rounded up to the next tick of a coarse clock. */
  function Worth(p: Params, elapsed: nat): nat
    requires Sane(p)
  {
    if p.shift >= 0 then Shr(elapsed, p.shift) + 1 else Shl(elapsed, -p.shift)
  }

  /**
    The tokens earned are within what the wrapped elapsed time is worth exactly if the
    resolution is at least a tick or the clock did not wrap in between.
   */
  lemma EarnedIsWorth(p: Params, prev: U32, now: U32)
    requires Sane(p) && !Backwards(prev, now)
    ensures Earned(p, prev, now) <= Worth(p, WrapSub32(now, prev)) <==> p.shift <= 0 || prev <= now
  {
    if p.shift < 0 {
      ShlSum(WrapSub32(now, prev), 0, -p.shift);
    } else if prev <= now {
      ShrMono(prev, now, p.shift);
      ShrShortfall(now, prev, p.shift);
    } else if p.shift > 0 {
      WrapGap(prev, now, p.shift);
      ShrBounds(WrapSub32(now, prev), p.shift);
    }
  }

  // ---- The guarantee over a record's lifetime.

  datatype Bucket = Bucket(last: U32, tokens: U16)

  /** A request arrives, or a response is about to be sent; `leak` lets it through an empty bucket. */
  datatype Event = Hit(now: U32) | Response(leak: bool)

  predicate Affordable(p: Params, b: Bucket) { p.perHit > 0 && b.tokens >= p.perHit }

  function Step(p: Params, b: Bucket, e: Event): (r: Bucket)
    requires Sane(p) && b.tokens <= p.maxTokens
    ensures r.tokens <= p.maxTokens
  {
    match e
    case Hit(now) => Bucket(now, Refilled(p, b.tokens, b.last, now))
    case Response(leak) =>
      if Affordable(p, b) then b.(tokens := b.tokens - p.perHit)
      else if p.perHit > 0 && leak then b.(tokens := 0)
      else b
  }

  /** A new record: never hit, full bucket. */
  function Fresh(p: Params): Bucket { Bucket(INVALID_TS, p.maxTokens) }

  function Run(p: Params, es: seq<Event>): (b: Bucket)
    requires Sane(p)
    ensures b.tokens <= p.maxTokens
  {
    if es == [] then Fresh(p) else Step(p, Run(p, es[..|es| - 1]), es[|es| - 1])
  }

  /** How many responses were paid for with tokens. */
  function Paid(p: Params, es: seq<Event>): nat
    requires Sane(p)
  {
    if es == [] then 0
    else
      var before := es[..|es| - 1];
      Paid(p, before) + if es[|es| - 1].Response? && Affordable(p, Run(p, before)) then 1 else 0
  }

  /** The bucket cannot pay for the response and nothing lets it through. */
  predicate Refused(p: Params, b: Bucket, e: Event) { e.Response? && p.perHit > 0 && b.tokens < p.perHit && !e.leak }

  /** How many responses were dropped. */
  function Dropped(p: Params, es: seq<Event>): nat
    requires Sane(p)
  {
    if es == [] then 0
    else
      var before := es[..|es| - 1];
      Dropped(p, before) + if Refused(p, Run(p, before), es[|es| - 1]) then 1 else 0
  }

  /** The times of the hits, in order. */
  function Hits(es: seq<Event>): seq<U32> {
    if es == [] then []
    else
      var e, before := es[|es| - 1], Hits(es[..|es| - 1]);
      if e.Hit? then before + [e.now] else before
  }

  /** What one more event adds. */
  lemma OneMore(p: Params, es: seq<Event>, e: Event)
    requires Sane(p)
    ensures Run(p, es + [e]) == Step(p, Run(p, es), e)
    ensures |Hits(es + [e])| == |Hits(es)| + if e.Hit? then 1 else 0
    ensures Dropped(p, es + [e]) == Dropped(p, es) + if Refused(p, Run(p, es), e) then 1 else 0
  {
    assert (es + [e])[..|es|] == es;
  }

  ghost predicate NonDecreasing(ts: seq<U32>) { forall i, j :: 0 <= i < j < |ts| ==> ts[i] <= ts[j] }

  /** What the elapsed time from `a` to `b` can earn at most. */
  function Accrued(p: Params, a: nat, b: nat): nat
    requires Sane(p) && a <= b
  {
    if p.shift >= 0 then ShrMono(a, b, p.shift); Shr(b, p.shift) - Shr(a, p.shift) else Shl(b - a, -p.shift)
  }

  lemma AccruedTelescopes(p: Params, a: nat, b: nat, c: nat)
    requires Sane(p) && a <= b <= c
    ensures Accrued(p, a, b) + Accrued(p, b, c) == Accrued(p, a, c)
  {
    if p.shift < 0 { ShlSum(b - a, c - b, -p.shift); }
  }

  lemma EarnedIsAccrued(p: Params, a: U32, b: U32)
    requires Sane(p) && a <= b
    ensures Earned(p, a, b) <= Accrued(p, a, b)
  {
    if p.shift >= 0 { ShrMono(a, b, p.shift); } else { ShlSum(b - a, 0, -p.shift); }
  }

  lemma {:induction false} LastIsHit(p: Params, es: seq<Event>)
    requires Sane(p)
    ensures Run(p, es).last == if Hits(es) == [] then INVALID_TS else Hits(es)[|Hits(es)| - 1]
  {
    if es != [] { LastIsHit(p, es[..|es| - 1]); }
  }

  /** The earned time between the first and the last hit. */
  function Lifetime(p: Params, ts: seq<U32>): nat
    requires Sane(p) && (ts != [] ==> ts[0] <= ts[|ts| - 1])
  {
    if ts == [] then 0 else Accrued(p, ts[0], ts[|ts| - 1])
  }

  lemma BudgetResponse(p: Params, b: Bucket, leak: bool, paid: nat)
    requires Sane(p) && b.tokens <= p.maxTokens
    ensures var more := if Affordable(p, b) then 1 else 0;
            (paid + more) * p.perHit + Step(p, b, Response(leak)).tokens <= paid * p.perHit + b.tokens
  {}

  lemma LifetimeGrows(p: Params, ts: seq<U32>, now: U32)
    requires Sane(p) && NonDecreasing(ts + [now])
    ensures NonDecreasing(ts)
    ensures ts != [] ==> ts[|ts| - 1] <= now && Lifetime(p, ts + [now]) == Lifetime(p, ts) + Accrued(p, ts[|ts| - 1], now)
  {
    var all := ts + [now];
    forall i, j | 0 <= i < j < |ts| ensures ts[i] <= ts[j] { assert all[i] <= all[j]; }
    if ts != [] {
      assert all[|ts| - 1] <= all[|ts|];
      AccruedTelescopes(p, ts[0], ts[|ts| - 1], now);
    }
  }

  /** What the step from one hit to the next earns at most: nothing backwards, a full bucket for a coarse wrap. */
  function Gain(p: Params, prev: U32, now: U32): nat
    requires Sane(p)
  {
    if Backwards(prev, now) then 0
    else if p.shift <= 0 then Shl(WrapSub32(now, prev), -p.shift)
    else if prev <= now then Accrued(p, prev, now)
    else p.maxTokens
  }

  /** The refill is exactly what the step from the last hit is worth, up to a full bucket. */
  lemma RefilledIsGain(p: Params, tokens: U16, prev: U32, now: U32)
    requires Sane(p) && tokens <= p.maxTokens
    ensures Refilled(p, tokens, prev, now) == if prev == INVALID_TS then tokens else Min(tokens + Gain(p, prev, now), p.maxTokens)
  {
    if prev != INVALID_TS && !Backwards(prev, now) {
      if p.shift < 0 {
        ShlSum(WrapSub32(now, prev), 0, -p.shift);
      } else if prev <= now {
        ShrMono(prev, now, p.shift);
      } else if p.shift > 0 {
        WrapFillsBucket(p, tokens, prev, now);
      }
    }
  }

  function TotalGain(p: Params, ts: seq<U32>): nat
    requires Sane(p)
  {
    if |ts| < 2 then 0 else TotalGain(p, ts[..|ts| - 1]) + Gain(p, ts[|ts| - 2], ts[|ts| - 1])
  }

  lemma GainHit(p: Params, b: Bucket, now: U32)
    requires Sane(p) && b.tokens <= p.maxTokens
    ensures Step(p, b, Hit(now)).tokens <= b.tokens + Gain(p, b.last, now)
    ensures b.last == INVALID_TS ==> Step(p, b, Hit(now)).tokens == b.tokens
  {
    if p.shift < 0 { ShlSum(WrapSub32(now, b.last), 0, -p.shift); }
    else if b.last <= now { EarnedIsAccrued(p, b.last, now); }
  }

  lemma TotalGrows(p: Params, ts: seq<U32>, now: U32)
    requires Sane(p) && ts != []
    ensures TotalGain(p, ts + [now]) == TotalGain(p, ts) + Gain(p, ts[|ts| - 1], now)
  {
    assert (ts + [now])[..|ts|] == ts;
  }

  /** The budget for any times of the hits, whatever the clock did. */
  lemma {:induction false} AnyTimesBudget(p: Params, es: seq<Event>)
    requires Sane(p)
    ensures Paid(p, es) * p.perHit + Run(p, es).tokens <= p.maxTokens + TotalGain(p, Hits(es))
  {
    if es != [] {
      var e, before := es[|es| - 1], es[..|es| - 1];
      var ts, b := Hits(before), Run(p, before);
      match e {
        case Hit(now) =>
          LastIsHit(p, before);
          GainHit(p, b, now);
          if ts != [] { TotalGrows(p, ts, now); }
        case Response(leak) =>
          BudgetResponse(p, b, leak, Paid(p, before));
      }
      AnyTimesBudget(p, before);
    }
  }

  lemma {:induction false} TotalWithoutWrap(p: Params, ts: seq<U32>)
    requires Sane(p) && NonDecreasing(ts)
    ensures TotalGain(p, ts) <= Lifetime(p, ts)
  {
    if |ts| > 1 {
      var before, now := ts[..|ts| - 1], ts[|ts| - 1];
      assert before + [now] == ts;
      LifetimeGrows(p, before, now);
      TotalWithoutWrap(p, before);
    }
  }

  /**
    Whatever the interleaving of requests and responses, as long as the time does not decrease:
    the responses paid with tokens, plus what is left in the bucket, never exceed one full bucket
    plus the refill that the time between the first and the last request is worth.
   */
  lemma TokenBudget(p: Params, es: seq<Event>)
    requires Sane(p) && NonDecreasing(Hits(es))
    ensures Paid(p, es) * p.perHit + Run(p, es).tokens <= p.maxTokens + Lifetime(p, Hits(es))
  {
    AnyTimesBudget(p, es);
    TotalWithoutWrap(p, Hits(es));
  }

  // ---- The same in true time, across the wraps of the clock.

  /** An unbounded clock that never goes back, and its 32-bit readings. */
  ghost predicate Reads(ts: seq<U32>, clock: seq<nat>) {
    && |ts| == |clock|
    && (forall i {:trigger ts[i]} :: 0 <= i < |ts| ==> ts[i] == clock[i] % TWO32)
    && (forall i {:trigger clock[i]} :: 0 < i < |clock| ==> clock[i - 1] <= clock[i])
  }

  /** How often the 32-bit time wrapped between two hits. */
  function Wraps(ts: seq<U32>): nat {
    if |ts| < 2 then 0 else Wraps(ts[..|ts| - 1]) + if ts[|ts| - 1] < ts[|ts| - 2] then 1 else 0
  }

  lemma Reading(a: nat, b: nat)
    requires a <= b
    ensures WrapSub32(b % TWO32, a % TWO32) <= b - a && a / TWO32 <= b / TWO32
  {}

  lemma EraIsShift(eras: nat, n: nat)
    requires n == 32
    ensures Shl(eras, n) == eras * TWO32
  {
    ShlProduct(eras, n);
    ShlAdd(1, 8, 8);
    ShlAdd(1, 16, 16);
    ShlProduct(TWO16, 16);
    assert Shl(1, 8) == 256;
    assert Shl(256, 8) == TWO16;
  }

  /** A whole number of eras is a whole number of tokens. */
  lemma ShrEra(x: nat, eras: nat, n: nat)
    requires n <= 8
    ensures Shr(x + eras * TWO32, n) == Shr(x, n) + Shl(eras, 32 - n)
  {
    ShlAdd(eras, 32 - n, n);
    EraIsShift(eras, 32);
    ShrWhole(x, Shl(eras, 32 - n), n);
  }

  lemma GainOfClock(p: Params, a: nat, b: nat)
    requires Sane(p) && a <= b
    ensures var prev, now := a % TWO32, b % TWO32;
            Gain(p, prev, now) <= Accrued(p, a, b) + if p.shift > 0 && now < prev then p.maxTokens else 0
  {
    Reading(a, b);
    var prev, now := a % TWO32, b % TWO32;
    if p.shift <= 0 {
      ShlMono(WrapSub32(now, prev), b - a, -p.shift, -p.shift);
    } else if prev <= now {
      ShrEra(prev, a / TWO32, p.shift);
      ShrEra(now, b / TWO32, p.shift);
      ShlMono(a / TWO32, b / TWO32, 32 - p.shift, 32 - p.shift);
    }
  }

  /** What the clock's whole time from the first to the last hit can earn. */
  function Span(p: Params, clock: seq<nat>): nat
    requires Sane(p) && (clock != [] ==> clock[0] <= clock[|clock| - 1])
  {
    if clock == [] then 0 else Accrued(p, clock[0], clock[|clock| - 1])
  }

  /** One full bucket more for each wrap of a coarse clock; nothing more otherwise. */
  function Extra(p: Params, wraps: nat): nat { if p.shift > 0 then wraps * p.maxTokens else 0 }

  lemma ReadsPrefix(ts: seq<U32>, clock: seq<nat>, n: nat)
    requires Reads(ts, clock) && 0 < n < |ts|
    ensures Reads(ts[..n], clock[..n])
    ensures clock[n - 1] <= clock[n] && ts[n - 1] == clock[n - 1] % TWO32 && ts[n] == clock[n] % TWO32
  {
    var before := clock[..n];
    forall i {:trigger before[i]} | 0 < i < |before| ensures before[i - 1] <= before[i] {
      assert clock[i - 1] <= clock[i];
    }
  }

  lemma {:induction false} TotalOfClock(p: Params, ts: seq<U32>, clock: seq<nat>)
    requires Sane(p) && Reads(ts, clock)
    ensures clock != [] ==> clock[0] <= clock[|clock| - 1]
    ensures TotalGain(p, ts) <= Span(p, clock) + Extra(p, Wraps(ts))
  {
    var n := |ts| - 1;
    if n > 0 {
      ReadsPrefix(ts, clock, n);
      TotalOfClock(p, ts[..n], clock[..n]);
      GainOfClock(p, clock[n - 1], clock[n]);
      AccruedTelescopes(p, clock[0], clock[n - 1], clock[n]);
      OneWrapMore(p, Wraps(ts[..n]));
    }
  }

  lemma OneWrapMore(p: Params, wraps: nat)
    ensures Extra(p, wraps + 1) == Extra(p, wraps) + if p.shift > 0 then p.maxTokens else 0
  {}

  /**
    The budget in true time: over any number of wraps of the 32-bit time, no client is paid
    more than one full bucket plus what the whole elapsed time is worth, plus one full bucket for
    each wrap if the resolution is coarser than a tick.
   */
  lemma ClockBudget(p: Params, es: seq<Event>, clock: seq<nat>)
    requires Sane(p) && Reads(Hits(es), clock)
    ensures clock != [] ==> clock[0] <= clock[|clock| - 1]
    ensures Paid(p, es) * p.perHit + Run(p, es).tokens <= p.maxTokens + Span(p, clock) + Extra(p, Wraps(Hits(es)))
  {
    AnyTimesBudget(p, es);
    TotalOfClock(p, Hits(es), clock);
  }

  // ---- What a client can rely on.

  function Responses(es: seq<Event>): nat {
    if es == [] then 0 else Responses(es[..|es| - 1]) + if es[|es| - 1].Response? then 1 else 0
  }

  predicate Leaky(e: Event) { e.Response? && e.leak }

  /** Every response is paid for, dropped or let through, and without leaks each that was not paid for is dropped. */
  lemma {:induction false} PaidOrDropped(p: Params, es: seq<Event>)
    requires Sane(p) && p.perHit > 0
    ensures Paid(p, es) + Dropped(p, es) <= Responses(es)
    ensures (forall e <- es :: !Leaky(e)) ==> Paid(p, es) + Dropped(p, es) == Responses(es)
  {
    if es != [] {
      PaidOrDropped(p, es[..|es| - 1]);
      assert es[|es| - 1] in es;
    }
  }

  /** The time that pays for one response, in ticks; at least one. */
  function Interval(p: Params): nat { if p.shift >= 0 then Shl(p.perHit, p.shift) else 1 }

  /** For the parameters that were set, that is the configured interval, and the burst fits the bucket. */
  lemma ConfiguredServes(p: Params, i: int, b: nat)
    requires Sane(p) && p.perHit > 0 && Configured(p, i, b)
    ensures b * p.perHit <= p.maxTokens && Interval(p) == Shl(1, Max(i + TS_FRAC, 0))
  {}

  /** A hit that long after the last one, and before half an era has passed, finds enough for a response. */
  lemma EnoughAfterInterval(p: Params, tokens: U16, prev: U32, now: U32)
    requires Sane(p) && tokens <= p.maxTokens && prev != INVALID_TS && Interval(p) <= WrapSub32(now, prev) < TWO31
    ensures Refilled(p, tokens, prev, now) >= p.perHit
  {
    RefilledIsGain(p, tokens, prev, now);
    if p.shift < 0 {
      ShlSum(WrapSub32(now, prev), 0, -p.shift);
    } else if prev <= now {
      ShrDifference(now, prev, p.shift);
      ShrMono(Interval(p), now - prev, p.shift);
      ShrWhole(0, p.perHit, p.shift);
      ShrZero(p.shift);
    } else if p.shift == 0 {
      assert Interval(p) == p.perHit;
    }
  }

  lemma {:induction false} ShrZero(n: nat)
    ensures Shr(0, n) == 0
  {
    if n > 0 { ShrZero(n - 1); }
  }

  /** Every hit comes at least the interval after the one before it. */
  predicate Spaced(p: Params, ts: seq<U32>) {
    |ts| < 2 || (Spaced(p, ts[..|ts| - 1]) && ts[|ts| - 2] != INVALID_TS && Interval(p) <= WrapSub32(ts[|ts| - 1], ts[|ts| - 2]) < TWO31)
  }

  /** Every response answers a hit. */
  predicate OnePerHit(es: seq<Event>) {
    es == [] || (OnePerHit(es[..|es| - 1]) && (es[|es| - 1].Response? ==> |es| > 1 && es[|es| - 2].Hit?))
  }

  /** After each hit of a client that keeps the interval, its bucket can pay. */
  lemma PaysAfterHit(p: Params, es: seq<Event>)
    requires Sane(p) && OnePerHit(es) && Spaced(p, Hits(es)) && es != [] && es[|es| - 1].Hit?
    ensures Run(p, es).tokens >= p.perHit
  {
    var before, now := es[..|es| - 1], es[|es| - 1].now;
    var ts := Hits(before);
    LastIsHit(p, before);
    if ts == [] {
      assert before == [];
    } else {
      assert Hits(es)[..|ts|] == ts;
      EnoughAfterInterval(p, Run(p, before).tokens, ts[|ts| - 1], now);
    }
  }

  /** A client that keeps the configured interval is answered every time. */
  lemma {:induction false} PoliteIsServed(p: Params, es: seq<Event>)
    requires Sane(p) && p.perHit > 0 && OnePerHit(es) && Spaced(p, Hits(es))
    ensures Paid(p, es) == Responses(es)
  {
    if es != [] {
      var before := es[..|es| - 1];
      if es[|es| - 1].Hit? {
        assert Hits(es)[..|Hits(before)|] == Hits(before);
      } else {
        PaysAfterHit(p, before);
      }
      PoliteIsServed(p, before);
    }
  }

  /** Whatever the times, as many responses as fit a full bucket are all paid. */
  lemma {:induction false} FirstBurstIsServed(p: Params, es: seq<Event>, burst: nat)
    requires Sane(p) && p.perHit > 0 && burst * p.perHit <= p.maxTokens && Responses(es) <= burst
    ensures Paid(p, es) == Responses(es)
    ensures Run(p, es).tokens >= p.maxTokens - Responses(es) * p.perHit
  {
    if es != [] {
      var before := es[..|es| - 1];
      FirstBurstIsServed(p, before, burst);
      if es[|es| - 1].Response? { BurstStep(Responses(before), burst, p.perHit); }
    }
  }

  lemma BurstStep(n: nat, burst: nat, price: nat)
    requires n + 1 <= burst
    ensures n * price + price == (n + 1) * price <= burst * price
  {
    MulMono(price, n + 1, burst);
  }
}
