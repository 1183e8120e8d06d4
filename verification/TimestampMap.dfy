/**
  `NtpTimestampMap`: the circular buffer behind interleaved mode, with its one-entry cache and
  its mixed interpolation and binary search, proved against `TimestampOrder`.
 */
module TimestampMap {
  import opened Common
  import opened TimestampOrder
  import opened TxOffset

  /** The largest buffer: `MAX_SLOTS` slots of `SLOT_SIZE` records. */
  const MAX_STAMPS: nat := 0x100_0000

  /** Buffer position of logical index `k`: both are below the buffer length, so one wrap suffices. */
  function RingSlot(first: nat, k: nat, m: nat): nat
    requires first < m && k < m
  {
    if first + k < m then first + k else first + k - m
  }

  /** The position is the sum reduced modulo the length, which masking computes for a power of two. */
  lemma RingSlotIsModulo(first: nat, k: nat, m: nat)
    requires first < m && k < m
    ensures RingSlot(first, k, m) == (first + k) % m
  {
    if m <= first + k {
      assert (first + k) / m == 1;
    }
  }

  /** The interpolated guess: neither the quotient, cast to 32 bits, nor the sum leaves them. */
  function Guess(key: U64, lo: nat, hi: nat, rxLo: U64, rxHi: U64): (x: U32)
    requires lo < hi <= MAX_STAMPS && rxLo < key < rxHi && rxHi - rxLo >= hi - lo
    ensures lo <= x <= lo + 2 * (hi - lo)
  {
    var step := Max((rxHi - rxLo) / (hi - lo), 1);
    GuessInRange(rxHi - rxLo, hi - lo, key - rxLo);
    var steps: U32 := (key - rxLo) / step;
    lo + steps
  }

  /**
    The next probe of the search.  It lies strictly inside the bracket, and every probe that does
    not interpolate halves the bracket.
   */
  function Probe(key: U64, lo: nat, hi: nat, rxLo: U64, rxHi: U64, i: nat): (x: nat)
    requires lo + 2 <= hi <= MAX_STAMPS
    requires hi - lo > 3 && i % 2 == 0 ==> rxLo < key < rxHi && rxHi - rxLo >= hi - lo
    ensures lo < x < hi
    ensures i % 2 == 1 ==> x == lo + (hi - lo) / 2
  {
    var guess := if hi - lo > 3 && i % 2 == 0 then Guess(key, lo, hi, rxLo, rxHi) else lo + (hi - lo) / 2;
    if guess <= lo then lo + 1 else if guess >= hi then hi - 1 else guess
  }

  /** For a buffer of any allowed length the quotient fits 32 bits. */
  lemma GuessInRange(d: nat, n: nat, k: nat)
    requires 0 < n <= d && k < d && n <= MAX_STAMPS
    ensures 0 < d / n && k / (d / n) < 2 * n < TWO32
  {
    var step := d / n;
    DivBounds(d, n);
    GuessBelow(d, n, step, k);
  }

  lemma GuessBelow(d: nat, n: nat, step: nat, k: nat)
    requires 0 < n <= d < step * n + n && k < d
    ensures 0 < step && k / step < 2 * n
  {
    MulMono(n, 1, step);
    DivBounds(k, step);
    assert (2 * n) * step == 2 * (step * n);
    MulLess(k / step, 2 * n, step);
  }

  /** Probe `i` of a bracket of width `a` leaves width `b`: odd probes halve, even ones at least shrink. */
  predicate Shrinks(i: nat, a: int, b: int) {
    if i % 2 == 1 then 2 * b <= a + 1 else b < a
  }

  /** The widths of the brackets that were probed, in order. */
  ghost predicate Halving(widths: seq<int>) {
    forall k :: 0 <= k < |widths| ==>
      2 <= widths[k] && (k + 1 < |widths| ==> Shrinks(k, widths[k], widths[k + 1]))
  }

  /** After the brackets in `widths` were probed, a bracket of width `w` is left of one of width `n`. */
  ghost predicate Probed(widths: seq<int>, w: int, n: int) {
    && Halving(widths)
    && (if widths == [] then w == n else w > 0 && widths[0] == n && Shrinks(|widths| - 1, widths[|widths| - 1], w))
  }

  lemma ProbedStep(widths: seq<int>, w: int, n: int, w2: int)
    requires Probed(widths, w, n) && 2 <= w && 0 < w2 && Shrinks(|widths|, w, w2)
    ensures Probed(widths + [w], w2, n)
  {}

  /** `n` probes need a first bracket of at least `2^((n+1)/2)`: twice the logarithm bounds them. */
  lemma {:induction false} ProbeBound(widths: seq<int>)
    requires Halving(widths) && widths != []
    ensures Pow2((|widths| + 1) / 2) <= widths[0]
  {
    if |widths| > 2 {
      var rest := widths[2..];
      forall k | 0 <= k < |rest|
        ensures 2 <= rest[k] && (k + 1 < |rest| ==> Shrinks(k, rest[k], rest[k + 1]))
      {
        assert rest[k] == widths[k + 2] && (k + 1 < |rest| ==> rest[k + 1] == widths[k + 3]);
        assert (k + 2) % 2 == k % 2;
      }
      ProbeBound(rest);
      assert (|widths| + 1) / 2 == (|rest| + 1) / 2 + 1;
      assert Shrinks(0, widths[0], widths[1]) && Shrinks(1, widths[1], widths[2]);
    } else {
      assert Pow2(1) == 2;
    }
  }

  /** Cells `at + 1 .. n` take the values of the cells before them. */
  function Shifted(r: seq<Stamp>, at: nat, n: nat): (q: seq<Stamp>)
    requires at < n <= |r|
    ensures |q| == |r|
  {
    r[..at + 1] + r[at..n - 1] + r[n..]
  }

  lemma ShiftStep(r: seq<Stamp>, i: nat, n: nat)
    requires 0 < i < n <= |r|
    ensures Shifted(r, i, n)[i := Shifted(r, i, n)[i - 1]] == Shifted(r, i - 1, n)
  {
  }

  /** The contents `c` are the kept stamps of a plan around the cell at `at`. */
  ghost predicate HasHole(c: seq<Stamp>, at: nat, t: seq<Stamp>, p: Plan) {
    && Fits(p, |t|) && at == p.mid - p.lo && at < |c|
    && c[..at] == t[p.lo..p.mid] && c[at + 1..] == t[p.hi..]
  }

  /** Filling the hole gives the planned contents. */
  lemma HoleFilled(c: seq<Stamp>, at: nat, t: seq<Stamp>, p: Plan, v: Stamp)
    requires HasHole(c, at, t, p)
    ensures c[at := v] == Placed(t, p, v)
  {}

  /** Whatever stamp with this key is put at `at`, it completes the save. */
  ghost predicate Opened(c: seq<Stamp>, at: nat, s: seq<Stamp>, cap: nat, key: U64)
    requires |s| <= cap && 0 < cap
  {
    at < |c| && forall v: Stamp {:trigger Saved(s, cap, v)} | v.rx == key :: c[at := v] == Saved(s, cap, v)
  }

  lemma SaveOpened(c: seq<Stamp>, at: nat, s: seq<Stamp>, cap: nat, key: U64)
    requires |s| <= cap && 0 < cap && HasHole(c, at, Trimmed(s, key), SavePlan(|Trimmed(s, key)|, Scan(s, key), cap))
    ensures Opened(c, at, s, cap, key)
  {
    forall v: Stamp | v.rx == key ensures c[at := v] == Saved(s, cap, v) {
      HoleFilled(c, at, Trimmed(s, key), SavePlan(|Trimmed(s, key)|, Scan(s, key), cap), v);
    }
  }

  lemma PushOpened(c: seq<Stamp>, at: nat, s: seq<Stamp>, t: seq<Stamp>, cap: nat, key: U64)
    requires |s| <= cap && 0 < cap && t == Trimmed(s, key) && Scan(s, key) + INSERT_LIMIT >= |t|
    requires HasHole(c, at, t, PushPlan(|t|, Scan(s, key), cap))
    ensures Opened(c, at, s, cap, key)
  {
    SaveOpened(c, at, s, cap, key);
  }

  lemma OverwriteOpened(at: nat, s: seq<Stamp>, t: seq<Stamp>, cap: nat, key: U64)
    requires |s| <= cap && 0 < cap && t == Trimmed(s, key) && Scan(s, key) + INSERT_LIMIT < |t| && at == Max(Scan(s, key) - 1, 0)
    ensures Opened(t, at, s, cap, key)
  {
    SaveOpened(t, at, s, cap, key);
  }

  /** Pushing and shifting leaves the hole of the push plan. */
  lemma ShiftOpens(s: seq<Stamp>, index: nat, cap: nat, r: seq<Stamp>, at: nat, n: nat)
    requires index <= |s| <= cap && 0 < cap && at < n <= |r| == cap
    requires if |s| < cap then n == |s| + 1 && at == index && r[..|s|] == s
             else n == cap && at == Max(index - 1, 0) && r == s[1..] + s[..1]
    ensures HasHole(Shifted(r, at, n)[..n], at, s, PushPlan(|s|, index, cap))
  {}

  /** The buffer after a push, in terms of the stamps alone. */
  lemma Turned(ring: seq<Stamp>, s: seq<Stamp>, cap: nat, after: seq<Stamp>)
    requires |s| <= |ring| == cap && 0 < cap && s == ring[..|s|]
    requires after == if |s| < cap then ring else ring[1..] + ring[..1]
    ensures |after| == cap && if |s| < cap then after[..|s|] == s else after == s[1..] + s[..1]
  {
    if |s| == cap { assert s == ring; }
  }

  /**
    What a lookup answers after a save: nothing if the key was stored already, which tells two
    packets apart no more; otherwise the saved time if it was given and in the window.
   */
  ghost predicate AnsweredAfter(s: seq<Stamp>, key: U64, rx: Timespec, tx: Option<Timespec>, source: TimestampSource,
                                answer: Option<(Timespec, TimestampSource)>) {
    if HasKey(s, key) then answer == None
    else
      && answer.Some?
      && if tx.Some? && InWindow(tx.value, rx) then answer.value == (Normalise(tx.value), source) else answer.value.0 == Timespec(0, 0)
  }

  /** Whatever a save does, it adds no other key, and makes no other live. */
  lemma SavedOneKey(s: seq<Stamp>, cap: nat, e: Stamp, r: seq<Stamp>)
    requires Ordered(s) && |s| <= cap && (r == s || r == Disabled(s, e.rx) || (0 < cap && r == Saved(s, cap, e)))
    ensures Keys(r) <= Keys(s) + {e.rx} && LiveKeys(r) <= LiveKeys(s) + {e.rx}
  {
    AmendedKeys(s, e.rx, (v: Stamp) => v.(disabled := true));
    DisabledDies(s, e.rx);
    if 0 < cap {
      SavedKeysOnly(s, cap, e);
      SavedLives(s, cap, e);
    }
  }

  lemma SaveAnswers(s: seq<Stamp>, cap: nat, key: U64, epoch: U16, rx: Timespec, tx: Option<Timespec>, source: TimestampSource)
    requires Ordered(s) && |s| <= cap && 0 < cap && key != 0
    ensures Located(s, key).Hit? ==> AnsweredAfter(s, key, rx, tx, source, Fetched(Disabled(s, key), key, rx))
    ensures !Located(s, key).Hit? ==>
              forall stale: Stamp {:trigger Stored(stale, key, epoch, rx, tx, source)} ::
                AnsweredAfter(s, key, rx, tx, source, Fetched(Saved(s, cap, Stored(stale, key, epoch, rx, tx, source)), key, rx))
  {
    ScanFindsKey(s, key);
    DisabledIsGone(s, key, key, rx);
    if !Located(s, key).Hit? {
      forall stale: Stamp
        ensures AnsweredAfter(s, key, rx, tx, source, Fetched(Saved(s, cap, Stored(stale, key, epoch, rx, tx, source)), key, rx))
      {
        FreshAnswers(s, cap, stale, key, epoch, rx, tx, source);
      }
    }
  }

  lemma FreshAnswers(s: seq<Stamp>, cap: nat, stale: Stamp, key: U64, epoch: U16, rx: Timespec, tx: Option<Timespec>, source: TimestampSource)
    requires Ordered(s) && |s| <= cap && 0 < cap && key != 0 && !HasKey(s, key)
    ensures AnsweredAfter(s, key, rx, tx, source, Fetched(Saved(s, cap, Stored(stale, key, epoch, rx, tx, source)), key, rx))
  {
    if tx.Some? {
      SavedIsRetrievable(s, cap, stale, key, epoch, rx, tx.value, source);
    } else {
      var e := Stored(stale, key, epoch, rx, tx, source);
      SaveKeepsOrder(s, cap, e);
      ScanFindsKey(Saved(s, cap, e), key);
    }
  }

  /** The one-entry cache answers for `key`. */
  predicate Cached(cachedRx: U64, key: U64) { cachedRx == key && key != 0 }

  class NtpTimestampMap {
    const active: bool
    const maxSize: nat
    const toTimespec: U64 -> Timespec
    var timestamps: array?<Stamp>
    var first: nat
    var size: nat
    var cachedIndex: nat
    var cachedRx: U64
    var slewEpoch: U16
    var slewOffset: real
    /** `total_ntp_interleaved_hits`. */
    var interleavedHits: nat

    ghost predicate Shaped()
      reads this`timestamps, this`first, this`size, timestamps
    {
      && size <= maxSize <= MAX_STAMPS
      && (maxSize > 0 ==> first < maxSize)
      && (if timestamps == null then size == 0 else timestamps.Length == maxSize && maxSize > 0)
      && (active ==> maxSize > 0)
    }

    /** All cells of the buffer in logical order. */
    ghost function Ring(): (r: seq<Stamp>)
      requires Shaped() && timestamps != null
      reads this`timestamps, this`first, this`size, timestamps
      ensures |r| == maxSize
    {
      timestamps[first..] + timestamps[..first]
    }

    /** The stored stamps, oldest first. */
    ghost function Contents(): (s: seq<Stamp>)
      requires Shaped()
      reads this`timestamps, this`first, this`size, timestamps
      ensures |s| == size
    {
      if timestamps == null then [] else Ring()[..size]
    }

    ghost predicate Valid()
      reads this, timestamps
    {
      && Shaped()
      && Ordered(Contents())
      && (cachedRx != 0 ==> cachedIndex < size && Contents()[cachedIndex].rx == cachedRx)
    }

    constructor (active: bool, maxSize: nat, toTimespec: U64 -> Timespec)
      requires maxSize <= MAX_STAMPS && (active ==> maxSize > 0)
      ensures Valid() && Contents() == [] && timestamps == null
      ensures this.active == active && this.maxSize == maxSize && this.toTimespec == toTimespec && cachedRx == 0
    {
      this.active, this.maxSize, this.toTimespec := active, maxSize, toTimespec;
      timestamps := null;
      first, size, cachedIndex, cachedRx, slewEpoch, slewOffset, interleavedHits := 0, 0, 0, 0, 0, 0.0, 0;
    }

    /** The stamp at logical index `k`. */
    function CellAt(k: nat): (v: Stamp)
      requires Shaped() && k < size
      reads this`timestamps, this`first, this`size, timestamps
      ensures v == Contents()[k]
    {
      timestamps[RingSlot(first, k, maxSize)]
    }

    /**
      The uncached part of `find_ntp_rx_ts`.  It agrees with the linear scan, or fails on a
      checked subtraction exactly in the `EraTrap`; `widths` lists the brackets it probed.
     */
    method Search(key: U64) returns (r: Lookup, ghost widths: seq<int>)
      requires Valid()
      ensures r == Answer(Contents(), key)
      ensures Halving(widths) && (widths != [] ==> widths[0] == size - 1)
    {
      ghost var s := Contents();
      widths := [];
      if size == 0 {
        return Miss(0), widths;
      }
      var rxLo, rxHi := CellAt(0).rx, CellAt(size - 1).rx;
      WholeBracket(s, key);
      if Signed64(WrapSub64(key, rxLo)) < 0 {
        return Miss(0), widths;
      } else if Signed64(WrapSub64(key, rxHi)) > 0 {
        return Miss(size), widths;
      }

      r, widths := SearchBetween(key, rxLo, rxHi);
    }

    /** One probe of the search: move the end that the probed stamp rules out. */
    method Narrow(key: U64, lo: nat, hi: nat, rxLo: U64, rxHi: U64, i: nat, ghost s: seq<Stamp>)
      returns (lo': nat, hi': nat, rxLo': U64, rxHi': U64)
      requires Shaped() && s == Contents() && Ordered(s)
      requires lo + 2 <= hi && Bracket(s, key, lo, hi) && rxLo == s[lo].rx && rxHi == s[hi].rx
      requires hi - lo > 3 && i % 2 == 0 ==> rxLo < key < rxHi && rxHi - rxLo >= hi - lo
      ensures lo' < hi' && Bracket(s, key, lo', hi') && rxLo' == s[lo'].rx && rxHi' == s[hi'].rx
      ensures hi' - lo' < hi - lo && Shrinks(i, hi - lo, hi' - lo')
    {
      var x := Probe(key, lo, hi, rxLo, rxHi, i);
      var rxX := CellAt(x).rx;
      NarrowBracket(s, key, lo, hi, x);
      if Signed64(WrapSub64(rxX, key)) <= 0 {
        return x, hi, rxX, rxHi;
      } else {
        return lo, x, rxLo, rxX;
      }
    }

    /** The search loop, for a key on or between the two ends. */
    method SearchBetween(key: U64, firstRx: U64, lastRx: U64) returns (r: Lookup, ghost widths: seq<int>)
      requires Shaped() && Ordered(Contents()) && size > 0 && Bracket(Contents(), key, 0, size - 1)
      requires firstRx == Contents()[0].rx && lastRx == Contents()[size - 1].rx
      ensures r == Answer(Contents(), key)
      ensures Halving(widths) && (widths != [] ==> widths[0] == size - 1)
    {
      ghost var s := Contents();
      var lo: nat, hi: nat := 0, size - 1;
      var rxLo, rxHi := firstRx, lastRx;
      var i: nat := 0;
      widths := [];
      while true
        invariant Bracket(s, key, lo, hi) && rxLo == s[lo].rx && rxHi == s[hi].rx
        invariant if i == 0 then lo == 0 && hi == |s| - 1 else !EraTrap(s, key)
        invariant |widths| == i && Probed(widths, hi - lo, |s| - 1) && Shaped() && s == Contents()
        decreases hi - lo
      {
        if key == rxHi {
          KeyFound(s, key, hi);
          return Hit(hi), widths;
        } else if key == rxLo {
          KeyFound(s, key, lo);
          return Hit(lo), widths;
        } else if lo + 1 == hi {
          GapMisses(s, key, lo);
          return Miss(hi), widths;
        }
        WideBracket(s, key, lo, hi);
        if hi - lo > 3 && i % 2 == 0 && rxHi < rxLo {
          return Overflow, widths;
        }
        ghost var width := hi - lo;
        lo, hi, rxLo, rxHi := Narrow(key, lo, hi, rxLo, rxHi, i, s);
        ProbedStep(widths, width, |s| - 1, hi - lo);
        widths := widths + [width];
        i := i + 1;
      }
    }

    /** `find_ntp_rx_ts`: the cache, then the search, which refreshes the cache on a hit. */
    method Find(key: U64) returns (r: Lookup)
      requires Valid()
      modifies this`cachedIndex, this`cachedRx
      ensures Valid()
      ensures r == if Cached(old(cachedRx), key) then Located(Contents(), key) else Answer(Contents(), key)
      ensures !r.Hit? ==> cachedIndex == old(cachedIndex) && cachedRx == old(cachedRx)
      ensures r.Hit? ==> cachedRx == key && cachedIndex == r.index
    {
      ScanFindsKey(Contents(), key);
      if cachedRx == key && key != 0 {
        return Hit(cachedIndex);
      }
      ghost var widths;
      r, widths := Search(key);
      if r.Hit? {
        cachedIndex, cachedRx := r.index, key;
      }
    }

    /** Write one logical cell. */
    method StoreAt(k: nat, v: Stamp)
      requires Shaped() && timestamps != null && k < maxSize
      modifies timestamps
      ensures Shaped() && Ring() == old(Ring())[k := v]
    {
      timestamps[RingSlot(first, k, maxSize)] := v;
    }

    /** `push_ntp_tss`: grow the buffer, or drop the oldest stamp when it is full. */
    method Push(index: nat) returns (at: nat)
      requires Shaped() && timestamps != null && index <= size
      modifies this`size, this`first
      ensures Shaped() && at < size
      ensures if old(size) < maxSize
              then size == old(size) + 1 && at == index && Ring() == old(Ring())
              else size == maxSize && at == Max(index - 1, 0) && Ring() == old(Ring())[1..] + old(Ring())[..1]
    {
      if size < maxSize {
        size := size + 1;
        at := index;
      } else {
        RingSlotIsModulo(first, if maxSize == 1 then 0 else 1, maxSize);
        first := if first + 1 == maxSize then 0 else first + 1;
        at := if index == 0 then 0 else index - 1;
      }
    }

    /** Shift the stamps from `at` on by one cell, newest first. */
    method ShiftUp(at: nat)
      requires Shaped() && timestamps != null && at < size
      modifies timestamps
      ensures Shaped() && Ring() == Shifted(old(Ring()), at, size)
    {
      ghost var r := Ring();
      assert r == Shifted(r, size - 1, size);
      var i := size - 1;
      while i > at
        invariant at <= i < size && Shaped()
        invariant Ring() == Shifted(r, i, size)
      {
        ShiftOne(i, r);
        i := i - 1;
      }
    }

    method ShiftOne(i: nat, ghost r: seq<Stamp>)
      requires Shaped() && timestamps != null && 0 < i < size && |r| == maxSize && Ring() == Shifted(r, i, size)
      modifies timestamps
      ensures Shaped() && Ring() == Shifted(r, i - 1, size)
    {
      ShiftStep(r, i, size);
      var below := CellAt(i - 1);
      assert below == Ring()[i - 1];
      StoreAt(i, below);
    }

    /** Open a cell for a new stamp before `index`, under the push policy. */
    method MakeRoom(index: nat) returns (at: nat)
      requires Shaped() && timestamps != null && index <= size
      modifies this`size, this`first, timestamps
      ensures Shaped() && HasHole(Contents(), at, old(Contents()), PushPlan(old(size), index, maxSize))
    {
      ghost var s, before := Contents(), Ring();
      at := Push(index);
      ghost var r := Ring();
      Turned(before, s, maxSize, r);
      ShiftUp(at);
      ShiftOpens(s, index, maxSize, r, at, size);
    }

    /** Drop stamps in the distant future of `key`, after a backward step of the clock. */
    method Trim(index: nat, key: U64)
      requires Shaped() && timestamps != null && index <= size
      modifies this`size
      ensures Shaped() && index <= size
      ensures Contents() == old(Contents())[..KeptCount(old(Contents()), old(size), index, key)]
    {
      ghost var s := Contents();
      while index < size
        invariant Shaped() && index <= size <= |s| && Contents() == s[..size]
        invariant KeptCount(s, size, index, key) == KeptCount(s, |s|, index, key)
      {
        var last := CellAt(size - 1).rx;
        assert last == s[size - 1].rx;
        if !(WrapSub64(last, key) > FUTURE_LIMIT) {
          break;
        }
        size := size - 1;
      }
    }

    /** The three insertion policies of `save_ntp_timestamps`, for a key that belongs at `index`. */
    method Open(index: nat, key: U64) returns (at: nat)
      requires Shaped() && timestamps != null && index == Scan(Contents(), key)
      modifies this`size, this`first, timestamps
      ensures Shaped() && Opened(Contents(), at, old(Contents()), maxSize, key)
    {
      ghost var s := Contents();
      if index == size {
        assert Trimmed(s, key) == s;
        at := MakeRoom(index);
        PushOpened(Contents(), at, s, s, maxSize, key);
      } else {
        Trim(index, key);
        ghost var t := Contents();
        if index + INSERT_LIMIT >= size {
          at := MakeRoom(index);
          PushOpened(Contents(), at, s, t, maxSize, key);
        } else {
          at := if index == 0 then 0 else index - 1;
          OverwriteOpened(at, s, t, maxSize, key);
        }
      }
    }

    /** The part of a save after its search has missed. */
    method SaveFresh(index: nat, key: U64, tx: Option<Timespec>, source: TimestampSource) returns (ghost stale: Stamp)
      requires Valid() && timestamps != null && key != 0
      requires Located(Contents(), key) == Miss(index)
      modifies this`size, this`first, this`cachedIndex, this`cachedRx, timestamps
      ensures Valid() && cachedRx == key
      ensures Contents() ==
              Saved(old(Contents()), maxSize, Stored(stale, key, slewEpoch, toTimespec(key), tx, source))
    {
      ghost var s := Contents();
      ScanFindsKey(s, key);
      var at := Open(index, key);
      var cell := CellAt(at);
      stale := cell;
      var v := Stored(cell, key, slewEpoch, toTimespec(key), tx, source);
      SaveKeepsOrder(s, maxSize, v);
      Complete(at, v, Saved(s, maxSize, v));
    }

    /** The last step of a save: the stamp goes into its cell, and the cache points there. */
    method Complete(at: nat, v: Stamp, ghost goal: seq<Stamp>)
      requires Shaped() && at < size && Contents()[at := v] == goal && Ordered(goal)
      modifies this`cachedIndex, this`cachedRx, timestamps
      ensures Valid() && Contents() == goal && cachedRx == v.rx
    {
      PutAt(at, v);
      cachedIndex, cachedRx := at, v.rx;
    }

    /** Overwrite a stored stamp. */
    method PutAt(k: nat, v: Stamp)
      requires Shaped() && k < size
      modifies timestamps
      ensures Shaped() && Contents() == old(Contents())[k := v]
    {
      StoreAt(k, v);
    }

    /** Replace the stamp at `k` by one with the same key. */
    method Rewrite(k: nat, v: Stamp)
      requires Valid() && k < size && v.rx == Contents()[k].rx
      modifies timestamps
      ensures Valid() && Contents() == old(Contents())[k := v]
    {
      ghost var s := Contents();
      PutAt(k, v);
      SameKeysSameOrder(s, Contents());
    }

    /** A save into an allocated buffer. */
    method SaveKey(key: U64, tx: Option<Timespec>, source: TimestampSource) returns (trapped: bool, ghost stale: Stamp)
      requires Valid() && timestamps != null && key != 0
      modifies this`size, this`first, this`cachedIndex, this`cachedRx, timestamps
      ensures Valid()
      ensures trapped <==> !Cached(old(cachedRx), key) && EraTrap(old(Contents()), key)
      ensures Contents() ==
              if trapped then old(Contents())
              else if Located(old(Contents()), key).Hit? then Disabled(old(Contents()), key)
              else Saved(old(Contents()), maxSize, Stored(stale, key, slewEpoch, toTimespec(key), tx, source))
      ensures !trapped ==> cachedRx == key
    {
      stale := Stamp(0, false, false, Daemon, 0, 0);
      var found := Find(key);
      trapped := found.Overflow?;
      if found.Hit? {
        Rewrite(found.index, CellAt(found.index).(disabled := true));
      } else if found.Miss? {
        stale := SaveFresh(found.index, key, tx, source);
      }
    }

    /** `CLG_SaveNtpTimestamps`; `trapped` is the checked-arithmetic panic. */
    method Save(key: U64, tx: Option<Timespec>, source: TimestampSource) returns (trapped: bool, ghost stale: Stamp)
      requires Valid()
      modifies this`timestamps, this`size, this`first, this`cachedIndex, this`cachedRx, timestamps
      ensures Valid()
      ensures trapped <==> active && key != 0 && !Cached(old(cachedRx), key) && EraTrap(old(Contents()), key)
      ensures Contents() ==
              if !active || key == 0 || trapped then old(Contents())
              else if Located(old(Contents()), key).Hit? then Disabled(old(Contents()), key)
              else Saved(old(Contents()), maxSize, Stored(stale, key, slewEpoch, toTimespec(key), tx, source))
      ensures active && key != 0 && !trapped ==> cachedRx == key
      ensures active && key != 0 && !trapped ==>
                AnsweredAfter(old(Contents()), key, toTimespec(key), tx, source, Fetched(Contents(), key, toTimespec(key)))
      ensures timestamps == old(timestamps) || fresh(timestamps)
    {
      trapped, stale := false, Stamp(0, false, false, Daemon, 0, 0);
      if !active {
        return;
      }
      if timestamps == null {
        timestamps := new Stamp[maxSize](_ => Stamp(0, false, false, Daemon, 0, 0));
      }
      if key == 0 {
        return;
      }
      SaveAnswers(Contents(), maxSize, key, slewEpoch, toTimespec(key), tx, source);
      trapped, stale := SaveKey(key, tx, source);
    }

    /** Look a key up and, when it is stored, replace its stamp. */
    method Amend(key: U64, amend: Stamp -> Stamp) returns (trapped: bool)
      requires Valid()
      requires forall v: Stamp :: amend(v).rx == v.rx
      modifies this`cachedIndex, this`cachedRx, timestamps
      ensures Valid()
      ensures trapped <==> !Cached(old(cachedRx), key) && EraTrap(old(Contents()), key)
      ensures Contents() == if trapped then old(Contents()) else Amended(old(Contents()), key, amend)
    {
      trapped := false;
      if timestamps == null {
        return;
      }
      var found := Find(key);
      trapped := found.Overflow?;
      if found.Hit? {
        Rewrite(found.index, amend(CellAt(found.index)));
      }
    }

    /** `CLG_UpdateNtpTxTimestamp`. */
    method UpdateTx(key: U64, tx: Option<Timespec>, source: TimestampSource) returns (trapped: bool)
      requires Valid()
      modifies this`cachedIndex, this`cachedRx, timestamps
      ensures Valid()
      ensures trapped <==> !Cached(old(cachedRx), key) && EraTrap(old(Contents()), key)
      ensures Contents() ==
              if trapped then old(Contents()) else Updated(old(Contents()), key, toTimespec(key), tx, source)
    {
      var rx := toTimespec(key);
      trapped := Amend(key, (v: Stamp) => WithTx(v, rx, tx, source));
    }

    /** `CLG_DisableNtpTimestamps`: the call counts as an interleaved hit, whether or not the key is stored. */
    method Disable(key: U64) returns (trapped: bool)
      requires Valid()
      modifies this`cachedIndex, this`cachedRx, this`interleavedHits, timestamps
      ensures Valid()
      ensures trapped <==> !Cached(old(cachedRx), key) && EraTrap(old(Contents()), key)
      ensures Contents() == if trapped then old(Contents()) else Disabled(old(Contents()), key)
      ensures !trapped ==> LiveKeys(Contents()) == LiveKeys(old(Contents())) - {key} && Fetched(Contents(), key, toTimespec(key)) == None
      ensures interleavedHits == old(interleavedHits) + if trapped then 0 else 1
    {
      DisabledDies(Contents(), key);
      DisabledIsGone(Contents(), key, key, toTimespec(key));
      trapped := Amend(key, (v: Stamp) => v.(disabled := true));
      if !trapped {
        interleavedHits := interleavedHits + 1;
      }
    }

    /** `CLG_GetNtpTxTimestamp`. */
    method GetTx(key: U64) returns (trapped: bool, tx: Option<(Timespec, TimestampSource)>)
      requires Valid()
      modifies this`cachedIndex, this`cachedRx
      ensures Valid() && Contents() == old(Contents())
      ensures trapped <==> !Cached(old(cachedRx), key) && EraTrap(Contents(), key)
      ensures !trapped ==> tx == Fetched(Contents(), key, toTimespec(key))
    {
      trapped, tx := false, None;
      if timestamps == null {
        return;
      }
      var found := Find(key);
      trapped := found.Overflow?;
      if found.Hit? {
        var cell := CellAt(found.index);
        if !cell.disabled {
          tx := Some((StoredTx(cell, toTimespec(cell.rx)), cell.source));
        }
      }
    }

    /** `handle_slew`: an unknown step empties the map. */
    method HandleSlew(doffset: real, unknownStep: bool)
      requires Valid()
      modifies this`size, this`cachedRx, this`slewEpoch, this`slewOffset
      ensures Valid()
      ensures Contents() == if unknownStep then [] else old(Contents())
      ensures slewEpoch == (old(slewEpoch) + 1) % TWO16 && slewOffset == doffset
    {
      if unknownStep {
        size, cachedRx := 0, 0;
        assert Contents() == [];
      }
      slewEpoch := (slewEpoch + 1) % TWO16;
      slewOffset := doffset;
    }

    method ApplySave(key: U64, tx: Option<Timespec>, source: TimestampSource)
      requires Valid()
      modifies this, timestamps
      ensures Valid() && (timestamps == old(timestamps) || fresh(timestamps))
      ensures Keys(Contents()) <= Keys(old(Contents())) + {key} && LiveKeys(Contents()) <= LiveKeys(old(Contents())) + {key}
    {
      ghost var s := Contents();
      var _, stale := Save(key, tx, source);
      SavedOneKey(s, maxSize, Stored(stale, key, slewEpoch, toTimespec(key), tx, source), Contents());
    }

    /** One call; it can only add the key it saves, and only that can make a key live. */
    method Apply(call: Call)
      requires Valid()
      modifies this, timestamps
      ensures Valid() && (timestamps == old(timestamps) || fresh(timestamps))
      ensures Keys(Contents()) <= Keys(old(Contents())) + SavedKeys([call])
      ensures LiveKeys(Contents()) <= LiveKeys(old(Contents())) + SavedKeys([call])
    {
      ghost var s := Contents();
      match call {
        case SaveCall(key, tx, source) =>
          ApplySave(key, tx, source);
          assert call == [call][0];
        case UpdateCall(key, tx, source) =>
          var _ := UpdateTx(key, tx, source);
          var rx := toTimespec(key);
          AmendedKeys(s, key, (v: Stamp) => WithTx(v, rx, tx, source));
          AmendedLives(s, key, (v: Stamp) => WithTx(v, rx, tx, source));
        case DisableCall(key) =>
          var _ := Disable(key);
          AmendedKeys(s, key, (v: Stamp) => v.(disabled := true));
        case GetCall(key) => var _, _ := GetTx(key);
        case SlewCall(doffset, unknownStep) => HandleSlew(doffset, unknownStep);
      }
    }

    /**
      Any run of calls, in any order and with any arguments.  A key that is not answered, be it
      disabled, lost or never seen, is not answered before it is saved again.
     */
    method Replay(calls: seq<Call>)
      requires Valid()
      modifies this, timestamps
      ensures Valid()
      ensures Keys(Contents()) <= Keys(old(Contents())) + SavedKeys(calls)
      ensures LiveKeys(Contents()) <= LiveKeys(old(Contents())) + SavedKeys(calls)
    {
      for i := 0 to |calls|
        invariant Valid() && (timestamps == old(timestamps) || fresh(timestamps))
        invariant Keys(Contents()) <= Keys(old(Contents())) + SavedKeys(calls)
        invariant LiveKeys(Contents()) <= LiveKeys(old(Contents())) + SavedKeys(calls)
      {
        Apply(calls[i]);
        assert SavedKeys([calls[i]]) <= SavedKeys(calls);
      }
    }
  }

  datatype Call =
    | SaveCall(key: U64, tx: Option<Timespec>, source: TimestampSource)
    | UpdateCall(key: U64, tx: Option<Timespec>, source: TimestampSource)
    | DisableCall(key: U64)
    | GetCall(key: U64)
    | SlewCall(doffset: real, unknownStep: bool)

  ghost function SavedKeys(calls: seq<Call>): set<U64> {
    set i | 0 <= i < |calls| && calls[i].SaveCall? :: calls[i].key
  }

  /** Save a key newer than all the others; nothing is lost. */
  method SaveNewest(m: NtpTimestampMap, key: U64) returns (trapped: bool)
    requires m.Valid() && m.active && m.size < m.maxSize && key != 0
    requires m.size > 0 ==> Ahead(m.Contents()[m.size - 1].rx, m.Contents()[0].rx) < Ahead(key, m.Contents()[0].rx) < TWO63
    modifies m, m.timestamps
    ensures m.Valid() && !trapped && m.cachedRx == key && (m.timestamps == old(m.timestamps) || fresh(m.timestamps))
    ensures m.size == old(m.size) + 1 && m.Contents()[..old(m.size)] == old(m.Contents()) && m.Contents()[old(m.size)].rx == key
  {
    ghost var s := m.Contents();
    ghost var stale;
    NewestIsNew(s, key);
    trapped, stale := m.Save(key, None, Daemon);
    SavedAppends(s, m.maxSize, Stored(stale, key, m.slewEpoch, m.toTimespec(key), None, Daemon));
  }

  /** Save keys that move away from the first one, in that order, into an empty map. */
  method SaveAll(m: NtpTimestampMap, keys: seq<U64>) returns (trapped: bool)
    requires m.Valid() && m.active && m.size == 0 && |keys| <= m.maxSize && MovesAway(keys)
    modifies m, m.timestamps
    ensures m.Valid() && !trapped && HasKeys(m.Contents(), keys) && (keys != [] ==> m.cachedRx == keys[|keys| - 1])
  {
    trapped := false;
    for i := 0 to |keys|
      invariant m.Valid() && !trapped && (m.timestamps == old(m.timestamps) || fresh(m.timestamps))
      invariant m.size == i && HasKeys(m.Contents(), keys[..i]) && (i > 0 ==> m.cachedRx == keys[i - 1])
    {
      assert MoveOk(keys, i);
      ghost var s := m.Contents();
      trapped := SaveNewest(m, keys[i]);
      HasOneMore(s, keys, i, m.Contents());
    }
    assert keys[..|keys|] == keys;
  }

  /** The era trap is reached by saving five receive times around the end of an era and asking for the third. */
  method EraTrapReached(toTimespec: U64 -> Timespec) returns (m: NtpTimestampMap, saved: bool, trapped: bool)
    ensures m.Valid() && saved && trapped && Located(m.Contents(), 1) == Hit(2)
  {
    m := new NtpTimestampMap(true, 16, toTimespec);
    var failed := SaveAll(m, ACROSS_ERA);
    saved := !failed;
    EraTrapHappens(m.Contents());
    var tx;
    trapped, tx := m.GetTx(1);
  }
}
