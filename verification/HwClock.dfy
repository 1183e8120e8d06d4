/**
  The model of a hardware clock against the local clock, over the reals: accumulating samples,
  cooking hardware times, and following the slews of the local clock.
 */
module HwClocks {
  import opened Common
  import opened LocalClocks

  const MIN_SAMPLES: nat := 2
  const MAX_SAMPLES: nat := 64
  const MAX_FREQ_OFFSET: real := 2.0 / 3.0

  datatype AnySlew = Slew(cooked: real, dfreq: real, doffset: real)

  /** One slew of the local clock: at `cooked`, by a relative frequency and an offset. */
  type Slew = s: AnySlew | s.dfreq != 1.0 witness Slew(0.0, 0.0, 0.0)

  /** What a slew does to a local time. */
  function Slewed(t: real, s: Slew): real { t + ((s.cooked - t) * s.dfreq - s.doffset) }

  /** A slew sets the clock back by the offset where it happens, and changes its rate everywhere. */
  lemma SlewedMeans(t: real, u: real, s: Slew)
    ensures Slewed(s.cooked, s) == s.cooked - s.doffset
    ensures Slewed(u, s) - Slewed(t, s) == (u - t) * (1.0 - s.dfreq)
  {}

  function Dfreqs(ss: seq<Slew>): seq<real> {
    if ss == [] then [] else Dfreqs(ss[..|ss| - 1]) + [ss[|ss| - 1].dfreq]
  }

  /** The fitted line: local time as a function of hardware time. */
  datatype Line = Line(hwRef: real, localRef: real, frequency: real, offset: real)

  function Cook(l: Line, raw: real): real
    requires l.frequency != 0.0
  {
    l.localRef + ((raw - l.hwRef) / l.frequency - l.offset)
  }

  /** What `handle_slew` makes of the line. */
  function Rebased(l: Line, s: Slew): Line {
    l.(localRef := Slewed(l.localRef, s), frequency := Rescaled(l.frequency, s))
  }

  function Rescaled(frequency: real, s: Slew): real { frequency / (1.0 - s.dfreq) }

  lemma RescaledNonZero(frequency: real, s: Slew)
    requires frequency != 0.0
    ensures Rescaled(frequency, s) != 0.0
  {}

  lemma DivideTwice(e: real, f: real, k: real)
    requires f != 0.0 && k != 0.0
    ensures f / k != 0.0 && e / (f / k) == (e / f) * k
  {}

  /** Slewing the model and slewing the cooked time differ by exactly the offset times the frequency change. */
  lemma SlewCommutes(l: Line, s: Slew, raw: real)
    requires l.frequency != 0.0
    ensures Rebased(l, s).frequency != 0.0
    ensures Cook(Rebased(l, s), raw) == Slewed(Cook(l, raw), s) - l.offset * s.dfreq
  {
    DivideTwice(raw - l.hwRef, l.frequency, 1.0 - s.dfreq);
  }

  /** A model, a local time and the product of the frequency factors, all following the same slews. */
  datatype Track = Track(line: Line, time: real, factor: real)

  function Next(k: Track, s: Slew): Track { Track(Rebased(k.line, s), Slewed(k.time, s), k.factor * (1.0 - s.dfreq)) }

  function Follow<X>(next: (X, Slew) -> X, x: X, ss: seq<Slew>): X {
    if ss == [] then x else next(Follow(next, x, ss[..|ss| - 1]), ss[|ss| - 1])
  }

  lemma {:induction false} KeptAlong<X>(next: (X, Slew) -> X, inv: X -> bool, x: X, ss: seq<Slew>)
    requires inv(x) && forall y, s :: inv(y) ==> inv(next(y, s))
    ensures inv(Follow(next, x, ss))
  {
    if ss != [] { KeptAlong(next, inv, x, ss[..|ss| - 1]); }
  }

  /** The model and the time of a track follow the slews on their own. */
  lemma {:induction false} TrackParts(k: Track, ss: seq<Slew>)
    ensures Follow(Next, k, ss).line == Follow(Rebased, k.line, ss)
    ensures Follow(Next, k, ss).time == Follow(Slewed, k.time, ss)
  {
    if ss != [] { TrackParts(k, ss[..|ss| - 1]); }
  }

  /** The model cooks `raw` to the time, short of the offset times one minus the factor. */
  predicate OnTrack(k: Track, raw: real, offset: real) {
    k.line.frequency != 0.0 && k.line.offset == offset && Cook(k.line, raw) == k.time - offset * (1.0 - k.factor)
  }

  lemma StaysOnTrack(k: Track, s: Slew, raw: real, offset: real)
    requires OnTrack(k, raw, offset)
    ensures OnTrack(Next(k, s), raw, offset)
  {}

  /**
    Over any run of slews the slewed model stays exactly this far from the slewed time: the
    offset times one minus the product of all the frequency factors.
   */
  lemma SlewRun(l: Line, ss: seq<Slew>, raw: real)
    requires l.frequency != 0.0
    ensures OnTrack(Follow(Next, Track(l, Cook(l, raw), 1.0), ss), raw, l.offset)
    ensures Follow(Next, Track(l, Cook(l, raw), 1.0), ss).factor == Product(Dfreqs(ss))
  {
    var k := Track(l, Cook(l, raw), 1.0);
    forall y, s | OnTrack(y, raw, l.offset) ensures OnTrack(Next(y, s), raw, l.offset) { StaysOnTrack(y, s, raw, l.offset); }
    KeptAlong(Next, y => OnTrack(y, raw, l.offset), k, ss);
    FactorIsProduct(k, ss);
  }

  lemma {:induction false} FactorIsProduct(k: Track, ss: seq<Slew>)
    requires k.factor == 1.0
    ensures Follow(Next, k, ss).factor == Product(Dfreqs(ss))
  {
    if ss != [] {
      var before, s := ss[..|ss| - 1], ss[|ss| - 1];
      FactorIsProduct(k, before);
      ProductStep(Dfreqs(before), s.dfreq);
    }
  }

  function Abs(x: real): real { if x < 0.0 then -x else x }

  /** The model cooks `raw` to exactly `offset * c` before the time, which is at most the bound. */
  predicate OffBy(k: Track, raw: real, offset: real, c: real, bound: real) {
    && k.line.frequency != 0.0
    && Cook(k.line, raw) == k.time - offset * c
    && Abs(Cook(k.line, raw) - k.time) <= bound
  }

  /**
    If the slews are those of a local clock whose frequency went from `start` to `end`, the
    distance is the offset times the relative frequency change, so at most the sample error
    times that change.
   */
  lemma SlewsOfLocalClock(l: Line, ss: seq<Slew>, raw: real, start: real, end: real, err: real)
    requires l.frequency != 0.0 && start != MEGA
    requires Product(Dfreqs(ss)) * (MEGA - start) == MEGA - end && Abs(l.offset) <= err
    ensures OffBy(Follow(Next, Track(l, Cook(l, raw), 1.0), ss), raw, l.offset, Change(start, end), err * Abs(Change(start, end)))
  {
    SlewRun(l, ss, raw);
    TrackBound(Follow(Next, Track(l, Cook(l, raw), 1.0), ss), Product(Dfreqs(ss)), raw, l.offset, start, end, err);
  }

  lemma TrackBound(k: Track, p: real, raw: real, offset: real, start: real, end: real, err: real)
    requires OnTrack(k, raw, offset) && k.factor == p && start != MEGA && p * (MEGA - start) == MEGA - end && Abs(offset) <= err
    ensures OffBy(k, raw, offset, Change(start, end), err * Abs(Change(start, end)))
  {
    FactorIs(p, start, end);
    OffByFactor(k, raw, offset, Change(start, end), err);
  }

  lemma OffByFactor(k: Track, raw: real, offset: real, c: real, err: real)
    requires OnTrack(k, raw, offset) && 1.0 - k.factor == c && Abs(offset) <= err
    ensures OffBy(k, raw, offset, c, err * Abs(c))
  {}

  lemma FactorIs(p: real, start: real, end: real)
    requires start != MEGA && p * (MEGA - start) == MEGA - end
    ensures 1.0 - p == Change(start, end)
  {
    ChangeScales(start, end);
    CancelFactor(1.0 - Change(start, end), p, MEGA - start);
  }

  /** The offset, times one minus a frequency factor. */
  function Lag(offset: real, factor: real): real { offset * (1.0 - factor) }

  /** A cooked time was carried through the slews, short of the offset times one minus the product of their factors. */
  predicate Carried(was: Option<(real, real)>, ss: seq<Slew>, offset: real, now: Option<(real, real)>) {
    was.Some? && now == Some((Follow(Slewed, was.value.0, ss) - Lag(offset, Product(Dfreqs(ss))), was.value.1))
  }

  /** A cooked time is this close to where the slews carried it. */
  predicate CarriedWithin(was: Option<(real, real)>, ss: seq<Slew>, now: Option<(real, real)>, bound: real) {
    was.Some? && now.Some? && Abs(now.value.0 - Follow(Slewed, was.value.0, ss)) <= bound
  }

  /** What a valid model makes of a hardware time, with its error. */
  function Cooked(l: Line, err: real, raw: real): Option<(real, real)>
    requires l.frequency != 0.0
  {
    Some((Cook(l, raw), err))
  }

  /** What `SlewRun` says of the model alone. */
  lemma LineCarried(l: Line, ss: seq<Slew>, after: Line, err: real, raw: real)
    requires l.frequency != 0.0 && after == Follow(Rebased, l, ss)
    ensures after.frequency != 0.0 && Carried(Cooked(l, err, raw), ss, l.offset, Cooked(after, err, raw))
  {
    var k := Track(l, Cook(l, raw), 1.0);
    SlewRun(l, ss, raw);
    TrackParts(k, ss);
    OffExactly(Follow(Next, k, ss), after, Follow(Slewed, k.time, ss), raw, l.offset, Product(Dfreqs(ss)));
  }

  lemma OffExactly(k: Track, after: Line, time: real, raw: real, offset: real, p: real)
    requires OnTrack(k, raw, offset) && k.line == after && k.time == time && k.factor == p
    ensures after.frequency != 0.0 && Cook(after, raw) == time - Lag(offset, p)
  {}

  /** The same for a known total frequency change. */
  lemma LineCarriedWithin(l: Line, ss: seq<Slew>, after: Line, err: real, c: real, raw: real)
    requires l.frequency != 0.0 && after == Follow(Rebased, l, ss) && Abs(l.offset) <= err && 1.0 - Product(Dfreqs(ss)) == c
    ensures after.frequency != 0.0 && CarriedWithin(Cooked(l, err, raw), ss, Cooked(after, err, raw), err * Abs(c))
  {
    var k := Track(l, Cook(l, raw), 1.0);
    SlewRun(l, ss, raw);
    TrackParts(k, ss);
    OffByFactor(Follow(Next, k, ss), raw, l.offset, c, err);
    OffAtMost(Follow(Next, k, ss), after, Follow(Slewed, k.time, ss), raw, l.offset, c, err * Abs(c));
  }

  lemma OffAtMost(k: Track, after: Line, time: real, raw: real, offset: real, c: real, bound: real)
    requires OffBy(k, raw, offset, c, bound) && k.line == after && k.time == time
    ensures after.frequency != 0.0 && Abs(Cook(after, raw) - time) <= bound
  {}

  lemma AllCarriedWithin(l: Line, ss: seq<Slew>, after: Line, err: real, c: real, bound: real)
    requires l.frequency != 0.0 && after == Follow(Rebased, l, ss) && Abs(l.offset) <= err && 1.0 - Product(Dfreqs(ss)) == c
    requires bound == err * Abs(c)
    ensures after.frequency != 0.0
    ensures forall raw :: CarriedWithin(Cooked(l, err, raw), ss, Cooked(after, err, raw), bound)
  {
    LineCarriedWithin(l, ss, after, err, c, 0.0);
    forall raw ensures CarriedWithin(Cooked(l, err, raw), ss, Cooked(after, err, raw), bound) {
      LineCarriedWithin(l, ss, after, err, c, raw);
    }
  }

  /** The slews announced by a local clock add up to its total frequency change. */
  lemma TotalChange(clock: LocalClock, ss: seq<Slew>) returns (c: real)
    requires clock.Valid() && clock.start != MEGA && Dfreqs(ss) == clock.changes
    ensures c == Change(clock.start, clock.currentFreq) && 1.0 - Product(Dfreqs(ss)) == c
  {
    FactorIs(Product(Dfreqs(ss)), clock.start, clock.currentFreq);
    c := Change(clock.start, clock.currentFreq);
  }

  // ---- The sample buffer.

  predicate StoredAt(data: seq<real>, times: seq<real>, i: nat)
    requires i < |times| <= |data|
  {
    data[|data| - |times| + i] == times[i] - times[|times| - 1]
  }

  /** The buffer holds the times of the kept samples relative to the last one, at its end. */
  ghost predicate Stored(data: seq<real>, times: seq<real>) {
    && |times| <= |data| && data != [] && data[|data| - 1] == 0.0
    && (forall i: nat {:trigger StoredAt(data, times, i)} | i < |times| :: StoredAt(data, times, i))
  }

  predicate DownAt(data: seq<real>, delta: real, after: seq<real>, j: nat)
    requires j + 1 < |data| == |after|
  {
    after[j] == data[j + 1] - delta
  }

  /** The last `n` values moved down one place and `delta` back. */
  ghost predicate MovedDown(data: seq<real>, n: nat, delta: real, after: seq<real>) {
    && |after| == |data| && n < |data|
    && (forall j: nat {:trigger DownAt(data, delta, after, j)} | |data| - n - 1 <= j < |data| - 1 :: DownAt(data, delta, after, j))
    && after[|data| - 1] == data[|data| - 1]
  }

  lemma StoredNext(data: seq<real>, times: seq<real>, t: real, after: seq<real>)
    requires Stored(data, times) && times != []
    requires MovedDown(data, |times|, t - times[|times| - 1], after)
    ensures Stored(after, times + [t])
  {
    var times' := times + [t];
    forall i: nat | i < |times'| ensures StoredAt(after, times', i) {
      if i < |times| {
        assert StoredAt(data, times, i);
        assert DownAt(data, t - times[|times| - 1], after, |data| - |times| - 1 + i);
      }
    }
  }

  lemma StoredSuffix(data: seq<real>, times: seq<real>, k: nat)
    requires Stored(data, times) && k <= |times|
    ensures Stored(data, times[k..])
  {
    var kept := times[k..];
    forall i: nat | i < |kept| ensures StoredAt(data, kept, i) { assert StoredAt(data, times, k + i); }
  }

  predicate GapAt(times: seq<real>, gap: real, i: nat)
    requires 0 < i < |times|
  {
    times[i] >= times[i - 1] + gap
  }

  predicate RiseAt(times: seq<real>, i: nat)
    requires 0 < i < |times|
  {
    times[i] > times[i - 1]
  }

  /** Neighbours are at least `gap` apart. */
  ghost predicate Apart(times: seq<real>, gap: real) {
    forall i: nat {:trigger GapAt(times, gap, i)} | 0 < i < |times| :: GapAt(times, gap, i)
  }

  ghost predicate Rising(times: seq<real>) {
    forall i: nat {:trigger RiseAt(times, i)} | 0 < i < |times| :: RiseAt(times, i)
  }

  lemma ApartNext(times: seq<real>, gap: real, t: real)
    requires Apart(times, gap) && (times != [] ==> t >= times[|times| - 1] + gap)
    ensures Apart(times + [t], gap)
  {
    var all := times + [t];
    forall i: nat | 0 < i < |all| ensures GapAt(all, gap, i) {
      if i < |times| { assert GapAt(times, gap, i); }
    }
  }

  lemma RisingNext(times: seq<real>, t: real)
    requires Rising(times) && (times != [] ==> t > times[|times| - 1])
    ensures Rising(times + [t])
  {
    var all := times + [t];
    forall i: nat | 0 < i < |all| ensures RiseAt(all, i) {
      if i < |times| { assert RiseAt(times, i); }
    }
  }

  lemma RisingSuffix(times: seq<real>, k: nat)
    requires Rising(times) && k <= |times|
    ensures Rising(times[k..])
  {
    var kept := times[k..];
    forall i: nat | 0 < i < |kept| ensures RiseAt(kept, i) { assert RiseAt(times, k + i); }
  }

  lemma ApartSuffix(times: seq<real>, gap: real, k: nat)
    requires Apart(times, gap) && k <= |times|
    ensures Apart(times[k..], gap)
  {
    var kept := times[k..];
    forall i: nat | 0 < i < |kept| ensures GapAt(kept, gap, i) { assert GapAt(times, gap, k + i); }
  }

  /** The kept samples as values: the buffers hold them, the hardware advanced, and so did the local clock. */
  ghost predicate Kept(x: seq<real>, y: seq<real>, hwTimes: seq<real>, localTimes: seq<real>, gap: real, hwRef: real) {
    && |hwTimes| == |localTimes|
    && Stored(y, hwTimes) && Stored(x, localTimes)
    && Rising(hwTimes) && Apart(localTimes, gap)
    && (hwTimes != [] ==> hwTimes[|hwTimes| - 1] == hwRef)
  }

  lemma KeptSuffix(x: seq<real>, y: seq<real>, hwTimes: seq<real>, localTimes: seq<real>, gap: real, hwRef: real, k: nat)
    requires Kept(x, y, hwTimes, localTimes, gap, hwRef) && k <= |hwTimes|
    ensures Kept(x, y, hwTimes[k..], localTimes[k..], gap, hwRef)
  {
    StoredSuffix(y, hwTimes, k);
    StoredSuffix(x, localTimes, k);
    RisingSuffix(hwTimes, k);
    ApartSuffix(localTimes, gap, k);
  }

  lemma KeptNext(x: seq<real>, y: seq<real>, hwTimes: seq<real>, localTimes: seq<real>, gap: real, hwRef: real,
                 x': seq<real>, y': seq<real>, hw: real, localDelta: real)
    requires Kept(x, y, hwTimes, localTimes, gap, hwRef) && hwTimes != [] && hw > hwRef && localDelta >= gap
    requires MovedDown(y, |hwTimes|, hw - hwRef, y') && MovedDown(x, |localTimes|, localDelta, x')
    ensures Kept(x', y', hwTimes + [hw], localTimes + [localTimes[|localTimes| - 1] + localDelta], gap, hw)
  {
    var local := localTimes[|localTimes| - 1] + localDelta;
    StoredNext(y, hwTimes, hw, y');
    StoredNext(x, localTimes, local, x');
    RisingNext(hwTimes, hw);
    ApartNext(localTimes, gap, local);
  }

  lemma KeptFirst(x: seq<real>, y: seq<real>, hwTimes: seq<real>, localTimes: seq<real>, gap: real, hwRef: real, hw: real)
    requires Kept(x, y, hwTimes, localTimes, gap, hwRef) && hwTimes == []
    ensures Kept(x, y, [hw], [0.0], gap, hw)
  {}

  /** The loop that moves the kept values of one buffer. */
  method MoveDown(a: array<real>, n: nat, delta: real)
    requires n < a.Length
    modifies a
    ensures MovedDown(old(a[..]), n, delta, a[..])
  {
    ghost var was := a[..];
    var i := a.Length - n;
    while i < a.Length
      invariant a.Length - n <= i <= a.Length
      invariant forall j {:trigger a[j]} | a.Length - n - 1 <= j < i - 1 :: a[j] == was[j + 1] - delta
      invariant forall j {:trigger a[j]} | i <= j < a.Length :: a[j] == was[j]
      invariant a[a.Length - 1] == was[a.Length - 1]
    {
      a[i - 1] := a[i] - delta;
      i := i + 1;
    }
    forall j: nat | a.Length - n - 1 <= j < a.Length - 1 ensures DownAt(was, delta, a[..], j) {
      assert a[j] == was[j + 1] - delta;
    }
  }

  /** The times followed by one `delta` later. */
  function After(times: seq<real>, delta: real): seq<real>
    requires times != []
  {
    times + [times[|times| - 1] + delta]
  }

  predicate TailAt(times: seq<real>, end: seq<real>, i: nat)
    requires i < |end| <= |times|
  {
    times[|times| - |end| + i] == end[i]
  }

  ghost predicate EndsIn(times: seq<real>, end: seq<real>) {
    |end| <= |times| && forall i: nat {:trigger TailAt(times, end, i)} | i < |end| :: TailAt(times, end, i)
  }

  /** The times are the last ones of `before`, followed by one `delta` later. */
  ghost predicate Continues(times: seq<real>, before: seq<real>, delta: real) {
    before != [] && EndsIn(After(before, delta), times)
  }

  lemma SuffixEnds(times: seq<real>, k: nat)
    requires k <= |times|
    ensures EndsIn(times, times[k..])
  {
    var end := times[k..];
    forall i: nat | i < |end| ensures TailAt(times, end, i) {}
  }

  lemma EndsInTwice(a: seq<real>, b: seq<real>, c: seq<real>)
    requires EndsIn(a, b) && EndsIn(b, c)
    ensures EndsIn(a, c)
  {
    forall i: nat | i < |c| ensures TailAt(a, c, i) {
      assert TailAt(b, c, i);
      assert TailAt(a, b, |b| - |c| + i);
    }
  }

  lemma EndsInNext(a: seq<real>, b: seq<real>, t: real)
    requires EndsIn(a, b)
    ensures EndsIn(a + [t], b + [t])
  {
    var a', b' := a + [t], b + [t];
    forall i: nat | i < |b'| ensures TailAt(a', b', i) {
      if i < |b| { assert TailAt(a, b, i); }
    }
  }

  lemma AfterSuffix(before: seq<real>, delta: real, kept: seq<real>)
    requires kept != [] && EndsIn(before, kept)
    ensures Continues(After(kept, delta), before, delta)
  {
    assert TailAt(before, kept, |kept| - 1);
    EndsInNext(before, kept, before[|before| - 1] + delta);
  }

  /** What the regression returns, if it can fit a line. */
  datatype Fit = Fit(intercept: real, slope: real, bestStart: nat)

  /** `t` later on the local clock, the hardware clock has gone `frequency` times as far. */
  lemma CookInverts(l: Line, t: real)
    requires l.frequency != 0.0
    ensures Cook(l, l.hwRef + l.frequency * t) == l.localRef + t - l.offset
  {
    ByFrequency(t, l.frequency);
  }

  lemma ByFrequency(t: real, f: real)
    requires f != 0.0
    ensures (f * t) / f == t
  {}

  /**
    A sample `x` before the last one, in time at the local clock's own frequency, and on the
    fitted line is cooked to its local time, up to the offset times `1 / frequency - 1`.
   */
  predicate CookedOnLine(l: Line, fit: Fit, absFreq: real, hw: real, x: real)
    requires l.frequency != 0.0
  {
    hw - l.hwRef == fit.intercept + fit.slope * x ==>
      Cook(l, hw) == l.localRef + x * (1.0 - absFreq / MEGA) + l.offset * (1.0 / l.frequency - 1.0)
  }

  lemma LineCooks(l: Line, fit: Fit, absFreq: real, hw: real, x: real)
    requires absFreq != MEGA && l.frequency != 0.0 && l.frequency == Fitted(fit, absFreq) && l.offset == fit.intercept
    ensures CookedOnLine(l, fit, absFreq, hw, x)
  {
    var k, f := 1.0 - absFreq / MEGA, l.frequency;
    if hw - l.hwRef == fit.intercept + fit.slope * x {
      var d := x * k;
      SlopeIs(fit.slope, k, f);
      assert fit.slope * x == f * d by { Reorder(f, k, x); }
      SplitQuotient(l.offset, f * d, f);
      ByFrequency(d, f);
      OffsetPart(l.offset, f);
    }
  }

  /** A sample taken at the local time `local`, if it lies on the fitted line, is cooked to that time. */
  predicate CookedToOwn(l: Line, fit: Fit, absFreq: real, hw: real, local: real)
    requires l.frequency != 0.0 && absFreq != MEGA
  {
    hw - l.hwRef == fit.intercept + fit.slope * PerLocalFreq(local - l.localRef, absFreq) ==>
      Cook(l, hw) == local + l.offset * (1.0 / l.frequency - 1.0)
  }

  lemma SampleCooks(l: Line, fit: Fit, absFreq: real, hw: real, local: real)
    requires absFreq != MEGA && l.frequency != 0.0 && l.frequency == Fitted(fit, absFreq) && l.offset == fit.intercept
    ensures CookedToOwn(l, fit, absFreq, hw, local)
  {
    var x := PerLocalFreq(local - l.localRef, absFreq);
    LineCooks(l, fit, absFreq, hw, x);
    SlopeIs(local - l.localRef, 1.0 - absFreq / MEGA, x);
  }

  lemma SlopeIs(slope: real, k: real, f: real)
    requires k != 0.0 && f == slope / k
    ensures slope == f * k
  {}

  lemma Reorder(f: real, k: real, x: real)
    ensures (f * k) * x == f * (x * k)
  {}

  lemma SplitQuotient(a: real, b: real, f: real)
    requires f != 0.0
    ensures (a + b) / f == a / f + b / f
  {}

  lemma OffsetPart(a: real, f: real)
    requires f != 0.0
    ensures a / f - a == a * (1.0 / f - 1.0)
  {}

  class HwClock {
    const minSamples: nat
    const maxSamples: nat
    const minSeparation: real
    const xData: array<real>
    const yData: array<real>
    var hwRef: real
    var localRef: real
    var nSamples: nat
    var lastErr: real
    var validCoefs: bool
    var offset: real
    var frequency: real

    /** The hardware times of the kept samples, and their local times at the clock's frequency. */
    ghost var hwTimes: seq<real>
    ghost var localTimes: seq<real>

    ghost predicate Samples()
      reads this`hwRef, this`nSamples, this`hwTimes, this`localTimes, xData, yData
    {
      && MIN_SAMPLES <= minSamples <= maxSamples && xData.Length == yData.Length == maxSamples && xData != yData
      && nSamples == |hwTimes| <= maxSamples
      && Kept(xData[..], yData[..], hwTimes, localTimes, minSeparation / 2.0, hwRef)
    }

    ghost predicate Valid()
      reads this, xData, yData
    {
      && Samples()
      && (validCoefs ==> nSamples >= 1 && Abs(offset) <= lastErr && frequency != 0.0)
    }

    function Model(): Line
      reads this
    {
      Line(hwRef, localRef, frequency, offset)
    }

    constructor (minSamples: nat, maxSamples: nat, minSeparation: real)
      ensures Valid() && hwTimes == [] && !validCoefs && fresh(xData) && fresh(yData)
    {
      var lo := Min(Max(minSamples, MIN_SAMPLES), MAX_SAMPLES);
      var hi := Max(Min(Max(maxSamples, MIN_SAMPLES), MAX_SAMPLES), lo);
      this.minSamples, this.maxSamples, this.minSeparation := lo, hi, minSeparation;
      xData := new real[hi](_ => 0.0);
      yData := new real[hi](_ => 0.0);
      hwRef, localRef, nSamples, lastErr, validCoefs, offset, frequency := 0.0, 0.0, 0, 0.0, false, 0.0, 0.0;
      hwTimes, localTimes := [], [];
    }

    /** `cook_time`: a local time and its error, which bounds how far the reference is off. */
    function CookTime(raw: real): (r: Option<(real, real)>)
      requires Valid()
      reads this, xData, yData
      ensures r.Some? <==> validCoefs
      ensures r.Some? && raw == hwRef ==> Abs(r.value.0 - localRef) <= r.value.1
    {
      if validCoefs then CooksReference(Model(), lastErr); Cooked(Model(), lastErr, raw) else None
    }

    /** `handle_slew`: the model follows the local clock. */
    method HandleSlew(s: Slew)
      requires Valid()
      modifies this`localRef, this`frequency
      ensures Valid()
      ensures validCoefs ==> Model() == Rebased(old(Model()), s)
      ensures !validCoefs ==> frequency == old(frequency) && localRef == if nSamples > 0 then Slewed(old(localRef), s) else old(localRef)
    {
      if nSamples > 0 {
        localRef := Slewed(localRef, s);
      }
      if validCoefs {
        RescaledNonZero(frequency, s);
        frequency := Rescaled(frequency, s);
      }
    }

    /** A sample that goes back, or comes too soon, starts a new series. */
    predicate Restarts(hwDelta: real, localDelta: real) { hwDelta <= 0.0 || localDelta < minSeparation / 2.0 }

    /** The number of samples with a new one, before the fit. */
    function CountWith(n: nat, hwDelta: real, localDelta: real): int
    {
      1 + if n == 0 || Restarts(hwDelta, localDelta) then 0 else Min(n, maxSamples - 1)
    }

    /** The samples still kept when one is added `hwDelta` and `localDelta` after the last. */
    method DropSamples(hwDelta: real, localDelta: real)
      requires Samples() && nSamples > 0
      modifies this`nSamples, this`hwTimes, this`localTimes
      ensures Samples() && nSamples < maxSamples && nSamples == if Restarts(hwDelta, localDelta) then 0 else Min(old(nSamples), maxSamples - 1)
      ensures hwDelta <= 0.0 || localDelta < minSeparation / 2.0 <==> nSamples == 0
      ensures EndsIn(old(hwTimes), hwTimes) && EndsIn(old(localTimes), localTimes)
    {
      var n := nSamples;
      if n >= maxSamples {
        n := n - 1;
      }
      if hwDelta <= 0.0 || localDelta < minSeparation / 2.0 {
        n := 0;
      }
      Keep(n);
    }

    /** Forgets all but the last `n` samples. */
    method Keep(n: nat)
      requires Samples() && n <= nSamples
      modifies this`nSamples, this`hwTimes, this`localTimes
      ensures Samples() && nSamples == n
      ensures EndsIn(old(hwTimes), hwTimes) && EndsIn(old(localTimes), localTimes)
    {
      ghost var k := |hwTimes| - n;
      KeptSuffix(xData[..], yData[..], hwTimes, localTimes, minSeparation / 2.0, hwRef, k);
      SuffixEnds(hwTimes, k);
      SuffixEnds(localTimes, k);
      nSamples := n;
      hwTimes, localTimes := hwTimes[k..], localTimes[k..];
    }

    /** The buffers after the kept samples moved down and the new one took the end. */
    method AddSample(hwTs: real, localDelta: real)
      requires Samples() && nSamples < maxSamples
      requires hwTimes != [] ==> hwTs > hwRef && localDelta >= minSeparation / 2.0
      modifies this`nSamples, this`hwTimes, this`localTimes, this`hwRef, xData, yData
      ensures Samples() && hwRef == hwTs && hwTimes == old(hwTimes) + [hwTs]
      ensures old(localTimes) != [] ==> localTimes == After(old(localTimes), localDelta)
    {
      ghost var x, y := xData[..], yData[..];
      if nSamples > 0 {
        MoveDown(yData, nSamples, hwTs - hwRef);
        MoveDown(xData, nSamples, localDelta);
        KeptNext(x, y, hwTimes, localTimes, minSeparation / 2.0, hwRef, xData[..], yData[..], hwTs, localDelta);
        localTimes := localTimes + [localTimes[|localTimes| - 1] + localDelta];
      } else {
        KeptFirst(x, y, hwTimes, localTimes, minSeparation / 2.0, hwRef, hwTs);
        localTimes := [0.0];
      }
      nSamples := nSamples + 1;
      hwRef := hwTs;
      hwTimes := hwTimes + [hwTs];
    }

    /**
      `accumulate_sample`.  The model is valid exactly if a line was fitted that passes within
      the error of the new sample and has a sane frequency; then it cooks the sample's hardware
      time to within the error of its local time.
     */
    method AccumulateSample(hwTs: real, localTs: real, err: real, absFreq: real, fit: Option<Fit>)
      requires Valid() && absFreq != MEGA
      modifies this, xData, yData
      ensures Valid() && hwRef == hwTs && localRef == localTs && lastErr == err
      ensures validCoefs <==> fit.Some? && Abs(fit.value.intercept) <= err && Abs(Fitted(fit.value, absFreq) - 1.0) <= MAX_FREQ_OFFSET
      ensures validCoefs ==> offset == fit.value.intercept && frequency == Fitted(fit.value, absFreq)
      ensures fit.None? || validCoefs ==> hwTimes != [] && hwTimes[|hwTimes| - 1] == hwTs
      ensures EndsIn(old(hwTimes) + [hwTs], hwTimes)
      ensures nSamples > 1 ==> Continues(localTimes, old(localTimes), old(PerLocalFreq(localTs - localRef, absFreq)))
      ensures nSamples == AfterFit(old(CountWith(nSamples, hwTs - hwRef, PerLocalFreq(localTs - localRef, absFreq))), fit, validCoefs)
      ensures validCoefs ==>
                forall i {:trigger hwTimes[i]} | 0 <= i < nSamples ::
                  CookedOnLine(Model(), fit.value, absFreq, hwTimes[i], localTimes[i] - localTimes[nSamples - 1])
      ensures validCoefs ==> CookedToOwn(Model(), fit.value, absFreq, old(hwRef), old(localRef))
    {
      var freq := if fit.Some? then Fitted(fit.value, absFreq) else 0.0;
      Accumulate(hwTs, localTs, PerLocalFreq(localTs - localRef, absFreq), err, fit, freq);
      if validCoefs {
        forall i {:trigger hwTimes[i]} | 0 <= i < nSamples
          ensures CookedOnLine(Model(), fit.value, absFreq, hwTimes[i], localTimes[i] - localTimes[nSamples - 1])
        {
          LineCooks(Model(), fit.value, absFreq, hwTimes[i], localTimes[i] - localTimes[nSamples - 1]);
        }
        SampleCooks(Model(), fit.value, absFreq, old(hwRef), old(localRef));
      }
    }

    method Accumulate(hwTs: real, localTs: real, localDelta: real, err: real, fit: Option<Fit>, freq: real)
      requires Valid()
      modifies this, xData, yData
      ensures Valid() && hwRef == hwTs && localRef == localTs && lastErr == err
      ensures validCoefs <==> fit.Some? && Abs(fit.value.intercept) <= err && Abs(freq - 1.0) <= MAX_FREQ_OFFSET
      ensures validCoefs ==> offset == fit.value.intercept && frequency == freq
      ensures fit.None? || validCoefs ==> hwTimes != [] && hwTimes[|hwTimes| - 1] == hwTs
      ensures EndsIn(old(hwTimes) + [hwTs], hwTimes)
      ensures nSamples > 1 ==> Continues(localTimes, old(localTimes), localDelta)
      ensures nSamples == AfterFit(old(CountWith(nSamples, hwTs - hwRef, localDelta)), fit, validCoefs)
    {
      Receive(hwTs, localDelta);
      localRef, lastErr, validCoefs := localTs, err, false;
      if fit.Some? {
        ghost var hw, local := hwTimes, localTimes;
        Refit(fit.value, freq, err);
        EndsInTwice(old(hwTimes) + [hwTs], hw, hwTimes);
        if nSamples > 1 { EndsInTwice(After(old(localTimes), localDelta), local, localTimes); }
      }
    }

    /** The first half of `accumulate_sample`: the new sample and those it keeps. */
    method Receive(hwTs: real, localDelta: real)
      requires Samples()
      modifies this`nSamples, this`hwTimes, this`localTimes, this`hwRef, xData, yData
      ensures Samples() && hwRef == hwTs && 1 <= nSamples == old(CountWith(nSamples, hwTs - hwRef, localDelta))
      ensures EndsIn(old(hwTimes) + [hwTs], hwTimes)
      ensures nSamples > 1 ==> Continues(localTimes, old(localTimes), localDelta)
    {
      if nSamples > 0 {
        DropSamples(hwTs - hwRef, localDelta);
      }
      ghost var hw, kept := hwTimes, localTimes;
      AddSample(hwTs, localDelta);
      EndsInNext(old(hwTimes), hw, hwTs);
      if nSamples > 1 { AfterSuffix(old(localTimes), localDelta, kept); }
    }

    /** The number of samples after the fit: it may drop the first ones, but not below the minimum. */
    function AfterFit(n: int, fit: Option<Fit>, valid: bool): int
    {
      if fit.None? then n else if valid then n - Min(fit.value.bestStart, Max(n - minSamples, 0)) else 0
    }

    /** The second half: take over the fitted line, or drop everything if it is no good. */
    method Refit(fit: Fit, frequency': real, err: real)
      requires Samples() && nSamples >= 1 && lastErr == err
      modifies this`nSamples, this`hwTimes, this`localTimes, this`offset, this`frequency, this`validCoefs
      ensures Valid() && EndsIn(old(hwTimes), hwTimes) && EndsIn(old(localTimes), localTimes)
      ensures offset == fit.intercept && frequency == frequency'
      ensures validCoefs <==> Abs(fit.intercept) <= err && Abs(frequency' - 1.0) <= MAX_FREQ_OFFSET
      ensures nSamples == if validCoefs then old(nSamples) - Min(fit.bestStart, Max(old(nSamples) - minSamples, 0)) else 0
    {
      offset, frequency := fit.intercept, frequency';
      var n := nSamples;
      if n > minSamples {
        n := n - Min(fit.bestStart, n - minSamples);
      }
      validCoefs := true;
      if Abs(offset) > err || Abs(frequency - 1.0) > MAX_FREQ_OFFSET {
        n := 0;
        validCoefs := false;
      }
      Keep(n);
    }

    /** Any run of slews: the model follows each of them. */
    method Rebase(ss: seq<Slew>)
      requires Valid()
      modifies this`localRef, this`frequency
      ensures Valid()
      ensures validCoefs ==> Model() == Follow(Rebased, old(Model()), ss)
    {
      for i := 0 to |ss|
        invariant Valid()
        invariant validCoefs ==> Model() == Follow(Rebased, old(Model()), ss[..i])
      {
        assert ss[..i + 1][..i] == ss[..i];
        HandleSlew(ss[i]);
      }
      assert ss[..|ss|] == ss;
    }

    /**
      After any run of slews every hardware time is cooked to the old cooked time carried through
      the slews, up to exactly the offset times one minus the product of the frequency factors.
     */
    method HandleSlews(ss: seq<Slew>)
      requires Valid()
      modifies this`localRef, this`frequency
      ensures Valid()
      ensures validCoefs ==> forall raw :: Carried(old(CookTime(raw)), ss, offset, CookTime(raw))
    {
      Rebase(ss);
      if validCoefs {
        forall raw ensures Carried(old(CookTime(raw)), ss, offset, CookTime(raw)) {
          LineCarried(old(Model()), ss, Model(), lastErr, raw);
        }
      }
    }

    /** Slews with a known total frequency change. */
    method FollowSlews(ss: seq<Slew>, ghost c: real, ghost bound: real)
      requires Valid() && 1.0 - Product(Dfreqs(ss)) == c && bound == lastErr * Abs(c)
      modifies this`localRef, this`frequency
      ensures Valid()
      ensures validCoefs ==> forall raw :: CarriedWithin(old(CookTime(raw)), ss, CookTime(raw), bound)
    {
      Rebase(ss);
      if validCoefs { AllCarriedWithin(old(Model()), ss, Model(), lastErr, c, bound); }
    }

    /**
      Following the announced changes of a local clock keeps every cooked time within the sample
      error times the total frequency change.
     */
    method FollowLocalClock(ss: seq<Slew>, clock: LocalClock) returns (ghost bound: real)
      requires Valid() && clock.Valid() && clock.start != MEGA && Dfreqs(ss) == clock.changes
      modifies this`localRef, this`frequency
      ensures Valid()
      ensures bound == lastErr * Abs(Change(clock.start, clock.currentFreq))
      ensures validCoefs ==> forall raw :: CarriedWithin(old(CookTime(raw)), ss, CookTime(raw), bound)
    {
      ghost var c := TotalChange(clock, ss);
      bound := lastErr * Abs(c);
      FollowSlews(ss, c, bound);
    }
  }

  /** The frequency of a fitted line, relative to the local clock's own. */
  function Fitted(fit: Fit, absFreq: real): real
    requires absFreq != MEGA
  {
    PerLocalFreq(fit.slope, absFreq)
  }

  function PerLocalFreq(x: real, absFreq: real): real
    requires absFreq != MEGA
  {
    x / (1.0 - absFreq / MEGA)
  }

  /** A fresh model cooks its reference to within the error of the sample. */
  lemma CooksReference(l: Line, err: real)
    requires l.frequency != 0.0 && Abs(l.offset) <= err
    ensures Abs(Cook(l, l.hwRef) - l.localRef) <= err
  {
    CrossOut(0.0, 0.0, l.frequency);
  }
}
