/**
  The frequency bookkeeping of the local clock, over the reals: temperature compensation, and
  the relative frequency changes announced to everybody who keeps time against the clock.
 */
module LocalClocks {

  const MEGA: real := 1000000.0
  const PPM: real := 0.000001

  // ---- Algebra.

  lemma CrossOut(a: real, b: real, d: real)
    requires d != 0.0 && a == b * d
    ensures a / d == b
  {}

  lemma Quotient(a: real, d: real)
    requires d != 0.0
    ensures (a / d) * d == a
  {}

  /** The frequency with the temperature compensation undone. */
  function Absolute(freq: real, comp: real): real
    requires 1.0 - PPM * comp != 0.0
  {
    (freq + comp) / (1.0 - PPM * comp)
  }

  /** The frequency to ask for so that `Absolute` gives `f`. */
  function Compensated(f: real, comp: real): real { f * (1.0 - PPM * comp) - comp }

  /** The rates multiply: undoing a compensation divides its rate out, applying one multiplies it in. */
  lemma RatesMultiply(f: real, comp: real)
    ensures 1.0 + PPM * Compensated(f, comp) == (1.0 + PPM * f) * (1.0 - PPM * comp)
    ensures 1.0 - PPM * comp != 0.0 ==> (1.0 + PPM * Absolute(f, comp)) * (1.0 - PPM * comp) == 1.0 + PPM * f
  {
    if 1.0 - PPM * comp != 0.0 { Quotient(f + comp, 1.0 - PPM * comp); }
  }

  lemma CompensatedRoundTrip(f: real, comp: real)
    requires 1.0 - PPM * comp != 0.0
    ensures Absolute(Compensated(f, comp), comp) == f
  {
    CrossOut(Compensated(f, comp) + comp, f, 1.0 - PPM * comp);
  }

  /** The compensation that explains why the clock runs at `got` when it should run at `u`. */
  function Effective(u: real, got: real): real
    requires PPM * u + 1.0 != 0.0
  {
    (u - got) / (PPM * u + 1.0)
  }

  /**
    Whatever frequency the driver grants, the compensation computed from it undoes to the same
    absolute frequency, unless the driver grants exactly minus one million ppm; then, and only
    then, the compensation cannot be undone.
   */
  lemma EffectiveUndone(u: real, got: real)
    requires PPM * u + 1.0 != 0.0
    ensures 1.0 - PPM * Effective(u, got) != 0.0 <==> got != -MEGA
    ensures got != -MEGA ==> Absolute(got, Effective(u, got)) == u
  {
    var d, t := PPM * u + 1.0, Effective(u, got);
    Quotient(u - got, d);
    assert t * d == u - got;
    assert (1.0 - PPM * t) * d == d - PPM * (t * d) == 1.0 + PPM * got;
    if got != -MEGA {
      assert (got + t) * d == got * d + t * d == u * (1.0 + PPM * got);
      assert (got + t) * d == u * ((1.0 - PPM * t) * d) == (u * (1.0 - PPM * t)) * d;
      CancelFactor(got + t, u * (1.0 - PPM * t), d);
      CrossOut(got + t, u, 1.0 - PPM * t);
    }
  }

  /** Granted what it is asked for, the compensation in effect is the wanted one. */
  lemma EffectiveAsAsked(u: real, comp: real)
    requires PPM * u + 1.0 != 0.0
    ensures Effective(u, Compensated(u, comp)) == comp
  {
    CrossOut(u - Compensated(u, comp), comp, PPM * u + 1.0);
  }

  lemma CancelFactor(a: real, b: real, d: real)
    requires d != 0.0 && a * d == b * d
    ensures a == b
  {}

  /** The relative change announced when the frequency goes from `f` to `g`. */
  function Change(f: real, g: real): real
    requires f != MEGA
  {
    (g - f) / (MEGA - f)
  }

  lemma ChangeScales(f: real, g: real)
    requires f != MEGA
    ensures (1.0 - Change(f, g)) * (MEGA - f) == MEGA - g
  {}

  /** The frequency that the relative change `d` leads to from `f`. */
  function Target(f: real, d: real): real { f + d * (MEGA - f) }

  lemma TargetIsChange(f: real, d: real)
    requires f != MEGA
    ensures Change(f, Target(f, d)) == d
  {
    CrossOut(Target(f, d) - f, d, MEGA - f);
  }

  function Product(changes: seq<real>): real {
    if changes == [] then 1.0 else Product(changes[..|changes| - 1]) * (1.0 - changes[|changes| - 1])
  }

  lemma ProductStep(changes: seq<real>, d: real)
    ensures Product(changes + [d]) == Product(changes) * (1.0 - d)
  {}

  /** One more change keeps the product of all of them telescoped. */
  lemma Telescopes(changes: seq<real>, start: real, f: real, g: real)
    requires f != MEGA && Product(changes) * (MEGA - start) == MEGA - f
    ensures Product(changes + [Change(f, g)]) * (MEGA - start) == MEGA - g
  {
    var p, d := Product(changes), Change(f, g);
    ProductStep(changes, d);
    ChangeScales(f, g);
    assert (p * (1.0 - d)) * (MEGA - start) == (1.0 - d) * (p * (MEGA - start));
  }

  function Clamped(f: real, max: real): real
    requires max >= 0.0
  {
    if f > max then max else if f < -max then -max else f
  }

  /** The allowed frequency nearest to the wanted one. */
  lemma ClampedIsNearest(f: real, max: real, other: real)
    requires max >= 0.0 && -max <= other <= max
    ensures -max <= Clamped(f, max) <= max
    ensures (Clamped(f, max) - f) * (Clamped(f, max) - f) <= (other - f) * (other - f)
  {
    if f > max { Squares(f - max, f - other); } else if f < -max { Squares(-max - f, other - f); }
  }

  lemma Squares(a: real, b: real)
    requires 0.0 <= a <= b
    ensures a * a <= b * b
  {}

  /**
    The driver is outside: each method is told the frequency `got` the driver granted, which
    may be anything, and returns the one it asked for.
   */
  class LocalClock {
    const maxFreq: real
    var currentFreq: real
    var tempComp: real

    /** The frequency when the compensation last changed, and every change announced since. */
    ghost var start: real
    ghost var changes: seq<real>

    /** The compensation can be undone, and the announced changes telescope. */
    ghost predicate Valid()
      reads this
    {
      && maxFreq >= 0.0
      && 1.0 - PPM * tempComp != 0.0
      && Product(changes) * (MEGA - start) == MEGA - currentFreq
    }

    constructor (maxFreq: real, freq: real)
      requires maxFreq >= 0.0
      ensures Valid() && currentFreq == freq == start && tempComp == 0.0 && changes == [] && this.maxFreq == maxFreq
    {
      this.maxFreq, currentFreq, tempComp := maxFreq, freq, 0.0;
      start, changes := freq, [];
    }

    /** `read_absolute_frequency`. */
    function ReadAbsoluteFrequency(): (f: real)
      requires Valid()
      reads this
      ensures f == Absolute(currentFreq, tempComp)
    {
      if tempComp != 0.0 then (currentFreq + tempComp) / (1.0 - PPM * tempComp) else currentFreq
    }

    /** `set_absolute_frequency`: granted what it asks for, it sets the wanted frequency, clamped. */
    method SetAbsoluteFrequency(wanted: real, got: real) returns (asked: real)
      requires Valid() && currentFreq != MEGA
      modifies this`currentFreq, this`changes
      ensures Valid() && currentFreq == got
      ensures changes == old(changes) + [Change(old(currentFreq), got)]
      ensures got == asked ==> ReadAbsoluteFrequency() == Clamped(wanted, maxFreq)
    {
      asked := Clamped(wanted, maxFreq);
      if tempComp != 0.0 {
        asked := asked * (1.0 - PPM * tempComp) - tempComp;
      }
      CompensatedRoundTrip(Clamped(wanted, maxFreq), tempComp);
      assert asked == Compensated(Clamped(wanted, maxFreq), tempComp);
      Announce(got);
    }

    /** Takes over the granted frequency and tells the handlers the relative change. */
    method Announce(got: real)
      requires Valid() && currentFreq != MEGA
      modifies this`currentFreq, this`changes
      ensures Valid() && currentFreq == got
      ensures changes == old(changes) + [Change(old(currentFreq), got)]
    {
      Telescopes(changes, start, currentFreq, got);
      changes := changes + [(got - currentFreq) / (MEGA - currentFreq)];
      currentFreq := got;
    }

    /** `accumulate_delta_frequency`: granted what it asks for, unclamped, it announces the change it was given. */
    method AccumulateDeltaFrequency(dfreq: real, got: real) returns (asked: real)
      requires Valid() && currentFreq != MEGA
      modifies this`currentFreq, this`changes
      ensures Valid() && currentFreq == got && -maxFreq <= asked <= maxFreq
      ensures changes == old(changes) + [Change(old(currentFreq), got)]
      ensures asked == Clamped(Target(old(currentFreq), dfreq), maxFreq)
      ensures got == asked && -maxFreq <= Target(old(currentFreq), dfreq) <= maxFreq ==> changes == old(changes) + [dfreq]
    {
      asked := Clamped(currentFreq + dfreq * (MEGA - currentFreq), maxFreq);
      TargetIsChange(currentFreq, dfreq);
      Announce(got);
    }

    /**
      `accumulate_frequency_and_offset`: with an insane offset nothing happens; otherwise the
      frequency part is that of `accumulate_delta_frequency`.
     */
    method AccumulateFrequencyAndOffset(dfreq: real, offsetIsSane: bool, got: real) returns (ok: bool, asked: real)
      requires Valid() && currentFreq != MEGA
      modifies this`currentFreq, this`changes
      ensures Valid() && ok == offsetIsSane
      ensures if ok then
                && currentFreq == got && changes == old(changes) + [Change(old(currentFreq), got)]
                && asked == Clamped(Target(old(currentFreq), dfreq), maxFreq)
                && (got == asked && -maxFreq <= Target(old(currentFreq), dfreq) <= maxFreq ==> changes == old(changes) + [dfreq])
              else currentFreq == old(currentFreq) && changes == old(changes)
    {
      if !offsetIsSane {
        return false, 0.0;
      }
      asked := AccumulateDeltaFrequency(dfreq, got);
      ok := true;
    }

    /**
      `set_temp_comp`: the absolute frequency stays what it was, whatever the driver grants.
      The handlers are not told, so a new stretch of announced changes begins.
     */
    method SetTempComp(comp: real, got: real) returns (asked: real, inEffect: real)
      requires Valid() && PPM * ReadAbsoluteFrequency() + 1.0 != 0.0
      requires comp != tempComp ==> got != -MEGA
      modifies this
      ensures Valid() && ReadAbsoluteFrequency() == old(ReadAbsoluteFrequency())
      ensures inEffect == tempComp
      ensures old(tempComp) != comp ==> currentFreq == got
      ensures asked == Compensated(old(ReadAbsoluteFrequency()), comp)
      ensures old(tempComp) != comp && got == asked ==> tempComp == comp
    {
      var u := ReadAbsoluteFrequency();
      asked := Compensated(u, comp);
      if tempComp == comp {
        return asked, comp;
      }
      EffectiveUndone(u, got);
      EffectiveAsAsked(u, comp);
      currentFreq, tempComp := got, Effective(u, got);
      start, changes := currentFreq, [];
      inEffect := tempComp;
    }

    /**
      Any run of compensation changes, with any frequencies granted, leaves the absolute
      frequency untouched.
     */
    method TempCompRun(steps: seq<(real, real)>)
      requires Valid() && PPM * ReadAbsoluteFrequency() + 1.0 != 0.0
      requires forall s <- steps :: s.1 != -MEGA
      modifies this
      ensures Valid() && ReadAbsoluteFrequency() == old(ReadAbsoluteFrequency())
    {
      for i := 0 to |steps|
        invariant Valid() && ReadAbsoluteFrequency() == old(ReadAbsoluteFrequency())
      {
        var _, _ := SetTempComp(steps[i].0, steps[i].1);
      }
    }
  }
}
