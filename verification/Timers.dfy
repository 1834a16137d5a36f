/** Hardware timer pool (hw_timer.c) and the duty-to-compare conversion (pwm_sensor.c). */
module Timers {
  import opened Wrappers

  const CLOCK_HZ: nat := 84_000_000
  const FREQ_MAX_HZ: nat := 42_000_000
  const PSC_MAX: nat := 0xFFFF
  const DUTY_MAX: nat := 10_000
  const U32: nat := 0x1_0000_0000

  /** Largest reload value of a 32-bit or a 16-bit counter. */
  function ArrMax(wide: bool): nat {
    if wide then 0xFFFF_FFFF else 0xFFFF
  }

  // ---------------------------------------------------------------- prescaler and reload

  datatype Divider = Divider(psc: nat, arr: nat)

  /** Dividing the period by `p` gives a reload value that fits the counter. */
  predicate Fits(period: nat, p: nat, wide: bool)
    requires p > 0
  {
    period / p - 1 <= ArrMax(wide)
  }

  /** What the source promises: the reload value fits, no smaller prescaler would make it fit,
      and the period is undershot by less than one prescaled tick. */
  ghost predicate Optimal(freq: nat, wide: bool, d: Divider)
    requires freq > 0
  {
    var period := CLOCK_HZ / freq;
    && d.psc <= PSC_MAX && d.arr <= ArrMax(wide)
    && (forall p {:trigger Fits(period, p, wide)} ::
          p >= 1 && Fits(period, p, wide) ==> d.psc + 1 <= p && period / p - 1 <= d.arr)
    && 0 <= period - (d.psc + 1) * (d.arr + 1) < d.psc + 1
  }

  // compute_psc_arr
  function Compute(freq: nat, wide: bool): (r: Option<Divider>) {
    if freq == 0 || freq > FREQ_MAX_HZ then None
    else
      var max := ArrMax(wide);
      var period := CLOCK_HZ / freq;
      var p := (period + max) / (max + 1);
      var p1 := if p == 0 then 1 else p;
      if p1 > PSC_MAX + 1 then None
      else if period < p1 then None
      else
        var arr := period / p1 - 1;
        if arr > max then None else Some(Divider(p1 - 1, arr))
  }

  lemma DivFacts(n: nat, p: nat)
    requires p > 0
    ensures n / p * p <= n < n / p * p + p
  {}

  lemma MulMono(a: nat, b: nat, p: nat)
    requires a <= b
    ensures a * p <= b * p
  {}

  lemma DivAtLeast(n: nat, p: nat, k: nat)
    requires p > 0 && k * p <= n
    ensures n / p >= k
  {
    DivFacts(n, p);
    if n / p + 1 <= k {
      MulMono(n / p + 1, k, p);
    }
  }

  lemma DivAtMost(n: nat, p: nat, k: nat)
    requires p > 0 && n < (k + 1) * p
    ensures n / p <= k
  {
    DivFacts(n, p);
    if n / p >= k + 1 {
      MulMono(k + 1, n / p, p);
    }
  }

  lemma PeriodBounds(freq: nat)
    requires 1 <= freq <= FREQ_MAX_HZ
    ensures 2 <= CLOCK_HZ / freq <= CLOCK_HZ
    ensures CLOCK_HZ / freq * freq <= CLOCK_HZ < (CLOCK_HZ / freq + 1) * freq
  {
    DivFacts(CLOCK_HZ, freq);
    DivAtLeast(CLOCK_HZ, freq, 2);
    MulMono(1, freq, CLOCK_HZ + 1);
    DivAtMost(CLOCK_HZ, freq, CLOCK_HZ);
  }

  /** The ceiling quotient is the smallest divisor that brings the period into range. */
  lemma CeilIsSmallest(period: nat, m: nat, p: nat)
    requires period >= 1 && m >= 2 && p == (period + m - 1) / m
    ensures 1 <= p && period <= p * m && (p - 1) * m < period
  {
    DivFacts(period + m - 1, m);
    DivAtLeast(period + m - 1, m, 1);
    assert (p - 1) * m == p * m - m;
  }

  lemma PrescalerBounds(period: nat, wide: bool, p: nat)
    requires 2 <= period <= CLOCK_HZ && p >= 1
    requires (p - 1) * (ArrMax(wide) + 1) < period
    ensures p <= period && p <= 1282 && (wide ==> p == 1)
  {
    var m := ArrMax(wide) + 1;
    MulMono(65536, m, p - 1);
    if p >= 2 {
      MulMono(1, p - 1, m);
    }
  }

  lemma QuotientFits(period: nat, p: nat, m: nat)
    requires p >= 1 && m >= 1 && period <= p * m
    ensures period / p <= m
  {
    assert p * m < (m + 1) * p;
    DivAtMost(period, p, m);
  }

  /** The floor quotient by `k` could still land exactly on 65536 although the period exceeds
      `k` full counter ranges. With an 84 MHz clock no frequency does: 84 000 000 divided by
      65536 and by 65537 has the same integer part. */
  lemma NoNearMiss(freq: nat, k: nat)
    requires 1 <= freq <= FREQ_MAX_HZ && k >= 1 && k * 65536 < CLOCK_HZ / freq
    ensures k * 65537 <= CLOCK_HZ / freq
  {
    var period := CLOCK_HZ / freq;
    var n := freq * k;
    PeriodBounds(freq);
    MulMono(k * 65536 + 1, period, freq);
    assert (k * 65536 + 1) * freq == 65536 * n + freq;
    assert k * 65537 * freq == 65537 * n;
    if period + 1 <= k * 65537 {
      MulMono(period + 1, k * 65537, freq);
    }
  }

  lemma SmallerOverflows(freq: nat, p: nat, k: nat)
    requires 1 <= freq <= FREQ_MAX_HZ && 1 <= k <= p - 1 && (p - 1) * 65536 < CLOCK_HZ / freq
    ensures !Fits(CLOCK_HZ / freq, k, false)
  {
    MulMono(k, p - 1, 65536);
    NoNearMiss(freq, k);
    assert 65537 * k == k * 65537;
    DivAtLeast(CLOCK_HZ / freq, k, 65537);
  }

  lemma LargerDivisor(n: nat, p: nat, k: nat)
    requires 1 <= p <= k
    ensures n / k <= n / p
  {
    DivFacts(n, p);
    MulMono(p, k, n / p + 1);
    assert (n / p + 1) * k == k * (n / p + 1) && n / p * p + p == p * (n / p + 1);
    DivAtMost(n, k, n / p);
  }

  lemma HalfRange(period: nat, p: nat)
    requires p >= 2 && (p - 1) * 65536 < period
    ensures period / p >= 32768
  {
    DivAtLeast(period, p, 32768);
  }

  /** Every frequency in 1 Hz .. 42 MHz is achievable on both counter widths, and optimally:
      no smaller prescaler fits, so the reload value is the largest possible. */
  lemma ComputeIsOptimal(freq: nat, wide: bool)
    requires 1 <= freq <= FREQ_MAX_HZ
    ensures Compute(freq, wide).Some? && Optimal(freq, wide, Compute(freq, wide).value)
    ensures !wide && Compute(freq, wide).value.psc > 0 ==> Compute(freq, wide).value.arr + 1 >= 32768
    ensures wide ==> Compute(freq, wide).value == Divider(0, CLOCK_HZ / freq - 1)
  {
    PeriodBounds(freq);
    var m, period := ArrMax(wide) + 1, CLOCK_HZ / freq;
    var p := (period + m - 1) / m;
    CeilIsSmallest(period, m, p);
    PrescalerBounds(period, wide, p);
    var q := period / p;
    DivFacts(period, p);
    DivAtLeast(period, p, 1);
    QuotientFits(period, p, m);
    assert Compute(freq, wide) == Some(Divider(p - 1, q - 1));
    forall k {:trigger Fits(period, k, wide)} | k >= 1 && Fits(period, k, wide)
      ensures p <= k && period / k - 1 <= q - 1
    {
      if k <= p - 1 {
        SmallerOverflows(freq, p, k);
      }
      LargerDivisor(period, p, k);
    }
    assert p * q == q * p;
    if !wide && p > 1 {
      HalfRange(period, p);
    }
  }

  // ---------------------------------------------------------------- duty to compare value

  // compute_ccr, with its 32-bit unsigned arithmetic
  function ComputeCcr(arr: nat, duty: nat): nat {
    if duty == 0 then 0
    else if duty >= DUTY_MAX then arr
    else (arr + 1) % U32 * duty % U32 / DUTY_MAX
  }

  /** The 32-bit product is the exact one. */
  predicate Exact(arr: nat, duty: nat) {
    (arr + 1) * duty < U32
  }

  /** Reload value a frequency gets on a counter width. */
  function Reload(freq: nat, wide: bool): nat
    requires 1 <= freq <= FREQ_MAX_HZ
  {
    ComputeIsOptimal(freq, wide);
    Compute(freq, wide).value.arr
  }

  lemma NarrowIsExact(freq: nat, duty: nat)
    requires 1 <= freq <= FREQ_MAX_HZ && duty <= DUTY_MAX
    ensures Exact(Reload(freq, false), duty)
  {
    ComputeIsOptimal(freq, false);
    var a := Reload(freq, false) + 1;
    MulMono(a, 65536, duty);
  }

  lemma WideExactFrom196(freq: nat, duty: nat)
    requires 196 <= freq <= FREQ_MAX_HZ && duty < DUTY_MAX
    ensures Exact(Reload(freq, true), duty)
  {
    ComputeIsOptimal(freq, true);
    hide Compute;
    LargerDivisor(CLOCK_HZ, 196, freq);
    MulMono(Reload(freq, true) + 1, 428571, duty);
  }

  lemma WideWrapsBelow196(freq: nat)
    requires 1 <= freq < 196
    ensures var arr := Reload(freq, true);
      !Exact(arr, 9999) && ComputeCcr(arr, 9999) != (arr + 1) * 9999 / DUTY_MAX
  {
    ComputeIsOptimal(freq, true);
    PeriodBounds(freq);
    hide Compute;
    LargerDivisor(CLOCK_HZ, freq, 195);
    WrappedIsSmaller((Reload(freq, true) + 1) * 9999);
  }

  lemma WrappedIsSmaller(x: nat)
    requires x >= U32
    ensures x % U32 / DUTY_MAX < x / DUTY_MAX
  {}

  /** On a 32-bit timer every duty up to 99.99 % multiplies exactly from 196 Hz up, and only
      from there: below it the compare value for 99.99 % comes out wrong. */
  lemma WideIsExactFrom196(freq: nat)
    requires 1 <= freq <= FREQ_MAX_HZ
    ensures freq >= 196 <==> forall duty :: 0 <= duty < DUTY_MAX ==> Exact(Reload(freq, true), duty)
    ensures freq < 196 ==> ComputeCcr(Reload(freq, true), 9999) != (Reload(freq, true) + 1) * 9999 / DUTY_MAX
  {
    hide Exact, ComputeCcr, Reload;
    if freq >= 196 {
      forall duty | 0 <= duty < DUTY_MAX
        ensures Exact(Reload(freq, true), duty)
      {
        WideExactFrom196(freq, duty);
      }
    } else {
      WideWrapsBelow196(freq);
    }
  }

  /** Between the two special cases an exact product makes the plain quotient. */
  lemma CcrIsQuotient(arr: nat, duty: nat)
    requires arr < U32 - 1 && 0 < duty < DUTY_MAX && Exact(arr, duty)
    ensures ComputeCcr(arr, duty) == (arr + 1) * duty / DUTY_MAX
  {}

  /** Where the product is exact the compare value stays below the reload value and is the
      requested share of the period to within one count. */
  lemma CcrAccurate(arr: nat, duty: nat)
    requires arr < U32 - 1 && duty <= DUTY_MAX && (duty < DUTY_MAX ==> Exact(arr, duty))
    ensures ComputeCcr(arr, duty) <= arr
    ensures -10_000 <= ComputeCcr(arr, duty) * DUTY_MAX - duty * (arr + 1) <= 10_000
  {
    if 0 < duty < DUTY_MAX {
      CcrIsQuotient(arr, duty);
      hide ComputeCcr;
      var a := arr + 1;
      DivFacts(a * duty, DUTY_MAX);
      MulMono(duty, DUTY_MAX - 1, a);
      assert a * duty == duty * a;
    }
  }

  lemma QuotientMono(m: nat, n: nat, p: nat)
    requires p > 0 && m <= n
    ensures m / p <= n / p
  {
    DivFacts(m, p);
    DivAtLeast(n, p, m / p);
  }

  lemma CcrMonotone(arr: nat, d1: nat, d2: nat)
    requires arr < U32 - 1 && d1 <= d2 <= DUTY_MAX && Exact(arr, DUTY_MAX - 1)
    ensures ComputeCcr(arr, d1) <= ComputeCcr(arr, d2)
  {
    var a := arr + 1;
    if d1 == 0 {
    } else if d2 == DUTY_MAX {
      if d1 < DUTY_MAX {
        MulMono(d1, DUTY_MAX - 1, a);
        assert a * d1 == d1 * a;
        CcrAccurate(arr, d1);
      }
    } else {
      MulMono(d1, d2, a);
      MulMono(d2, DUTY_MAX - 1, a);
      assert a * d1 == d1 * a && a * d2 == d2 * a;
      CcrIsQuotient(arr, d1);
      CcrIsQuotient(arr, d2);
      QuotientMono(a * d1, a * d2, DUTY_MAX);
    }
  }

  /** Duty conversion is accurate and monotone on every 16-bit timer, and on 32-bit timers
      from 196 Hz up. */
  lemma DutyConversion(freq: nat, wide: bool, d1: nat, d2: nat)
    requires 1 <= freq <= FREQ_MAX_HZ && (wide ==> freq >= 196) && d1 <= d2 <= DUTY_MAX
    ensures var arr := Reload(freq, wide);
      && ComputeCcr(arr, d1) <= ComputeCcr(arr, d2) <= arr
      && -10_000 <= ComputeCcr(arr, d1) * DUTY_MAX - d1 * (arr + 1) <= 10_000
  {
    hide ComputeCcr;
    var arr := Reload(freq, wide);
    ComputeIsOptimal(freq, wide);
    PeriodBounds(freq);
    if wide {
      WideIsExactFrom196(freq);
    } else {
      NarrowIsExact(freq, DUTY_MAX - 1);
      if d1 < DUTY_MAX { NarrowIsExact(freq, d1); }
      if d2 < DUTY_MAX { NarrowIsExact(freq, d2); }
    }
    assert Exact(arr, DUTY_MAX - 1);
    CcrAccurate(arr, d1);
    CcrAccurate(arr, d2);
    CcrMonotone(arr, d1, d2);
  }
}
