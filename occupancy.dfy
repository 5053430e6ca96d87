/** The rate estimator and the dual-rate smoother of the IIO occupancy
    collector (`update_occ`), as functions of the counter samples.

    `OccStep` is the update the rest of the model uses; it differs from the
    code as written in the two places recorded under "Findings" in the
    README. `UpdateOccAsWritten` is the code as written, kept beside it so
    that both discrepancies can be exhibited. Floating-point accumulators are
    modelled as `real`. */
module Occupancy {
  import opened Machine

  /** Readings at or below this occupancy are treated as noise. */
  const NOISE_FLOOR: int := 10
  /** Weight of the short-term moving average. */
  const WEIGHT_FACTOR: nat := 8
  /** Weight of the long-term moving average. */
  const WEIGHT_FACTOR_LONG_TERM: nat := 256

  /** The globals `update_occ` reads and writes besides the counter samples. */
  datatype OccState = OccState(
    latestTimeDeltaNs: U64,
    latestAvgOcc: U64,
    smoothedAvgOcc: U64,
    smoothedAvgOccLongterm: U64,
    smoothedAvgOccF: real,
    smoothedAvgOccLongtermF: real)

  /** All globals start at zero. */
  const ZERO_STATE: OccState := OccState(0, 0, 0, 0, 0.0, 0.0)

  /** Elapsed nanoseconds between two TSC readings:
      `((cur - prev) * 10) / 33` in `uint64_t`, i.e. ticks of a 3.3 GHz clock. */
  function TimeDeltaNs(prevTsc: U64, curTsc: U64): (td: U64)
    ensures 33 * td <= Mul64(Sub64(curTsc, prevTsc), 10) < 33 * td + 33
  {
    Mul64(Sub64(curTsc, prevTsc), 10) / 33
  }

  /** Two equal time references give a zero interval. */
  lemma EqualTscGivesZeroDelta(t: U64)
    ensures TimeDeltaNs(t, t) == 0
  {
  }

  /** Without wrap-around the interval is the exact integer conversion,
      and it is below 1 ns for up to three ticks and exactly 1 ns for four
      to six ticks (the case in which the halved divisor is zero). */
  lemma TimeDeltaOfTicks(prevTsc: U64, curTsc: U64)
    requires prevTsc <= curTsc && (curTsc - prevTsc) * 10 < TWO_64
    ensures TimeDeltaNs(prevTsc, curTsc) == (curTsc - prevTsc) * 10 / 33
    ensures TimeDeltaNs(prevTsc, curTsc) == 0 <==> curTsc - prevTsc <= 3
    ensures TimeDeltaNs(prevTsc, curTsc) == 1 <==> 4 <= curTsc - prevTsc <= 6
  {
    var ticks := curTsc - prevTsc;
    assert Sub64(curTsc, prevTsc) == ticks;
    assert Mul64(ticks, 10) == ticks * 10;
  }

  /** Average occupancy over the interval: the occupancy delta (`uint64_t`)
      divided by half the interval in nanoseconds (`td >> 1`). */
  function AvgOcc(prevOcc: U64, curOcc: U64, td: U64): (avg: U64)
    requires td / 2 > 0
    ensures avg <= Sub64(curOcc, prevOcc)
  {
    QuotientAtMost(Sub64(curOcc, prevOcc), td / 2);
    Sub64(curOcc, prevOcc) / (td / 2)
  }

  /** A quotient of naturals is a natural no larger than the dividend. */
  lemma QuotientAtMost(n: nat, d: nat)
    requires d > 0
    ensures 0 <= n / d <= n
  {
    EuclidBounds(n, d, n / d, n % d);
  }

  /** The quotient in `n == d * q + m` with `0 <= m < d` lies in `[0, n]`. */
  lemma EuclidBounds(n: nat, d: nat, q: int, m: int)
    requires d > 0 && n == d * q + m && 0 <= m < d
    ensures 0 <= q <= n
  {
    if q >= 0 {
      assert d * q == q + (d - 1) * q;
      NatProduct(d - 1, q);
    }
  }

  /** The average is the occupancy delta per half-nanosecond, rounded down. */
  lemma AvgOccRoundsDown(prevOcc: U64, curOcc: U64, td: U64)
    requires td / 2 > 0
    ensures var avg := AvgOcc(prevOcc, curOcc, td);
      avg * (td / 2) <= Sub64(curOcc, prevOcc) < (avg + 1) * (td / 2)
  {
    DivBounds(Sub64(curOcc, prevOcc), td / 2);
  }

  /** Bounds of unsigned integer division. */
  lemma DivBounds(n: nat, d: nat)
    requires d > 0
    ensures (n / d) * d <= n < (n / d + 1) * d
    ensures n / d <= n
  {
    var q, m := n / d, n % d;
    assert n == q * d + m;
    assert (q + 1) * d == q * d + d;
    NatProduct(q, d - 1);
    assert q * d == q * (d - 1) + q;
  }

  lemma NatProduct(a: nat, b: nat)
    ensures 0 <= a * b
  {
  }

  /** One step of an exponentially weighted moving average of weight `w`:
      `((w - 1) * acc + x) / w`. The distance to `x` shrinks by `(w - 1) / w`
      and the new value lies between `acc` and `x`. */
  function Ewma(acc: real, x: real, w: nat): (r: real)
    requires w >= 1
    ensures acc <= x ==> acc <= r <= x
    ensures x <= acc ==> x <= r <= acc
  {
    EwmaDistance(acc, x, w);
    ((w - 1) as real * acc + x) / w as real
  }

  /** The distance of the new average to `x` is the old distance scaled by
      `(w - 1) / w`; hence the new value lies between `acc` and `x`. */
  lemma EwmaDistance(acc: real, x: real, w: nat)
    requires w >= 1
    ensures var r := ((w - 1) as real * acc + x) / w as real;
      && (r - x) * w as real == (acc - x) * (w - 1) as real
      && (acc <= x ==> acc <= r <= x)
      && (x <= acc ==> x <= r <= acc)
  {
    var v, u := (w - 1) as real, w as real;
    assert v == u - 1.0;
    var r := (v * acc + x) / u;
    assert r * u == v * acc + x;
    assert (r - x) * u == (acc - x) * v;
    assert (r - acc) * u == x - acc;
    if acc <= x {
      SignOfProduct(r - x, u);
      SignOfProduct(acc - r, u);
    } else {
      SignOfProduct(x - r, u);
      SignOfProduct(r - acc, u);
    }
  }

  /** A product with a positive factor has the sign of the other factor. */
  lemma SignOfProduct(a: real, w: real)
    requires w > 0.0
    ensures a * w <= 0.0 ==> a <= 0.0
    ensures a * w < 0.0 ==> a < 0.0
  {
  }

  /** The conversion `(uint64_t)f` of a non-negative float in range: truncation. */
  function Trunc(f: real): (r: U64)
    requires 0.0 <= f < TWO_64 as real
    ensures r as real <= f < r as real + 1.0
  {
    f.Floor
  }

  /** The invariant the smoother keeps: both accumulators stay in the range
      of `uint64_t`, so the casts are defined, and each integer value is the
      truncation of its accumulator. */
  predicate Consistent(s: OccState)
  {
    && 0.0 <= s.smoothedAvgOccF < TWO_64 as real
    && 0.0 <= s.smoothedAvgOccLongtermF < TWO_64 as real
    && s.smoothedAvgOcc == Trunc(s.smoothedAvgOccF)
    && s.smoothedAvgOccLongterm == Trunc(s.smoothedAvgOccLongtermF)
  }

  /** The moving averages after an observation above the noise floor. */
  function Smooth(s: OccState, avg: U64): (r: OccState)
    requires Consistent(s)
    ensures Consistent(r)
  {
    var shortF := Ewma(s.smoothedAvgOccF, avg as real, WEIGHT_FACTOR);
    var longF := Ewma(s.smoothedAvgOccLongtermF, avg as real, WEIGHT_FACTOR_LONG_TERM);
    s.(smoothedAvgOcc := Trunc(shortF), smoothedAvgOccF := shortF,
       smoothedAvgOccLongterm := Trunc(longF), smoothedAvgOccLongtermF := longF)
  }

  /** `update_occ` with both defects corrected: an interval whose half is
      zero is skipped like a zero interval, and each moving average is
      computed from its own accumulator. */
  function OccStep(s: OccState, prevTsc: U64, curTsc: U64, prevOcc: U64, curOcc: U64): (r: OccState)
    requires Consistent(s)
    ensures Consistent(r)
  {
    var td := TimeDeltaNs(prevTsc, curTsc);
    if td / 2 == 0 then s.(latestTimeDeltaNs := td)
    else
      var avg := AvgOcc(prevOcc, curOcc, td);
      var s' := s.(latestTimeDeltaNs := td, latestAvgOcc := avg);
      if avg > NOISE_FLOOR then Smooth(s', avg) else s'
  }

  /** What one corrected step promises: the interval is always recorded;
      an interval whose half is zero changes nothing else; otherwise the
      average is recorded, and it moves both moving averages toward itself
      exactly when it is above the noise floor. */
  lemma OccStepSpec(s: OccState, prevTsc: U64, curTsc: U64, prevOcc: U64, curOcc: U64)
    requires Consistent(s)
    ensures var r := OccStep(s, prevTsc, curTsc, prevOcc, curOcc);
      && r.latestTimeDeltaNs == TimeDeltaNs(prevTsc, curTsc)
      && (r.latestTimeDeltaNs / 2 == 0 ==> r == s.(latestTimeDeltaNs := r.latestTimeDeltaNs))
      && (r.latestTimeDeltaNs / 2 > 0 ==> r.latestAvgOcc == AvgOcc(prevOcc, curOcc, r.latestTimeDeltaNs))
      && (r.latestAvgOcc <= NOISE_FLOOR || r.latestTimeDeltaNs / 2 == 0 ==>
            && r.smoothedAvgOcc == s.smoothedAvgOcc && r.smoothedAvgOccF == s.smoothedAvgOccF
            && r.smoothedAvgOccLongterm == s.smoothedAvgOccLongterm
            && r.smoothedAvgOccLongtermF == s.smoothedAvgOccLongtermF)
      && (r.latestTimeDeltaNs / 2 > 0 && r.latestAvgOcc > NOISE_FLOOR ==>
            && r.smoothedAvgOccF == Ewma(s.smoothedAvgOccF, r.latestAvgOcc as real, WEIGHT_FACTOR)
            && r.smoothedAvgOccLongtermF == Ewma(s.smoothedAvgOccLongtermF, r.latestAvgOcc as real, WEIGHT_FACTOR_LONG_TERM)
            && r.smoothedAvgOcc == Trunc(r.smoothedAvgOccF)
            && r.smoothedAvgOccLongterm == Trunc(r.smoothedAvgOccLongtermF))
  {
  }

  /** Outcome of `update_occ` as written: either the next state, or the
      integer division by zero that stops the process. */
  datatype Outcome = Updated(next: OccState) | DivideByZero

  /** `update_occ` exactly as written: the guard tests the interval, not the
      halved divisor, and the short-term average is computed from the
      long-term accumulator. */
  function UpdateOccAsWritten(s: OccState, prevTsc: U64, curTsc: U64, prevOcc: U64, curOcc: U64): (r: Outcome)
    requires Consistent(s)
    ensures r.DivideByZero? <==> TimeDeltaNs(prevTsc, curTsc) == 1
    ensures r.Updated? ==> Consistent(r.next) && r.next.latestTimeDeltaNs == TimeDeltaNs(prevTsc, curTsc)
    ensures TimeDeltaNs(prevTsc, curTsc) == 0 ==> r == Updated(s.(latestTimeDeltaNs := 0))
    ensures r.Updated? && r.next.latestTimeDeltaNs > 0 ==>
      r.next.latestTimeDeltaNs / 2 > 0 && r.next.latestAvgOcc == AvgOcc(prevOcc, curOcc, r.next.latestTimeDeltaNs)
    ensures r.Updated? && r.next.latestAvgOcc <= NOISE_FLOOR ==>
      && r.next.smoothedAvgOcc == s.smoothedAvgOcc && r.next.smoothedAvgOccF == s.smoothedAvgOccF
      && r.next.smoothedAvgOccLongterm == s.smoothedAvgOccLongterm
      && r.next.smoothedAvgOccLongtermF == s.smoothedAvgOccLongtermF
    ensures r.Updated? && r.next.latestTimeDeltaNs > 0 && r.next.latestAvgOcc > NOISE_FLOOR ==>
      && r.next.smoothedAvgOccF == Ewma(s.smoothedAvgOccLongtermF, r.next.latestAvgOcc as real, WEIGHT_FACTOR)
      && r.next.smoothedAvgOccLongtermF == Ewma(s.smoothedAvgOccLongtermF, r.next.latestAvgOcc as real, WEIGHT_FACTOR_LONG_TERM)
  {
    var td := TimeDeltaNs(prevTsc, curTsc);
    if td == 0 then Updated(s.(latestTimeDeltaNs := td))
    else if td / 2 == 0 then DivideByZero
    else
      var avg := AvgOcc(prevOcc, curOcc, td);
      var s' := s.(latestTimeDeltaNs := td, latestAvgOcc := avg);
      if avg <= NOISE_FLOOR then Updated(s')
      else
        var shortF := Ewma(s.smoothedAvgOccLongtermF, avg as real, WEIGHT_FACTOR);
        var longF := Ewma(s.smoothedAvgOccLongtermF, avg as real, WEIGHT_FACTOR_LONG_TERM);
        Updated(s'.(smoothedAvgOcc := Trunc(shortF), smoothedAvgOccF := shortF,
                    smoothedAvgOccLongterm := Trunc(longF), smoothedAvgOccLongtermF := longF))
  }

  /** The two versions differ only in the two defects: away from a 1 ns
      interval, and while the two accumulators are equal, they agree. */
  lemma AsWrittenAgreesAwayFromDefects(s: OccState, prevTsc: U64, curTsc: U64, prevOcc: U64, curOcc: U64)
    requires Consistent(s)
    requires TimeDeltaNs(prevTsc, curTsc) != 1
    requires s.smoothedAvgOccF == s.smoothedAvgOccLongtermF
    ensures UpdateOccAsWritten(s, prevTsc, curTsc, prevOcc, curOcc) == Updated(OccStep(s, prevTsc, curTsc, prevOcc, curOcc))
  {
  }

  /** A TSC advance of four ticks passes the guard of the code as written and
      then divides by zero; the corrected step skips it. */
  lemma DivisionByZeroWitness()
    ensures TimeDeltaNs(0, 4) == 1
    ensures UpdateOccAsWritten(ZERO_STATE, 0, 4, 0, 0) == DivideByZero
    ensures OccStep(ZERO_STATE, 0, 4, 0, 0) == ZERO_STATE.(latestTimeDeltaNs := 1)
  {
  }

  /** In the code as written the short-term average is a function of the
      long-term accumulator alone: its own accumulator is never read. */
  lemma AsWrittenShortIgnoresOwnAccumulator(s: OccState, t: OccState, prevTsc: U64, curTsc: U64, prevOcc: U64, curOcc: U64)
    requires Consistent(s) && Consistent(t)
    requires s.smoothedAvgOccLongtermF == t.smoothedAvgOccLongtermF
    ensures UpdateOccAsWritten(s, prevTsc, curTsc, prevOcc, curOcc).Updated? ==>
      var r := UpdateOccAsWritten(s, prevTsc, curTsc, prevOcc, curOcc).next;
      var q := UpdateOccAsWritten(t, prevTsc, curTsc, prevOcc, curOcc).next;
      r.latestAvgOcc > NOISE_FLOOR && r.latestTimeDeltaNs > 0 ==> r.smoothedAvgOccF == q.smoothedAvgOccF
  {
  }

  /** Two observations of occupancy 80 starting from zero (TSC advancing 66
      ticks, i.e. 20 ns, and occupancy 800 per sample): the corrected
      short-term average goes 10, then 18 (18.75 truncated); the code as
      written yields 10, then 10, because its second step starts from the
      long-term accumulator (0.3125) instead of 10. */
  lemma ShortTermScenario()
    ensures OccStep(ZERO_STATE, 0, 66, 0, 800).smoothedAvgOcc == 10
    ensures OccStep(OccStep(ZERO_STATE, 0, 66, 0, 800), 66, 132, 800, 1600).smoothedAvgOcc == 18
    ensures UpdateOccAsWritten(ZERO_STATE, 0, 66, 0, 800).next.smoothedAvgOcc == 10
    ensures UpdateOccAsWritten(UpdateOccAsWritten(ZERO_STATE, 0, 66, 0, 800).next, 66, 132, 800, 1600).next.smoothedAvgOcc == 10
  {
    assert TimeDeltaNs(0, 66) == 20 && TimeDeltaNs(66, 132) == 20;
    assert AvgOcc(0, 800, 20) == 80 && AvgOcc(800, 1600, 20) == 80;
    var s1 := OccStep(ZERO_STATE, 0, 66, 0, 800);
    assert s1.smoothedAvgOccF == 10.0 && s1.smoothedAvgOccLongtermF == 0.3125;
    var s2 := OccStep(s1, 66, 132, 800, 1600);
    assert s2.smoothedAvgOccF == 18.75;
    var w1 := UpdateOccAsWritten(ZERO_STATE, 0, 66, 0, 800).next;
    assert w1 == s1;
    var w2 := UpdateOccAsWritten(w1, 66, 132, 800, 1600).next;
    assert w2.smoothedAvgOccF == 10.2734375;
  }

  /** `n` successive moving-average steps toward a constant observation `x`. */
  function Repeat(acc: real, x: real, w: nat, n: nat): real
    requires w >= 1
  {
    if n == 0 then acc else Ewma(Repeat(acc, x, w, n - 1), x, w)
  }

  /** Fed a constant observation from below, a moving average rises
      monotonically and never overshoots. */
  lemma {:induction false} RepeatMonotone(acc: real, x: real, w: nat, n: nat)
    requires w >= 1 && acc <= x
    ensures acc <= Repeat(acc, x, w, n) <= Repeat(acc, x, w, n + 1) <= x
  {
    if n > 0 {
      RepeatMonotone(acc, x, w, n - 1);
    }
  }

  /** Negating the start and the observation negates every step, so what
      holds from below holds, mirrored, from above. */
  lemma {:induction false} RepeatMirror(acc: real, x: real, w: nat, n: nat)
    requires w >= 1
    ensures Repeat(-acc, -x, w, n) == -Repeat(acc, x, w, n)
  {
    if n > 0 {
      RepeatMirror(acc, x, w, n - 1);
      EwmaMirror(Repeat(acc, x, w, n - 1), x, w);
    }
  }

  /** One step of the moving average commutes with negation. */
  lemma EwmaMirror(a: real, x: real, w: nat)
    requires w >= 1
    ensures Ewma(-a, -x, w) == -Ewma(a, x, w)
  {
    var v, d := (w - 1) as real, w as real;
    var y := v * a + x;
    assert v * -a + -x == -y;
    var q := y / d;
    assert q * d == y;
    assert (-q) * d == -y;
  }

  /** Fed a constant observation from above, a moving average falls
      monotonically and never undershoots. */
  lemma RepeatMonotoneFromAbove(acc: real, x: real, w: nat, n: nat)
    requires w >= 1 && x <= acc
    ensures x <= Repeat(acc, x, w, n + 1) <= Repeat(acc, x, w, n) <= acc
  {
    RepeatMonotone(-acc, -x, w, n);
    RepeatMirror(acc, x, w, n);
    RepeatMirror(acc, x, w, n + 1);
  }

  /** Started strictly below a constant observation, a moving average with
      weight at least 2 stays strictly below it. */
  lemma {:induction false} RepeatBelow(acc: real, x: real, w: nat, n: nat)
    requires w >= 2 && acc < x
    ensures Repeat(acc, x, w, n) < x
  {
    if n > 0 {
      RepeatBelow(acc, x, w, n - 1);
      var prev := Repeat(acc, x, w, n - 1);
      EwmaDistance(prev, x, w);
      NegativeProduct(prev - x, (w - 1) as real);
      SignOfProduct(Repeat(acc, x, w, n) - x, w as real);
    }
  }

  /** A negative number times a positive one is negative. */
  lemma NegativeProduct(a: real, v: real)
    requires a < 0.0 && v > 0.0
    ensures a * v < 0.0
  {
  }

  /** Fed the same constant observation from the same start, the short-term
      average is never farther from it than the long-term one, and strictly
      closer after at least one step from a start below it. */
  lemma {:induction false} ShortConvergesFaster(acc: real, x: real, n: nat)
    requires acc <= x
    ensures 0.0 <= x - Repeat(acc, x, WEIGHT_FACTOR, n) <= x - Repeat(acc, x, WEIGHT_FACTOR_LONG_TERM, n)
    ensures acc < x && n > 0 ==> x - Repeat(acc, x, WEIGHT_FACTOR, n) < x - Repeat(acc, x, WEIGHT_FACTOR_LONG_TERM, n)
  {
    if n > 0 {
      ShortConvergesFaster(acc, x, n - 1);
      EwmaDistance(Repeat(acc, x, WEIGHT_FACTOR, n - 1), x, WEIGHT_FACTOR);
      EwmaDistance(Repeat(acc, x, WEIGHT_FACTOR_LONG_TERM, n - 1), x, WEIGHT_FACTOR_LONG_TERM);
      var gs := x - Repeat(acc, x, WEIGHT_FACTOR, n - 1);
      var gl := x - Repeat(acc, x, WEIGHT_FACTOR_LONG_TERM, n - 1);
      assert (x - Repeat(acc, x, WEIGHT_FACTOR, n)) * 8.0 == gs * 7.0;
      assert (x - Repeat(acc, x, WEIGHT_FACTOR_LONG_TERM, n)) * 256.0 == gl * 255.0;
      if acc < x {
        RepeatBelow(acc, x, WEIGHT_FACTOR_LONG_TERM, n - 1);
        assert 0.0 < gl;
      }
    }
  }

  /** Fed the same constant observation from the same start above it, the
      short-term average is never farther from it than the long-term one,
      and strictly closer after at least one step from a start strictly
      above. */
  lemma ShortConvergesFasterFromAbove(acc: real, x: real, n: nat)
    requires x <= acc
    ensures 0.0 <= Repeat(acc, x, WEIGHT_FACTOR, n) - x <= Repeat(acc, x, WEIGHT_FACTOR_LONG_TERM, n) - x
    ensures x < acc && n > 0 ==> Repeat(acc, x, WEIGHT_FACTOR, n) - x < Repeat(acc, x, WEIGHT_FACTOR_LONG_TERM, n) - x
  {
    ShortConvergesFaster(-acc, -x, n);
    RepeatMirror(acc, x, WEIGHT_FACTOR, n);
    RepeatMirror(acc, x, WEIGHT_FACTOR_LONG_TERM, n);
  }

  /** The two samples `update_occ` compares: TSC and cumulative occupancy
      before and after one interval. */
  datatype Interval = Interval(prevTsc: U64, curTsc: U64, prevOcc: U64, curOcc: U64)

  /** The corrected step applied to each interval in turn. */
  function Run(s: OccState, ivs: seq<Interval>): (r: OccState)
    requires Consistent(s)
    ensures Consistent(r)
  {
    if ivs == [] then s
    else
      var n := |ivs| - 1;
      var iv := ivs[n];
      OccStep(Run(s, ivs[..n]), iv.prevTsc, iv.curTsc, iv.prevOcc, iv.curOcc)
  }

  /** An interval long enough to measure whose average occupancy is `avg`. */
  predicate Steady(iv: Interval, avg: U64)
  {
    var td := TimeDeltaNs(iv.prevTsc, iv.curTsc);
    td / 2 > 0 && AvgOcc(iv.prevOcc, iv.curOcc, td) == avg
  }

  /** A run of intervals that all average the same occupancy above the
      noise floor moves each float accumulator exactly as `Repeat` does with
      its own weight. */
  lemma {:induction false} SteadyRunRepeats(s: OccState, ivs: seq<Interval>, avg: U64)
    requires Consistent(s) && avg > NOISE_FLOOR
    requires forall i :: 0 <= i < |ivs| ==> Steady(ivs[i], avg)
    ensures Run(s, ivs).smoothedAvgOccF == Repeat(s.smoothedAvgOccF, avg as real, WEIGHT_FACTOR, |ivs|)
    ensures Run(s, ivs).smoothedAvgOccLongtermF == Repeat(s.smoothedAvgOccLongtermF, avg as real, WEIGHT_FACTOR_LONG_TERM, |ivs|)
  {
    if ivs != [] {
      var n := |ivs| - 1;
      var iv := ivs[n];
      SteadyRunRepeats(s, ivs[..n], avg);
      assert Steady(iv, avg);
      OccStepSpec(Run(s, ivs[..n]), iv.prevTsc, iv.curTsc, iv.prevOcc, iv.curOcc);
    }
  }

  /** Fed a steady average occupancy above the noise floor from a state in
      which both accumulators agree, the short-term average is never farther
      from it than the long-term one, from below as from above, and strictly
      closer after at least one interval unless it started there. */
  lemma SteadyShortCloser(s: OccState, ivs: seq<Interval>, avg: U64)
    requires Consistent(s) && avg > NOISE_FLOOR
    requires s.smoothedAvgOccF == s.smoothedAvgOccLongtermF
    requires forall i :: 0 <= i < |ivs| ==> Steady(ivs[i], avg)
    ensures s.smoothedAvgOccF <= avg as real ==>
      0.0 <= avg as real - Run(s, ivs).smoothedAvgOccF <= avg as real - Run(s, ivs).smoothedAvgOccLongtermF
    ensures s.smoothedAvgOccF < avg as real && ivs != [] ==>
      avg as real - Run(s, ivs).smoothedAvgOccF < avg as real - Run(s, ivs).smoothedAvgOccLongtermF
    ensures avg as real <= s.smoothedAvgOccF ==>
      0.0 <= Run(s, ivs).smoothedAvgOccF - avg as real <= Run(s, ivs).smoothedAvgOccLongtermF - avg as real
    ensures avg as real < s.smoothedAvgOccF && ivs != [] ==>
      Run(s, ivs).smoothedAvgOccF - avg as real < Run(s, ivs).smoothedAvgOccLongtermF - avg as real
  {
    SteadyRunRepeats(s, ivs, avg);
    if s.smoothedAvgOccF <= avg as real {
      ShortConvergesFaster(s.smoothedAvgOccF, avg as real, |ivs|);
    }
    if avg as real <= s.smoothedAvgOccF {
      ShortConvergesFasterFromAbove(s.smoothedAvgOccF, avg as real, |ivs|);
    }
  }
}
