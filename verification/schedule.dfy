/** Time as the driver's scheduler reads it: `timespec` values from the
    monotonic clock, compared through `diff_ms`. */
module Schedule {

  /** A `timespec`: whole seconds and nanoseconds. */
  datatype Timespec = Timespec(sec: int, nsec: int)

  /** C's integer division, which discards the fractional part (rounds toward
      zero), unlike Dafny's Euclidean `/`. */
  function TruncDiv(a: int, b: int): (q: int)
    requires b > 0
    ensures a >= 0 ==> q >= 0 && q * b <= a < q * b + b
    ensures a < 0 ==> q <= 0 && q * b - b < a <= q * b
  {
    if a >= 0 then a / b else -((-a) / b)
  }

  /** `diff_ms(curr, prev)`: whole-second difference times 1000 plus the
      nanosecond difference divided (truncating) by 100000. The divisor makes
      the sub-second part count tenths of a millisecond. The result's
      narrowing to a 32-bit `int` is not modelled. */
  function DiffMs(curr: Timespec, prev: Timespec): (ms: int)
    ensures var whole := ((curr.sec - prev.sec) * 1000) as real;
            var sub := (curr.nsec - prev.nsec) as real / 100000.0;
            && (sub >= 0.0 ==> whole <= ms as real <= whole + sub < ms as real + 1.0)
            && (sub < 0.0 ==> ms as real - 1.0 < whole + sub <= ms as real <= whole)
  {
    (curr.sec - prev.sec) * 1000 + TruncDiv(curr.nsec - prev.nsec, 100000)
  }

  /** A stream whose timer was last reset at `timer` is due at `now`: the
      (truncated) elapsed time has reached the period. */
  predicate Due(now: Timespec, timer: Timespec, period: real)
  {
    DiffMs(now, timer) as real >= period
  }

  /** A timer read at the very instant it was reset is due exactly when the
      period is not positive (as `(1/FREQ)*1000` is when the frequency is an
      integer above 1). */
  lemma DueAtReset(t: Timespec, period: real)
    ensures Due(t, t, period) <==> period <= 0.0
  {
    DiffMsAntisymmetric(t, t);
  }

  /** Truncating division is odd: negating the dividend negates the quotient. */
  lemma TruncDivNegate(a: int, b: int)
    requires b > 0
    ensures TruncDiv(-a, b) == -TruncDiv(a, b)
  {
    if a > 0 {
      assert TruncDiv(-a, b) == -(a / b);
    } else if a < 0 {
      assert TruncDiv(a, b) == -((-a) / b);
    }
  }

  /** Swapping the two times negates `diff_ms`. */
  lemma DiffMsAntisymmetric(t: Timespec, u: Timespec)
    ensures DiffMs(t, u) == -DiffMs(u, t)
    ensures DiffMs(t, t) == 0
  {
    TruncDivNegate(t.nsec - u.nsec, 100000);
  }

  /** Within one second, `diff_ms` counts 100000 ns steps: a gap of `k` such
      steps reads as `k`. */
  lemma DiffMsSubSecond(s: int, n: int, k: int)
    ensures DiffMs(Timespec(s, n + 100000 * k), Timespec(s, n)) == k
  {
    var d := n + 100000 * k - n;
    assert d == k * 100000;
    if k >= 0 {
      assert TruncDiv(d, 100000) == k;
    } else {
      assert -d == (-k) * 100000;
      assert (-d) / 100000 == -k;
    }
  }

  /** Whole seconds with equal nanoseconds count 1000 per second. */
  lemma DiffMsWholeSeconds(s: int, n: int, k: int)
    ensures DiffMs(Timespec(s + k, n), Timespec(s, n)) == 1000 * k
  {
  }
}
