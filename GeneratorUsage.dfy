/**
 * What a caller of `RangeIntervalGenerator` can rely on, derived from the
 * class's contracts alone: each method builds a generator through a factory,
 * queries it and advances it.
 */
module GeneratorUsage {
  import opened JavaLong
  import opened JavaCalendar
  import opened IntervalSteps
  import opened Algorithm

  /** `getInstance(s, e)` exposes `[s, e)` at once; the first `evaluate` moves `start` to `e` and reports false. */
  method PlainRangeIsOneShot(s: long, e: long) returns (lo: long, hi: long, more: bool, after: long)
    ensures lo == s && hi == e
    ensures !more && after == e
  {
    var g := RangeIntervalGenerator.GetInstance(s, e);
    lo, hi := g.CurrentStart(), g.CurrentEnd();
    more := g.Evaluate();
    after := g.CurrentStart();
  }

  /**
   * `betweenInstance(s, e)` starts on the empty interval `[s, s)`; its first
   * `evaluate` keeps `s` and reports whether `s < e`. The interval it moves to
   * ends at `e + e` in `long`, clamped to `e`: that is `e` itself exactly when
   * `0 <= e <= MaxLong / 2` or `e < MinLong / 2`.
   */
  method BetweenInstanceFirstStep(s: long, e: long) returns (hi0: long, more: bool, lo: long, hi: long)
    ensures hi0 == s
    ensures lo == s
    ensures hi == Clamp(AddLong(e, e), e)
    ensures hi == e <==> (0 <= e <= MaxLong / 2 || e < MinLong / 2)
    ensures more <==> s < e
  {
    var g := RangeIntervalGenerator.BetweenInstance(s, e);
    hi0 := g.CurrentEnd();
    more := g.Evaluate();
    lo, hi := g.CurrentStart(), g.CurrentEnd();
  }

  /**
   * `betweenInstance(0, Long.MAX_VALUE)`: `end + end` wraps to -2, so the first
   * `evaluate` moves to `[0, -2)`, an interval of negative length, and reports true.
   */
  method BetweenInstanceWrappedEnd() returns (more: bool, lo: long, hi: long)
    ensures more && lo == 0 && hi == -2
  {
    var g := RangeIntervalGenerator.BetweenInstance(0, MaxLong);
    more := g.Evaluate();
    lo, hi := g.CurrentStart(), g.CurrentEnd();
  }

  /** `empty()` has no next interval and is exhausted on the first `evaluate`, and on the second. */
  method EmptyIsExhausted() returns (hasNext: bool, first: bool, second: bool)
    ensures !hasNext && !first && !second
  {
    var g := RangeIntervalGenerator.Empty();
    hasNext := g.HasNext();
    first := g.Evaluate();
    second := g.Evaluate();
  }

  /**
   * `getInstance()`: `end + step` wraps to -2 in `long`, so after the first
   * `evaluate` reports exhaustion the second one moves `start` back to -2 and
   * reports an interval again.
   */
  method UnboundedInstanceReopens() returns (first: bool, second: bool, reopenedAt: long)
    ensures !first && second && reopenedAt == -2
  {
    var g := RangeIntervalGenerator.GetDefaultInstance();
    first := g.Evaluate();
    second := g.Evaluate();
    reopenedAt := g.CurrentStart();
  }

  /**
   * A stepped range shorter than one calendar step: the only interval is
   * `[s, e)`, `hasNext` is false and the first `evaluate` reports false.
   */
  method SteppedShortRange(s: long, e: long, unit: int, add: FieldArithmetic)
    returns (lo: long, hi: long, hasNext: bool, more: bool)
    requires add(s, unit, 1) > e
    requires add(add(s, unit, 1), unit, 1) >= add(s, unit, 1)
    ensures lo == s && hi == e
    ensures !hasNext && !more
  {
    var g := RangeIntervalGenerator.GetSteppedInstance(s, e, unit, add);
    lo, hi := g.CurrentStart(), g.CurrentEnd();
    hasNext := g.HasNext();
    more := g.Evaluate();
  }

  /**
   * A stepped generator after two calls of `evaluate` is on the interval from two
   * to three steps past `s`, each clamped to `e`, with `nextEnd` four steps past `s`.
   */
  method SteppedSecondInterval(s: long, e: long, unit: int, add: FieldArithmetic)
    returns (lo: long, hi: long, next: long)
    ensures lo == Clamp(add(add(s, unit, 1), unit, 1), e)
    ensures hi == Clamp(add(add(add(s, unit, 1), unit, 1), unit, 1), e)
    ensures next == add(add(add(add(s, unit, 1), unit, 1), unit, 1), unit, 1)
  {
    var g := RangeIntervalGenerator.GetSteppedInstance(s, e, unit, add);
    var _ := g.Evaluate();
    var _ := g.Evaluate();
    lo, hi, next := g.CurrentStart(), g.CurrentEnd(), g.nextEnd;
  }
}
