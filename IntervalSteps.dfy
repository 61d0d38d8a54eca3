/**
 * The generator's state as a value, and the walk it performs over `[start, end)`.
 *
 * A `Window` is the generator's three moving instants: the current interval
 * `[start, currentEnd)` and the precomputed end `nextEnd` of the interval after
 * it. `Advance` is one call of `evaluate`; `Run` and `Walk` are repeated calls.
 */
module IntervalSteps {
  import opened JavaLong
  import opened JavaCalendar

  datatype Window = Window(start: long, currentEnd: long, nextEnd: long)

  /** How the boundary after `nextEnd` is computed. */
  datatype Rule =
    | Fixed(step: long)
    | Calendar(add: FieldArithmetic, unit: int, amount: int)

  function NextBoundary(rule: Rule, t: long): long {
    match rule
    case Fixed(step) => AddLong(t, step)
    case Calendar(add, unit, amount) => add(t, unit, amount)
  }

  /** `t` truncated to the overall end. */
  function Clamp(t: long, end: long): (r: long)
    ensures r <= end && r <= t
    ensures r == t || r == end
  {
    if t > end then end else t
  }

  /** One call of `evaluate`: the next interval starts where the current one ends. */
  function Advance(w: Window, end: long, rule: Rule): (r: Window)
    ensures r.start == w.currentEnd
    ensures r.currentEnd <= end && r.currentEnd <= w.nextEnd
    ensures r.currentEnd == end || r.currentEnd == w.nextEnd
  {
    Window(w.currentEnd, Clamp(w.nextEnd, end), NextBoundary(rule, w.nextEnd))
  }

  /** The result `evaluate` reports for the window it has just moved to. */
  predicate Continues(w: Window, end: long) {
    w.start < end
  }

  /** What `hasNext` reports. */
  predicate HasNext(w: Window, end: long) {
    w.nextEnd < end
  }

  /** `hasNext` looks two calls ahead: it holds iff the evaluate after next still reports an interval. */
  lemma HasNextLooksTwoAhead(w: Window, end: long, rule: Rule)
    ensures HasNext(w, end) <==> Continues(Advance(Advance(w, end, rule), end, rule), end)
  {
  }

  /** The window after `k` calls of `evaluate`. */
  function Run(w: Window, end: long, rule: Rule, k: nat): Window
    decreases k
  {
    if k == 0 then w else Run(Advance(w, end, rule), end, rule, k - 1)
  }

  /** The windows seen along `k` calls of `evaluate`, the current one first. */
  function Walk(w: Window, end: long, rule: Rule, k: nat): (ws: seq<Window>)
    ensures |ws| == k + 1
    ensures forall i :: 0 <= i <= k ==> ws[i] == Run(w, end, rule, i)
    ensures forall i :: 0 <= i < k ==> ws[i + 1].start == ws[i].currentEnd
    decreases k
  {
    if k == 0 then [w] else [w] + Walk(Advance(w, end, rule), end, rule, k - 1)
  }

  /** Instant `t` lies in the half-open interval of window `w`. */
  predicate Contains(w: Window, t: int) {
    w.start <= t < w.currentEnd
  }

  /**
   * The intervals of `ws`, in order, are contiguous, none has negative length,
   * the first starts at `lo` and the last ends at `hi`.
   */
  ghost predicate Tiles(ws: seq<Window>, lo: int, hi: int)
    decreases |ws|
  {
    |ws| > 0 && ws[0].start == lo && ws[0].start <= ws[0].currentEnd &&
    if |ws| == 1 then ws[0].currentEnd == hi else Tiles(ws[1..], ws[0].currentEnd, hi)
  }

  /** Some interval of `ws` contains instant `t`. */
  ghost predicate Covered(ws: seq<Window>, t: int) {
    exists i :: 0 <= i < |ws| && Contains(ws[i], t)
  }

  /** A tiling of `[lo, hi)` covers every instant of it exactly once and nothing else. */
  lemma {:induction false} TilesCover(ws: seq<Window>, lo: int, hi: int)
    requires Tiles(ws, lo, hi)
    ensures lo <= hi
    ensures forall t :: lo <= t < hi <==> Covered(ws, t)
    ensures forall i, j, t :: 0 <= i < |ws| && 0 <= j < |ws| && Contains(ws[i], t) && Contains(ws[j], t) ==> i == j
    decreases |ws|
  {
    if |ws| > 1 {
      var rest := ws[1..];
      TilesCover(rest, ws[0].currentEnd, hi);
      forall t | lo <= t < hi
        ensures Covered(ws, t)
      {
        if t >= ws[0].currentEnd {
          assert Covered(rest, t);
          var i :| 0 <= i < |rest| && Contains(rest[i], t);
          assert ws[i + 1] == rest[i];
        } else {
          assert Contains(ws[0], t);
        }
      }
      forall t | Covered(ws, t)
        ensures lo <= t < hi
      {
        var i :| 0 <= i < |ws| && Contains(ws[i], t);
        if i > 0 {
          assert Covered(rest, t) by {
            assert rest[i - 1] == ws[i];
          }
        }
      }
      forall i, j, t | 0 <= i < |ws| && 0 <= j < |ws| && Contains(ws[i], t) && Contains(ws[j], t)
        ensures i == j
      {
        if i > 0 && j > 0 {
          assert rest[i - 1] == ws[i] && rest[j - 1] == ws[j];
        } else if i > 0 {
          assert Covered(rest, t) by {
            assert rest[i - 1] == ws[i];
          }
        } else if j > 0 {
          assert Covered(rest, t) by {
            assert rest[j - 1] == ws[j];
          }
        }
      }
    }
  }

  /**
   * The window shape that `evaluate` keeps: the interval has no negative length
   * and does not pass `end`, and while it falls short of `end` the
   * precomputed boundary is not behind it.
   */
  predicate Consistent(w: Window, end: long) {
    w.start <= w.currentEnd <= end &&
    (w.currentEnd < end ==> w.currentEnd <= w.nextEnd)
  }

  /** From `lo` up to `end`, every step of the rule moves strictly forward. */
  ghost predicate ProgressFrom(rule: Rule, lo: int, end: long) {
    forall t: long :: lo <= t < end ==> NextBoundary(rule, t) > t
  }

  /** A bound on the number of calls before `evaluate` reports exhaustion. */
  function Remaining(w: Window, end: long): nat {
    if w.currentEnd >= end then 0
    else if w.nextEnd >= end then 1
    else 2 + end - w.nextEnd
  }

  /**
   * Walking until `evaluate` first reports false visits windows that tile
   * `[start, end)`: the returned `k` is the number of calls that report true.
   */
  lemma {:induction false} WalkTiles(w: Window, end: long, rule: Rule) returns (k: nat)
    requires Consistent(w, end)
    requires w.currentEnd < end ==> ProgressFrom(rule, w.nextEnd, end)
    ensures forall i :: 1 <= i <= k ==> Continues(Run(w, end, rule, i), end)
    ensures !Continues(Run(w, end, rule, k + 1), end)
    ensures Tiles(Walk(w, end, rule, k), w.start, end)
    decreases Remaining(w, end)
  {
    var w' := Advance(w, end, rule);
    if !Continues(w', end) {
      k := 0;
      assert Run(w, end, rule, 1) == w';
    } else {
      assert w'.currentEnd < end ==> w.nextEnd < end && w'.nextEnd > w.nextEnd;
      var k' := WalkTiles(w', end, rule);
      k := k' + 1;
      forall i | 1 <= i <= k
        ensures Continues(Run(w, end, rule, i), end)
      {
        assert Run(w, end, rule, i) == Run(w', end, rule, i - 1);
      }
      assert Run(w, end, rule, k + 1) == Run(w', end, rule, k' + 1);
      var ws := Walk(w, end, rule, k);
      assert ws[1..] == Walk(w', end, rule, k');
    }
  }

  /**
   * Coverage: the intervals visited before exhaustion cover `[start, end)`
   * exactly, with no gap and no overlap.
   */
  lemma Coverage(w: Window, end: long, rule: Rule) returns (k: nat)
    requires Consistent(w, end)
    requires w.currentEnd < end ==> ProgressFrom(rule, w.nextEnd, end)
    ensures forall i :: 1 <= i <= k ==> Continues(Run(w, end, rule, i), end)
    ensures !Continues(Run(w, end, rule, k + 1), end)
    ensures Run(w, end, rule, k).currentEnd == end
    ensures forall t :: w.start <= t < end <==> Visited(w, end, rule, k, t)
    ensures forall i, j, t :: 0 <= i <= k && 0 <= j <= k && Contains(Run(w, end, rule, i), t) && Contains(Run(w, end, rule, j), t) ==> i == j
  {
    k := WalkTiles(w, end, rule);
    var ws := Walk(w, end, rule, k);
    TilesCover(ws, w.start, end);
    LastTileEnds(ws, w.start, end);
    forall t | w.start <= t < end
      ensures Visited(w, end, rule, k, t)
    {
      assert Covered(ws, t);
      var i :| 0 <= i < |ws| && Contains(ws[i], t);
    }
    forall t | Visited(w, end, rule, k, t)
      ensures w.start <= t < end
    {
      var i :| 0 <= i <= k && Contains(Run(w, end, rule, i), t);
      assert Covered(ws, t) by {
        assert Contains(ws[i], t);
      }
    }
  }

  /** One of the first `k + 1` windows of the walk from `w` contains `t`. */
  ghost predicate Visited(w: Window, end: long, rule: Rule, k: nat, t: int) {
    exists i :: 0 <= i <= k && Contains(Run(w, end, rule, i), t)
  }

  lemma {:induction false} LastTileEnds(ws: seq<Window>, lo: int, hi: int)
    requires Tiles(ws, lo, hi)
    ensures ws[|ws| - 1].currentEnd == hi
    decreases |ws|
  {
    if |ws| > 1 {
      LastTileEnds(ws[1..], ws[0].currentEnd, hi);
    }
  }

  // ---------------------------------------------------------------------
  // The terminal state

  /** Nothing left: `start` and `currentEnd` sit at `end`, and `nextEnd` has not fallen back. */
  predicate Exhausted(w: Window, end: long) {
    w.start == end && w.currentEnd == end && end <= w.nextEnd
  }

  /** The next `k` steps of the rule, taken from the walk's `nextEnd`, never go backwards. */
  ghost predicate Forward(w: Window, end: long, rule: Rule, k: nat)
    decreases k
  {
    k == 0 ||
    (w.nextEnd <= NextBoundary(rule, w.nextEnd) && Forward(Advance(w, end, rule), end, rule, k - 1))
  }

  /** The first `evaluate` that reports false leaves the generator exhausted. */
  lemma StopIsExhausted(w: Window, end: long, rule: Rule)
    requires w.currentEnd <= end && w.currentEnd <= w.nextEnd
    requires w.nextEnd <= NextBoundary(rule, w.nextEnd)
    requires !Continues(Advance(w, end, rule), end)
    ensures Exhausted(Advance(w, end, rule), end)
  {
  }

  /** Once exhausted, the generator stays exhausted and every later `evaluate` reports false. */
  lemma {:induction false} StaysExhausted(w: Window, end: long, rule: Rule, k: nat)
    requires Exhausted(w, end)
    requires Forward(w, end, rule, k)
    ensures forall j :: 0 <= j <= k ==> Exhausted(Run(w, end, rule, j), end) && !Continues(Run(w, end, rule, j), end)
    decreases k
  {
    if k > 0 {
      var w' := Advance(w, end, rule);
      StaysExhausted(w', end, rule, k - 1);
      forall j | 1 <= j <= k
        ensures Run(w, end, rule, j) == Run(w', end, rule, j - 1)
      {
      }
    }
  }

  /**
   * Terminal state: once `evaluate` reports false, the next `k` calls report false
   * too and leave `start` at `end`, provided the rule does not go backwards on them.
   */
  lemma StopIsFinal(w: Window, end: long, rule: Rule, k: nat)
    requires w.currentEnd <= end && w.currentEnd <= w.nextEnd
    requires Forward(w, end, rule, k + 1)
    requires !Continues(Advance(w, end, rule), end)
    ensures forall j :: 1 <= j <= k + 1 ==>
      Run(w, end, rule, j).start == end && !Continues(Run(w, end, rule, j), end)
  {
    var w' := Advance(w, end, rule);
    StopIsExhausted(w, end, rule);
    StaysExhausted(w', end, rule, k);
    forall j | 1 <= j <= k + 1
      ensures Run(w, end, rule, j) == Run(w', end, rule, j - 1)
    {
    }
  }

  /** A non-negative fixed step that cannot wrap within `k` steps never goes backwards. */
  lemma {:induction false} FixedForward(w: Window, end: long, step: long, k: nat)
    requires 0 <= step
    requires w.nextEnd + k * step <= MaxLong
    ensures Forward(w, end, Fixed(step), k)
    decreases k
  {
    if k > 0 {
      assert k * step == (k - 1) * step + step;
      assert 0 <= (k - 1) * step;
      var w' := Advance(w, end, Fixed(step));
      assert w'.nextEnd == w.nextEnd + step;
      FixedForward(w', end, step, k - 1);
    }
  }

  /** Calendar arithmetic that never moves an instant backwards never goes backwards along a walk. */
  lemma {:induction false} CalendarForward(w: Window, end: long, add: FieldArithmetic, unit: int, amount: int, k: nat)
    requires forall t: long :: add(t, unit, amount) >= t
    ensures Forward(w, end, Calendar(add, unit, amount), k)
    decreases k
  {
    if k > 0 {
      CalendarForward(Advance(w, end, Calendar(add, unit, amount)), end, add, unit, amount, k - 1);
    }
  }

  // ---------------------------------------------------------------------
  // The construction paths

  /** `(start, end)`: the whole range is the current interval; `step` is `end`. */
  function PlainWindow(start: long, end: long): Window {
    Window(start, end, AddLong(end, end))
  }

  /** `betweenInstance(start, end)`: the plain window moved back to an empty interval at `start`. */
  function BetweenWindow(start: long, end: long): Window {
    Window(start, start, AddLong(end, end))
  }

  /** `(start, end, unit)`: one calendar step past `start`, clamped, then a second step, not clamped. */
  function SteppedWindow(start: long, end: long, rule: Rule): Window {
    var first := NextBoundary(rule, start);
    Window(start, Clamp(first, end), NextBoundary(rule, first))
  }

  /** `n` steps of the rule taken one after another from `t`, as the calendar cursor takes them. */
  function Iterate(rule: Rule, t: long, n: nat): long
    decreases n
  {
    if n == 0 then t else NextBoundary(rule, Iterate(rule, t, n - 1))
  }

  /** The plain range exposes `[start, end)` before any call, and the first call already reports false. */
  lemma PlainIsOneShot(start: long, end: long)
    ensures PlainWindow(start, end).start == start && PlainWindow(start, end).currentEnd == end
    ensures MinLong <= 2 * end <= MaxLong ==> PlainWindow(start, end).nextEnd == 2 * end
    ensures Advance(PlainWindow(start, end), end, Fixed(end)).start == end
    ensures !Continues(Advance(PlainWindow(start, end), end, Fixed(end)), end)
    ensures start <= end ==> Tiles([PlainWindow(start, end)], start, end)
  {
  }

  /**
   * Terminal state of a plain range: when `end` is not negative and the `k` further
   * additions of `step` (which is `end`) do not wrap, every call after the first
   * leaves `start` at `end` and reports false.
   */
  lemma PlainStaysExhausted(start: long, end: long, k: nat)
    requires 0 <= end
    requires (k + 3) * end <= MaxLong
    ensures forall j :: 1 <= j <= k + 1 ==>
      Run(PlainWindow(start, end), end, Fixed(end), j).start == end &&
      !Continues(Run(PlainWindow(start, end), end, Fixed(end), j), end)
  {
    var w := PlainWindow(start, end);
    assert w.nextEnd == 2 * end;
    var w' := Advance(w, end, Fixed(end));
    assert w'.nextEnd == 3 * end;
    assert (k + 3) * end == 3 * end + k * end;
    FixedForward(w', end, end, k);
    StaysExhausted(w', end, Fixed(end), k);
    forall j | 1 <= j <= k + 1
      ensures Run(w, end, Fixed(end), j) == Run(w', end, Fixed(end), j - 1)
    {
    }
  }

  /**
   * `betweenInstance`: the first call keeps `start`, moves `currentEnd` to
   * `end + end` in `long`, clamped to `end`, and reports true iff `start < end`.
   * That clamped value is `end` itself exactly when `end + end` is not below
   * `end`: when `0 <= end` and the sum does not wrap, or when `end` is so
   * negative that the sum wraps up. In the first case the two windows tile the
   * range.
   */
  lemma BetweenFirstEvaluate(start: long, end: long)
    ensures BetweenWindow(start, end).currentEnd == start
    ensures Advance(BetweenWindow(start, end), end, Fixed(end)).start == start
    ensures Advance(BetweenWindow(start, end), end, Fixed(end)).currentEnd == Clamp(AddLong(end, end), end)
    ensures Advance(BetweenWindow(start, end), end, Fixed(end)).currentEnd == end <==>
      (0 <= end <= MaxLong / 2 || end < MinLong / 2)
    ensures Continues(Advance(BetweenWindow(start, end), end, Fixed(end)), end) <==> start < end
    ensures 0 <= end <= MaxLong / 2 && start <= end ==>
      Tiles([BetweenWindow(start, end), Advance(BetweenWindow(start, end), end, Fixed(end))], start, end)
  {
    var ws := [BetweenWindow(start, end), Advance(BetweenWindow(start, end), end, Fixed(end))];
    assert ws[1..] == [Advance(BetweenWindow(start, end), end, Fixed(end))];
  }

  /** `empty()`: `[0, 0)` is exhausted from the start, and every call keeps it so. */
  lemma {:induction false} EmptyStaysEmpty(k: nat)
    ensures Run(PlainWindow(0, 0), 0, Fixed(0), k) == Window(0, 0, 0)
    ensures !HasNext(Run(PlainWindow(0, 0), 0, Fixed(0), k), 0)
    ensures !Continues(Run(PlainWindow(0, 0), 0, Fixed(0), k), 0)
    decreases k
  {
    if k > 0 {
      EmptyStaysEmpty(k - 1);
      RunLast(PlainWindow(0, 0), 0, Fixed(0), k - 1);
    }
  }

  /** Taking one more call at the end of a run. */
  lemma {:induction false} RunLast(w: Window, end: long, rule: Rule, k: nat)
    ensures Run(w, end, rule, k + 1) == Advance(Run(w, end, rule, k), end, rule)
    decreases k
  {
    if k > 0 {
      RunLast(Advance(w, end, rule), end, rule, k - 1);
    }
  }

  /**
   * Calendar walk: every boundary is reached by adding one more step to the
   * previous one. After `k` calls, `nextEnd` is `k + 2` steps past `start`, the
   * current interval ends `k + 1` steps past it, clamped to `end`, and (once a
   * call has been made) starts `k` steps past it, clamped.
   */
  lemma {:induction false} SteppedBoundaries(start: long, end: long, rule: Rule, k: nat)
    ensures Run(SteppedWindow(start, end, rule), end, rule, k).nextEnd == Iterate(rule, start, k + 2)
    ensures Run(SteppedWindow(start, end, rule), end, rule, k).currentEnd == Clamp(Iterate(rule, start, k + 1), end)
    ensures k >= 1 ==> Run(SteppedWindow(start, end, rule), end, rule, k).start == Clamp(Iterate(rule, start, k), end)
    decreases k
  {
    var w := SteppedWindow(start, end, rule);
    assert Iterate(rule, start, 1) == NextBoundary(rule, start);
    assert Iterate(rule, start, 2) == NextBoundary(rule, Iterate(rule, start, 1));
    RunNextEnd(w, end, rule, start, 2, k);
    if k > 0 {
      SteppedBoundaries(start, end, rule, k - 1);
      RunLast(w, end, rule, k - 1);
    }
  }

  /** Along a walk, each call takes `nextEnd` one step of the rule further. */
  lemma {:induction false} RunNextEnd(w: Window, end: long, rule: Rule, start: long, m: nat, k: nat)
    requires w.nextEnd == Iterate(rule, start, m)
    ensures Run(w, end, rule, k).nextEnd == Iterate(rule, start, m + k)
    decreases k
  {
    if k > 0 {
      assert Iterate(rule, start, m + 1) == NextBoundary(rule, Iterate(rule, start, m));
      RunNextEnd(Advance(w, end, rule), end, rule, start, m + 1, k - 1);
    }
  }

  /**
   * Coverage of a stepped range: when every calendar step taken before `end`
   * moves strictly forward, `evaluate` reports true `k` times and then false,
   * the last interval visited ends exactly at `end`, and the intervals visited
   * cover `[start, end)` exactly once.
   */
  lemma SteppedCoverage(start: long, end: long, add: FieldArithmetic, unit: int) returns (k: nat)
    requires start < end
    requires forall t: long :: t < end ==> add(t, unit, 1) > t
    ensures forall i :: 1 <= i <= k ==> Continues(Run(SteppedWindow(start, end, Calendar(add, unit, 1)), end, Calendar(add, unit, 1), i), end)
    ensures !Continues(Run(SteppedWindow(start, end, Calendar(add, unit, 1)), end, Calendar(add, unit, 1), k + 1), end)
    ensures Run(SteppedWindow(start, end, Calendar(add, unit, 1)), end, Calendar(add, unit, 1), k).currentEnd == end
    ensures forall t :: start <= t < end <==> Visited(SteppedWindow(start, end, Calendar(add, unit, 1)), end, Calendar(add, unit, 1), k, t)
    ensures forall i, j, t ::
      (0 <= i <= k && 0 <= j <= k &&
       Contains(Run(SteppedWindow(start, end, Calendar(add, unit, 1)), end, Calendar(add, unit, 1), i), t) &&
       Contains(Run(SteppedWindow(start, end, Calendar(add, unit, 1)), end, Calendar(add, unit, 1), j), t)) ==> i == j
  {
    var rule := Calendar(add, unit, 1);
    var w := SteppedWindow(start, end, rule);
    assert add(start, unit, 1) > start;
    k := Coverage(w, end, rule);
  }

  /**
   * A range shorter than one calendar step: the only interval is `[start, end)`,
   * `hasNext` is false and the first call reports false.
   */
  lemma SteppedShortRange(start: long, end: long, rule: Rule)
    requires start <= end
    requires NextBoundary(rule, start) > end
    requires NextBoundary(rule, NextBoundary(rule, start)) >= NextBoundary(rule, start)
    ensures SteppedWindow(start, end, rule) == Window(start, end, NextBoundary(rule, NextBoundary(rule, start)))
    ensures !HasNext(SteppedWindow(start, end, rule), end)
    ensures !Continues(Advance(SteppedWindow(start, end, rule), end, rule), end)
    ensures Tiles([SteppedWindow(start, end, rule)], start, end)
  {
  }

  /**
   * With a negative `end`, `end + end` lies below `end`: the first call of
   * `betweenInstance(-10, -5)` moves to the empty interval `[-10, -10)` and
   * still reports true.
   */
  lemma BetweenNegativeEnd()
    ensures Advance(BetweenWindow(-10, -5), -5, Fixed(-5)) == Window(-10, -10, -15)
    ensures Continues(Advance(BetweenWindow(-10, -5), -5, Fixed(-5)), -5)
  {
  }

  // ---------------------------------------------------------------------
  // The terminal state of a stepped walk

  /** `n + j` calls are `n` calls followed by `j` more. */
  lemma {:induction false} RunSplit(w: Window, end: long, rule: Rule, n: nat, j: nat)
    ensures Run(w, end, rule, n + j) == Run(Run(w, end, rule, n), end, rule, j)
    decreases n
  {
    if n > 0 {
      RunSplit(Advance(w, end, rule), end, rule, n - 1, j);
    }
  }

  /**
   * A stepped walk whose calendar never moves an instant backwards is ordered
   * after every number of calls: `currentEnd` passes neither `end` nor `nextEnd`.
   */
  lemma SteppedOrdered(start: long, end: long, add: FieldArithmetic, unit: int, k: nat)
    requires forall t: long :: add(t, unit, 1) >= t
    ensures Run(SteppedWindow(start, end, Calendar(add, unit, 1)), end, Calendar(add, unit, 1), k).currentEnd <= end
    ensures Run(SteppedWindow(start, end, Calendar(add, unit, 1)), end, Calendar(add, unit, 1), k).currentEnd
         <= Run(SteppedWindow(start, end, Calendar(add, unit, 1)), end, Calendar(add, unit, 1), k).nextEnd
  {
    var rule := Calendar(add, unit, 1);
    SteppedBoundaries(start, end, rule, k);
    assert Iterate(rule, start, k + 2) == NextBoundary(rule, Iterate(rule, start, k + 1));
  }

  /**
   * Terminal state of a stepped generator: with a calendar that never moves an
   * instant backwards, once call `n + 1` reports false, every call from `n + 1`
   * to `n + k + 1` reports false and leaves `start` at `end`.
   */
  lemma SteppedStopIsFinal(start: long, end: long, add: FieldArithmetic, unit: int, n: nat, k: nat)
    requires forall t: long :: add(t, unit, 1) >= t
    requires !Continues(Run(SteppedWindow(start, end, Calendar(add, unit, 1)), end, Calendar(add, unit, 1), n + 1), end)
    ensures forall m :: n + 1 <= m <= n + k + 1 ==>
      Run(SteppedWindow(start, end, Calendar(add, unit, 1)), end, Calendar(add, unit, 1), m).start == end &&
      !Continues(Run(SteppedWindow(start, end, Calendar(add, unit, 1)), end, Calendar(add, unit, 1), m), end)
  {
    var rule := Calendar(add, unit, 1);
    var w0 := SteppedWindow(start, end, rule);
    var w := Run(w0, end, rule, n);
    SteppedOrdered(start, end, add, unit, n);
    RunLast(w0, end, rule, n);
    CalendarForward(w, end, add, unit, 1, k + 1);
    StopIsFinal(w, end, rule, k);
    forall m | n + 1 <= m <= n + k + 1
      ensures Run(w0, end, rule, m) == Run(w, end, rule, m - n)
    {
      RunSplit(w0, end, rule, n, m - n);
    }
  }
}
