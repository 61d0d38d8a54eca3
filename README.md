# RangeIntervalGenerator in Dafny

A model of ProjectLibre's `RangeIntervalGenerator`. This generator walks a time range
`[start, end)` (instants in milliseconds, Java `long`) as a sequence of contiguous
sub-intervals. The current interval is `[start, currentEnd)`. `nextEnd` is the
precomputed, unclamped end of the interval after it. `evaluate` moves to the next
interval and reports whether it still starts before `end`.

There are two stepping modes:

- **Plain.** The step is `end` itself (the sentinel `step = end`). The whole range
  is the current interval from the start, and the first `evaluate` already reports
  false.
- **Stepped.** A `GregorianCalendar` cursor advances one unit of a calendar field
  per step. Intervals end one step after another, and the last one is clamped
  to `end`.

Files and modules:

- `JavaLong.dfy` (`JavaLong`): the `long` type and the JVM's wrapping addition
  `AddLong`. The source adds longs at lines 86 and 147, and both sums can wrap.
- `JavaCalendar.dfy` (`JavaCalendar`): a stand-in for `java.util.GregorianCalendar`.
  It is a mutable object holding one instant. How a calendar field is added is
  given to it as a function (`FieldArithmetic`).
- `IntervalSteps.dfy` (`IntervalSteps`): the generator's state as a value
  (`Window`), one `evaluate` as `Advance`, repeated calls as `Run` and `Walk`, and
  the properties of the walk.
- `RangeIntervalGenerator.dfy` (`Algorithm`): the class itself, with its fields,
  its three constructors, its static factories, `evaluate` and its accessors.
  `Evaluate` is proved against `Advance`, and the constructors against the window
  functions.
- `GeneratorUsage.dfy` (`GeneratorUsage`): callers that build a generator through
  a factory, query it and advance it. Each one proves what the class's contracts
  give them.

Behaviour a caller may not expect (the model states what the code does):

- One might expect `start <= currentEnd <= end` always. The code does not
  guarantee it: `getInstance(s, e)` with `s > e` and `betweenInstance(s, e)` with
  `s > e` break it. So `Consistent` is a hypothesis of the coverage lemmas, not
  part of the class invariant.
- One might expect `nextEnd >= currentEnd` always. In plain mode it fails for
  `Long.MIN_VALUE / 2 <= end < 0`, and can fail later once `nextEnd += step`
  wraps. The terminal-state lemmas take "the step does not go backwards"
  (`Forward`) as a hypothesis.
- `getInstance(S, E)` exposes `[S, E)` before any advance, not after one, and its
  first `evaluate` already reports false (`PlainIsOneShot`).
- `hasNext` looks two calls ahead: `nextEnd < end` holds exactly when the
  evaluate after the next one reports true (`HasNextLooksTwoAhead`).
- The first `evaluate` of `betweenInstance(s, e)` moves `currentEnd` to
  `end + end` in `long` (line 86), clamped to `end`. That is `end` exactly when
  `0 <= end <= Long.MAX_VALUE / 2` or `end < Long.MIN_VALUE / 2`
  (`BetweenFirstEvaluate`). Between those ranges it is not:
  `betweenInstance(-10, -5)` moves to the empty `[-10, -10)` and reports true
  (`BetweenNegativeEnd`), and `betweenInstance(0, Long.MAX_VALUE)` moves to
  `[0, -2)` and reports true (`BetweenInstanceWrappedEnd`).
- The default `getInstance()` uses `[0, Long.MAX_VALUE)`. Its `end + step` wraps to
  -2, so after the first `evaluate` reports exhaustion, a second one moves `start`
  back to -2 and reports true (`UnboundedInstanceReopens`). The comment at line 178
  of the source gives this overflow as the reason `continuous()` avoids
  `Long.MAX_VALUE`.

## Model

| member | source | states |
|---|---|---|
| `JavaLong.AddLong` | projectlibre_core/src/com/projectlibre1/algorithm/RangeIntervalGenerator.java:86 | the `long` sum is congruent to the exact sum modulo 2^64; it equals the exact sum when that fits; it turns negative on overflow and non-negative on underflow |
| `JavaLong.AddLongUnique` | projectlibre_core/src/com/projectlibre1/algorithm/RangeIntervalGenerator.java:147 | the wrapped sum is the only `long` congruent to the exact sum, so `AddLong` is exactly Java's `+=` on `long` |
| `JavaCalendar.GregorianCalendar.constructor` | projectlibre_core/src/com/projectlibre1/algorithm/RangeIntervalGenerator.java:93 | a new calendar uses the given field arithmetic |
| `JavaCalendar.GregorianCalendar.SetTimeInMillis` | projectlibre_core/src/com/projectlibre1/algorithm/RangeIntervalGenerator.java:94 | the calendar then holds exactly the given instant |
| `JavaCalendar.GregorianCalendar.Add` | projectlibre_core/src/com/projectlibre1/algorithm/RangeIntervalGenerator.java:95 | the held instant moves from where it was by `amount` units of `field`, following the calendar's arithmetic |
| `JavaCalendar.GregorianCalendar.GetTimeInMillis` | projectlibre_core/src/com/projectlibre1/algorithm/RangeIntervalGenerator.java:96 | reads the held instant and changes nothing |
| `IntervalSteps.NextBoundary` | projectlibre_core/src/com/projectlibre1/algorithm/RangeIntervalGenerator.java:143-147 | the boundary after `t`: `t + step` in `long` on the plain path, one calendar step past `t` on the stepped path; `RunNextEnd` and `SteppedBoundaries` state what it yields along a walk |
| `IntervalSteps.Clamp` | projectlibre_core/src/com/projectlibre1/algorithm/RangeIntervalGenerator.java:140-141 | a boundary that overshoots `end` is truncated to `end`; otherwise it is kept; the result never passes either |
| `IntervalSteps.Advance` | projectlibre_core/src/com/projectlibre1/algorithm/RangeIntervalGenerator.java:137-148 | one evaluate: the new interval starts exactly where the old one ended (contiguity), ends at the old `nextEnd` or at `end`, and never passes `end` or the old `nextEnd` |
| `IntervalSteps.Continues` | projectlibre_core/src/com/projectlibre1/algorithm/RangeIntervalGenerator.java:150-152 | the result of evaluate: true iff the new `start` is before `end`; `Evaluate` ensures it is what the class returns |
| `IntervalSteps.HasNext` | projectlibre_core/src/com/projectlibre1/algorithm/RangeIntervalGenerator.java:209-211 | what `hasNext` reports, `nextEnd < end`; its meaning is stated by `HasNextLooksTwoAhead` |
| `IntervalSteps.HasNextLooksTwoAhead` | projectlibre_core/src/com/projectlibre1/algorithm/RangeIntervalGenerator.java:209-211 | `nextEnd < end` holds iff the evaluate after the next one still reports an interval |
| `IntervalSteps.Run` | projectlibre_core/src/com/projectlibre1/algorithm/RangeIntervalGenerator.java:137-153 | the state after `k` evaluates; `RunLast`, `RunSplit` and `Walk` state how calls compose |
| `IntervalSteps.Walk` | projectlibre_core/src/com/projectlibre1/algorithm/RangeIntervalGenerator.java:137-153 | the windows seen over `k` calls: the `i`-th is the state after `i` calls, and each starts where the previous one ended |
| `IntervalSteps.TilesCover` | projectlibre_core/src/com/projectlibre1/algorithm/RangeIntervalGenerator.java:138 | contiguous intervals of non-negative length from `lo` to `hi` cover every instant of `[lo, hi)`, and nothing outside it, and no instant twice |
| `IntervalSteps.WalkTiles` | projectlibre_core/src/com/projectlibre1/algorithm/RangeIntervalGenerator.java:137-153 | from a consistent window whose steps move forward before `end`, evaluate reports true `k` times and then false, and the `k + 1` windows visited tile `[start, end)` |
| `IntervalSteps.Coverage` | projectlibre_core/src/com/projectlibre1/algorithm/RangeIntervalGenerator.java:137-153 | the intervals visited before exhaustion cover `[start, end)` exactly, with no gap and no overlap, and the last one ends exactly at `end` |
| `IntervalSteps.StopIsExhausted` | projectlibre_core/src/com/projectlibre1/algorithm/RangeIntervalGenerator.java:150-151 | the first evaluate to report false leaves `start` and `currentEnd` at `end`, with `nextEnd` not behind it |
| `IntervalSteps.StaysExhausted` | projectlibre_core/src/com/projectlibre1/algorithm/RangeIntervalGenerator.java:138-152 | an exhausted generator stays exhausted, and every later evaluate reports false, for as long as the step does not go backwards |
| `IntervalSteps.StopIsFinal` | projectlibre_core/src/com/projectlibre1/algorithm/RangeIntervalGenerator.java:138-152 | terminal state: once evaluate reports false, the next `k` calls report false too and keep `start` at `end` |
| `IntervalSteps.FixedForward` | projectlibre_core/src/com/projectlibre1/algorithm/RangeIntervalGenerator.java:147 | a non-negative fixed step that cannot wrap within `k` additions never moves `nextEnd` backwards |
| `IntervalSteps.CalendarForward` | projectlibre_core/src/com/projectlibre1/algorithm/RangeIntervalGenerator.java:143-145 | calendar arithmetic that never moves an instant backwards never moves `nextEnd` backwards, for any number of calls |
| `IntervalSteps.RunSplit` | projectlibre_core/src/com/projectlibre1/algorithm/RangeIntervalGenerator.java:137-153 | `n + j` evaluates are `n` evaluates followed by `j` more |
| `IntervalSteps.SteppedOrdered` | projectlibre_core/src/com/projectlibre1/algorithm/RangeIntervalGenerator.java:89-101 | with a calendar that never moves an instant backwards, after any number of evaluates a stepped generator has `currentEnd <= end` and `currentEnd <= nextEnd` |
| `IntervalSteps.SteppedStopIsFinal` | projectlibre_core/src/com/projectlibre1/algorithm/RangeIntervalGenerator.java:137-153 | terminal state of a stepped generator: with a calendar that never moves an instant backwards, once evaluate `n + 1` reports false, evaluates `n + 1` to `n + k + 1` all report false and leave `start` at `end` |
| `IntervalSteps.PlainWindow` | projectlibre_core/src/com/projectlibre1/algorithm/RangeIntervalGenerator.java:81-86 | the state built by `(start, end)`: `[start, end)` with `nextEnd = end + end` in `long`; `Plain` ensures the class builds it and `PlainIsOneShot` states its behaviour |
| `IntervalSteps.BetweenWindow` | projectlibre_core/src/com/projectlibre1/algorithm/RangeIntervalGenerator.java:111-113 | the plain state with `currentEnd` moved back to `start`; `BetweenFirstEvaluate` states its first evaluate |
| `IntervalSteps.SteppedWindow` | projectlibre_core/src/com/projectlibre1/algorithm/RangeIntervalGenerator.java:89-100 | the state built by `(start, end, unit)`: `currentEnd` one step past `start`, clamped to `end`, `nextEnd` two steps past it, unclamped; `Stepped` ensures the class builds it and `SteppedBoundaries` states where it leads |
| `IntervalSteps.Iterate` | projectlibre_core/src/com/projectlibre1/algorithm/RangeIntervalGenerator.java:144-145 | `n` cursor steps taken one after another; `SteppedBoundaries` ties the walk's boundaries to it |
| `IntervalSteps.PlainIsOneShot` | projectlibre_core/src/com/projectlibre1/algorithm/RangeIntervalGenerator.java:81-87 | the plain range exposes `[start, end)` before any call, with `nextEnd = 2 * end` when that fits; the first evaluate moves `start` to `end` and reports false; `[start, end)` alone tiles the range |
| `IntervalSteps.PlainStaysExhausted` | projectlibre_core/src/com/projectlibre1/algorithm/RangeIntervalGenerator.java:137-152 | with `end >= 0` and `(k + 3) * end` representable, the first `k + 1` evaluates all leave `start` at `end` and report false |
| `IntervalSteps.BetweenFirstEvaluate` | projectlibre_core/src/com/projectlibre1/algorithm/RangeIntervalGenerator.java:111-115 | `betweenInstance` starts with `currentEnd = start`; for every `start` and `end` its first evaluate keeps `start`, moves `currentEnd` to `end + end` in `long` clamped to `end`, and reports true iff `start < end`; that `currentEnd` is `end` exactly when `0 <= end <= Long.MAX_VALUE / 2` or `end < Long.MIN_VALUE / 2`, and in the first range (with `start <= end`) the two windows tile the range |
| `IntervalSteps.BetweenNegativeEnd` | projectlibre_core/src/com/projectlibre1/algorithm/RangeIntervalGenerator.java:111-115 | with a negative `end` (`betweenInstance(-10, -5)`), the first evaluate moves to the empty `[-10, -10)` and still reports true |
| `IntervalSteps.EmptyStaysEmpty` | projectlibre_core/src/com/projectlibre1/algorithm/RangeIntervalGenerator.java:183-185 | `empty()` is `(0, 0, 0)` after any number of evaluates, never has a next interval and always reports false |
| `IntervalSteps.RunLast` | projectlibre_core/src/com/projectlibre1/algorithm/RangeIntervalGenerator.java:137-153 | `k + 1` calls are `k` calls followed by one more |
| `IntervalSteps.RunNextEnd` | projectlibre_core/src/com/projectlibre1/algorithm/RangeIntervalGenerator.java:143-147 | each evaluate takes `nextEnd` exactly one step of the rule further |
| `IntervalSteps.SteppedBoundaries` | projectlibre_core/src/com/projectlibre1/algorithm/RangeIntervalGenerator.java:89-101 | after `k` evaluates of a stepped range, `nextEnd` is `k + 2` cursor steps past `start`, `currentEnd` is `k + 1` steps past it and `start` is `k` steps past it, each boundary clamped to `end` |
| `IntervalSteps.SteppedCoverage` | projectlibre_core/src/com/projectlibre1/algorithm/RangeIntervalGenerator.java:89-101 | when every calendar step before `end` moves forward, a stepped walk reports true on calls 1 to `k` and false on call `k + 1`; the last interval visited ends exactly at `end`, and the intervals cover `[start, end)` exactly once |
| `IntervalSteps.SteppedShortRange` | projectlibre_core/src/com/projectlibre1/algorithm/RangeIntervalGenerator.java:97-98 | a range shorter than one step has `[start, end)` as its only interval; `hasNext` is false and the first evaluate reports false |
| `Algorithm.RangeIntervalGenerator.Unbounded` | projectlibre_core/src/com/projectlibre1/algorithm/RangeIntervalGenerator.java:76-78 | the plain range `[0, Long.MAX_VALUE)`; `nextEnd` wraps to -2 |
| `Algorithm.RangeIntervalGenerator.Plain` | projectlibre_core/src/com/projectlibre1/algorithm/RangeIntervalGenerator.java:81-87 | plain path: `step = end`, the window is `(start, end, end + end)` in `long`, and there is no calendar |
| `Algorithm.RangeIntervalGenerator.Stepped` | projectlibre_core/src/com/projectlibre1/algorithm/RangeIntervalGenerator.java:89-101 | stepped path: a fresh cursor with step amount 1; `currentEnd` is one step past `start`, clamped to `end`; `nextEnd` and the cursor are two steps past `start`, unclamped |
| `Algorithm.RangeIntervalGenerator.BetweenInstance` | projectlibre_core/src/com/projectlibre1/algorithm/RangeIntervalGenerator.java:111-115 | a plain range whose `currentEnd` is reset to `start` |
| `Algorithm.RangeIntervalGenerator.Continuous` | projectlibre_core/src/com/projectlibre1/algorithm/RangeIntervalGenerator.java:180-182 | the plain range from 0 to the supplied latest calendar instant |
| `Algorithm.RangeIntervalGenerator.Empty` | projectlibre_core/src/com/projectlibre1/algorithm/RangeIntervalGenerator.java:183-185 | the plain range `[0, 0)`: `start = end = currentEnd = nextEnd = 0` |
| `Algorithm.RangeIntervalGenerator.GetDefaultInstance` | projectlibre_core/src/com/projectlibre1/algorithm/RangeIntervalGenerator.java:187-189 | the window `(0, Long.MAX_VALUE, -2)` |
| `Algorithm.RangeIntervalGenerator.GetInstance` | projectlibre_core/src/com/projectlibre1/algorithm/RangeIntervalGenerator.java:191-193 | a fresh plain generator on `[start, end)` |
| `Algorithm.RangeIntervalGenerator.GetSteppedInstance` | projectlibre_core/src/com/projectlibre1/algorithm/RangeIntervalGenerator.java:195-197 | a fresh stepped generator with its own fresh cursor |
| `Algorithm.RangeIntervalGenerator.Evaluate` | projectlibre_core/src/com/projectlibre1/algorithm/RangeIntervalGenerator.java:137-153 | the new state is `Advance` of the old one: `start` becomes the old `currentEnd`, `currentEnd <= end`, the cursor takes exactly one more step and still equals `nextEnd`, and the result is true iff `start < end`; `end` is a constant field, so nothing can change it |
| `Algorithm.RangeIntervalGenerator.CurrentEnd` | projectlibre_core/src/com/projectlibre1/algorithm/RangeIntervalGenerator.java:127-129 | the upper bound of the current interval; a read that changes nothing |
| `Algorithm.RangeIntervalGenerator.CurrentStart` | projectlibre_core/src/com/projectlibre1/algorithm/RangeIntervalGenerator.java:131-133 | the lower bound of the current interval; a read that changes nothing |
| `Algorithm.RangeIntervalGenerator.GetEnd` | projectlibre_core/src/com/projectlibre1/algorithm/RangeIntervalGenerator.java:166-168 | the fixed end of the range |
| `Algorithm.RangeIntervalGenerator.GetStart` | projectlibre_core/src/com/projectlibre1/algorithm/RangeIntervalGenerator.java:173-175 | the same value as `currentStart` |
| `Algorithm.RangeIntervalGenerator.HasNext` | projectlibre_core/src/com/projectlibre1/algorithm/RangeIntervalGenerator.java:209-211 | `nextEnd < end`, which holds exactly when the evaluate after the next one will still report an interval; a read that changes nothing |
| `Algorithm.RangeIntervalGenerator.IsCurrentActive` | projectlibre_core/src/com/projectlibre1/algorithm/RangeIntervalGenerator.java:202-204 | always true |
| `Algorithm.RangeIntervalGenerator.CanBeShared` | projectlibre_core/src/com/projectlibre1/algorithm/RangeIntervalGenerator.java:216-218 | always true |
| `GeneratorUsage.PlainRangeIsOneShot` | projectlibre_core/src/com/projectlibre1/algorithm/RangeIntervalGenerator.java:191-193 | a caller of `getInstance(s, e)` sees `[s, e)` at once, and its first evaluate reports false with `start = e` |
| `GeneratorUsage.BetweenInstanceFirstStep` | projectlibre_core/src/com/projectlibre1/algorithm/RangeIntervalGenerator.java:111-115 | a caller of `betweenInstance(s, e)` sees `currentEnd = s`; after one evaluate `start` is still `s`, `currentEnd` is `e + e` in `long` clamped to `e` (so `e` itself exactly when `0 <= e <= Long.MAX_VALUE / 2` or `e < Long.MIN_VALUE / 2`), and the result is true iff `s < e` |
| `GeneratorUsage.BetweenInstanceWrappedEnd` | projectlibre_core/src/com/projectlibre1/algorithm/RangeIntervalGenerator.java:111-115 | `betweenInstance(0, Long.MAX_VALUE)`: `end + end` wraps to -2, so the first evaluate moves to `[0, -2)` and reports true |
| `GeneratorUsage.EmptyIsExhausted` | projectlibre_core/src/com/projectlibre1/algorithm/RangeIntervalGenerator.java:183-185 | `empty()` has no next interval, and its first and second evaluates both report false |
| `GeneratorUsage.UnboundedInstanceReopens` | projectlibre_core/src/com/projectlibre1/algorithm/RangeIntervalGenerator.java:76-78 | `getInstance()` reports false on the first evaluate, then true on the second, with `start = -2`, because `end + step` wrapped |
| `GeneratorUsage.SteppedShortRange` | projectlibre_core/src/com/projectlibre1/algorithm/RangeIntervalGenerator.java:89-101 | a stepped generator on a range shorter than one step shows `[s, e)`, has no next interval and reports false on the first evaluate |
| `GeneratorUsage.SteppedSecondInterval` | projectlibre_core/src/com/projectlibre1/algorithm/RangeIntervalGenerator.java:143-145 | after two evaluates, a stepped generator is on the interval from the second to the third cursor step, each clamped to `end`, and `nextEnd` is the fourth step |

## Left out

- `GregorianCalendar` internals (month lengths, leap years, time zones, daylight
  saving): they belong to the Java library. The arithmetic is an injected function,
  about which only the lemmas assume anything (progress or monotonicity).
- The clock reading taken by `new GregorianCalendar()`: `setTimeInMillis(start)`
  overwrites it at once (line 94), so the stand-in starts at 0.
- `DateTime.getMaxCalendar()` in `continuous()`: an external collaborator. Its
  instant is the `maxCalendarTime` parameter of `Continuous`.
- `current()` (always null) and `compareTo` (always 0): stubs with no logic.
- The unused `Object` argument of `evaluate`.
- `IntervalGenerator`, the interface the class implements: it is not part of this
  model. The Java overload `getInstance(start, end, calendarStepUnit)` becomes
  `GetSteppedInstance`, and `getInstance()` becomes `GetDefaultInstance`, because
  Dafny has no overloading.
- Concurrency: `canBeShared` is only a flag, and the class has no locking.
- `IntervalSteps.StopIsFinal`, `IntervalSteps.StaysExhausted`: weaker than "every
  later call", because they cover `k` further calls along which the step does not
  go backwards. In Java `long`, enough further calls of `nextEnd += step` do wrap.
  After that, `evaluate` can report true again, as `UnboundedInstanceReopens` shows
  for the default instance.
- `IntervalSteps.PlainStaysExhausted`: bounded by `(k + 3) * end` fitting in a
  `long`, for the same reason.
- `IntervalSteps.Coverage`, `IntervalSteps.SteppedCoverage`: they assume the steps
  taken before `end` move strictly forward. The source does not check this, and
  with a zero or backwards calendar step the walk need not end.
- An invalid calendar field: `GregorianCalendar.add` throws
  `IllegalArgumentException`, so `getInstance(s, e, unit)` with such a `unit`
  throws in Java. In the model, the field arithmetic is a total function, and
  `GetSteppedInstance` returns a generator for every `unit`.
- `calendarStepUnit` and `calendarStepAmount` are Java `int`s. In the model they
  are unbounded `int`s. Only the injected field arithmetic reads them, and the
  amount is always 1.
