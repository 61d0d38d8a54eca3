/**
 * `com.projectlibre1.algorithm.RangeIntervalGenerator`: a generator walking the
 * range `[start, end)` as successive contiguous intervals, either in one piece
 * or in steps of one calendar unit.
 */
module Algorithm {
  import opened JavaLong
  import opened JavaCalendar
  import opened IntervalSteps

  class RangeIntervalGenerator {
    /** Lower bound of the current interval. */
    var start: long
    /** Upper bound of the whole range; assigned only when the generator is built. */
    const end: long
    /** Fixed step of the plain path: `end` itself, so that one step passes `end`. */
    const step: long
    /** Calendar field of the stepped path (0 on the plain path). */
    const calendarStepUnit: int
    /** Units of the field added per step; always 1. */
    const calendarStepAmount: int
    /** Upper bound of the current interval. */
    var currentEnd: long
    /** Upper bound of the interval after the current one, before clamping. */
    var nextEnd: long
    /** The calendar cursor of the stepped path; null on the plain path. */
    const stepCal: GregorianCalendar?

    /**
     * Plain path: the step is `end`. Stepped path: the step is the default 0 and
     * the cursor holds `nextEnd`, the instant it reached last.
     */
    ghost predicate Valid()
      reads this, stepCal
    {
      calendarStepAmount == 1 &&
      (stepCal == null ==> step == end && calendarStepUnit == 0) &&
      (stepCal != null ==> step == 0 && stepCal.time == nextEnd)
    }

    /** The three moving instants as a value. */
    function Position(): Window
      reads this
    {
      Window(start, currentEnd, nextEnd)
    }

    /** The stepping rule in force. */
    function Rule(): IntervalSteps.Rule
      reads this
    {
      if stepCal == null then Fixed(step)
      else Calendar(stepCal.arithmetic, calendarStepUnit, calendarStepAmount)
    }

    /** `RangeIntervalGenerator()`: the range `[0, Long.MAX_VALUE)` on the plain path. */
    constructor Unbounded()
      ensures Valid() && stepCal == null
      ensures end == MaxLong
      ensures Position() == PlainWindow(0, MaxLong)
      ensures nextEnd == -2
    {
      start := 0;
      end := MaxLong;
      currentEnd := MaxLong;
      step := MaxLong;
      nextEnd := AddLong(MaxLong, MaxLong);
      calendarStepUnit := 0;
      calendarStepAmount := 1;
      stepCal := null;
    }

    /** `RangeIntervalGenerator(start, end)`: the whole range as the current interval. */
    constructor Plain(start: long, end: long)
      ensures Valid() && stepCal == null
      ensures this.end == end && step == end
      ensures Position() == PlainWindow(start, end)
    {
      this.start := start;
      this.end := end;
      currentEnd := end;
      step := end;
      nextEnd := AddLong(end, end);
      calendarStepUnit := 0;
      calendarStepAmount := 1;
      stepCal := null;
    }

    /**
     * `RangeIntervalGenerator(start, end, calendarStepUnit)`: the current interval
     * is one calendar step long, clamped to `end`; `nextEnd` is a second step,
     * unclamped. `arithmetic` is the field arithmetic of the calendar created.
     */
    constructor Stepped(start: long, end: long, calendarStepUnit: int, arithmetic: FieldArithmetic)
      ensures Valid() && stepCal != null && fresh(stepCal)
      ensures this.end == end && this.calendarStepUnit == calendarStepUnit
      ensures Rule() == Calendar(arithmetic, calendarStepUnit, 1)
      ensures Position() == SteppedWindow(start, end, Rule())
      ensures currentEnd <= end
      ensures stepCal.time == arithmetic(arithmetic(start, calendarStepUnit, 1), calendarStepUnit, 1)
    {
      this.start := start;
      this.end := end;
      this.calendarStepUnit := calendarStepUnit;
      calendarStepAmount := 1;
      step := 0;
      var cal := new GregorianCalendar(arithmetic);
      stepCal := cal;
      new;
      cal.SetTimeInMillis(start);
      cal.Add(calendarStepUnit, calendarStepAmount);
      currentEnd := cal.GetTimeInMillis();
      if currentEnd > end {
        currentEnd := end;
      }
      cal.Add(calendarStepUnit, calendarStepAmount);
      nextEnd := cal.GetTimeInMillis();
    }

    /** `betweenInstance(start, end)`: a plain range moved back to the empty interval at `start`. */
    static method BetweenInstance(start: long, end: long) returns (r: RangeIntervalGenerator)
      ensures fresh(r) && r.Valid() && r.stepCal == null
      ensures r.end == end && r.Rule() == Fixed(end)
      ensures r.Position() == BetweenWindow(start, end)
    {
      r := GetInstance(start, end);
      r.currentEnd := start;
    }

    /** `continuous()`: a plain range from 0 to the application's latest usable instant. */
    static method Continuous(maxCalendarTime: long) returns (r: RangeIntervalGenerator)
      ensures fresh(r) && r.Valid() && r.stepCal == null
      ensures r.end == maxCalendarTime && r.Rule() == Fixed(maxCalendarTime)
      ensures r.Position() == PlainWindow(0, maxCalendarTime)
    {
      r := GetInstance(0, maxCalendarTime);
    }

    /** `empty()`: the plain range `[0, 0)`. */
    static method Empty() returns (r: RangeIntervalGenerator)
      ensures fresh(r) && r.Valid() && r.stepCal == null
      ensures r.end == 0 && r.Rule() == Fixed(0)
      ensures r.Position() == Window(0, 0, 0)
    {
      r := GetInstance(0, 0);
    }

    /** `getInstance()`. */
    static method GetDefaultInstance() returns (r: RangeIntervalGenerator)
      ensures fresh(r) && r.Valid() && r.stepCal == null
      ensures r.end == MaxLong && r.Rule() == Fixed(MaxLong)
      ensures r.Position() == Window(0, MaxLong, -2)
    {
      r := new RangeIntervalGenerator.Unbounded();
    }

    /** `getInstance(start, end)`. */
    static method GetInstance(start: long, end: long) returns (r: RangeIntervalGenerator)
      ensures fresh(r) && r.Valid() && r.stepCal == null
      ensures r.end == end && r.Rule() == Fixed(end)
      ensures r.Position() == PlainWindow(start, end)
    {
      r := new RangeIntervalGenerator.Plain(start, end);
    }

    /** `getInstance(start, end, calendarStepUnit)`, for a calendar with the given field arithmetic. */
    static method GetSteppedInstance(start: long, end: long, calendarStepUnit: int, arithmetic: FieldArithmetic)
      returns (r: RangeIntervalGenerator)
      ensures fresh(r) && r.Valid() && r.stepCal != null && fresh(r.stepCal)
      ensures r.end == end && r.Rule() == Calendar(arithmetic, calendarStepUnit, 1)
      ensures r.Position() == SteppedWindow(start, end, r.Rule())
    {
      r := new RangeIntervalGenerator.Stepped(start, end, calendarStepUnit, arithmetic);
    }

    /**
     * `evaluate`: moves to the next interval, which starts where the current one
     * ended and is truncated to `end`, precomputes the boundary after it, and
     * reports whether the new interval starts before `end`.
     */
    method Evaluate() returns (more: bool)
      requires Valid()
      modifies this, stepCal
      ensures Valid()
      ensures Position() == Advance(old(Position()), end, Rule())
      ensures start == old(currentEnd)
      ensures currentEnd <= end
      ensures stepCal != null ==> stepCal.time == stepCal.arithmetic(old(stepCal.time), calendarStepUnit, 1)
      ensures more <==> start < end
    {
      start := currentEnd;
      currentEnd := nextEnd;
      if currentEnd > end {
        currentEnd := end;
      }
      if stepCal != null {
        stepCal.Add(calendarStepUnit, calendarStepAmount);
        nextEnd := stepCal.GetTimeInMillis();
      } else {
        nextEnd := AddLong(nextEnd, step);
      }
      more := !(start >= end);
    }

    function CurrentEnd(): (r: long)
      reads this
      ensures r == Position().currentEnd
    {
      currentEnd
    }

    function CurrentStart(): (r: long)
      reads this
      ensures r == Position().start
    {
      start
    }

    function GetEnd(): (r: long)
      ensures r == end
    {
      end
    }

    function GetStart(): (r: long)
      reads this
      ensures r == CurrentStart()
    {
      start
    }

    /** `hasNext`: whether the evaluate after the next one will still report an interval. */
    function HasNext(): (r: bool)
      reads this
      ensures r <==> nextEnd < end
      ensures r <==> Continues(Advance(Advance(Position(), end, Rule()), end, Rule()), end)
    {
      nextEnd < end
    }

    /** `isCurrentActive`: every interval of this generator is active. */
    function IsCurrentActive(): (r: bool)
      ensures r
    {
      true
    }

    /** `canBeShared`: one instance may be handed to several consumers. */
    function CanBeShared(): (r: bool)
      ensures r
    {
      true
    }
  }
}
