/**
 * The part of `java.util.GregorianCalendar` the generator relies on: a mutable
 * calendar holding one instant, to which whole units of a calendar field can be
 * added. How a field is added (month lengths, leap years, time zones) belongs to
 * the calendar library and is injected as a function.
 */
module JavaCalendar {
  import opened JavaLong

  /**
   * `add(t, field, amount)`: the instant reached by adding `amount` units of the
   * calendar field `field` to instant `t`.
   */
  type FieldArithmetic = (long, int, int) -> long

  class GregorianCalendar {
    /** The calendar system's field arithmetic. */
    const arithmetic: FieldArithmetic
    /** The instant the calendar currently holds, in milliseconds. */
    var time: long

    /** A new calendar; the clock reading it starts from is not modelled. */
    constructor (arithmetic: FieldArithmetic)
      ensures this.arithmetic == arithmetic
    {
      this.arithmetic := arithmetic;
      time := 0;
    }

    method SetTimeInMillis(t: long)
      modifies this
      ensures time == t
    {
      time := t;
    }

    /** Moves the held instant forward by `amount` units of `field`. */
    method Add(field: int, amount: int)
      modifies this
      ensures time == arithmetic(old(time), field, amount)
    {
      time := arithmetic(time, field, amount);
    }

    function GetTimeInMillis(): (t: long)
      reads this
      ensures t == time
    {
      time
    }
  }
}
