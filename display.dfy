/**
  The digit view the main loop hands to the seven-segment display: one digit
  per position, index 0 first.
 */
module Display {
  import opened Clock

  /**
    The four digits of the stopwatch value: tenths, the ones digit of the
    seconds, the tens digit of the seconds, minutes.
   */
  function StopwatchValue(t: Time): (d: seq<Byte>)
    ensures |d| == 4
    ensures d[0] == t.milliseconds && d[3] == t.minutes
    ensures d[1] < 10 && 10 * (d[2] as int) + d[1] as int == t.seconds
    ensures InRange(t) ==> forall i :: 0 <= i < |d| ==> d[i] <= 9
  {
    [t.milliseconds, t.seconds % 10, t.seconds / 10, t.minutes]
  }

  /** Four digits that in-range fields can produce: all decimal, and a seconds tens digit of at most 5. */
  predicate IsDisplayDigits(d: seq<Byte>) {
    && |d| == 4
    && (forall i :: 0 <= i < |d| ==> d[i] <= 9)
    && d[2] <= 5
  }

  /** Reads the time back off the display; the tick counter is not shown and comes back as 0. */
  function FromDigits(d: seq<Byte>): (t: Time)
    requires IsDisplayDigits(d)
    ensures InRange(t) && t.msElapsed == 0
  {
    Time(0, d[0], 10 * d[2] + d[1], d[3])
  }

  /** The display shows in-range fields faithfully: reading it back gives them all but the tick counter. */
  lemma DigitsRoundTrip(t: Time)
    requires InRange(t)
    ensures IsDisplayDigits(StopwatchValue(t))
    ensures FromDigits(StopwatchValue(t)) == t.(msElapsed := 0)
  {
  }

  /** Every display digit sequence is shown for exactly one in-range time with no ticks pending. */
  lemma DigitsOnto(d: seq<Byte>)
    requires IsDisplayDigits(d)
    ensures StopwatchValue(FromDigits(d)) == d
  {
    var t := FromDigits(d);
    assert (10 * d[2] + d[1]) % 10 == d[1];
    assert (10 * d[2] + d[1]) / 10 == d[2];
  }
}
