/**
  The stopwatch firmware's statics and the routines that update them in
  place. Each routine's new state is given by the value-level function in
  `Clock`, `Buttons` or `Display` that states what it means.
 */
module StopwatchDesign {
  import opened Clock
  import opened Buttons
  import opened Display

  /** The file-scope statics of the firmware, as one object. */
  class Stopwatch {
    /** Raw 1 ms ticks within the current tenth of a second. */
    var msElapsed: Byte
    /** The tenths-of-a-second digit (named `milliseconds` in the firmware). */
    var milliseconds: Byte
    var seconds: Byte
    var minutes: Byte
    /** 0x01 while the stopwatch runs. */
    var startStopwatch: Byte
    /** 0x01 while a reset waits for the next timer tick. */
    var resetStopwatch: Byte
    /** The EduBase counter, kept apart from the stopwatch. */
    var counter: Byte

    /** The statics as one value. */
    function Statics(): State
      reads this
    {
      State(Time(msElapsed, milliseconds, seconds, minutes), startStopwatch, resetStopwatch, counter)
    }

    /** The elapsed time the fields stand for, in ticks. */
    ghost function TotalTicks(): nat
      reads this
    {
      Total(Statics().time)
    }

    /** Every field within the range its routine keeps it in. */
    ghost predicate Valid()
      reads this
    {
      InRange(Statics().time) && counter < 16
    }

    /** The statics as the program starts: every one of them 0. */
    constructor ()
      ensures Statics() == INITIAL
      ensures Valid() && TotalTicks() == 0
    {
      msElapsed, milliseconds, seconds, minutes := 0, 0, 0, 0;
      startStopwatch, resetStopwatch, counter := 0, 0, 0;
    }

    /**
      The 1 ms timer task: count one tick through the carry chain while
      running, then carry out a pending reset.
     */
    method TimerPeriodicTask()
      modifies this
      ensures Statics() == Tick(old(Statics()))
      ensures old(Valid()) ==> Valid()
      ensures old(Valid()) && old(startStopwatch) == 1 && old(resetStopwatch) != 1 ==>
                TotalTicks() == (old(TotalTicks()) + 1) % TICKS_PER_WRAP
      ensures old(startStopwatch) != 1 && old(resetStopwatch) != 1 ==> Statics() == old(Statics())
      ensures old(resetStopwatch) == 1 ==> Statics() == State(ZERO_TIME, 0, 0, counter)
    {
      ghost var before := Statics();
      if startStopwatch == 1 {
        msElapsed := Inc8(msElapsed);
        if msElapsed > 99 {
          msElapsed := 0;
          milliseconds := Inc8(milliseconds);
          if milliseconds > 9 {
            milliseconds := 0;
            seconds := Inc8(seconds);
            if seconds > 59 {
              seconds := 0;
              minutes := Inc8(minutes);
              if minutes > 9 {
                minutes := 0;
              }
            }
          }
        }
      }
      assert Statics() == Advance(before);
      if resetStopwatch == 1 {
        resetStopwatch := 0;
        startStopwatch := 0;
        msElapsed := 0;
        milliseconds := 0;
        seconds := 0;
        minutes := 0;
      }
      if InRange(before.time) && before.start == 1 && before.reset != 1 {
        TickAddsOne(before);
      }
    }

    /** The PMOD BTN handler: writes the start and reset flags and nothing else. */
    method PmodButtonHandler(status: Byte)
      modifies this
      ensures Statics() == PmodButton(old(Statics()), status)
      ensures old(Valid()) ==> Valid()
    {
      if status == BTN0_START {
        startStopwatch := 1;
      } else if status == BTN1_STOP {
        startStopwatch := 0;
      } else if status == BTN2_RESET {
        resetStopwatch := 1;
      } else if status == BTN3_UNUSED {
      }
    }

    /** The EduBase button handler: counts up or down modulo 16. */
    method EduBaseButtonHandler(status: Byte)
      modifies this
      ensures Statics() == old(Statics()).(counter := CounterStep(old(counter), status))
      ensures old(Valid()) ==> Valid()
    {
      if status == SW2_UP {
        if counter >= 15 {
          counter := 0;
        } else {
          counter := counter + 1;
        }
      } else if status == SW3_DOWN {
        if counter <= 0 {
          counter := 15;
        } else {
          counter := counter - 1;
        }
      }
    }

    /**
      Fills the caller's buffer with the four display digits: tenths, the
      ones and tens digits of the seconds, minutes. The statics are only read.
     */
    method CalculateStopwatchValue(value: array<Byte>)
      requires value.Length >= 4
      modifies value
      ensures value[..4] == StopwatchValue(Statics().time)
      ensures value[4..] == old(value[4..])
      ensures Valid() ==> IsDisplayDigits(value[..4]) && FromDigits(value[..4]) == Statics().time.(msElapsed := 0)
    {
      value[0] := milliseconds;
      value[1] := seconds % 10;
      value[2] := seconds / 10;
      value[3] := minutes;
      if Valid() {
        DigitsRoundTrip(Statics().time);
      }
    }
  }
}
