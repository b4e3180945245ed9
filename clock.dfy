/**
  Timekeeping of the stopwatch, on values.

  The firmware keeps its state in file-scope `uint8_t` statics. A `State`
  is one snapshot of all of them; `Tick` is what one run of the 1 ms timer
  task does to that snapshot. The class in `StopwatchDesign` updates the
  statics in place and is specified by these functions.
 */
module Clock {

  /** C's `uint8_t`. */
  type Byte = x: int | 0 <= x < 256

  /** `x++` on a `uint8_t`: the value wraps to 0 after 255. */
  function Inc8(x: Byte): Byte {
    (x + 1) % 256
  }

  /** Ticks in one tenth of a second, tenths in a second, and so on up the carry chain. */
  const TICKS_PER_TENTH := 100
  const TENTHS_PER_SECOND := 10
  const SECONDS_PER_MINUTE := 60
  const MINUTES_PER_WRAP := 10
  /** Ticks after which the whole display wraps back to 0:00.0 (ten minutes). */
  const TICKS_PER_WRAP := 600000

  /**
    The four time fields. `milliseconds` keeps the source's name, but it holds
    the tenths-of-a-second digit.
   */
  datatype Time = Time(msElapsed: Byte, milliseconds: Byte, seconds: Byte, minutes: Byte)

  /** Every static of the stopwatch: the time fields, the two control flags and the EduBase counter. */
  datatype State = State(time: Time, start: Byte, reset: Byte, counter: Byte)

  const ZERO_TIME := Time(0, 0, 0, 0)

  /** The statics as the program initialises them. */
  const INITIAL := State(ZERO_TIME, 0, 0, 0)

  /** The ranges the carry chain keeps each time field in. */
  predicate InRange(t: Time) {
    && t.msElapsed < TICKS_PER_TENTH
    && t.milliseconds < TENTHS_PER_SECOND
    && t.seconds < SECONDS_PER_MINUTE
    && t.minutes < MINUTES_PER_WRAP
  }

  /** The elapsed time the fields stand for, counted in ticks. */
  ghost function Total(t: Time): (n: nat)
    ensures InRange(t) ==> n < TICKS_PER_WRAP
  {
    t.msElapsed + TICKS_PER_TENTH * (t.milliseconds + TENTHS_PER_SECOND * (t.seconds + SECONDS_PER_MINUTE * t.minutes))
  }

  /** `n` split by `d` into quotient and remainder, as Euclidean division does. */
  lemma DivModUnique(n: nat, d: nat, q: nat, r: nat)
    requires 0 <= r < d && n == q * d + r
    ensures n / d == q && n % d == r
  {
    var q0, r0 := n / d, n % d;
    assert n == q0 * d + r0;
    var k := q - q0;
    assert k * d == r0 - r;
    if k >= 1 {
      assert false;
    } else if k <= -1 {
      assert false;
    }
  }

  /** The fields that stand for `n` ticks, counted modulo the ten-minute wrap. */
  function Decode(n: nat): (t: Time)
    ensures InRange(t)
    ensures Total(t) == n % TICKS_PER_WRAP
  {
    var m := n % TICKS_PER_WRAP;
    var tenths := m / 100;
    var secs := tenths / 10;
    var mins := secs / 60;
    assert m == 100 * tenths + m % 100;
    assert tenths == 10 * secs + tenths % 10;
    assert secs == 60 * mins + secs % 60;
    Time(m % 100, tenths % 10, secs % 60, mins)
  }

  /** Decoding the total of in-range fields gives back the fields. */
  lemma DecodeTotal(t: Time)
    requires InRange(t)
    ensures Decode(Total(t)) == t
  {
    var secs := t.seconds + 60 * t.minutes;
    var tenths := t.milliseconds + 10 * secs;
    var n := t.msElapsed + 100 * tenths;
    assert n == Total(t) && n < TICKS_PER_WRAP;
    DivModUnique(n, 100, tenths, t.msElapsed);
    DivModUnique(tenths, 10, secs, t.milliseconds);
    DivModUnique(secs, 60, t.minutes, t.seconds);
  }

  /** In-range fields are determined by their total. */
  lemma TotalInjective(a: Time, b: Time)
    requires InRange(a) && InRange(b)
    requires Total(a) == Total(b)
    ensures a == b
  {
    DecodeTotal(a);
    DecodeTotal(b);
  }

  /**
    The counting half of the timer task: when `start` is 0x01, bump the tick
    counter and carry into tenths, seconds and minutes, each field going back
    to 0 when it passes its limit; the minutes wrap silently past 9.
   */
  function Advance(s: State): (r: State)
    ensures r.start == s.start && r.reset == s.reset && r.counter == s.counter
    ensures s.start != 1 ==> r == s
    ensures InRange(s.time) ==> InRange(r.time)
  {
    if s.start != 1 then s
    else
      var t := s.time;
      var ms := Inc8(t.msElapsed);
      if ms <= 99 then s.(time := t.(msElapsed := ms))
      else
        var tenths := Inc8(t.milliseconds);
        if tenths <= 9 then s.(time := t.(msElapsed := 0, milliseconds := tenths))
        else
          var secs := Inc8(t.seconds);
          if secs <= 59 then s.(time := t.(msElapsed := 0, milliseconds := 0, seconds := secs))
          else
            var mins := Inc8(t.minutes);
            s.(time := Time(0, 0, 0, if mins <= 9 then mins else 0))
  }

  /** The reset half of the timer task: a pending reset zeroes the time and clears both flags. */
  function ApplyReset(s: State): (r: State)
    ensures r.counter == s.counter
    ensures s.reset == 1 ==> r.time == ZERO_TIME && r.start == 0 && r.reset == 0
    ensures s.reset != 1 ==> r == s
  {
    if s.reset == 1 then State(ZERO_TIME, 0, 0, s.counter) else s
  }

  /** One run of the timer task, in the code's order: advance first, then apply a pending reset. */
  function Tick(s: State): (r: State)
    ensures r.counter == s.counter
    ensures InRange(s.time) ==> InRange(r.time)
  {
    ApplyReset(Advance(s))
  }

  /** The order the design text describes: a pending reset wins, otherwise advance. */
  function TickResetFirst(s: State): State {
    if s.reset == 1 then State(ZERO_TIME, 0, 0, s.counter)
    else Advance(s)
  }

  /** The code's order (count, then reset) ends in the same state as checking the reset first. */
  lemma TickOrderIrrelevant(s: State)
    ensures Tick(s) == TickResetFirst(s)
  {
  }

  /** A pending reset zeroes all four time fields and clears both flags, running or not. */
  lemma TickReset(s: State)
    requires s.reset == 1
    ensures Tick(s) == State(ZERO_TIME, 0, 0, s.counter)
  {
  }

  /** A stopped stopwatch with no reset pending stays exactly as it is. */
  lemma TickStopped(s: State)
    requires s.start != 1 && s.reset != 1
    ensures Tick(s) == s
  {
  }

  /**
    A running stopwatch with no reset pending moves on by exactly one tick,
    modulo the ten-minute wrap; the flags stay as they were.
   */
  lemma TickAddsOne(s: State)
    requires InRange(s.time) && s.start == 1 && s.reset != 1
    ensures Total(Tick(s).time) == (Total(s.time) + 1) % TICKS_PER_WRAP
    ensures Tick(s) == s.(time := Decode(Total(s.time) + 1))
  {
    var t, r := s.time, Tick(s);
    var n := Total(t) + 1;
    if t.msElapsed < 99 {
      assert Total(r.time) == n;
    } else if t.milliseconds < 9 {
      assert Total(r.time) == n;
    } else if t.seconds < 59 {
      assert Total(r.time) == n;
    } else if t.minutes < 9 {
      assert Total(r.time) == n;
    } else {
      assert n == TICKS_PER_WRAP;
      assert r.time == ZERO_TIME;
    }
    if n < TICKS_PER_WRAP {
      DivModUnique(n, TICKS_PER_WRAP, 0, n);
    } else {
      DivModUnique(n, TICKS_PER_WRAP, 1, 0);
    }
    TotalInjective(r.time, Decode(n));
  }

  /** From 9:59.9 with 99 ticks counted, one tick wraps every field back to 0. */
  lemma TickWrapsAtTenMinutes(s: State)
    requires s.time == Time(99, 9, 59, 9) && s.start == 1 && s.reset != 1
    ensures Tick(s).time == ZERO_TIME
  {
    TickAddsOne(s);
  }

  /** `n` runs of the timer task in a row. */
  function Ticks(s: State, n: nat): State
    decreases n
  {
    if n == 0 then s else Ticks(Tick(s), n - 1)
  }

  /** A stopped stopwatch with no reset pending is unchanged by any number of ticks. */
  lemma {:induction false} StoppedTicks(s: State, n: nat)
    requires s.start != 1 && s.reset != 1
    ensures Ticks(s, n) == s
    decreases n
  {
    if n > 0 {
      TickStopped(s);
      StoppedTicks(s, n - 1);
    }
  }

  /**
    While the stopwatch runs with no reset pending, `n` ticks add exactly `n`
    to the total, modulo the ten-minute wrap, and keep every field in range.
   */
  lemma {:induction false} TicksAddN(s: State, n: nat)
    requires InRange(s.time) && s.start == 1 && s.reset != 1
    ensures Ticks(s, n) == s.(time := Decode(Total(s.time) + n))
    decreases n
  {
    if n == 0 {
      DecodeTotal(s.time);
    } else {
      TickAddsOne(s);
      var s' := Tick(s);
      TicksAddN(s', n - 1);
      var m := Total(s.time) + 1;
      if m == TICKS_PER_WRAP {
        DivModUnique(m, TICKS_PER_WRAP, 1, 0);
        DecodeShift(n - 1);
      } else {
        DivModUnique(m, TICKS_PER_WRAP, 0, m);
      }
    }
  }

  /** Decoding ignores whole wraps. */
  lemma DecodeShift(n: nat)
    ensures Decode(n + TICKS_PER_WRAP) == Decode(n)
  {
    var q, r := n / TICKS_PER_WRAP, n % TICKS_PER_WRAP;
    DivModUnique(n + TICKS_PER_WRAP, TICKS_PER_WRAP, q + 1, r);
  }

  /**
    Started from zero and running, the fields after `n` ticks are those of
    `n` ticks modulo the ten-minute wrap, so the ghost total is `n % 600000`.
   */
  lemma TicksFromZero(s: State, n: nat)
    requires s.time == ZERO_TIME && s.start == 1 && s.reset != 1
    ensures Ticks(s, n) == s.(time := Decode(n))
    ensures Total(Ticks(s, n).time) == n % TICKS_PER_WRAP
  {
    TicksAddN(s, n);
  }

  /**
    The carry points: from zero, 100 ticks make one tenth of a second, 1000
    ticks one second and 60000 ticks one minute.
   */
  lemma CarryPoints(s: State)
    requires s.time == ZERO_TIME && s.start == 1 && s.reset != 1
    ensures Ticks(s, 100).time == Time(0, 1, 0, 0)
    ensures Ticks(s, 1000).time == Time(0, 0, 1, 0)
    ensures Ticks(s, 60000).time == Time(0, 0, 0, 1)
  {
    TicksFromZero(s, 100);
    assert Decode(100) == Time(0, 1, 0, 0);
    TicksFromZero(s, 1000);
    assert Decode(1000) == Time(0, 0, 1, 0);
    TicksFromZero(s, 60000);
    assert Decode(60000) == Time(0, 0, 0, 1);
  }

  /** From 9:59.9, one more tenth of a second (100 ticks) wraps the display back to 0:00.0. */
  lemma WrapAfterNineMinutes(s: State)
    requires s.time == Time(0, 9, 59, 9) && s.start == 1 && s.reset != 1
    ensures Ticks(s, 100).time == ZERO_TIME
  {
    TicksAddN(s, 100);
    assert Total(s.time) + 100 == TICKS_PER_WRAP;
    assert Decode(TICKS_PER_WRAP) == ZERO_TIME;
  }
}
