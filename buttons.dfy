/**
  The two button interrupt handlers, on values: the PMOD BTN module drives
  the stopwatch's control flags, the EduBase push buttons drive the 4-bit
  counter.
 */
module Buttons {
  import opened Clock

  /** The status bit each PMOD button raises. */
  const BTN0_START := 0x04
  const BTN1_STOP := 0x08
  const BTN2_RESET := 0x10
  const BTN3_UNUSED := 0x20

  /** The status bit each EduBase push button raises. */
  const SW2_UP := 0x08
  const SW3_DOWN := 0x04

  /**
    What the PMOD handler does to the statics: BTN0 starts the stopwatch,
    BTN1 stops it, BTN2 asks for a reset; BTN3 and every other status do
    nothing. Only the flags are written; the time is left to the timer task.
   */
  function PmodButton(s: State, status: Byte): (r: State)
    ensures r.time == s.time && r.counter == s.counter
    ensures status == BTN0_START ==> r == s.(start := 1)
    ensures status == BTN1_STOP ==> r == s.(start := 0)
    ensures status == BTN2_RESET ==> r == s.(reset := 1)
    ensures status != BTN0_START && status != BTN1_STOP && status != BTN2_RESET ==> r == s
  {
    if status == BTN0_START then s.(start := 1)
    else if status == BTN1_STOP then s.(start := 0)
    else if status == BTN2_RESET then s.(reset := 1)
    else s
  }

  /** Pressing the same PMOD button twice has the effect of pressing it once. */
  lemma PmodIdempotent(s: State, status: Byte)
    ensures PmodButton(PmodButton(s, status), status) == PmodButton(s, status)
  {
  }

  /** After a stop press with no reset pending, any number of ticks leaves the time where it was. */
  lemma StopHoldsTime(s: State, n: nat)
    requires s.reset != 1
    ensures Ticks(PmodButton(s, BTN1_STOP), n) == s.(start := 0)
  {
    StoppedTicks(PmodButton(s, BTN1_STOP), n);
  }

  /** A reset press followed by one tick zeroes the time and clears both flags, running or not. */
  lemma ResetThenTick(s: State)
    ensures Tick(PmodButton(s, BTN2_RESET)) == State(ZERO_TIME, 0, 0, s.counter)
  {
    TickReset(PmodButton(s, BTN2_RESET));
  }

  /**
    What the EduBase handler does to the counter: SW2 counts up and SW3
    counts down, each wrapping within 0..15; any other status does nothing.
   */
  function CounterStep(counter: Byte, status: Byte): (r: Byte)
    ensures counter < 16 ==> r < 16
    ensures counter < 16 && status == SW2_UP ==> r == (counter + 1) % 16
    ensures counter < 16 && status == SW3_DOWN ==> r == (counter + 15) % 16
    ensures status != SW2_UP && status != SW3_DOWN ==> r == counter
  {
    if status == SW2_UP then
      if counter >= 15 then 0 else counter + 1
    else if status == SW3_DOWN then
      if counter <= 0 then 15 else counter - 1
    else counter
  }

  /** Up then down, or down then up, brings an in-range counter back to where it was. */
  lemma CounterUpDown(counter: Byte)
    requires counter < 16
    ensures CounterStep(CounterStep(counter, SW2_UP), SW3_DOWN) == counter
    ensures CounterStep(CounterStep(counter, SW3_DOWN), SW2_UP) == counter
  {
  }

  /** `n` presses of the same EduBase button. */
  function Presses(counter: Byte, status: Byte, n: nat): Byte
    decreases n
  {
    if n == 0 then counter else Presses(CounterStep(counter, status), status, n - 1)
  }

  /** `n` up presses add `n` to the counter and `n` down presses take `n` away, modulo 16. */
  lemma {:induction false} PressesModSixteen(counter: Byte, n: nat)
    requires counter < 16
    ensures Presses(counter, SW2_UP, n) == (counter + n) % 16
    ensures Presses(counter, SW3_DOWN, n) == (counter + 15 * n) % 16
    decreases n
  {
    if n > 0 {
      var up, down := CounterStep(counter, SW2_UP), CounterStep(counter, SW3_DOWN);
      PressesModSixteen(up, n - 1);
      PressesModSixteen(down, n - 1);
      ModSixteenShift(counter + 1, n - 1);
      ModSixteenShift(counter + 15, 15 * (n - 1));
    }
  }

  /** Reducing the first summand modulo 16 first does not change the sum modulo 16. */
  lemma ModSixteenShift(a: nat, b: nat)
    ensures (a % 16 + b) % 16 == (a + b) % 16
  {
  }
}
