# Stopwatch timekeeping and control, modelled in Dafny

This project models the core of a TM4C123 stopwatch firmware (`Stopwatch_Design/main.c`).
The firmware keeps its state in file-scope `uint8_t` statics:

- the raw 1 ms tick counter `ms_elapsed`;
- the display fields `milliseconds` (which holds the tenths-of-a-second digit), `seconds` and `minutes`;
- the control flags `start_stopwatch` and `reset_stopwatch`;
- a separate 4-bit `counter` driven by the EduBase push buttons.

Four routines act on that state:

- the 1 ms timer task counts a tick through the carry chain `ms_elapsed` → tenths → seconds → minutes, with wraparound at 100, 10, 60 and 10, and then carries out a pending reset;
- the PMOD BTN handler turns a button bitmask into flag writes (start, stop, reset);
- the EduBase handler counts `counter` up or down modulo 16;
- `Calculate_Stopwatch_Value` splits the fields into four display digits.

Layout:

- `clock.dfy` (module `Clock`) has the values and the timekeeping specification. `Byte` is C's `uint8_t`, and `x++` on it wraps explicitly (`Inc8`). `Time` holds the four time fields and `State` holds all seven statics. `Tick` is one run of the timer task. `Total` is the ghost count of elapsed ticks. `Decode` is the inverse of `Total`. The module also has the lemmas about ticking.
- `buttons.dfy` (module `Buttons`) has the two button handlers as functions on values, with their lemmas.
- `display.dfy` (module `Display`) has the four-digit view, its inverse and the round-trip lemmas.
- `stopwatch.dfy` (module `StopwatchDesign`) has class `Stopwatch`. Its fields are the statics, and it has one method per routine. Each method updates the fields in place. Each method's `ensures` ties the new state to the value-level function of the old state.

The full tick count wraps at 600000. That is ten minutes of 60 seconds of 1000 one-millisecond ticks. It is not 60000: 60000 ticks is exactly one minute.

The code runs the advance before checking for a reset; a design description of this system puts the reset check first. The code's order is modelled (`Tick`), and `TickOrderIrrelevant` proves that the two orders end in the same state. The flags are `uint8_t` compared against `0x01`, so a flag holding any other value counts as "not set". The model keeps that, rather than using a boolean. The comment at `Stopwatch_Design/main.c:52` gives `milliseconds` a range of 0 to 999 ms. The code keeps it in 0..9 (a tenths digit), and the model follows the code.

## Model

| member | source | states |
|---|---|---|
| Clock.Total | Stopwatch_Design/main.c:49-57 | The ghost tick count `ms_elapsed + 100*(milliseconds + 10*(seconds + 60*minutes))` of in-range fields is below the ten-minute wrap of 600000 ticks |
| Clock.Decode | Stopwatch_Design/main.c:241-266 | The fields for a tick count are in range, and their total is that count modulo 600000 |
| Clock.DecodeTotal | Stopwatch_Design/main.c:241-266 | Round trip: decoding the total of in-range fields gives the same fields back |
| Clock.TotalInjective | Stopwatch_Design/main.c:49-57 | In-range fields are fully determined by their tick total |
| Clock.Advance | Stopwatch_Design/main.c:239-270 | The counting half of the timer task keeps every field in range, never writes the flags or the counter, and changes nothing when `start_stopwatch` is not 0x01 |
| Clock.ApplyReset | Stopwatch_Design/main.c:273-281 | A pending reset zeroes the four time fields and clears both flags; with no reset pending, nothing changes |
| Clock.Tick | Stopwatch_Design/main.c:236-282 | One timer task keeps every time field in range (`ms_elapsed` ≤ 99, tenths ≤ 9, `seconds` ≤ 59, `minutes` ≤ 9) and leaves the counter alone |
| Clock.TickOrderIrrelevant | Stopwatch_Design/main.c:239-281 | Advancing first and then resetting, as the code does, ends in the same state as checking the reset first |
| Clock.TickReset | Stopwatch_Design/main.c:273-281 | If `reset_stopwatch` is 0x01, the tick ends with all four time fields 0 and both flags 0, whether or not the stopwatch was running |
| Clock.TickStopped | Stopwatch_Design/main.c:239-273 | With `start_stopwatch` not 0x01 and no reset pending, a tick changes nothing |
| Clock.TickAddsOne | Stopwatch_Design/main.c:239-270 | Running with no reset pending, a tick adds exactly 1 to the tick total modulo 600000; the new fields are the decoding of that total, and the flags are unchanged |
| Clock.TickWrapsAtTenMinutes | Stopwatch_Design/main.c:258-266 | From (99, 9, 59, 9), one tick gives all zeros: the minutes wrap silently |
| Clock.StoppedTicks | Stopwatch_Design/main.c:239-273 | A stopped stopwatch with no reset pending is unchanged by any number of ticks |
| Clock.TicksAddN | Stopwatch_Design/main.c:239-270 | While running with no reset pending, `n` ticks add exactly `n` to the tick total modulo 600000 and keep the flags |
| Clock.TicksFromZero | Stopwatch_Design/main.c:49-61 | Starting from all zeros and running, the fields after `n` ticks decode `n` and the ghost total is `n mod 600000` |
| Clock.CarryPoints | Stopwatch_Design/main.c:246-266 | From zero, 100 ticks give tenths 1, 1000 ticks give seconds 1, and 60000 ticks give minutes 1 |
| Clock.WrapAfterNineMinutes | Stopwatch_Design/main.c:258-266 | From 9:59.9, 100 more ticks give 0:00.0 |
| Display.StopwatchValue | Stopwatch_Design/main.c:205-220 | The digits are `[milliseconds, seconds % 10, seconds / 10, minutes]`: four digits with `10*d[2] + d[1] == seconds` and `d[1] < 10`, each at most 9 when the fields are in range |
| Display.FromDigits | Stopwatch_Design/main.c:205-220 | Reading valid display digits back gives in-range fields with no ticks pending |
| Display.DigitsRoundTrip | Stopwatch_Design/main.c:205-220 | The digits of in-range fields are valid display digits, and reading them back recovers tenths, seconds and minutes |
| Display.DigitsOnto | Stopwatch_Design/main.c:205-220 | Every valid four-digit display comes from exactly the time it reads back as |
| Buttons.PmodButton | Stopwatch_Design/main.c:108-147 | Status 0x04 sets the start flag to 1, 0x08 sets it to 0, 0x10 sets the reset flag to 1; 0x20 and every other status change nothing; the time fields and the counter are never touched |
| Buttons.PmodIdempotent | Stopwatch_Design/main.c:108-147 | Handling the same PMOD status twice has the same effect as handling it once |
| Buttons.StopHoldsTime | Stopwatch_Design/main.c:121-126 | After a stop press with no reset pending, any number of ticks leaves the time fields where they were |
| Buttons.ResetThenTick | Stopwatch_Design/main.c:129-134 | A reset press followed by one tick zeroes the time and clears both flags, running or not |
| Buttons.CounterStep | Stopwatch_Design/main.c:162-197 | The counter stays in 0..15. Status 0x08 gives `(counter+1) % 16`, 0x04 gives `(counter+15) % 16`, and any other status leaves it unchanged |
| Buttons.CounterUpDown | Stopwatch_Design/main.c:166-190 | An up press and a down press undo each other on an in-range counter |
| Buttons.PressesModSixteen | Stopwatch_Design/main.c:166-190 | `n` up presses add `n` to the counter modulo 16, and `n` down presses subtract `n` modulo 16 |
| StopwatchDesign.Stopwatch.constructor | Stopwatch_Design/main.c:39-61 | Every static starts at 0, so the fields are in range and the tick total is 0 |
| StopwatchDesign.Stopwatch.TimerPeriodicTask | Stopwatch_Design/main.c:236-282 | The new statics are `Tick` of the old ones. The range invariant is kept. Running with no reset pending adds exactly one tick modulo 600000. Stopped with no reset pending changes nothing. A pending reset zeroes everything but the counter |
| StopwatchDesign.Stopwatch.PmodButtonHandler | Stopwatch_Design/main.c:108-148 | The new statics are `PmodButton` of the old ones, and the range invariant is kept |
| StopwatchDesign.Stopwatch.EduBaseButtonHandler | Stopwatch_Design/main.c:162-197 | Only the counter changes, to `CounterStep` of its old value, and the range invariant is kept |
| StopwatchDesign.Stopwatch.CalculateStopwatchValue | Stopwatch_Design/main.c:205-220 | Indices 0..3 of the buffer receive the four display digits, the rest of the buffer and all statics are unchanged, and on in-range fields the digits read back to the time |

## Left out

- `main`'s hardware initialisation (`*_Init` calls) and its endless `while(1)` loop are register and pin I/O with no logic of their own.
- `RGB_LED_Output` and `Seven_Segment_Display_Stopwatch` are foreign LED and display drivers; the PMOD handler's LED colour writes are not modelled, only its flag writes. The driver sources are not part of this model.
- Interrupt registration through function pointers, and the atomicity of an interrupt handler against the main loop: each handler call is one atomic, sequential method, and concurrency is not modelled.
- The timer's real 1 ms cadence and any drift of it: a tick is an abstract unit.
- StopwatchDesign.Stopwatch.CalculateStopwatchValue: requires a buffer of at least four elements. The firmware writes indices 0..3 without a check, so a shorter buffer would be undefined behaviour in C.
