# Bibliotech occupancy counter — Dafny model

Bibliotech is FreeRTOS firmware for a library door counter on a Raspberry Pi Pico.
Button A (GPIO 5) counts an entry and button B (GPIO 6) counts an exit.
The joystick button (GPIO 22) resets the count to zero.
The count lives in a counting semaphore with ceiling `MAX_USUARIOS = 10`.
An OLED screen shows it as `"<n>/10"`, and an RGB LED shows blue, green, yellow or red.
A buzzer beeps once when the library is full and twice on reset.
Button edges arrive in one interrupt handler, `gpio_callback`.
It debounces them with a single shared 32-bit timestamp.
It then gives one of three binary "doorbell" semaphores, each waking one task.

The repository holds two copies of this program, `Bibliotech.c` and `Semaforo02Display.c`.
They are identical line for line, so one model covers both.
Rows below cite whichever copy matters for the row.

Modules, leaves first:

- `Board`: the build-time constants (pins, capacity, buzzer intervals, debounce window, buffer size).
- `Semaphores`: the FreeRTOS semaphore as a class: `Give` fails at the ceiling and a non-blocking `Take` fails at zero.
  A binary semaphore is the case with ceiling 1.
- `Display`: the message variants and the count text written by `sprintf("%d/%d")`, with its round trip and its length.
- `Leds`: `atualizarLED` as the colour decision `LedColour` and the GPIO writes `LedWrites`.
- `Debounce`: `gpio_callback` as a function on the shared timestamp and the three doorbells.
  `uint32_t` wrap-around is written out as arithmetic modulo 2^32.
- `Tasks`: one wake-up of each task body as a pure step on the count, plus an output trace.
  Trace events are `Beep(ms)`, `Pause(ms)`, `Screen(message, headline, "<n>/10", footer)` and `Led(colour)`.
  Also the lemmas about sequences of wake-ups.
- `Firmware`: the global state as the class `Library`.
  It holds four semaphore objects, the debounce and buzzer globals, and the trace.
  Each task method is proved against its step function in `Tasks`.
  The interrupt method is proved against `Debounce.Callback`.
  The pure functions (`Debounce.Raise`, `Debounce.Callback`, the `*Step` functions in `Tasks`) are the specification.
  The `Semaphore` and `Library` methods (`Give`, `GpioCallback`, the `*Task` methods) are the in-place code, tied to them through `Library.Isr()` and the count and trace.

Modelling decisions:

- Each task iteration is one atomic step.
  If the task's doorbell is not pending, the task stays blocked and nothing changes.
- The exit and reset loops end with `vTaskDelay(100)`, which appears as `Pause(100)`.
  The entry loop has no delay: its `vTaskDelay` after `while (1)` can never be reached.
- `beep` takes a `uint16_t`, so durations are reduced modulo 2^16 (`Uint16`).
- The 64-bit microsecond clocks are stored into `uint32_t` globals and are truncated (`Truncate32`).
  Times are parameters of the methods.
- The capacity is fixed at 10, and `Tasks.FillEmptyScenario` uses it.
- Reset drains the counter with a loop of non-blocking takes, kept in `Firmware.Library.ResetTask`.
  Its invariant proves that the loop ends with the count at zero.
- One timestamp serves all three buttons, so a press on one button mutes the others too (`Debounce.SharedWindow`).
- A full entry shows "Esta cheio!" without calling `atualizarLED`, so the LED keeps its previous colour (`Tasks.EntryFeedback`).

## Model

| member | source | states |
|---|---|---|
| `Semaphores.Semaphore.constructor` | Bibliotech.c:317-320 | A semaphore starts with the given count and ceiling; the counter is created with 0 of 10, each doorbell with 0 of 1. |
| `Semaphores.Semaphore.Give` | Bibliotech.c:126 | A give succeeds iff the count is below the ceiling. It then adds exactly one; otherwise nothing changes, so the count never exceeds the ceiling. |
| `Semaphores.Semaphore.Take` | Bibliotech.c:215 | A non-blocking take succeeds iff the count is positive. It then removes exactly one; otherwise nothing changes. |
| `Display.Decimal` | Semaforo02Display.c:137 | `%d` text of a count: at least one character, all decimal digits, and no leading zero. |
| `Display.ParseDecimalInvertsDecimal` | Semaforo02Display.c:137 | Reading the digits back gives the count that was printed. |
| `Display.DecimalLength` | Semaforo02Display.c:137 | A number prints in at most k digits exactly when it is below 10^k. |
| `Display.CountText` | Semaforo02Display.c:136-138 | The `"%d/%d"` text parses back to the count it was made from, followed by `/10`. |
| `Display.CountTextFitsBuffer` | Semaforo02Display.c:136-137 | The text plus its terminating NUL fits the 10-byte buffer exactly for counts below 10^6. |
| `Display.CountTextShort` | Semaforo02Display.c:136-137 | Every count from 0 to 10 prints in at most 5 characters, so it fits the buffer. |
| `Leds.LedColour` | Semaforo02Display.c:254-270 | Blue iff the count is 0, green iff 1..8, yellow iff 9, red iff 10 or more: exactly one branch for every count. |
| `Leds.LevelAppend` | Semaforo02Display.c:250-270 | The effect of a sequence of `gpio_put` calls is the effect of its parts in order. |
| `Leds.ClearThenLight` | Semaforo02Display.c:250-270 | Clearing the three LEDs and then lighting a colour leaves exactly that colour's pins on, whatever they showed before. |
| `Leds.LedWrites` | Semaforo02Display.c:250-270 | After the `gpio_put` calls of `atualizarLED`, exactly the pins of the count's colour are on. The other LED pins are off and no other pin is touched, whatever the LEDs showed before. |
| `Debounce.BellFor` | Semaforo02Display.c:292-304 | Pin 22 rings the reset doorbell, 5 the entry doorbell and 6 the exit doorbell; any other pin rings none. |
| `Debounce.Raise` | Semaforo02Display.c:318-320 | Giving a binary doorbell leaves it pending and leaves the other two as they were. |
| `Debounce.RaiseCoalesces` | Semaforo02Display.c:318-320 | Giving an already pending doorbell changes nothing, so repeated gives coalesce into one. |
| `Debounce.Sub32` | Semaforo02Display.c:286 | `uint32_t` subtraction: the plain difference when no wrap occurs, the difference plus 2^32 otherwise. |
| `Debounce.Accepts` | Semaforo02Display.c:286 | Without a wrap, an edge is accepted iff more than 200000 µs passed. Across a wrap, the elapsed time is measured modulo 2^32. |
| `Debounce.Callback` | Semaforo02Display.c:282-308 | A rejected edge changes neither the timestamp nor any doorbell. An accepted edge stores its time and rings exactly its own pin's doorbell, and none for an unknown pin. |
| `Debounce.SharedWindow` | Semaforo02Display.c:286-290 | After an accepted edge on any pin, every edge on every pin within 200000 µs is dropped. |
| `Debounce.Replay` | Semaforo02Display.c:282-308 | Over any run of edges, interrupts alone never clear a doorbell, and the timestamp is the old one or one of the edges' times. |
| `Debounce.Accepted` | Semaforo02Display.c:286-290 | The accepted edges are a subsequence of the input, in input order. The first is more than the window after the previous timestamp, and each later one is more than the window after the one before it. |
| `Debounce.AcceptedSnoc` | Semaforo02Display.c:286-290 | Each new edge is accepted iff it is outside the window of the last accepted edge before it, and is dropped otherwise. |
| `Debounce.ReplayMatchesAccepted` | Semaforo02Display.c:282-308 | After any run of edges, the timestamp is the last accepted edge's time. Each doorbell is pending iff it was pending before or some accepted edge was on its pin, however many there were. |
| `Tasks.EntryStep` | Bibliotech.c:124-166 | Entry raises the count by exactly one iff it was below 10, and otherwise leaves it unchanged. Every screen shows the new count and every LED update shows its colour. |
| `Tasks.ExitStep` | Bibliotech.c:177-203 | Exit lowers the count by exactly one iff it was positive. At 0 it changes nothing and only the loop delay occurs. Every screen shows the new count. |
| `Tasks.ResetStep` | Bibliotech.c:212-243 | Reset leaves the count at 0 whatever it was, and what it shows is for count 0. |
| `Tasks.EntryFeedback` | Bibliotech.c:124-166 | Below the ceiling: "Entrada OK!", one LED update, no beep. At the ceiling: exactly one 100 ms beep, "Esta cheio!", and no LED update. |
| `Tasks.ExitFeedback` | Bibliotech.c:179-199 | A successful exit shows "Saida OK!" and updates the LED. An exit at 0 shows nothing and updates no LED. Neither beeps. |
| `Tasks.ResetFeedback` | Bibliotech.c:220-241 | Reset emits Beep(250), Pause(150), Beep(250), then shows "RESET" with the LED blue, and makes no other beep, screen or LED update. |
| `Tasks.Handle` | Bibliotech.c:118-245 | The step of whichever task a doorbell wakes keeps the count within 0..10, and everything it shows is for the new count. |
| `Tasks.Run` | Bibliotech.c:118-245 | From any count in 0..10, the initial 0 of Bibliotech.c:317 included, any sequence of wake-ups keeps the count within 0..10. |
| `Tasks.RunAppend` | Bibliotech.c:118-245 | Handling two sequences of wake-ups in turn is handling their concatenation. |
| `Tasks.EntriesSaturate` | Bibliotech.c:124-126 | n entries from count c leave min(c + n, 10). |
| `Tasks.ExitsFloor` | Bibliotech.c:179-181 | n exits from count c leave max(c - n, 0). |
| `Tasks.ResetForgetsHistory` | Bibliotech.c:212-218 | Whatever happened before a reset, the count afterwards depends only on the wake-ups after it. |
| `Tasks.FillEmptyScenario` | Bibliotech.c:118-245 | Ten entries give 10 (red). An eleventh beeps once and stays at 10. An exit gives 9 (yellow). A reset gives 0 (blue). |
| `Firmware.Library.constructor` | Bibliotech.c:317-320 | The counter starts at 0 with ceiling 10 and no doorbell is pending. The timestamps are 0 and the buzzer is off. |
| `Firmware.Library.BuzzerOn` | Bibliotech.c:104-109 | `buzzer_on` sets the buzzer state and stores the time, truncated to 32 bits. |
| `Firmware.Library.BuzzerOff` | Bibliotech.c:111-115 | `buzzer_off` clears the buzzer state. |
| `Firmware.Library.Beep` | Bibliotech.c:274-279 | A beep appends one Beep of the `uint16_t` duration, and the buzzer is off afterwards. |
| `Firmware.Library.GpioCallback` | Semaforo02Display.c:282-308 | The interrupt handler changes the timestamp and doorbells exactly as `Debounce.Callback` says and keeps the semaphores valid. |
| `Firmware.Library.EntryTask` | Bibliotech.c:118-170 | If the entry doorbell is pending, it is consumed and the count and trace change as `Tasks.EntryStep` says. Otherwise nothing changes. |
| `Firmware.Library.ExitTask` | Bibliotech.c:173-205 | If the exit doorbell is pending, it is consumed and the count and trace change as `Tasks.ExitStep` says. Otherwise nothing changes. |
| `Firmware.Library.ResetTask` | Bibliotech.c:208-245 | If the reset doorbell is pending, it is consumed, the drain loop ends with the count at 0, and the trace changes as `Tasks.ResetStep` says. Otherwise nothing changes. |
| `Firmware.PressesCoalesce` | Semaforo02Display.c:282-320 | An entry press, an exit press inside the shared window and a second entry press give one entry step (count 1). A second entry step finds no doorbell and the exit task never wakes. |

## Left out

- `initHardware`, the PWM set-up (`DIVIDER_PWM`, `PERIOD`, the buzzer slice) and the PWM levels written by `buzzer_on` and `buzzer_off`: device configuration and I/O.
- The SSD1306 drawing calls, fonts and pixel coordinates: a driver whose source is not part of this model. A screen is kept as its message variant, its headline, its count text and its footer. The fixed title "Biblioteca", the "Usuarios: " label and the divider line are left out.
- The display mutex, task priorities, `portYIELD_FROM_ISR` and the real duration of `vTaskDelay`: scheduling. Each task iteration is one atomic step and each delay is a `Pause` event.
- The check-then-give and check-then-take races between the entry and exit tasks: concurrency. The model runs each check and its action as one step.
- The blocking take on the counter in the exit task is modelled as `Take`. Its count was just seen to be positive, so in a sequential model it never waits.
- The unused `events` parameter of `gpio_callback`; `main`'s splash screen, task creation and `panic_unsupported`: bootstrap only.
- `last_buzzer_time` is modelled (`Firmware.Library.BuzzerOn`) but the firmware never reads it, so no property depends on it.
