/**
 * The firmware's global state and the code that changes it in place: the
 * counting semaphore, the three doorbell semaphores, the debounce
 * timestamps, the buzzer flags and the output trace. Each task method is
 * one wake-up of its task, proved against the step function in Tasks.
 */
module Firmware {
  import opened Board
  import opened Leds
  import opened Display
  import opened Debounce
  import opened Tasks
  import opened Semaphores

  class Library {
    /** xSemContador: the occupancy count. */
    const counter: Semaphore
    /** xSemReset, xSemEntrada, xSemSaida: binary doorbells given from the ISR. */
    const resetBell: Semaphore
    const entryBell: Semaphore
    const exitBell: Semaphore

    var currentTime: Uint32
    var lastTimeButton: Uint32
    var buzzerState: bool
    var lastBuzzerTime: Uint32
    /** What the tasks have shown and sounded so far. */
    var trace: seq<Event>

    /** The semaphores are distinct, have the ceilings main gives them, and the buzzer is off between beeps. */
    ghost predicate Valid()
      reads this, counter, resetBell, entryBell, exitBell
    {
      counter.Valid() && resetBell.Valid() && entryBell.Valid() && exitBell.Valid() &&
      counter.maxCount == MaxUsers &&
      resetBell.maxCount == 1 && entryBell.maxCount == 1 && exitBell.maxCount == 1 &&
      counter != resetBell && counter != entryBell && counter != exitBell &&
      resetBell != entryBell && resetBell != exitBell && entryBell != exitBell &&
      !buzzerState
    }

    /** The state gpio_callback works on. */
    ghost function Isr(): IsrState
      reads this, resetBell, entryBell, exitBell
    {
      IsrState(lastTimeButton, Doorbells(resetBell.count > 0, entryBell.count > 0, exitBell.count > 0))
    }

    /** The globals' initial values and the semaphores main creates. */
    constructor ()
      ensures Valid()
      ensures fresh(counter) && fresh(resetBell) && fresh(entryBell) && fresh(exitBell)
      ensures counter.count == 0
      ensures Isr() == IsrState(0, Doorbells(false, false, false))
      ensures currentTime == 0 && lastBuzzerTime == 0 && trace == []
    {
      counter := new Semaphore(MaxUsers, 0);
      resetBell := new Semaphore(1, 0);
      entryBell := new Semaphore(1, 0);
      exitBell := new Semaphore(1, 0);
      currentTime, lastTimeButton := 0, 0;
      buzzerState, lastBuzzerTime := false, 0;
      trace := [];
    }

    /** buzzer_on: time_us_64() is stored in a uint32. */
    method BuzzerOn(nowUs: nat)
      modifies this`buzzerState, this`lastBuzzerTime
      ensures buzzerState && lastBuzzerTime == Truncate32(nowUs)
    {
      buzzerState := true;
      lastBuzzerTime := Truncate32(nowUs);
    }

    /** buzzer_off. */
    method BuzzerOff()
      modifies this`buzzerState
      ensures !buzzerState
    {
      buzzerState := false;
    }

    /** beep: the buzzer sounds for `ms` (a uint16_t) and is off again afterwards. */
    method Beep(ms: nat, nowUs: nat)
      requires Valid()
      modifies this`buzzerState, this`lastBuzzerTime, this`trace
      ensures Valid()
      ensures trace == old(trace) + [Event.Beep(Uint16(ms))]
      ensures lastBuzzerTime == Truncate32(nowUs)
    {
      BuzzerOn(nowUs);
      trace := trace + [Event.Beep(Uint16(ms))];
      BuzzerOff();
    }

    /** gpio_callback for an edge on `gpio` at `nowUs` microseconds since boot. */
    method GpioCallback(gpio: nat, nowUs: nat)
      requires Valid()
      modifies this`currentTime, this`lastTimeButton, resetBell, entryBell, exitBell
      ensures Valid()
      ensures currentTime == Truncate32(nowUs)
      ensures Isr() == Callback(old(Isr()), gpio, currentTime)
    {
      currentTime := Truncate32(nowUs);
      if Sub32(currentTime, lastTimeButton) > DebounceWindowUs {
        lastTimeButton := currentTime;
        if gpio == ResetPin {
          var woken := resetBell.Give();
        } else if gpio == EntryPin {
          var woken := entryBell.Give();
        } else if gpio == ExitPin {
          var woken := exitBell.Give();
        }
      }
    }

    /**
     * vTaskEntrada, one iteration: if its doorbell is pending, consume it and
     * run EntryStep; otherwise the task stays blocked and nothing happens.
     */
    method EntryTask(nowUs: nat) returns (ran: bool)
      requires Valid()
      modifies this`buzzerState, this`lastBuzzerTime, this`trace, counter, entryBell
      ensures Valid()
      ensures ran == (old(entryBell.count) > 0) && entryBell.count == 0
      ensures ran ==> (counter.count == EntryStep(old(counter.count)).count &&
                       trace == old(trace) + EntryStep(old(counter.count)).events)
      ensures !ran ==> counter.count == old(counter.count) && trace == old(trace)
      ensures lastBuzzerTime == if ran && old(counter.count) >= MaxUsers then Truncate32(nowUs) else old(lastBuzzerTime)
    {
      ran := entryBell.Take();
      if ran {
        if counter.count < MaxUsers {
          var given := counter.Give();
          trace := trace + [Render(EntryOk, counter.count), Led(LedColour(counter.count))];
        } else {
          Beep(BuzzerIntervalShort, nowUs);
          trace := trace + [Render(Full, counter.count)];
        }
      }
    }

    /**
     * vTaskSaida, one iteration: if its doorbell is pending, consume it and
     * run ExitStep; otherwise the task stays blocked and nothing happens.
     */
    method ExitTask() returns (ran: bool)
      requires Valid()
      modifies this`trace, counter, exitBell
      ensures Valid()
      ensures ran == (old(exitBell.count) > 0) && exitBell.count == 0
      ensures ran ==> (counter.count == ExitStep(old(counter.count)).count &&
                       trace == old(trace) + ExitStep(old(counter.count)).events)
      ensures !ran ==> counter.count == old(counter.count) && trace == old(trace)
    {
      ran := exitBell.Take();
      if ran {
        if counter.count > 0 {
          var taken := counter.Take();
          if taken {
            trace := trace + [Render(ExitOk, counter.count), Led(LedColour(counter.count))];
          }
        }
        trace := trace + [Pause(LoopDelayMs)];
      }
    }

    /**
     * vTaskReset, one iteration: if its doorbell is pending, consume it, take
     * permits without waiting until a take fails, then run the rest of
     * ResetStep; otherwise the task stays blocked and nothing happens.
     */
    method ResetTask(firstBeepUs: nat, secondBeepUs: nat) returns (ran: bool)
      requires Valid()
      modifies this`buzzerState, this`lastBuzzerTime, this`trace, counter, resetBell
      ensures Valid()
      ensures ran == (old(resetBell.count) > 0) && resetBell.count == 0
      ensures ran ==> (counter.count == ResetStep(old(counter.count)).count &&
                       trace == old(trace) + ResetStep(old(counter.count)).events &&
                       lastBuzzerTime == Truncate32(secondBeepUs))
      ensures !ran ==> (counter.count == old(counter.count) && trace == old(trace) &&
                        lastBuzzerTime == old(lastBuzzerTime))
    {
      ran := resetBell.Take();
      if ran {
        var taken := counter.Take();
        while taken
          invariant counter.Valid()
          invariant !taken ==> counter.count == 0
          modifies counter
          decreases counter.count, taken
        {
          taken := counter.Take();
        }
        Beep(BuzzerInterval, firstBeepUs);
        trace := trace + [Pause(ResetBeepGapMs)];
        Beep(BuzzerInterval, secondBeepUs);
        trace := trace + [Render(ResetDone, counter.count), Led(LedColour(counter.count)), Pause(LoopDelayMs)];
      }
    }
  }

  /**
   * Presses before the entry task runs: an entry edge is accepted, an exit
   * edge 100 ms later falls in the shared window and is dropped, a second
   * entry edge is accepted but coalesces with the pending doorbell. One
   * entry step runs, the next finds no doorbell, and the exit task never
   * wakes.
   */
  method PressesCoalesce() returns (count: nat, entryRanAgain: bool, exitRan: bool)
    ensures count == 1 && !entryRanAgain && !exitRan
  {
    var lib := new Library();
    lib.GpioCallback(EntryPin, 300000);
    lib.GpioCallback(ExitPin, 400000);
    lib.GpioCallback(EntryPin, 700000);
    var entryRan := lib.EntryTask(750000);
    entryRanAgain := lib.EntryTask(800000);
    exitRan := lib.ExitTask();
    count := lib.counter.count;
  }
}
