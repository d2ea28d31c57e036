/**
 * Build-time constants of the firmware: pin numbers, the capacity of the
 * occupancy counter, buzzer intervals and the debounce window.
 */
module Board {
  /** Ceiling of the counting semaphore (MAX_USUARIOS). */
  const MaxUsers: nat := 10

  /** Button pins. */
  const EntryPin: nat := 5
  const ExitPin: nat := 6
  const ResetPin: nat := 22

  /** RGB LED pins. */
  const GreenLed: nat := 11
  const BlueLed: nat := 12
  const RedLed: nat := 13

  /** Buzzer intervals in milliseconds. */
  const BuzzerInterval: nat := 250
  const BuzzerIntervalShort: nat := 100

  /** Pause between the two beeps of a reset, in milliseconds. */
  const ResetBeepGapMs: nat := 150

  /** Delay at the end of each exit and reset iteration, in milliseconds. */
  const LoopDelayMs: nat := 100

  /** Minimum time between two accepted button edges, in microseconds. */
  const DebounceWindowUs: nat := 200000

  /** Size of the character buffer the count is formatted into. */
  const CountBufferSize: nat := 10
}
