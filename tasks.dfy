/**
 * One iteration of each task body (vTaskEntrada, vTaskSaida, vTaskReset)
 * as an atomic step on the occupancy count, with what it shows and sounds
 * as a trace of events. These functions specify the methods of
 * Firmware.Library; the properties of the tasks are proved about them.
 */
module Tasks {
  import opened Wrappers
  import opened Board
  import opened Display
  import opened Leds
  import opened Debounce

  /**
   * Observable output: a beep (buzzer_on, a delay, buzzer_off), a task delay,
   * a screen (message variant, its headline, the formatted count and its
   * footer) and an LED update.
   */
  datatype Event =
    | Beep(ms: nat)
    | Pause(ms: nat)
    | Screen(msg: Message, headline: string, usuarios: string, footer: string)
    | Led(colour: Colour)

  /** beep takes a uint16_t duration. */
  function Uint16(x: nat): nat
  {
    x % 0x1_0000
  }

  /** The screen a task draws for a message, showing the count read back from the counter. */
  function Render(m: Message, count: nat): Event
  {
    Screen(m, Headline(m), CountText(count), Footer(m))
  }

  /** The count after a step and the events it produced. */
  datatype Step = Step(count: nat, events: seq<Event>)

  /** The durations of the beeps, in order. */
  function Beeps(events: seq<Event>): seq<nat>
  {
    if events == [] then []
    else (if events[0].Beep? then [events[0].ms] else []) + Beeps(events[1..])
  }

  /** The messages of the screens drawn, in order. */
  function Screens(events: seq<Event>): seq<Message>
  {
    if events == [] then []
    else (if events[0].Screen? then [events[0].msg] else []) + Screens(events[1..])
  }

  /** The colours shown by LED updates, in order. */
  function Colours(events: seq<Event>): seq<Colour>
  {
    if events == [] then []
    else (if events[0].Led? then [events[0].colour] else []) + Colours(events[1..])
  }

  /** Every screen shows `count` and every LED update shows its colour. */
  predicate ShowsCount(events: seq<Event>, count: nat)
  {
    forall i :: 0 <= i < |events| ==>
      (events[i].Screen? ==> ShownCount(events[i].usuarios) == Some(count)) &&
      (events[i].Led? ==> events[i].colour == LedColour(count))
  }

  /** vTaskEntrada, one wake-up: give a permit if below the ceiling, else a short beep. */
  function EntryStep(c: nat): (r: Step)
    ensures r.count == c + 1 <==> c < MaxUsers
    ensures c >= MaxUsers ==> r.count == c
    ensures ShowsCount(r.events, r.count)
  {
    if c < MaxUsers then
      Step(c + 1, [Render(EntryOk, c + 1), Led(LedColour(c + 1))])
    else
      Step(c, [Beep(Uint16(BuzzerIntervalShort)), Render(Full, c)])
  }

  /** vTaskSaida, one wake-up: take a permit if there is one; then the loop delay. */
  function ExitStep(c: nat): (r: Step)
    ensures r.count == c - 1 <==> c > 0
    ensures c == 0 ==> r.count == 0 && r.events == [Pause(LoopDelayMs)]
    ensures ShowsCount(r.events, r.count)
  {
    if c > 0 then
      Step(c - 1, [Render(ExitOk, c - 1), Led(LedColour(c - 1)), Pause(LoopDelayMs)])
    else
      Step(c, [Pause(LoopDelayMs)])
  }

  /** vTaskReset, one wake-up: drain the counter, double beep, show RESET; then the loop delay. */
  function ResetStep(c: nat): (r: Step)
    ensures r.count == 0
    ensures ShowsCount(r.events, r.count)
  {
    Step(0, [Beep(Uint16(BuzzerInterval)), Pause(ResetBeepGapMs), Beep(Uint16(BuzzerInterval)),
             Render(ResetDone, 0), Led(LedColour(0)), Pause(LoopDelayMs)])
  }

  /** The three observations of an event list, one event at a time. */
  lemma ObserveCons(x: Event, rest: seq<Event>)
    ensures Beeps([x] + rest) == (if x.Beep? then [x.ms] else []) + Beeps(rest)
    ensures Screens([x] + rest) == (if x.Screen? then [x.msg] else []) + Screens(rest)
    ensures Colours([x] + rest) == (if x.Led? then [x.colour] else []) + Colours(rest)
  {
    assert ([x] + rest)[0] == x && ([x] + rest)[1..] == rest;
  }

  /**
   * An entry below the ceiling shows "Entrada OK!" and updates the LED
   * without a sound; at the ceiling it sounds exactly one short beep, shows
   * "Esta cheio!" and leaves the LED alone.
   */
  lemma EntryFeedback(c: nat)
    ensures var r := EntryStep(c);
      Screens(r.events) == [if c < MaxUsers then EntryOk else Full] &&
      Colours(r.events) == (if c < MaxUsers then [LedColour(r.count)] else []) &&
      Beeps(r.events) == (if c < MaxUsers then [] else [BuzzerIntervalShort])
  {
    var e := EntryStep(c).events;
    assert e == [e[0]] + ([e[1]] + []);
    ObserveCons(e[1], []);
    ObserveCons(e[0], [e[1]] + []);
  }

  /** A successful exit shows "Saida OK!" and updates the LED; an exit at zero shows nothing. Neither beeps. */
  lemma ExitFeedback(c: nat)
    ensures var r := ExitStep(c);
      Screens(r.events) == (if c > 0 then [ExitOk] else []) &&
      Colours(r.events) == (if c > 0 then [LedColour(r.count)] else []) &&
      Beeps(r.events) == []
  {
    var e := ExitStep(c).events;
    if c > 0 {
      assert e == [e[0]] + ([e[1]] + ([e[2]] + []));
      ObserveCons(e[2], []);
      ObserveCons(e[1], [e[2]] + []);
      ObserveCons(e[0], [e[1]] + ([e[2]] + []));
    } else {
      assert e == [e[0]] + [];
      ObserveCons(e[0], []);
    }
  }

  /** A reset beeps, pauses 150 ms, beeps again, then shows "RESET" with the LED blue. */
  lemma ResetFeedback(c: nat)
    ensures var r := ResetStep(c);
      |r.events| >= 3 &&
      r.events[..3] == [Beep(BuzzerInterval), Pause(ResetBeepGapMs), Beep(BuzzerInterval)] &&
      Beeps(r.events) == [BuzzerInterval, BuzzerInterval] &&
      Screens(r.events) == [ResetDone] &&
      Colours(r.events) == [Blue]
  {
    var e := ResetStep(c).events;
    assert e == [e[0]] + ([e[1]] + ([e[2]] + ([e[3]] + ([e[4]] + ([e[5]] + [])))));
    ObserveCons(e[5], []);
    ObserveCons(e[4], [e[5]] + []);
    ObserveCons(e[3], [e[4]] + ([e[5]] + []));
    ObserveCons(e[2], [e[3]] + ([e[4]] + ([e[5]] + [])));
    ObserveCons(e[1], [e[2]] + ([e[3]] + ([e[4]] + ([e[5]] + []))));
    ObserveCons(e[0], [e[1]] + ([e[2]] + ([e[3]] + ([e[4]] + ([e[5]] + [])))));
  }

  /**
   * The step of the task a doorbell wakes: it keeps the count within
   * [0, MAX_USUARIOS], and everything it shows is for the new count.
   */
  function Handle(c: nat, b: Bell): (r: Step)
    ensures c <= MaxUsers ==> r.count <= MaxUsers
    ensures ShowsCount(r.events, r.count)
  {
    match b
    case EntryBell => EntryStep(c)
    case ExitBell => ExitStep(c)
    case ResetBell => ResetStep(c)
  }

  /**
   * The count after the tasks handle a sequence of wake-ups one at a time.
   * From any count in [0, MAX_USUARIOS], the initial 0 included, no sequence
   * of wake-ups leaves that range.
   */
  function Run(c: nat, wakes: seq<Bell>): (r: nat)
    ensures c <= MaxUsers ==> r <= MaxUsers
    decreases |wakes|
  {
    if wakes == [] then c else Run(Handle(c, wakes[0]).count, wakes[1..])
  }

  lemma {:induction false} RunAppend(c: nat, a: seq<Bell>, b: seq<Bell>)
    ensures Run(c, a + b) == Run(Run(c, a), b)
    decreases |a|
  {
    if a == [] {
      assert a + b == b;
    } else {
      assert (a + b)[0] == a[0] && (a + b)[1..] == a[1..] + b;
      RunAppend(Handle(c, a[0]).count, a[1..], b);
    }
  }

  /** n entries from c saturate at the ceiling. */
  lemma {:induction false} EntriesSaturate(c: nat, n: nat)
    requires c <= MaxUsers
    ensures Run(c, seq(n, _ => EntryBell)) == if c + n <= MaxUsers then c + n else MaxUsers
    decreases n
  {
    if n > 0 {
      var wakes := seq(n, _ => EntryBell);
      assert wakes[0] == EntryBell && wakes[1..] == seq(n - 1, _ => EntryBell);
      EntriesSaturate(EntryStep(c).count, n - 1);
    }
  }

  /** n exits from c stop at zero. */
  lemma {:induction false} ExitsFloor(c: nat, n: nat)
    ensures Run(c, seq(n, _ => ExitBell)) == if c >= n then c - n else 0
    decreases n
  {
    if n > 0 {
      var wakes := seq(n, _ => ExitBell);
      assert wakes[0] == ExitBell && wakes[1..] == seq(n - 1, _ => ExitBell);
      ExitsFloor(ExitStep(c).count, n - 1);
    }
  }

  /** A reset forgets everything before it. */
  lemma ResetForgetsHistory(c: nat, before: seq<Bell>, after: seq<Bell>)
    ensures Run(c, before + [ResetBell] + after) == Run(0, after)
  {
    RunAppend(c, before + [ResetBell], after);
    RunAppend(c, before, [ResetBell]);
    assert [ResetBell][1..] == [];
  }

  /**
   * Ten entries fill the library (red); an eleventh only beeps; an exit
   * leaves nine (yellow); a reset empties it (blue) with a double beep.
   */
  lemma FillEmptyScenario()
    ensures Run(0, seq(MaxUsers, _ => EntryBell)) == MaxUsers && LedColour(MaxUsers) == Red
    ensures EntryStep(MaxUsers).count == MaxUsers && Beeps(EntryStep(MaxUsers).events) == [BuzzerIntervalShort]
    ensures ExitStep(MaxUsers).count == MaxUsers - 1 && Colours(ExitStep(MaxUsers).events) == [Yellow]
    ensures ResetStep(MaxUsers - 1).count == 0 && Colours(ResetStep(MaxUsers - 1).events) == [Blue]
  {
    EntriesSaturate(0, MaxUsers);
    EntryFeedback(MaxUsers);
    ExitFeedback(MaxUsers);
    ResetFeedback(MaxUsers - 1);
  }
}
