/**
 * gpio_callback as a function of the interrupt-side state: one shared
 * 32-bit timestamp of the last accepted edge and three binary doorbells,
 * one per task. The uint32 wrap-around of the source is written out.
 */
module Debounce {
  import opened Wrappers
  import opened Board

  /** The doorbell semaphores xSemReset, xSemEntrada and xSemSaida. */
  datatype Bell = ResetBell | EntryBell | ExitBell

  /** Which doorbell a pin rings: the reset, entry and exit buttons, and none for any other pin. */
  function BellFor(gpio: nat): (b: Option<Bell>)
    ensures b == Some(ResetBell) <==> gpio == ResetPin
    ensures b == Some(EntryBell) <==> gpio == EntryPin
    ensures b == Some(ExitBell) <==> gpio == ExitPin
  {
    if gpio == ResetPin then Some(ResetBell)
    else if gpio == EntryPin then Some(EntryBell)
    else if gpio == ExitPin then Some(ExitBell)
    else None
  }

  /** Pending flags of the three binary doorbells. */
  datatype Doorbells = Doorbells(reset: bool, entry: bool, exit: bool)

  function Pending(d: Doorbells, b: Bell): bool
  {
    match b
    case ResetBell => d.reset
    case EntryBell => d.entry
    case ExitBell => d.exit
  }

  /** xSemaphoreGiveFromISR on a binary semaphore: the bell is pending afterwards, however many gives came before. */
  function Raise(d: Doorbells, b: Bell): (r: Doorbells)
    ensures forall b' :: Pending(r, b') <==> b' == b || Pending(d, b')
  {
    match b
    case ResetBell => d.(reset := true)
    case EntryBell => d.(entry := true)
    case ExitBell => d.(exit := true)
  }

  /** Raising a pending bell again changes nothing: presses before the task runs coalesce. */
  lemma RaiseCoalesces(d: Doorbells, b: Bell)
    ensures Raise(Raise(d, b), b) == Raise(d, b)
    ensures Pending(d, b) ==> Raise(d, b) == d
  {
  }

  /** Values of a uint32_t. */
  type Uint32 = x: int | 0 <= x < 0x1_0000_0000

  /** to_us_since_boot() is 64-bit; assigning it to current_time keeps the low 32 bits. */
  function Truncate32(us: nat): Uint32
  {
    us % 0x1_0000_0000
  }

  /** uint32_t subtraction, which wraps around modulo 2^32. */
  function Sub32(a: Uint32, b: Uint32): (d: Uint32)
    ensures a >= b ==> d == a - b
    ensures a < b ==> d == a - b + 0x1_0000_0000
  {
    (a - b) % 0x1_0000_0000
  }

  /**
   * The guard of gpio_callback, more than the window elapsed counting modulo
   * 2^32. In plain terms: without a wrap it asks for more than 200 ms since
   * the last accepted edge; across a wrap (now < last) it accepts unless
   * last is within 200 ms before 2^32 + now.
   */
  predicate Accepts(now: Uint32, last: Uint32)
    ensures now >= last ==> (Accepts(now, last) <==> now - last > DebounceWindowUs)
    ensures now < last ==> (Accepts(now, last) <==> last < now + 0x1_0000_0000 - DebounceWindowUs)
  {
    Sub32(now, last) > DebounceWindowUs
  }

  /** The state gpio_callback reads and writes. */
  datatype IsrState = IsrState(lastTimeButton: Uint32, bells: Doorbells)

  /**
   * One call of gpio_callback for an edge on `gpio` at time `now`. A
   * rejected edge changes nothing; an accepted one records its time and
   * rings exactly its own pin's bell (none for an unknown pin).
   */
  function Callback(s: IsrState, gpio: nat, now: Uint32): (r: IsrState)
    ensures !Accepts(now, s.lastTimeButton) ==> r == s
    ensures Accepts(now, s.lastTimeButton) ==> r.lastTimeButton == now
    ensures forall b :: Pending(r.bells, b) <==>
      Pending(s.bells, b) || (Accepts(now, s.lastTimeButton) && gpio == PinOf(b))
  {
    if Accepts(now, s.lastTimeButton) then
      var bells := match BellFor(gpio)
        case Some(b) => Raise(s.bells, b)
        case None => s.bells;
      IsrState(now, bells)
    else s
  }

  /** The pin that rings a bell. */
  function PinOf(b: Bell): (pin: nat)
    ensures BellFor(pin) == Some(b)
  {
    match b
    case ResetBell => ResetPin
    case EntryBell => EntryPin
    case ExitBell => ExitPin
  }

  /** The window is shared: after an accepted edge, every pin is ignored for the next 200 ms. */
  lemma SharedWindow(s: IsrState, gpio: nat, now: Uint32, gpio': nat, now': Uint32)
    requires Accepts(now, s.lastTimeButton)
    requires Sub32(now', now) <= DebounceWindowUs
    ensures Callback(Callback(s, gpio, now), gpio', now') == Callback(s, gpio, now)
  {
  }

  /** A raw edge: its pin and the low 32 bits of its time. */
  datatype Edge = Edge(gpio: nat, time: Uint32)

  /**
   * gpio_callback run over a sequence of edges. Interrupts alone never clear
   * a doorbell, and the timestamp is either the old one or one of the edges'
   * times.
   */
  function Replay(s: IsrState, edges: seq<Edge>): (r: IsrState)
    ensures forall b :: Pending(s.bells, b) ==> Pending(r.bells, b)
    ensures r.lastTimeButton == s.lastTimeButton || exists k :: 0 <= k < |edges| && edges[k].time == r.lastTimeButton
    decreases |edges|
  {
    if edges == [] then s
    else
      var r := Replay(Callback(s, edges[0].gpio, edges[0].time), edges[1..]);
      assert r.lastTimeButton != s.lastTimeButton && r.lastTimeButton != edges[0].time ==>
        exists k :: 0 <= k < |edges[1..]| && edges[1..][k].time == r.lastTimeButton;
      assert forall k :: 0 <= k < |edges[1..]| ==> edges[1..][k] == edges[k + 1];
      r
  }

  /** `a` is `b` with some elements left out, the rest in their order. */
  predicate IsSubseq<T(==)>(a: seq<T>, b: seq<T>)
    decreases |b|
  {
    if b == [] then a == []
    else IsSubseq(a, b[1..]) || (a != [] && a[0] == b[0] && IsSubseq(a[1..], b[1..]))
  }

  /**
   * The edges the debounce accepts, in input order, from a given last
   * accepted time: each is more than the window after the one before it.
   */
  function Accepted(last: Uint32, edges: seq<Edge>): (acc: seq<Edge>)
    ensures IsSubseq(acc, edges)
    ensures |acc| > 0 ==> Accepts(acc[0].time, last)
    ensures forall k :: 0 < k < |acc| ==> Accepts(acc[k].time, acc[k - 1].time)
    decreases |edges|
  {
    if edges == [] then []
    else if Accepts(edges[0].time, last) then
      var rest := Accepted(edges[0].time, edges[1..]);
      assert ([edges[0]] + rest)[1..] == rest;
      [edges[0]] + rest
    else Accepted(last, edges[1..])
  }

  /** The time the next edge is compared with: that of the last accepted edge, if any. */
  function LastTime(last: Uint32, acc: seq<Edge>): Uint32
  {
    if acc == [] then last else acc[|acc| - 1].time
  }

  /**
   * Edge by edge: a new edge is accepted iff it is outside the window of the
   * last accepted edge before it, and otherwise dropped.
   */
  lemma {:induction false} AcceptedSnoc(last: Uint32, edges: seq<Edge>, e: Edge)
    ensures var prior := Accepted(last, edges);
      Accepted(last, edges + [e]) ==
        prior + (if Accepts(e.time, LastTime(last, prior)) then [e] else [])
    decreases |edges|
  {
    if edges == [] {
      assert edges + [e] == [e] && [e][1..] == [];
    } else {
      var e0 := edges[0];
      assert (edges + [e])[0] == e0 && (edges + [e])[1..] == edges[1..] + [e];
      if Accepts(e0.time, last) {
        AcceptedSnoc(e0.time, edges[1..], e);
        var rest := Accepted(e0.time, edges[1..]);
        assert LastTime(e0.time, rest) == LastTime(last, [e0] + rest);
      } else {
        AcceptedSnoc(last, edges[1..], e);
      }
    }
  }

  /** A bell is pending after a run iff it was pending before or an accepted edge was on its pin. */
  predicate RungBy(acc: seq<Edge>, b: Bell)
  {
    exists k :: 0 <= k < |acc| && acc[k].gpio == PinOf(b)
  }

  /**
   * After any run of edges, the timestamp is that of the last accepted
   * edge, and each doorbell is a single flag: pending iff it was pending or
   * some accepted edge was on its pin, however many were.
   */
  lemma {:induction false} ReplayMatchesAccepted(s: IsrState, edges: seq<Edge>)
    ensures var acc := Accepted(s.lastTimeButton, edges);
      Replay(s, edges).lastTimeButton == (if acc == [] then s.lastTimeButton else acc[|acc| - 1].time)
    ensures var acc := Accepted(s.lastTimeButton, edges);
      forall b :: Pending(Replay(s, edges).bells, b) <==> Pending(s.bells, b) || RungBy(acc, b)
    decreases |edges|
  {
    if edges != [] {
      var e := edges[0];
      var s' := Callback(s, e.gpio, e.time);
      ReplayMatchesAccepted(s', edges[1..]);
      var rest := Accepted(s'.lastTimeButton, edges[1..]);
      if Accepts(e.time, s.lastTimeButton) {
        var acc := [e] + rest;
        assert acc == Accepted(s.lastTimeButton, edges);
        forall b ensures RungBy(acc, b) <==> e.gpio == PinOf(b) || RungBy(rest, b) {
          if RungBy(rest, b) {
            var k :| 0 <= k < |rest| && rest[k].gpio == PinOf(b);
            assert acc[k + 1] == rest[k];
          }
          if RungBy(acc, b) && e.gpio != PinOf(b) {
            var k :| 0 <= k < |acc| && acc[k].gpio == PinOf(b);
            assert k > 0 && rest[k - 1] == acc[k];
          }
          if e.gpio == PinOf(b) {
            assert acc[0] == e;
          }
        }
      } else {
        assert s' == s;
      }
    }
  }
}
