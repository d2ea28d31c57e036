/**
 * atualizarLED: clear the three LEDs of the RGB LED, then light the ones
 * that give the colour for the current count. The decision is LedColour;
 * the GPIO writes it performs are LedWrites.
 */
module Leds {
  import opened Board

  /** Yellow is green and red together. */
  datatype Colour = Blue | Green | Yellow | Red

  /** The colour for a count: exactly one of the four branches is taken. */
  function LedColour(count: nat): (c: Colour)
    ensures c == Blue <==> count == 0
    ensures c == Green <==> 1 <= count <= MaxUsers - 2
    ensures c == Yellow <==> count == MaxUsers - 1
    ensures c == Red <==> count >= MaxUsers
  {
    if count == 0 then Blue
    else if count <= MaxUsers - 2 then Green
    else if count == MaxUsers - 1 then Yellow
    else Red
  }

  /** One gpio_put call. */
  datatype PinWrite = Put(pin: nat, level: bool)

  /** The gpio_put calls that switch a colour on, after the LEDs were cleared. */
  function Light(c: Colour): seq<PinWrite>
  {
    match c
    case Blue => [Put(BlueLed, true)]
    case Green => [Put(GreenLed, true)]
    case Yellow => [Put(GreenLed, true), Put(RedLed, true)]
    case Red => [Put(RedLed, true)]
  }

  /** The three gpio_put calls that switch every LED off. */
  const ClearAll: seq<PinWrite> := [Put(GreenLed, false), Put(BlueLed, false), Put(RedLed, false)]

  /**
   * Every gpio_put call of atualizarLED for a count, in order. Whatever the
   * LEDs showed before, afterwards exactly the pins of the count's colour
   * are on, and no other pin was touched.
   */
  function LedWrites(count: nat): (w: seq<PinWrite>)
    ensures forall before, pin ::
      Level(before, w, pin) == if IsLedPin(pin) then Glows(LedColour(count), pin) else before
  {
    ClearThenLightAll(LedColour(count));
    ClearAll + Light(LedColour(count))
  }

  /** The level of a pin after a sequence of writes, starting from `before`. */
  function Level(before: bool, writes: seq<PinWrite>, pin: nat): bool
    decreases |writes|
  {
    if writes == [] then before
    else Level(if writes[0].pin == pin then writes[0].level else before, writes[1..], pin)
  }

  /** Which LED pins are on for a colour. */
  predicate Glows(c: Colour, pin: nat)
  {
    match c
    case Blue => pin == BlueLed
    case Green => pin == GreenLed
    case Yellow => pin == GreenLed || pin == RedLed
    case Red => pin == RedLed
  }

  predicate IsLedPin(pin: nat)
  {
    pin == GreenLed || pin == BlueLed || pin == RedLed
  }

  lemma {:induction false} LevelAppend(before: bool, a: seq<PinWrite>, b: seq<PinWrite>, pin: nat)
    ensures Level(before, a + b, pin) == Level(Level(before, a, pin), b, pin)
    decreases |a|
  {
    if a == [] {
      assert a + b == b;
    } else {
      assert (a + b)[0] == a[0] && (a + b)[1..] == a[1..] + b;
      LevelAppend(if a[0].pin == pin then a[0].level else before, a[1..], b, pin);
    }
  }

  lemma ClearThenLightAll(c: Colour)
    ensures forall before, pin ::
      Level(before, ClearAll + Light(c), pin) == if IsLedPin(pin) then Glows(c, pin) else before
  {
    forall before, pin
      ensures Level(before, ClearAll + Light(c), pin) == if IsLedPin(pin) then Glows(c, pin) else before
    {
      ClearThenLight(c, before, pin);
    }
  }

  /** Clearing all three LEDs and then lighting a colour leaves exactly that colour's pins on. */
  lemma ClearThenLight(c: Colour, before: bool, pin: nat)
    ensures Level(before, ClearAll + Light(c), pin) == if IsLedPin(pin) then Glows(c, pin) else before
  {
    var clear := ClearAll;
    LevelAppend(before, clear, Light(c), pin);
    assert clear == [Put(GreenLed, false)] + [Put(BlueLed, false)] + [Put(RedLed, false)];
    LevelAppend(before, [Put(GreenLed, false)] + [Put(BlueLed, false)], [Put(RedLed, false)], pin);
    LevelAppend(before, [Put(GreenLed, false)], [Put(BlueLed, false)], pin);
    var cleared := Level(before, clear, pin);
    assert cleared == if IsLedPin(pin) then false else before by {
      LevelOne(before, Put(GreenLed, false), pin);
      LevelOne(Level(before, [Put(GreenLed, false)], pin), Put(BlueLed, false), pin);
      LevelOne(Level(before, [Put(GreenLed, false)] + [Put(BlueLed, false)], pin), Put(RedLed, false), pin);
    }
    if c == Yellow {
      assert Light(c) == [Put(GreenLed, true)] + [Put(RedLed, true)];
      LevelAppend(cleared, [Put(GreenLed, true)], [Put(RedLed, true)], pin);
      LevelOne(cleared, Put(GreenLed, true), pin);
      LevelOne(Level(cleared, [Put(GreenLed, true)], pin), Put(RedLed, true), pin);
    } else {
      assert |Light(c)| == 1;
      LevelOne(cleared, Light(c)[0], pin);
      assert Light(c) == [Light(c)[0]];
    }
  }

  lemma LevelOne(before: bool, w: PinWrite, pin: nat)
    ensures Level(before, [w], pin) == if w.pin == pin then w.level else before
  {
    assert [w][1..] == [];
  }
}
