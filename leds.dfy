/** The three LEDs, their state vector and the pins they are wired to. */
module Leds {
  datatype Led = Left | Middle | Right

  /** The LED state vector: one on/off level per LED. */
  datatype LedVector = LedVector(left: bool, middle: bool, right: bool)
  {
    function Get(led: Led): bool
    {
      match led
      case Left => left
      case Middle => middle
      case Right => right
    }

    /** The vector with one LED's level replaced. */
    function With(led: Led, level: bool): (w: LedVector)
      ensures w.Get(led) == level
      ensures forall other :: other != led ==> w.Get(other) == Get(other)
    {
      match led
      case Left => this.(left := level)
      case Middle => this.(middle := level)
      case Right => this.(right := level)
    }

    /** The vector with one LED switched to the opposite level. */
    function Flip(led: Led): (w: LedVector)
      ensures w.Get(led) == !Get(led)
      ensures forall other :: other != led ==> w.Get(other) == Get(other)
    {
      With(led, !Get(led))
    }
  }

  /** The known-safe vector applied when no valid stored state exists: only the middle LED on. */
  const Default := LedVector(false, true, false)

  /** Number of GPIO pins of the microcontroller (0 to 29). */
  const NumPins := 30

  /** The output pin that drives each LED. */
  function LedPin(led: Led): (pin: nat)
    ensures pin < NumPins
  {
    match led
    case Left => 20
    case Middle => 21
    case Right => 22
  }

  /** Whether a pin drives one of the LEDs. */
  predicate IsLedPin(pin: nat)
  {
    pin == LedPin(Left) || pin == LedPin(Middle) || pin == LedPin(Right)
  }
}
