/**
 * animateValue: a display element counts from the number it shows towards a target in a
 * fixed number of timer ticks, the last tick landing exactly on the target.
 */
module ValueAnimation {
  import opened Rounding

  /** Ticks per animation (500 ms at 25 ms per tick). */
  const Steps: nat := 20

  function Increment(start: int, target: int): real
  {
    (target - start) as real / Steps as real
  }

  /** The value `current` holds after `k` ticks of an animation from `start` to `target`. */
  function ValueAfter(start: int, target: int, k: nat): real
  {
    if k >= Steps then target as real else start as real + k as real * Increment(start, target)
  }

  /** Every value an animation passes through lies between its start and its target. */
  lemma BetweenStartAndTarget(start: int, target: int, k: nat)
    ensures start <= target ==> start as real <= ValueAfter(start, target, k) <= target as real
    ensures target <= start ==> target as real <= ValueAfter(start, target, k) <= start as real
  {
    if k < Steps {
      var d := (target - start) as real;
      var inc := Increment(start, target);
      var kr := k as real;
      assert 20.0 * inc == d;
      assert ValueAfter(start, target, k) == start as real + kr * inc;
      assert (20.0 - kr) * inc == d - kr * inc;
      if d >= 0.0 {
        ProductNonNegative(kr, inc);
        ProductNonNegative(20.0 - kr, inc);
      } else {
        ProductNonNegative(kr, -inc);
        ProductNonNegative(20.0 - kr, -inc);
      }
    }
  }

  lemma ProductNonNegative(a: real, b: real)
    requires a >= 0.0 && b >= 0.0
    ensures a * b >= 0.0
  {
  }

  /** The number shown, rounded as Math.round does, also stays between start and target. */
  lemma ShownBetweenStartAndTarget(start: int, target: int, k: nat)
    ensures start <= target ==> start <= Round(ValueAfter(start, target, k)) <= target
    ensures target <= start ==> target <= Round(ValueAfter(start, target, k)) <= start
  {
    BetweenStartAndTarget(start, target, k);
    var v := ValueAfter(start, target, k);
    if start <= target {
      RoundMonotone(start as real, v);
      RoundMonotone(v, target as real);
    } else {
      RoundMonotone(target as real, v);
      RoundMonotone(v, start as real);
    }
    assert Round(start as real) == start;
    assert Round(target as real) == target;
  }

  /** From tick `Steps` on, the value is exactly the target, whatever the start. */
  lemma LandsOnTarget(start: int, target: int, k: nat)
    requires k >= Steps
    ensures Round(ValueAfter(start, target, k)) == target
  {
  }

  /** A page element whose text is a whole number (mealsProvided, shelterNights, reliefKits). */
  class Display {
    var text: int

    constructor (text: int)
      ensures this.text == text
    {
      this.text := text;
    }
  }

  /**
   * One running setInterval started by animateValue: its closure variables `current` and `step`
   * and whether the interval is still scheduled. Several animators may write to one display.
   */
  class ValueAnimator {
    const display: Display
    const startValue: int
    const target: int
    const increment: real
    var current: real
    var step: nat
    var running: bool

    ghost predicate Valid()
      reads this
    {
      increment == Increment(startValue, target) &&
      step <= Steps &&
      running == (step < Steps) &&
      current == ValueAfter(startValue, target, step)
    }

    /** animateValue(element, targetValue): reads the number shown and schedules the ticks. */
    constructor (display: Display, target: int)
      ensures Valid() && running && step == 0
      ensures this.display == display && this.target == target
      ensures startValue == display.text && current == display.text as real
    {
      this.display := display;
      this.target := target;
      startValue := display.text;
      increment := Increment(display.text, target);
      current := display.text as real;
      step := 0;
      running := true;
    }

    /** One timer tick; a cleared interval never ticks again. */
    method Tick()
      requires Valid() && running
      modifies this, display
      ensures Valid()
      ensures step == old(step) + 1 && current == ValueAfter(startValue, target, step)
      ensures running <==> step < Steps
      ensures !running ==> current == target as real
      ensures display.text == Round(current)
    {
      current := current + increment;
      step := step + 1;
      if step >= Steps {
        current := target as real;
        running := false;
      }
      display.text := Round(current);
    }
  }
}
