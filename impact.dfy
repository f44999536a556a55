/** The donation impact calculator's arithmetic: whole units of aid a dollar amount pays for. */
module Impact {

  /** Dollars per meal, per shelter night and per relief kit. */
  const MealCost: real := 2.5
  const ShelterNightCost: real := 25.0
  const ReliefKitCost: real := 20.0

  datatype Counts = Counts(meals: int, nights: int, kits: int)

  /** True when `units` whole units at `cost` each is the most `amount` pays for. */
  ghost predicate MostAffordable(units: int, cost: real, amount: int)
    requires cost > 0.0
  {
    units as real * cost <= amount as real < (units + 1) as real * cost
  }

  /**
   * Math.floor(amount / rate) for each rate, computed exactly on integers:
   * floor(a / 2.5) is (2 * a) div 5, and Dafny's div by a positive divisor is floor division.
   */
  function ImpactOf(amount: int): (r: Counts)
    ensures r.meals == (amount as real / MealCost).Floor
    ensures r.nights == (amount as real / ShelterNightCost).Floor
    ensures r.kits == (amount as real / ReliefKitCost).Floor
    ensures MostAffordable(r.meals, MealCost, amount)
    ensures MostAffordable(r.nights, ShelterNightCost, amount)
    ensures MostAffordable(r.kits, ReliefKitCost, amount)
  {
    var meals, nights, kits := (2 * amount) / 5, amount / 25, amount / 20;
    assert 2 * amount == 5 * meals + (2 * amount) % 5;
    assert amount == 25 * nights + amount % 25;
    assert amount == 20 * kits + amount % 20;
    Counts(meals, nights, kits)
  }

  /** A $100 donation: 40 meals, 4 shelter nights, 5 relief kits. */
  lemma ImpactOfHundred()
    ensures ImpactOf(100) == Counts(40, 4, 5)
  {
  }

  /** A $0 donation pays for nothing. */
  lemma ImpactOfZero()
    ensures ImpactOf(0) == Counts(0, 0, 0)
  {
  }

  /** A larger donation never pays for fewer units of any kind. */
  lemma ImpactMonotone(a: int, b: int)
    requires a <= b
    ensures ImpactOf(a).meals <= ImpactOf(b).meals
    ensures ImpactOf(a).nights <= ImpactOf(b).nights
    ensures ImpactOf(a).kits <= ImpactOf(b).kits
  {
  }
}
