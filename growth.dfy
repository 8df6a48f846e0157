/**
 * The food side of the population engine: how much food the next citizen
 * costs, and how one turn's food turns into growth or starvation.
 */
module Growth {

  /** `b` to the power `e`. */
  function Pow(b: nat, e: nat): nat
  {
    if e == 0 then 1 else b * Pow(b, e - 1)
  }

  lemma {:induction false} PowPositive(b: nat, e: nat)
    requires b >= 1
    ensures Pow(b, e) >= 1
  {
    if e > 0 {
      PowPositive(b, e - 1);
      MulAtLeast(b, Pow(b, e - 1));
    }
  }

  lemma MulAtLeast(x: nat, y: nat)
    requires y >= 1
    ensures x * y >= x
  {
  }

  lemma MulMonotone(a: nat, b: nat, c: nat, d: nat)
    requires a <= b && c <= d
    ensures a * c <= b * d
  {
    assert a * c <= b * c;
    assert b * c <= b * d;
  }

  /** A power with a positive exponent is at least its base. */
  lemma {:induction false} PowAtLeastBase(b: nat, e: nat)
    requires e >= 1
    ensures Pow(b, e) >= b
  {
    if b >= 1 {
      PowPositive(b, e - 1);
      MulAtLeast(b, Pow(b, e - 1));
    }
  }

  /** Powers grow with their base. */
  lemma {:induction false} PowMonotone(a: nat, b: nat, e: nat)
    requires a <= b
    ensures Pow(a, e) <= Pow(b, e)
  {
    if e > 0 {
      PowMonotone(a, b, e - 1);
      MulMonotone(a, b, Pow(a, e - 1), Pow(b, e - 1));
    }
  }

  /** The largest `r` at or above `k` with `r^5 <= x`. */
  function RootFrom(x: nat, k: nat): (r: nat)
    requires Pow(k, 5) <= x
    ensures k <= r && Pow(r, 5) <= x < Pow(r + 1, 5)
    decreases x - k
  {
    if x < Pow(k + 1, 5) then k
    else
      PowAtLeastBase(k + 1, 5);
      RootFrom(x, k + 1)
  }

  /**
   * `floor(n^1.8)` for a natural `n`, computed exactly: since 1.8 is 9/5, it
   * is the largest `r` whose fifth power is at most `n^9`.
   */
  function FloorPowNineFifths(n: nat): (r: nat)
    ensures Pow(r, 5) <= Pow(n, 9) < Pow(r + 1, 5)
  {
    RootFrom(Pow(n, 9), 0)
  }

  /** The exponent term grows with the population. */
  lemma FloorPowNineFifthsMonotone(n: nat, m: nat)
    requires n <= m
    ensures FloorPowNineFifths(n) <= FloorPowNineFifths(m)
  {
    var r, s := FloorPowNineFifths(n), FloorPowNineFifths(m);
    PowMonotone(n, m, 9);
    if r > s {
      PowMonotone(s + 1, r, 5);
      assert false;
    }
  }

  lemma FloorPowNineFifthsAtZeroAndOne()
    ensures FloorPowNineFifths(0) == 0 && FloorPowNineFifths(1) == 1
  {
    PowAtLeastBase(FloorPowNineFifths(0), 5);
    assert Pow(1, 9) == 1;
    PowAtLeastBase(FloorPowNineFifths(1), 5);
  }

  /** Kotlin's `toInt()` of a floating value: the fraction is discarded, toward zero. */
  function TruncToInt(x: real): (r: int)
    ensures x >= 0.0 ==> 0 <= r && r as real <= x < r as real + 1.0
    ensures x < 0.0 ==> r <= 0 && r as real - 1.0 < x <= r as real
  {
    if x >= 0.0 then x.Floor else -((-x).Floor)
  }

  /** Truncation toward zero keeps the order of its arguments. */
  lemma TruncMonotone(x: real, y: real)
    requires x <= y
    ensures TruncToInt(x) <= TruncToInt(y)
  {
  }

  /** What the growth formula needs to know about the owning civilization. */
  datatype GrowthRules = GrowthRules(
    isCityState: bool,             // the owner is a city-state
    isPlayerCivilization: bool,    // the owner is played by a human
    aiCityGrowthModifier: real)    // the difficulty's factor for AI-owned cities

  /** The food cost of the next citizen before the owner's multipliers. */
  function BaseFoodToNextPopulation(population: int): int
    requires population >= 1
  {
    15 + 6 * (population - 1) + FloorPowNineFifths(population - 1)
  }

  /**
   * `getFoodToNextPopulation`: the base cost, times 1.5 for a city-state,
   * times the AI growth modifier for a civilization no human plays,
   * truncated at the end. Below population 1 the exponent term has a
   * negative base, the floating result is NaN, and NaN converts to 0.
   */
  function FoodToNextPopulation(population: int, rules: GrowthRules): (r: int)
  {
    if population < 1 then 0 else Scaled(BaseFoodToNextPopulation(population), rules)
  }

  /** The rules of a human-played major civilization. */
  function PlayerRules(modifier: real): GrowthRules
  {
    GrowthRules(false, true, modifier)
  }

  /** A human-played major civilization pays the base cost unscaled. */
  lemma PlayerThresholdIsBase(population: int, modifier: real)
    requires population >= 1
    ensures FoodToNextPopulation(population, PlayerRules(modifier)) == BaseFoodToNextPopulation(population)
  {
  }

  /** The first citizen costs 15 food and the second 22 (15 + 6 + floor(1^1.8)). */
  lemma PlayerThresholdAtOneAndTwo(modifier: real)
    ensures FoodToNextPopulation(1, PlayerRules(modifier)) == 15
    ensures FoodToNextPopulation(2, PlayerRules(modifier)) == 22
  {
    FloorPowNineFifthsAtZeroAndOne();
  }

  /**
   * A city-state pays one and a half times the base cost. Played by a human,
   * that is `(3 * base) / 2`; owned by the AI, the modifier multiplies the
   * unrounded 1.5 times the base and the product is truncated only once.
   */
  lemma CityStateThreshold(population: int, isPlayerCivilization: bool, modifier: real)
    requires population >= 1
    ensures isPlayerCivilization ==>
              FoodToNextPopulation(population, GrowthRules(true, true, modifier))
                == (3 * BaseFoodToNextPopulation(population)) / 2
    ensures !isPlayerCivilization ==>
              FoodToNextPopulation(population, GrowthRules(true, false, modifier))
                == TruncToInt((3 * BaseFoodToNextPopulation(population)) as real * modifier / 2.0)
  {
    var b := BaseFoodToNextPopulation(population);
    var rules := GrowthRules(true, isPlayerCivilization, modifier);
    assert FoodToNextPopulation(population, rules) == Scaled(b, rules);
    CityStateScaled(b, isPlayerCivilization, modifier);
    if !isPlayerCivilization {
      var x := (3 * b) as real * modifier / 2.0;
      assert Scaled(b, rules) == TruncToInt(x);
    }
  }

  /** The city-state scaling of any non-negative base cost. */
  lemma CityStateScaled(b: int, isPlayerCivilization: bool, modifier: real)
    requires b >= 0
    ensures Scaled(b, GrowthRules(true, isPlayerCivilization, modifier))
         == if isPlayerCivilization then (3 * b) / 2 else TruncToInt((3 * b) as real * modifier / 2.0)
  {
    var half := b as real * 1.5;
    assert half == (3 * b) as real / 2.0;
    if isPlayerCivilization {
      assert Multiplied(b, GrowthRules(true, true, modifier)) == (3 * b) as real / 2.0;
      HalfTruncates(3 * b);
    } else {
      var y := (3 * b) as real;
      assert half * modifier == y / 2.0 * modifier;
      assert y / 2.0 * modifier == y * modifier / 2.0;
    }
  }

  /** Halving a non-negative integer over the reals and truncating is integer division by 2. */
  lemma HalfTruncates(n: int)
    requires n >= 0
    ensures TruncToInt(n as real / 2.0) == n / 2
  {
    var q, m := n / 2, n % 2;
    assert n as real / 2.0 == q as real + m as real / 2.0;
  }

  /**
   * Truncating once matters: an AI-owned city-state of one citizen with
   * modifier 0.9 pays 20 food (15 * 1.5 * 0.9 = 20.25), not the 19 that
   * truncating 22.5 before applying the modifier would give.
   */
  lemma CityStateSingleTruncation()
    ensures FoodToNextPopulation(1, GrowthRules(true, false, 0.9)) == 20
    ensures TruncToInt(TruncToInt(15.0 * 1.5) as real * 0.9) == 19
  {
    FloorPowNineFifthsAtZeroAndOne();
    CityStateThreshold(1, false, 0.9);
    assert (3 * 15) as real * 0.9 / 2.0 == 20.25;
  }

  /** The base cost rises by at least 6 with every citizen. */
  lemma BaseFoodStrictlyIncreasing(p: int, q: int)
    requires 1 <= p < q
    ensures BaseFoodToNextPopulation(p) + 6 * (q - p) <= BaseFoodToNextPopulation(q)
  {
    FloorPowNineFifthsMonotone(p - 1, q - 1);
  }

  /** Scaling by a non-negative factor keeps the order. */
  lemma ScaleMonotone(x: real, y: real, k: real)
    requires 0.0 <= x <= y && k >= 0.0
    ensures 0.0 <= x * k <= y * k
  {
  }

  /** The owner's multipliers applied to a base cost: 1.5 for a city-state, then the AI modifier. */
  function Multiplied(base: int, rules: GrowthRules): real
  {
    var cityState := if rules.isCityState then 1.5 else 1.0;
    var ai := if rules.isPlayerCivilization then 1.0 else rules.aiCityGrowthModifier;
    base as real * cityState * ai
  }

  /** The multiplied cost, truncated to an integer. */
  function Scaled(base: int, rules: GrowthRules): int
  {
    TruncToInt(Multiplied(base, rules))
  }

  lemma MultipliedMonotone(bp: int, bq: int, rules: GrowthRules)
    requires 0 <= bp <= bq && rules.aiCityGrowthModifier >= 0.0
    ensures 0.0 <= Multiplied(bp, rules) <= Multiplied(bq, rules)
  {
    var cs := if rules.isCityState then 1.5 else 1.0;
    var ai := if rules.isPlayerCivilization then 1.0 else rules.aiCityGrowthModifier;
    ScaleMonotone(bp as real, bq as real, cs);
    ScaleMonotone(bp as real * cs, bq as real * cs, ai);
  }

  lemma ScaledMonotone(bp: int, bq: int, rules: GrowthRules)
    requires 0 <= bp <= bq && rules.aiCityGrowthModifier >= 0.0
    ensures 0 <= Scaled(bp, rules) <= Scaled(bq, rules)
  {
    MultipliedMonotone(bp, bq, rules);
    TruncMonotone(Multiplied(bp, rules), Multiplied(bq, rules));
  }

  /** With a non-negative AI modifier, a larger city never needs less food to grow. */
  lemma FoodToNextPopulationMonotone(p: int, q: int, rules: GrowthRules)
    requires 1 <= p <= q
    requires rules.aiCityGrowthModifier >= 0.0
    ensures 0 <= FoodToNextPopulation(p, rules) <= FoodToNextPopulation(q, rules)
  {
    if p < q {
      BaseFoodStrictlyIncreasing(p, q);
    }
    ScaledMonotone(BaseFoodToNextPopulation(p), BaseFoodToNextPopulation(q), rules);
  }

  /** The owner's rules make every threshold from population 1 on at least one food. */
  predicate ThresholdsPositive(rules: GrowthRules)
  {
    rules.isPlayerCivilization || 15.0 * rules.aiCityGrowthModifier >= 1.0
  }

  lemma ThresholdPositive(population: int, rules: GrowthRules)
    requires population >= 1 && ThresholdsPositive(rules)
    ensures FoodToNextPopulation(population, rules) >= 1
  {
    var b := BaseFoodToNextPopulation(population) as real;
    var cs := if rules.isCityState then 1.5 else 1.0;
    var ai := if rules.isPlayerCivilization then 1.0 else rules.aiCityGrowthModifier;
    assert b >= 15.0;
    assert ai * 15.0 >= 1.0;
    assert b * cs >= 15.0;
    assert b * cs * ai >= 15.0 * ai;
  }

  /** The share of the spent threshold carried over after growth: at most 95 percent. */
  function CarriedOver(threshold: int, carryOverPercent: int): (r: int)
    ensures threshold >= 0 && carryOverPercent >= 0 ==> 0 <= r
    ensures threshold >= 0 ==> r * 100 <= threshold * 95
  {
    var percent := if carryOverPercent > 95 then 95 else carryOverPercent;
    CarriedOverBound(threshold, percent);
    TruncToInt((threshold * percent) as real / 100.0)
  }

  lemma CarriedOverBound(threshold: int, percent: int)
    requires percent <= 95
    ensures threshold >= 0 && percent >= 0 ==> 0 <= TruncToInt((threshold * percent) as real / 100.0)
    ensures threshold >= 0 ==> TruncToInt((threshold * percent) as real / 100.0) * 100 <= threshold * 95
  {
    var m := threshold * percent;
    var r := TruncToInt(m as real / 100.0);
    if threshold >= 0 {
      assert m <= threshold * 95;
      if m >= 0 {
        assert r as real <= m as real / 100.0;
        assert r * 100 <= m;
      } else {
        assert r <= 0;
      }
    }
  }

  /** A carry-over above 95 percent, 150 percent say, counts as 95 percent. */
  lemma CarryOverCapped(threshold: int, carryOverPercent: int)
    requires carryOverPercent >= 95
    ensures CarriedOver(threshold, carryOverPercent) == CarriedOver(threshold, 95)
  {
  }

  /** `addPopulation`'s arithmetic: add `count`, but never go below zero. */
  function PopulationAfterAdd(population: int, count: int): (r: int)
    ensures r >= 0
    ensures population + count >= 0 ==> r == population + count
    ensures population + count < 0 ==> r == 0
  {
    var changedAmount := if population + count < 0 then -population else count;
    population + changedAmount
  }

  /** The notifications `nextTurn` sends to the owner. */
  datatype Notification = Starving | Grown

  /**
   * The population and food of a city after one `nextTurn`.
   * `afterStarvation` is the population once starvation has been applied,
   * which is what the growth threshold is computed for.
   */
  datatype TurnOutcome = TurnOutcome(
    population: int,
    foodStored: int,
    afterStarvation: int,
    grew: bool,
    events: seq<Notification>)

  function NextTurnOutcome(population: int, foodStored: int, food: int, carryOverPercent: int,
                           rules: GrowthRules): TurnOutcome
  {
    var stored := foodStored + food;
    var starving := if food < 0 then [Starving] else [];
    var p1 := if stored < 0 && population > 1 then PopulationAfterAdd(population, -1) else population;
    var f1 := if stored < 0 then 0 else stored;
    var threshold := FoodToNextPopulation(p1, rules);
    if f1 >= threshold then
      TurnOutcome(PopulationAfterAdd(p1, 1), f1 - threshold + CarriedOver(threshold, carryOverPercent),
                  p1, true, starving + [Grown])
    else
      TurnOutcome(p1, f1, p1, false, starving)
  }

  /**
   * Starvation: when the stored food goes negative the city loses exactly one
   * citizen if it has more than one, and the store is emptied either way.
   */
  lemma StarvationLosesAtMostOne(population: int, foodStored: int, food: int, carryOverPercent: int,
                                 rules: GrowthRules)
    requires population >= 1 && foodStored + food < 0 && ThresholdsPositive(rules)
    ensures var o := NextTurnOutcome(population, foodStored, food, carryOverPercent, rules);
            o.afterStarvation == (if population > 1 then population - 1 else 1)
            && !o.grew && o.population == o.afterStarvation && o.foodStored == 0
            && o.events == (if food < 0 then [Starving] else [])
  {
    var p1 := if population > 1 then population - 1 else population;
    ThresholdPositive(p1, rules);
  }

  /** A city of at least one citizen never starves below one. */
  lemma NeverStarvesBelowOne(population: int, foodStored: int, food: int, carryOverPercent: int,
                             rules: GrowthRules)
    requires population >= 1
    ensures NextTurnOutcome(population, foodStored, food, carryOverPercent, rules).population >= 1
  {
  }

  /**
   * Growth: once the stored food reaches the threshold, the city gains
   * exactly one citizen and keeps the surplus plus the carried-over share.
   */
  lemma GrowthGainsExactlyOne(population: int, foodStored: int, food: int, carryOverPercent: int,
                              rules: GrowthRules)
    requires population >= 0 && foodStored + food >= 0
    requires foodStored + food >= FoodToNextPopulation(population, rules)
    ensures var o := NextTurnOutcome(population, foodStored, food, carryOverPercent, rules);
            var t := FoodToNextPopulation(population, rules);
            o.grew && o.population == population + 1
            && o.foodStored == foodStored + food - t + CarriedOver(t, carryOverPercent)
  {
  }

  /** One turn changes the population by at most one citizen either way. */
  lemma AtMostOneCitizenPerTurn(population: int, foodStored: int, food: int, carryOverPercent: int,
                                rules: GrowthRules)
    requires population >= 0
    ensures var o := NextTurnOutcome(population, foodStored, food, carryOverPercent, rules);
            population - 1 <= o.population <= population + 1
            && (o.grew ==> o.population == o.afterStarvation + 1)
            && (o.population < population ==> foodStored + food < 0)
  {
    var o := NextTurnOutcome(population, foodStored, food, carryOverPercent, rules);
    var p1 := if foodStored + food < 0 && population > 1 then population - 1 else population;
    assert o.afterStarvation == p1;
    assert o.population == if o.grew then p1 + 1 else p1;
  }

  /**
   * The stored food ends every turn non-negative, and growth with a positive
   * threshold always leaves less food than there was before it.
   */
  lemma FoodStaysNonNegative(population: int, foodStored: int, food: int, carryOverPercent: int,
                             rules: GrowthRules)
    requires population >= 0 && carryOverPercent >= 0 && rules.aiCityGrowthModifier >= 0.0
    ensures var o := NextTurnOutcome(population, foodStored, food, carryOverPercent, rules);
            o.foodStored >= 0
            && (o.grew && FoodToNextPopulation(o.afterStarvation, rules) > 0 ==>
                  o.foodStored < (if foodStored + food < 0 then 0 else foodStored + food))
  {
    var o := NextTurnOutcome(population, foodStored, food, carryOverPercent, rules);
    if o.afterStarvation >= 1 {
      FoodToNextPopulationMonotone(o.afterStarvation, o.afterStarvation, rules);
    }
  }

  /** A one-citizen city holding 15 food grows to two citizens and spends it all. */
  lemma GrowthExample()
    ensures var o := NextTurnOutcome(1, 15, 0, 0, PlayerRules(1.0));
            o.population == 2 && o.foodStored == 0 && o.events == [Grown]
  {
    PlayerThresholdAtOneAndTwo(1.0);
  }

  /** Three citizens, 2 food stored and a yield of -5: one citizen starves and the store empties. */
  lemma StarvationExample()
    ensures var o := NextTurnOutcome(3, 2, -5, 0, PlayerRules(1.0));
            o.population == 2 && o.foodStored == 0 && o.events == [Starving]
  {
    StarvationLosesAtMostOne(3, 2, -5, 0, PlayerRules(1.0));
  }

  /**
   * An empty city (reachable through `setPopulation(0)`) has threshold 0, so
   * even a starving turn grows it back to one citizen.
   */
  lemma EmptyCityRegrows()
    ensures var o := NextTurnOutcome(0, 0, -3, 0, PlayerRules(1.0));
            o.grew && o.population == 1 && o.foodStored == 0 && o.events == [Starving, Grown]
  {
  }

  /** A negative carry-over percentage is not capped from below and leaves the store negative. */
  lemma NegativeCarryOverExample()
    ensures var o := NextTurnOutcome(1, 15, 0, -100, PlayerRules(1.0));
            o.grew && o.population == 2 && o.foodStored == -15
  {
    PlayerThresholdAtOneAndTwo(1.0);
    assert CarriedOver(15, -100) == -15;
  }
}
