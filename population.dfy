/**
 * The per-city population manager: the number of citizens, the stored food
 * and the specialist allocations, together with the city fields it writes
 * (the worked tiles, the current statistics, the citizen-refresh flag).
 * Every operation that changes the city is a method proved against the step
 * functions of `Allocation` and the turn arithmetic of `Growth`.
 */
module Population {
  import opened Options
  import opened Counters
  import opened Growth
  import opened CityContext
  import opened Allocation

  /** The fields of the city object that the population manager writes. */
  class City {
    /** `cityInfo.workedTiles`. */
    var workedTiles: set<Pos>
    /** `cityInfo.cityStats.currentCityStats`. */
    var currentStats: Stats
    /** `cityInfo.updateCitizens`. */
    var updateCitizens: bool

    constructor (workedTiles: set<Pos>, currentStats: Stats)
      ensures this.workedTiles == workedTiles && this.currentStats == currentStats && !updateCitizens
    {
      this.workedTiles := workedTiles;
      this.currentStats := currentStats;
      updateCitizens := false;
    }
  }

  /** The ordering key of the eviction loop's `minByOrNull`: only the lock penalty survives. */
  function EvictionKey(w: World, t: Pos): int
  {
    if w.isLocked(t) then 10 else 0
  }

  /** The population filters the manager can count; any other filter counts 0. */
  function PopulationFilters(): set<string>
  {
    {"Specialists", "Population", "Followers of the Majority Religion", "Followers of this Religion", "Unemployed"}
  }

  class PopulationManager {
    const city: City
    var population: int
    var foodStored: int
    var specialistAllocations: Counter

    /** Population is never negative: it starts at 1 and every change is floored at 0. */
    ghost predicate Valid()
      reads this
    {
      population >= 0
    }

    /** The city's assignment as the step functions see it. */
    ghost function Current(): Assignment
      reads this, city
    {
      Assignment(city.workedTiles, specialistAllocations, city.currentStats)
    }

    ghost function FreePopulation(): int
      reads this, city
    {
      Free(population, Current())
    }

    /**
     * The eviction loop can bring free population back to zero at population
     * `p`: with manual specialists only tiles can be evicted, so the clamped
     * specialists alone must fit into `p` citizens.
     */
    ghost predicate Rebalanceable(w: World, p: int)
      reads this
    {
      w.manualSpecialists ==> Total(Clamp(specialistAllocations, MaxSpecialists(w))) <= p
    }

    /** A new city: one citizen, no food, no specialists. */
    constructor (city: City)
      ensures this.city == city && Valid()
      ensures population == 1 && foodStored == 0 && specialistAllocations == map[]
    {
      this.city := city;
      population := 1;
      foodStored := 0;
      specialistAllocations := map[];
    }

    /**
     * `clone`: a new manager with the same citizens, food and specialists.
     * The source leaves the copy's `cityInfo` for its caller to set; here the
     * city is a constructor argument, so the caller passes it in.
     */
    method Clone(cityInfo: City) returns (c: PopulationManager)
      requires Valid()
      ensures fresh(c) && c.city == cityInfo && c.Valid()
      ensures c.population == population && c.foodStored == foodStored
      ensures forall k :: Get(c.specialistAllocations, k) == Get(specialistAllocations, k)
    {
      c := new PopulationManager(cityInfo);
      c.specialistAllocations := Merge(c.specialistAllocations, specialistAllocations);
      c.population := population;
      c.foodStored := foodStored;
    }

    /** `getNumberOfSpecialists`: the sum of all specialist counts. */
    method GetNumberOfSpecialists() returns (n: int)
      ensures n == Total(specialistAllocations)
    {
      var rest := specialistAllocations;
      n := 0;
      while rest != map[]
        invariant n + Total(rest) == Total(specialistAllocations)
        decreases |rest.Keys|
      {
        var k :| k in rest;
        TotalRemove(rest, k);
        n := n + rest[k];
        rest := rest - {k};
      }
    }

    /** `getFreePopulation`: population less worked tiles less specialists. */
    method GetFreePopulation() returns (free: int)
      ensures free == population - |city.workedTiles| - Total(specialistAllocations)
    {
      var specialists := GetNumberOfSpecialists();
      free := population - |city.workedTiles| - specialists;
    }

    /**
     * `getPopulationFilterAmount`: how many citizens a population filter
     * names. The religion's follower count is an input.
     */
    method GetPopulationFilterAmount(filter: string, majorityFollowers: int) returns (amount: int)
      ensures filter == "Specialists" ==> amount == Total(specialistAllocations)
      ensures filter == "Population" ==> amount == population
      ensures (filter == "Followers of the Majority Religion" || filter == "Followers of this Religion") ==>
                amount == majorityFollowers
      ensures filter == "Unemployed" ==> amount == FreePopulation()
      ensures filter !in PopulationFilters() ==> amount == 0
    {
      match filter
      case "Specialists" => amount := GetNumberOfSpecialists();
      case "Population" => amount := population;
      case "Followers of the Majority Religion" => amount := majorityFollowers;
      case "Followers of this Religion" => amount := majorityFollowers;
      case "Unemployed" => amount := GetFreePopulation();
      case _ => amount := 0;
    }

    /** `getMaxSpecialists`: the specialist slots of all built buildings, added up. */
    method GetMaxSpecialists(w: World) returns (counter: Counter)
      ensures counter == MaxSpecialists(w)
      ensures forall k :: Get(counter, k) == Slots(w.buildingSpecialists, k)
    {
      var grants := w.buildingSpecialists;
      counter := map[];
      for i := 0 to |grants|
        invariant counter == Capacity(grants[..i])
      {
        assert grants[..i + 1][..i] == grants[..i];
        counter := Merge(counter, grants[i]);
      }
      assert grants[..|grants|] == grants;
      forall k
        ensures Get(counter, k) == Slots(grants, k)
      {
        CapacityIsSumOfSlots(grants, k);
      }
    }

    /** The `bestJob` of one assignment iteration: the best-ranked type with a free slot. */
    method BestJob(w: World) returns (job: Option<string>)
      ensures IsBestJob(w, MaxSpecialists(w), Current(), job)
    {
      if w.manualSpecialists {
        return None;
      }
      var cap := GetMaxSpecialists(w);
      var stats := city.currentStats;
      var rest := cap.Keys;
      job := None;
      while rest != {}
        invariant rest <= cap.Keys
        invariant job.None? ==> forall k :: k in cap.Keys - rest ==> !HasFreeSlot(cap, specialistAllocations, k)
        invariant job.Some? ==> HasFreeSlot(cap, specialistAllocations, job.value)
        invariant job.Some? ==> forall k :: k in cap.Keys - rest && HasFreeSlot(cap, specialistAllocations, k) ==>
                                  w.rankSpecialist(k, stats) <= w.rankSpecialist(job.value, stats)
        decreases rest
      {
        var k :| k in rest;
        if HasFreeSlot(cap, specialistAllocations, k)
           && (job.None? || w.rankSpecialist(job.value, stats) < w.rankSpecialist(k, stats)) {
          job := Some(k);
        }
        rest := rest - {k};
      }
    }

    /** The `worstWorkedTile` of one eviction iteration: an unlocked worked tile if there is one. */
    method WorstWorkedTile(w: World) returns (tile: Option<Pos>)
      ensures IsWorstTile(w, city.workedTiles, tile)
    {
      var rest := city.workedTiles;
      tile := None;
      while rest != {}
        invariant rest <= city.workedTiles
        invariant tile.None? <==> rest == city.workedTiles
        invariant tile.Some? ==> tile.value in city.workedTiles - rest
        invariant tile.Some? ==> forall u :: u in city.workedTiles - rest ==>
                                   EvictionKey(w, tile.value) <= EvictionKey(w, u)
        decreases rest
      {
        var u :| u in rest;
        if tile.None? || EvictionKey(w, u) < EvictionKey(w, tile.value) {
          tile := Some(u);
        }
        rest := rest - {u};
      }
      if tile.Some? && w.isLocked(tile.value) {
        forall u | u in city.workedTiles
          ensures w.isLocked(u)
        {
          assert EvictionKey(w, tile.value) <= EvictionKey(w, u);
        }
      }
    }

    /** The `worstJob` of one eviction iteration: the lowest-ranked assigned type. */
    method WorstJob(w: World) returns (job: Option<string>)
      ensures IsWorstJob(w, Current(), job)
    {
      if w.manualSpecialists {
        return None;
      }
      var stats := city.currentStats;
      var rest := specialistAllocations.Keys;
      job := None;
      while rest != {}
        invariant rest <= specialistAllocations.Keys
        invariant job.None? <==> rest == specialistAllocations.Keys
        invariant job.Some? ==> job.value in specialistAllocations.Keys - rest
        invariant job.Some? ==> forall k :: k in specialistAllocations.Keys - rest ==>
                                  w.rankSpecialist(job.value, stats) <= w.rankSpecialist(k, stats)
        decreases rest
      {
        var k :| k in rest;
        if job.None? || w.rankSpecialist(k, stats) < w.rankSpecialist(job.value, stats) {
          job := Some(k);
        }
        rest := rest - {k};
      }
    }

    /**
     * One iteration of the assignment loop: the best candidate tile against
     * the best specialist slot, the tile winning only on a strictly higher
     * rank. The running statistics gain the food of what was taken.
     */
    method AssignOneCitizen(w: World) returns (ghost job: Option<string>)
      modifies this, city
      ensures IsBestJob(w, MaxSpecialists(w), old(Current()), job)
      ensures Current() == AssignStep(w, old(Current()), job)
      ensures population == old(population) && foodStored == old(foodStored)
      ensures city.updateCitizens == old(city.updateCitizens)
    {
      var bestTile := BestTile(w, city.workedTiles, city.currentStats);
      var valueBestTile := if bestTile.Some? then w.rankTile(bestTile.value, city.currentStats) else 0.0;
      var bestJob := BestJob(w);
      var valueBestSpecialist := 0.0;
      if bestJob.Some? {
        valueBestSpecialist := w.rankSpecialist(bestJob.value, city.currentStats);
      }
      if valueBestTile > valueBestSpecialist {
        if bestTile.Some? {
          city.workedTiles := city.workedTiles + {bestTile.value};
          city.currentStats := city.currentStats.(food := city.currentStats.food + w.tileFood(bestTile.value));
        }
      } else if bestJob.Some? {
        specialistAllocations := Add(specialistAllocations, bestJob.value, 1);
        city.currentStats := city.currentStats.(food := city.currentStats.food + w.specialistFoodBonus);
      }
      job := bestJob;
    }

    /**
     * `autoAssignPopulation`: refreshes the statistics, then runs one greedy
     * iteration per citizen free at entry, then refreshes the statistics
     * again. `jobs` records the specialist choice of every iteration.
     */
    method AutoAssignPopulation(w: World) returns (ghost jobs: seq<Option<string>>)
      requires Valid()
      modifies this, city
      ensures Valid() && population == old(population) && foodStored == old(foodStored)
      ensures city.updateCitizens == old(city.updateCitizens)
      ensures var a0 := Assignment(old(city.workedTiles), old(specialistAllocations),
                                   w.computeStats(old(city.workedTiles), old(specialistAllocations)));
              var b := AssignRun(w, a0, jobs);
              && |jobs| == (if old(FreePopulation()) > 0 then old(FreePopulation()) else 0)
              && LegalAssignRun(w, MaxSpecialists(w), a0, jobs)
              && city.workedTiles == b.tiles && specialistAllocations == b.specialists
      ensures city.currentStats == w.computeStats(city.workedTiles, specialistAllocations)
      ensures old(city.workedTiles) <= city.workedTiles
      ensures forall k :: Get(old(specialistAllocations), k) <= Get(specialistAllocations, k)
      ensures old(FreePopulation()) >= 0 ==> 0 <= FreePopulation() <= old(FreePopulation())
      ensures old(FreePopulation()) < 0 ==>
                city.workedTiles == old(city.workedTiles) && specialistAllocations == old(specialistAllocations)
      ensures w.manualSpecialists ==> specialistAllocations == old(specialistAllocations)
      ensures forall k :: Get(specialistAllocations, k) > Get(old(specialistAllocations), k) ==>
                k in MaxSpecialists(w) && Get(specialistAllocations, k) <= MaxSpecialists(w)[k]
      ensures forall t :: t in city.workedTiles - old(city.workedTiles) ==> t in w.tiles && w.distanceToCenter(t) <= 3
    {
      city.currentStats := w.computeStats(city.workedTiles, specialistAllocations);
      ghost var a0 := Current();
      assert a0 == Assignment(old(city.workedTiles), old(specialistAllocations),
                              w.computeStats(old(city.workedTiles), old(specialistAllocations)));
      var free := GetFreePopulation();
      assert free == Free(population, a0) == old(FreePopulation());
      jobs := [];
      var i := 1;
      while i <= free
        invariant 1 <= i <= (if free >= 0 then free + 1 else 1)
        invariant |jobs| == i - 1
        invariant LegalAssignRun(w, MaxSpecialists(w), a0, jobs)
        invariant Current() == AssignRun(w, a0, jobs)
        invariant population == old(population) && foodStored == old(foodStored)
        invariant city.updateCitizens == old(city.updateCitizens)
      {
        ghost var job := AssignOneCitizen(w);
        LegalAssignRunAppend(w, MaxSpecialists(w), a0, jobs, job);
        jobs := jobs + [job];
        i := i + 1;
      }
      assert |jobs| == (if free > 0 then free else 0);
      AssignRunFree(w, population, a0, jobs);
      AssignRunRespectsCapacity(w, MaxSpecialists(w), a0, jobs);
      AssignRunAddsCityTiles(w, a0, jobs);
      if w.manualSpecialists {
        AssignRunManual(w, MaxSpecialists(w), a0, jobs);
      }
      ghost var b := AssignRun(w, a0, jobs);
      assert city.workedTiles == b.tiles && specialistAllocations == b.specialists;
      city.currentStats := w.computeStats(city.workedTiles, specialistAllocations);
    }

    /** The first pass of `unassignExtraPopulation`: unworkable tiles stop being worked. */
    method DropUnworkableTiles(w: World)
      modifies city
      ensures city.workedTiles == KeptTiles(w, old(city.workedTiles))
      ensures city.currentStats == old(city.currentStats) && city.updateCitizens == old(city.updateCitizens)
    {
      var snapshot := city.workedTiles;
      var rest := snapshot;
      while rest != {}
        invariant rest <= snapshot
        invariant city.workedTiles == set t | t in snapshot && (t in rest || KeepsTile(w, t))
        invariant city.currentStats == old(city.currentStats) && city.updateCitizens == old(city.updateCitizens)
        decreases rest
      {
        var t :| t in rest;
        if !w.ownedByCiv(t) || !w.workedByThisCity(t) || w.distanceToCenter(t) > 3 {
          city.workedTiles := city.workedTiles - {t};
        }
        rest := rest - {t};
      }
    }

    /** The second pass of `unassignExtraPopulation`: each specialist type is cut back to its capacity. */
    method ClampSpecialists(w: World)
      modifies this
      ensures specialistAllocations == Clamp(old(specialistAllocations), MaxSpecialists(w))
      ensures population == old(population) && foodStored == old(foodStored)
    {
      var maxSpecialists := GetMaxSpecialists(w);
      ghost var held := specialistAllocations;
      ClampRestrictEnds(held, maxSpecialists);
      var names := maxSpecialists.Keys;
      ghost var done: set<string> := {};
      while names != {}
        invariant done + names == maxSpecialists.Keys && done !! names
        invariant specialistAllocations == Clamp(held, Restrict(maxSpecialists, done))
        invariant population == old(population) && foodStored == old(foodStored)
        decreases names
      {
        var name :| name in names;
        ClampOneMore(held, maxSpecialists, done, name);
        if Get(specialistAllocations, name) > maxSpecialists[name] {
          specialistAllocations := specialistAllocations[name := maxSpecialists[name]];
        }
        names := names - {name};
        done := done + {name};
      }
    }

    /**
     * One iteration of the eviction loop: the worst worked tile goes when its
     * rank is strictly below the worst specialist's or when there is no
     * specialist to take; otherwise one specialist of the worst type goes.
     */
    method EvictOneCitizen(w: World, ghost start: Assignment, ghost es: seq<Eviction>) returns (ghost e: Eviction)
      requires Valid() && FreePopulation() < 0
      requires w.manualSpecialists ==> Total(specialistAllocations) <= population
      requires LegalEvictRun(w, population, start, es) && Current() == EvictRun(w, start, es)
      modifies this, city
      ensures e.tile.Some? || e.job.Some?
      ensures IsLegalEviction(w, old(Current()), e) && Current() == EvictStep(w, old(Current()), e)
      ensures LegalEvictRun(w, population, start, es + [e]) && Current() == EvictRun(w, start, es + [e])
      ensures FreePopulation() == old(FreePopulation()) + 1
      ensures w.manualSpecialists ==> specialistAllocations == old(specialistAllocations)
      ensures population == old(population) && foodStored == old(foodStored)
      ensures city.updateCitizens == old(city.updateCitizens) && city.currentStats == old(city.currentStats)
    {
      ghost var before := Current();
      var worstWorkedTile := WorstWorkedTile(w);
      var valueWorstTile := if worstWorkedTile.Some? then w.rankTile(worstWorkedTile.value, city.currentStats) else 0.0;
      var worstJob := WorstJob(w);
      var valueWorstSpecialist := 0.0;
      if worstJob.Some? {
        valueWorstSpecialist := w.rankSpecialist(worstJob.value, city.currentStats);
      }
      e := Eviction(worstWorkedTile, worstJob);
      EvictionHasCandidate(w, population, Current(), e);
      if (worstWorkedTile.Some? && valueWorstTile < valueWorstSpecialist) || worstJob.None? {
        city.workedTiles := city.workedTiles - {worstWorkedTile.value};
      } else {
        specialistAllocations := Add(specialistAllocations, worstJob.value, -1);
      }
      assert Current() == EvictStep(w, before, e);
      EvictStepFreesOne(w, population, before, e);
      LegalEvictRunAppend(w, population, start, es, e);
    }

    /**
     * The eviction loop of `unassignExtraPopulation`: while free population is
     * negative, one citizen is evicted per iteration; `evictions` records the
     * choices of every iteration.
     */
    method EvictUntilBalanced(w: World) returns (ghost evictions: seq<Eviction>)
      requires Valid() && (w.manualSpecialists ==> Total(specialistAllocations) <= population)
      modifies this, city
      ensures LegalEvictRun(w, population, old(Current()), evictions)
      ensures Current() == EvictRun(w, old(Current()), evictions)
      ensures FreePopulation() == (if old(FreePopulation()) < 0 then 0 else old(FreePopulation()))
      ensures population == old(population) && foodStored == old(foodStored)
      ensures city.updateCitizens == old(city.updateCitizens) && city.currentStats == old(city.currentStats)
    {
      ghost var start := Current();
      evictions := [];
      var free := GetFreePopulation();
      while free < 0
        invariant free == FreePopulation()
        invariant LegalEvictRun(w, population, start, evictions)
        invariant Current() == EvictRun(w, start, evictions)
        invariant w.manualSpecialists ==> specialistAllocations == start.specialists
        invariant population == old(population) && foodStored == old(foodStored)
        invariant city.updateCitizens == old(city.updateCitizens) && city.currentStats == old(city.currentStats)
        decreases -free
      {
        ghost var e := EvictOneCitizen(w, start, evictions);
        evictions := evictions + [e];
        free := GetFreePopulation();
      }
      EvictRunFree(w, population, start, evictions);
    }

    /**
     * `unassignExtraPopulation`: drops the worked tiles the city may no longer
     * work, clamps every specialist type to its capacity, then evicts one
     * citizen per iteration while free population is negative. `evictions`
     * records the choices of every iteration.
     */
    method UnassignExtraPopulation(w: World) returns (ghost evictions: seq<Eviction>)
      requires Valid() && Rebalanceable(w, population)
      modifies this, city
      ensures Valid() && population == old(population) && foodStored == old(foodStored)
      ensures city.updateCitizens == old(city.updateCitizens) && city.currentStats == old(city.currentStats)
      ensures var cleaned := Assignment(KeptTiles(w, old(city.workedTiles)),
                                        Clamp(old(specialistAllocations), MaxSpecialists(w)),
                                        old(city.currentStats));
              && LegalEvictRun(w, population, cleaned, evictions)
              && Current() == EvictRun(w, cleaned, evictions)
              && FreePopulation() == (if Free(population, cleaned) < 0 then 0 else Free(population, cleaned))
      ensures FreePopulation() >= 0
      ensures city.workedTiles <= KeptTiles(w, old(city.workedTiles))
      ensures forall k :: Get(specialistAllocations, k) <= Get(Clamp(old(specialistAllocations), MaxSpecialists(w)), k)
      ensures w.manualSpecialists ==> specialistAllocations == Clamp(old(specialistAllocations), MaxSpecialists(w))
      ensures forall t, u :: (t in KeptTiles(w, old(city.workedTiles)) - city.workedTiles && w.isLocked(t)
                              && u in city.workedTiles) ==> w.isLocked(u)
    {
      DropUnworkableTiles(w);
      ClampSpecialists(w);
      ghost var cleaned := Current();
      assert cleaned == Assignment(KeptTiles(w, old(city.workedTiles)),
                                   Clamp(old(specialistAllocations), MaxSpecialists(w)),
                                   old(city.currentStats));
      evictions := EvictUntilBalanced(w);
      EvictRunFree(w, population, cleaned, evictions);
      EvictRunLockedLast(w, population, cleaned, evictions);
      if w.manualSpecialists {
        EvictRunManual(w, population, cleaned, evictions);
      }
    }

    /**
     * `addPopulation`: changes the population by `count`, never below zero,
     * then evicts citizens when too few are left for the jobs held and
     * assigns the free ones otherwise. `r` records the choices of the pass
     * that ran.
     */
    method AddPopulation(count: int, w: World) returns (ghost r: Rebalancing)
      requires Valid() && Rebalanceable(w, PopulationAfterAdd(population, count))
      modifies this, city
      ensures Valid()
      ensures population == PopulationAfterAdd(old(population), count)
      ensures foodStored == old(foodStored) && city.updateCitizens == old(city.updateCitizens)
      ensures Rebalanced(w, population, old(Current()), Current(), r)
      ensures FreePopulation() >= 0
      ensures Free(population, old(Current())) < 0 ==>
                city.workedTiles <= old(city.workedTiles)
                && forall k :: Get(specialistAllocations, k) <= Get(old(specialistAllocations), k)
      ensures Free(population, old(Current())) >= 0 ==>
                old(city.workedTiles) <= city.workedTiles
                && forall k :: Get(old(specialistAllocations), k) <= Get(specialistAllocations, k)
      ensures w.manualSpecialists ==>
                Clamp(specialistAllocations, MaxSpecialists(w)) == Clamp(old(specialistAllocations), MaxSpecialists(w))
    {
      ghost var before := Current();
      var changedAmount := if population + count < 0 then -population else count;
      population := population + changedAmount;
      var freePopulation := GetFreePopulation();
      if freePopulation < 0 {
        ghost var es := UnassignExtraPopulation(w);
        r := Rebalancing([], es);
      } else {
        ghost var jobs := AutoAssignPopulation(w);
        r := Rebalancing(jobs, []);
      }
      assert Rebalanced(w, population, before, Current(), r);
      RebalancedBalances(w, population, before, Current(), r);
      if w.manualSpecialists {
        ClampIdempotent(before.specialists, MaxSpecialists(w));
      }
    }

    /** `setPopulation`: the population becomes `count`, or 0 for a negative `count`, and is rebalanced. */
    method SetPopulation(count: int, w: World) returns (ghost r: Rebalancing)
      requires Valid() && Rebalanceable(w, if count < 0 then 0 else count)
      modifies this, city
      ensures Valid() && population == (if count < 0 then 0 else count)
      ensures foodStored == old(foodStored) && city.updateCitizens == old(city.updateCitizens)
      ensures Rebalanced(w, population, old(Current()), Current(), r)
      ensures FreePopulation() >= 0
    {
      r := AddPopulation(-population + count, w);
    }

    /**
     * The starvation block of `nextTurn`: a negative store costs one citizen
     * when there is more than one, and the store is emptied.
     */
    method Starve(w: World) returns (ghost r: Rebalancing)
      requires Valid() && (foodStored < 0 && population > 1 ==> Rebalanceable(w, population - 1))
      modifies this, city
      ensures Valid() && city.updateCitizens == old(city.updateCitizens)
      ensures foodStored == (if old(foodStored) < 0 then 0 else old(foodStored))
      ensures old(foodStored) < 0 && old(population) > 1 ==>
                population == old(population) - 1
                && Rebalanced(w, population, old(Current()), Current(), r) && FreePopulation() >= 0
      ensures !(old(foodStored) < 0 && old(population) > 1) ==>
                population == old(population) && Current() == old(Current())
      ensures w.manualSpecialists ==>
                Clamp(specialistAllocations, MaxSpecialists(w)) == Clamp(old(specialistAllocations), MaxSpecialists(w))
    {
      r := Rebalancing([], []);
      if foodStored < 0 {
        if population > 1 {
          r := AddPopulation(-1, w);
        }
        foodStored := 0;
      }
    }

    /**
     * The growth block of `nextTurn`: once the store reaches the threshold,
     * the threshold is paid, a capped share of it is carried over, one
     * citizen is added and the citizens are marked for refresh.
     */
    method Grow(carryOverPercent: int, w: World) returns (grew: bool, ghost r: Rebalancing)
      requires Valid() && foodStored >= 0
      requires foodStored >= FoodToNextPopulation(population, w.growth) ==> Rebalanceable(w, population + 1)
      modifies this, city
      ensures Valid()
      ensures var threshold := FoodToNextPopulation(old(population), w.growth);
              grew == (old(foodStored) >= threshold)
              && (grew ==> population == old(population) + 1
                           && foodStored == old(foodStored) - threshold + CarriedOver(threshold, carryOverPercent)
                           && city.updateCitizens
                           && Rebalanced(w, population, old(Current()), Current(), r) && FreePopulation() >= 0)
      ensures !grew ==>
                population == old(population) && foodStored == old(foodStored)
                && Current() == old(Current()) && city.updateCitizens == old(city.updateCitizens)
    {
      r := Rebalancing([], []);
      var threshold := FoodToNextPopulation(population, w.growth);
      grew := foodStored >= threshold;
      if grew {
        foodStored := foodStored - threshold;
        var percentOfFoodCarriedOver := carryOverPercent;
        if percentOfFoodCarriedOver > 95 {
          percentOfFoodCarriedOver := 95;
        }
        foodStored := foodStored + TruncToInt((threshold * percentOfFoodCarriedOver) as real / 100.0);
        assert TruncToInt((threshold * percentOfFoodCarriedOver) as real / 100.0) == CarriedOver(threshold, carryOverPercent);
        r := AddPopulation(1, w);
        city.updateCitizens := true;
      }
    }

    /**
     * `nextTurn`: adds the turn's food, lets the city starve or grow by at
     * most one citizen, and reports the notifications it sends. `mid` is the
     * workforce after the starvation step; `starving` and `growing` record
     * the choices of the rebalancing after a loss and after a gain.
     */
    method NextTurn(food: int, carryOverPercent: int, w: World)
      returns (events: seq<Notification>, ghost mid: Assignment, ghost starving: Rebalancing, ghost growing: Rebalancing)
      requires Valid()
      requires var o := NextTurnOutcome(population, foodStored, food, carryOverPercent, w.growth);
               && (o.afterStarvation != population ==> Rebalanceable(w, o.afterStarvation))
               && (o.grew ==> Rebalanceable(w, o.population))
      modifies this, city
      ensures Valid()
      ensures var o := NextTurnOutcome(old(population), old(foodStored), food, carryOverPercent, w.growth);
              && population == o.population && foodStored == o.foodStored && events == o.events
              && city.updateCitizens == (o.grew || old(city.updateCitizens))
      ensures var o := NextTurnOutcome(old(population), old(foodStored), food, carryOverPercent, w.growth);
              && (o.afterStarvation == old(population) ==> mid == old(Current()))
              && (o.afterStarvation != old(population) ==> Rebalanced(w, o.afterStarvation, old(Current()), mid, starving))
              && (o.grew ==> Rebalanced(w, o.population, mid, Current(), growing))
              && (!o.grew ==> Current() == mid)
      ensures var o := NextTurnOutcome(old(population), old(foodStored), food, carryOverPercent, w.growth);
              o.afterStarvation == old(population) && !o.grew ==>
                city.workedTiles == old(city.workedTiles) && specialistAllocations == old(specialistAllocations)
                && city.currentStats == old(city.currentStats)
      ensures population != old(population) ==> FreePopulation() >= 0
    {
      ghost var o := NextTurnOutcome(population, foodStored, food, carryOverPercent, w.growth);
      foodStored := foodStored + food;
      events := [];
      if food < 0 {
        events := [Starving];
      }
      starving := Starve(w);
      assert population == o.afterStarvation;
      mid := Current();
      if w.manualSpecialists {
        ClampIdempotent(specialistAllocations, MaxSpecialists(w));
      }
      var grew;
      grew, growing := Grow(carryOverPercent, w);
      if grew {
        events := events + [Grown];
      }
    }
  }
}
