/**
 * The two greedy passes of the population engine, one step at a time, as
 * functions of the city's assignment: `autoAssignPopulation` puts one free
 * citizen on the better of the best tile and the best specialist slot, and
 * the eviction loop of `unassignExtraPopulation` takes one citizen off the
 * worst tile or the worst specialist job. Where the source leaves a choice
 * to the iteration order of a hash map or hash set (among equally ranked
 * specialist jobs, among equally locked worked tiles), a step takes that
 * choice as an argument and a predicate says which choices are legal.
 */
module Allocation {
  import opened Options
  import opened Counters
  import opened CityContext

  /** Who works where, and the statistics the rankings are computed from. */
  datatype Assignment = Assignment(tiles: set<Pos>, specialists: Counter, stats: Stats)

  /** `getFreePopulation`: citizens on neither a tile nor a specialist job. */
  ghost function Free(population: int, a: Assignment): int
  {
    population - |a.tiles| - Total(a.specialists)
  }

  // ---------------------------------------------------------------------
  // autoAssignPopulation

  /** A specialist type with a slot left: listed in the capacity and below it. */
  predicate HasFreeSlot(cap: Counter, spec: Counter, k: string)
  {
    k in cap && Get(spec, k) < cap[k]
  }

  /**
   * A legal `bestJob`: nothing when specialists are manual or no type has a
   * free slot, otherwise a type with a free slot that no other such type
   * outranks.
   */
  ghost predicate IsBestJob(w: World, cap: Counter, a: Assignment, job: Option<string>)
  {
    if w.manualSpecialists then job.None?
    else
      && (job.None? <==> forall k :: k in cap ==> !HasFreeSlot(cap, a.specialists, k))
      && (job.Some? ==>
            && HasFreeSlot(cap, a.specialists, job.value)
            && forall k :: HasFreeSlot(cap, a.specialists, k) ==>
                 w.rankSpecialist(k, a.stats) <= w.rankSpecialist(job.value, a.stats))
  }

  /** The score a candidate is compared with; a missing candidate scores 0. */
  function TileValue(w: World, t: Option<Pos>, stats: Stats): real
  {
    if t.Some? then w.rankTile(t.value, stats) else 0.0
  }

  function JobValue(w: World, job: Option<string>, stats: Stats): real
  {
    if job.Some? then w.rankSpecialist(job.value, stats) else 0.0
  }

  /**
   * One iteration of the assignment loop: the tile is taken only when it
   * scores strictly more than the job; otherwise the job, when there is one.
   */
  function AssignStep(w: World, a: Assignment, job: Option<string>): Assignment
  {
    var tile := BestTile(w, a.tiles, a.stats);
    if TileValue(w, tile, a.stats) > JobValue(w, job, a.stats) then
      if tile.Some? then
        a.(tiles := a.tiles + {tile.value}, stats := a.stats.(food := a.stats.food + w.tileFood(tile.value)))
      else a
    else if job.Some? then
      a.(specialists := Add(a.specialists, job.value, 1),
         stats := a.stats.(food := a.stats.food + w.specialistFoodBonus))
    else a
  }

  /** The assignment after the iterations that chose `jobs`, in order. */
  function AssignRun(w: World, a: Assignment, jobs: seq<Option<string>>): Assignment
  {
    if jobs == [] then a else AssignStep(w, AssignRun(w, a, jobs[..|jobs| - 1]), jobs[|jobs| - 1])
  }

  /** Every iteration chose a legal best job for the assignment it saw. */
  ghost predicate LegalAssignRun(w: World, cap: Counter, a: Assignment, jobs: seq<Option<string>>)
  {
    jobs != [] ==>
      var p := jobs[..|jobs| - 1];
      LegalAssignRun(w, cap, a, p) && IsBestJob(w, cap, AssignRun(w, a, p), jobs[|jobs| - 1])
  }

  /** One more legal iteration extends a legal run. */
  lemma LegalAssignRunAppend(w: World, cap: Counter, a: Assignment, jobs: seq<Option<string>>, job: Option<string>)
    requires LegalAssignRun(w, cap, a, jobs)
    requires IsBestJob(w, cap, AssignRun(w, a, jobs), job)
    ensures LegalAssignRun(w, cap, a, jobs + [job])
    ensures AssignRun(w, a, jobs + [job]) == AssignStep(w, AssignRun(w, a, jobs), job)
  {
    assert (jobs + [job])[..|jobs|] == jobs;
  }

  /** A step takes nobody off, adds at most one citizen, and keeps every count at least as high. */
  lemma AssignStepAddsAtMostOne(w: World, population: int, a: Assignment, job: Option<string>)
    ensures var b := AssignStep(w, a, job);
            && a.tiles <= b.tiles
            && (forall k :: Get(a.specialists, k) <= Get(b.specialists, k))
            && Free(population, a) - 1 <= Free(population, b) <= Free(population, a)
  {
    var b := AssignStep(w, a, job);
    if job.Some? {
      TotalAdd(a.specialists, job.value, 1);
    }
    if b.tiles != a.tiles {
      var t := BestTile(w, a.tiles, a.stats).value;
      assert b.tiles == a.tiles + {t};
    }
  }

  /**
   * When the best tile and the best job score the same, the specialist gets
   * the citizen and the tiles stay as they are.
   */
  lemma AssignTieGoesToSpecialist(w: World, a: Assignment, job: Option<string>)
    requires job.Some?
    requires TileValue(w, BestTile(w, a.tiles, a.stats), a.stats) == JobValue(w, job, a.stats)
    ensures AssignStep(w, a, job).tiles == a.tiles
    ensures AssignStep(w, a, job).specialists == Add(a.specialists, job.value, 1)
  {
  }

  /**
   * A tile is added only when it is the best candidate and it scores strictly
   * more than the job; the specialists are then untouched.
   */
  lemma AssignTileOnlyWhenStrictlyBetter(w: World, a: Assignment, job: Option<string>)
    requires AssignStep(w, a, job).tiles != a.tiles
    ensures var t := BestTile(w, a.tiles, a.stats);
            && t.Some? && t.value in w.tiles && IsTileCandidate(w, a.tiles, t.value)
            && w.rankTile(t.value, a.stats) > JobValue(w, job, a.stats)
            && AssignStep(w, a, job).tiles == a.tiles + {t.value}
            && AssignStep(w, a, job).specialists == a.specialists
  {
    BestTileIsBest(w, a.tiles, a.stats);
  }

  /**
   * When the map reports every worked tile as yielding already, a tile step
   * always adds a new tile, so a step that changes anything takes exactly
   * one free citizen.
   */
  ghost predicate WorkedTilesYield(w: World)
  {
    forall t, worked :: t in worked ==> w.providesYield(t, worked)
  }

  lemma AssignStepTakesExactlyOne(w: World, population: int, a: Assignment, job: Option<string>)
    requires WorkedTilesYield(w)
    ensures var b := AssignStep(w, a, job);
            (b.tiles == a.tiles && b.specialists == a.specialists)
            || Free(population, b) == Free(population, a) - 1
  {
    var b := AssignStep(w, a, job);
    if b.tiles != a.tiles {
      var t := BestTile(w, a.tiles, a.stats).value;
      BestTileIsBest(w, a.tiles, a.stats);
      assert t !in a.tiles;
      assert b.specialists == a.specialists;
    } else if b.specialists != a.specialists {
      TotalAdd(a.specialists, job.value, 1);
    }
  }

  /** A run of `n` iterations takes at most `n` free citizens and frees none. */
  lemma {:induction false} AssignRunFree(w: World, population: int, a: Assignment, jobs: seq<Option<string>>)
    ensures var b := AssignRun(w, a, jobs);
            && a.tiles <= b.tiles
            && (forall k :: Get(a.specialists, k) <= Get(b.specialists, k))
            && Free(population, a) - |jobs| <= Free(population, b) <= Free(population, a)
  {
    if jobs != [] {
      var p := jobs[..|jobs| - 1];
      AssignRunFree(w, population, a, p);
      AssignStepAddsAtMostOne(w, population, AssignRun(w, a, p), jobs[|jobs| - 1]);
    }
  }

  /**
   * Specialist slots are respected: a type whose count the run raised ends at
   * or below its capacity.
   */
  lemma {:induction false} AssignRunRespectsCapacity(w: World, cap: Counter, a: Assignment,
                                                     jobs: seq<Option<string>>)
    requires LegalAssignRun(w, cap, a, jobs)
    ensures var b := AssignRun(w, a, jobs);
            forall k :: Get(b.specialists, k) > Get(a.specialists, k) ==> k in cap && Get(b.specialists, k) <= cap[k]
  {
    if jobs != [] {
      var p := jobs[..|jobs| - 1];
      var job := jobs[|jobs| - 1];
      AssignRunRespectsCapacity(w, cap, a, p);
      AssignRunFree(w, 0, a, p);
    }
  }

  /** With manual specialists the run never touches the specialist counts. */
  lemma {:induction false} AssignRunManual(w: World, cap: Counter, a: Assignment, jobs: seq<Option<string>>)
    requires w.manualSpecialists && LegalAssignRun(w, cap, a, jobs)
    ensures AssignRun(w, a, jobs).specialists == a.specialists
  {
    if jobs != [] {
      AssignRunManual(w, cap, a, jobs[..|jobs| - 1]);
    }
  }

  /** Every tile the run adds is one of the city's tiles within 3 of the centre. */
  lemma {:induction false} AssignRunAddsCityTiles(w: World, a: Assignment, jobs: seq<Option<string>>)
    ensures forall t :: t in AssignRun(w, a, jobs).tiles - a.tiles ==> t in w.tiles && w.distanceToCenter(t) <= 3
  {
    if jobs != [] {
      var p := jobs[..|jobs| - 1];
      AssignRunAddsCityTiles(w, a, p);
      var m := AssignRun(w, a, p);
      BestTileIsBest(w, m.tiles, m.stats);
    }
  }

  // ---------------------------------------------------------------------
  // unassignExtraPopulation

  /** The first pass: the worked tiles that stay worked. */
  function KeptTiles(w: World, tiles: set<Pos>): (r: set<Pos>)
    ensures forall t :: t in r <==> t in tiles && KeepsTile(w, t)
  {
    set t | t in tiles && KeepsTile(w, t)
  }

  /** The choices one eviction iteration makes: the worst worked tile and the worst job. */
  datatype Eviction = Eviction(tile: Option<Pos>, job: Option<string>)

  /**
   * A legal `worstWorkedTile`: nothing when no tile is worked, otherwise a
   * worked tile, and a locked one only when every worked tile is locked (the
   * ordering key is the lock penalty alone).
   */
  ghost predicate IsWorstTile(w: World, tiles: set<Pos>, t: Option<Pos>)
  {
    && (t.None? <==> tiles == {})
    && (t.Some? ==> t.value in tiles && (w.isLocked(t.value) ==> forall u :: u in tiles ==> w.isLocked(u)))
  }

  /**
   * A legal `worstJob`: nothing when specialists are manual or none is
   * assigned, otherwise an assigned type that outranks no other.
   */
  ghost predicate IsWorstJob(w: World, a: Assignment, job: Option<string>)
  {
    if w.manualSpecialists then job.None?
    else
      && (job.None? <==> a.specialists == map[])
      && (job.Some? ==>
            && job.value in a.specialists
            && forall k :: k in a.specialists ==> w.rankSpecialist(job.value, a.stats) <= w.rankSpecialist(k, a.stats))
  }

  ghost predicate IsLegalEviction(w: World, a: Assignment, e: Eviction)
  {
    IsWorstTile(w, a.tiles, e.tile) && IsWorstJob(w, a, e.job)
  }

  /**
   * One iteration of the eviction loop: the tile goes when there is no job
   * or when its raw rank is strictly below the job's; otherwise one
   * specialist of the worst type goes. Without a job there must be a tile.
   */
  function EvictStep(w: World, a: Assignment, e: Eviction): Assignment
    requires e.tile.Some? || e.job.Some?
  {
    if (e.tile.Some? && TileValue(w, e.tile, a.stats) < JobValue(w, e.job, a.stats)) || e.job.None? then
      a.(tiles := a.tiles - {e.tile.value})
    else
      a.(specialists := Add(a.specialists, e.job.value, -1))
  }

  /** Every iteration had a tile or a job to evict. */
  ghost predicate Defined(es: seq<Eviction>)
  {
    es == [] || (Defined(es[..|es| - 1]) && (es[|es| - 1].tile.Some? || es[|es| - 1].job.Some?))
  }

  ghost function EvictRun(w: World, a: Assignment, es: seq<Eviction>): Assignment
    requires Defined(es)
  {
    if es == [] then a else EvictStep(w, EvictRun(w, a, es[..|es| - 1]), es[|es| - 1])
  }

  /** Every iteration ran with free population still negative and made legal choices. */
  ghost predicate LegalEvictRun(w: World, population: int, a: Assignment, es: seq<Eviction>)
  {
    && Defined(es)
    && (es != [] ==>
          var p := es[..|es| - 1];
          var b := EvictRun(w, a, p);
          && LegalEvictRun(w, population, a, p)
          && Free(population, b) < 0
          && IsLegalEviction(w, b, es[|es| - 1]))
  }

  /** One more legal iteration, taken while free population is negative, extends a legal run. */
  lemma LegalEvictRunAppend(w: World, population: int, a: Assignment, es: seq<Eviction>, e: Eviction)
    requires LegalEvictRun(w, population, a, es)
    requires e.tile.Some? || e.job.Some?
    requires Free(population, EvictRun(w, a, es)) < 0 && IsLegalEviction(w, EvictRun(w, a, es), e)
    ensures LegalEvictRun(w, population, a, es + [e])
    ensures EvictRun(w, a, es + [e]) == EvictStep(w, EvictRun(w, a, es), e)
  {
    assert (es + [e])[..|es|] == es;
  }

  /**
   * While free population is negative, a worst tile or a worst job always
   * exists, unless specialists are manual and more of them are assigned than
   * there are citizens (the case where the source's `!!` throws).
   */
  lemma EvictionHasCandidate(w: World, population: int, a: Assignment, e: Eviction)
    requires population >= 0 && Free(population, a) < 0
    requires w.manualSpecialists ==> Total(a.specialists) <= population
    requires IsLegalEviction(w, a, e)
    ensures e.tile.Some? || e.job.Some?
  {
    if a.tiles == {} {
      TotalNonZeroHasKey(a.specialists);
    }
  }

  /** Each eviction takes exactly one citizen off, raising free population by exactly one. */
  lemma EvictStepFreesOne(w: World, population: int, a: Assignment, e: Eviction)
    requires e.tile.Some? || e.job.Some?
    requires IsLegalEviction(w, a, e)
    ensures var b := EvictStep(w, a, e);
            && Free(population, b) == Free(population, a) + 1
            && b.tiles <= a.tiles
            && (forall k :: Get(b.specialists, k) <= Get(a.specialists, k))
            && b.stats == a.stats
  {
    var b := EvictStep(w, a, e);
    if b.tiles != a.tiles || e.job.None? {
      assert b.tiles == a.tiles - {e.tile.value};
    } else {
      TotalAdd(a.specialists, e.job.value, -1);
    }
  }

  /** Equal ranks of the worst tile and the worst job take the specialist off. */
  lemma EvictTieRemovesSpecialist(w: World, a: Assignment, e: Eviction)
    requires e.tile.Some? && e.job.Some?
    requires w.rankTile(e.tile.value, a.stats) == w.rankSpecialist(e.job.value, a.stats)
    ensures EvictStep(w, a, e) == a.(specialists := Add(a.specialists, e.job.value, -1))
  {
  }

  /**
   * A run of legal evictions raises free population by one per iteration; a
   * run that evicted anything started with citizens missing and does not
   * overshoot zero.
   */
  lemma {:induction false} EvictRunFree(w: World, population: int, a: Assignment, es: seq<Eviction>)
    requires LegalEvictRun(w, population, a, es)
    ensures var b := EvictRun(w, a, es);
            && Free(population, b) == Free(population, a) + |es|
            && (es != [] ==> Free(population, a) < 0 && Free(population, b) <= 0)
            && b.tiles <= a.tiles
            && (forall k :: Get(b.specialists, k) <= Get(a.specialists, k))
            && b.stats == a.stats
  {
    if es != [] {
      var p := es[..|es| - 1];
      EvictRunFree(w, population, a, p);
      EvictStepFreesOne(w, population, EvictRun(w, a, p), es[|es| - 1]);
    }
  }

  /** With manual specialists only tiles are evicted. */
  lemma {:induction false} EvictRunManual(w: World, population: int, a: Assignment, es: seq<Eviction>)
    requires w.manualSpecialists && LegalEvictRun(w, population, a, es)
    ensures EvictRun(w, a, es).specialists == a.specialists
  {
    if es != [] {
      var p := es[..|es| - 1];
      EvictRunManual(w, population, a, p);
    }
  }

  /**
   * Locked tiles go last: once the run has evicted a locked tile, no unlocked
   * tile is left worked.
   */
  lemma {:induction false} EvictRunLockedLast(w: World, population: int, a: Assignment, es: seq<Eviction>)
    requires LegalEvictRun(w, population, a, es)
    ensures var b := EvictRun(w, a, es);
            forall t, u :: t in a.tiles - b.tiles && w.isLocked(t) && u in b.tiles ==> w.isLocked(u)
  {
    if es != [] {
      var p := es[..|es| - 1];
      var e := es[|es| - 1];
      EvictRunLockedLast(w, population, a, p);
      var m := EvictRun(w, a, p);
      EvictStepFreesOne(w, population, m, e);
    }
  }

  // ---------------------------------------------------------------------
  // addPopulation

  /** The choices of the pass `addPopulation` runs after changing the population. */
  datatype Rebalancing = Rebalancing(jobs: seq<Option<string>>, evictions: seq<Eviction>)

  /** Where the eviction loop starts: unworkable tiles dropped and every type clamped to its capacity. */
  function Cleaned(w: World, a: Assignment): Assignment
  {
    Assignment(KeptTiles(w, a.tiles), Clamp(a.specialists, MaxSpecialists(w)), a.stats)
  }

  /**
   * The workforce `addPopulation` leaves behind at population `p`, starting
   * from `a`. With citizens missing, `unassignExtraPopulation` evicts from the
   * cleaned assignment until none is missing; otherwise `autoAssignPopulation`
   * runs one iteration per free citizen from refreshed statistics and
   * refreshes them at the end. Only one of the two passes runs.
   */
  ghost predicate Rebalanced(w: World, p: int, a: Assignment, b: Assignment, r: Rebalancing)
  {
    if Free(p, a) < 0 then
      var c := Cleaned(w, a);
      && r.jobs == []
      && LegalEvictRun(w, p, c, r.evictions) && b == EvictRun(w, c, r.evictions)
      && Free(p, b) == (if Free(p, c) < 0 then 0 else Free(p, c))
    else
      var a0 := Assignment(a.tiles, a.specialists, w.computeStats(a.tiles, a.specialists));
      var m := AssignRun(w, a0, r.jobs);
      && r.evictions == []
      && |r.jobs| == Free(p, a)
      && LegalAssignRun(w, MaxSpecialists(w), a0, r.jobs)
      && b == Assignment(m.tiles, m.specialists, w.computeStats(m.tiles, m.specialists))
  }

  /**
   * After rebalancing no citizen is missing. A deficit only takes workers
   * away, and manual specialists then keep their clamped counts; a surplus
   * only adds workers, within the specialist capacity and on city tiles
   * near the centre, and never more than there were free citizens.
   */
  lemma RebalancedBalances(w: World, p: int, a: Assignment, b: Assignment, r: Rebalancing)
    requires Rebalanced(w, p, a, b, r)
    ensures Free(p, b) >= 0
    ensures Free(p, a) < 0 ==>
              b.tiles <= a.tiles && b.stats == a.stats
              && (forall k :: Get(b.specialists, k) <= Get(a.specialists, k))
              && (w.manualSpecialists ==> b.specialists == Clamp(a.specialists, MaxSpecialists(w)))
    ensures Free(p, a) >= 0 ==>
              a.tiles <= b.tiles && Free(p, b) <= Free(p, a)
              && (forall k :: Get(a.specialists, k) <= Get(b.specialists, k))
              && (forall k :: Get(b.specialists, k) > Get(a.specialists, k) ==>
                    k in MaxSpecialists(w) && Get(b.specialists, k) <= MaxSpecialists(w)[k])
              && (forall t :: t in b.tiles - a.tiles ==> t in w.tiles && w.distanceToCenter(t) <= 3)
              && (w.manualSpecialists ==> b.specialists == a.specialists)
  {
    if Free(p, a) < 0 {
      var c := Cleaned(w, a);
      EvictRunFree(w, p, c, r.evictions);
      if w.manualSpecialists {
        EvictRunManual(w, p, c, r.evictions);
      }
    } else {
      var a0 := Assignment(a.tiles, a.specialists, w.computeStats(a.tiles, a.specialists));
      assert Free(p, a0) == Free(p, a);
      AssignRunFree(w, p, a0, r.jobs);
      AssignRunRespectsCapacity(w, MaxSpecialists(w), a0, r.jobs);
      AssignRunAddsCityTiles(w, a0, r.jobs);
      if w.manualSpecialists {
        AssignRunManual(w, MaxSpecialists(w), a0, r.jobs);
      }
    }
  }
}
