/**
 * What the population engine reads from the rest of the game: the map
 * around the city, the ranking of tiles and specialist jobs, the city's
 * statistics and its buildings. None of it is computed here; every
 * collaborator is a field of `World`, read and never written by the engine.
 */
module CityContext {
  import opened Options
  import opened Counters
  import Growth

  /** A map position (the `Vector2` a tile is stored under). */
  datatype Pos = Pos(x: int, y: int)

  /**
   * The city's current statistics. Only the food entry is changed by the
   * engine itself; the other entries are produced by the statistics update.
   */
  datatype Stats = Stats(food: real, others: map<string, real>)

  datatype World = World(
    /** `getTiles()`: the tiles the city owns, in the order the city lists them. */
    tiles: seq<Pos>,
    /** `aerialDistanceTo(getCenterTile())`. */
    distanceToCenter: Pos -> int,
    /** `providesYield()`, which depends on the tiles the city works at that moment. */
    providesYield: (Pos, set<Pos>) -> bool,
    /** `getOwner() == cityInfo.civInfo`. */
    ownedByCiv: Pos -> bool,
    /** `getWorkingCity() == cityInfo`. */
    workedByThisCity: Pos -> bool,
    /** `isLocked()`: the player pinned the citizen to the tile. */
    isLocked: Pos -> bool,
    /** The food entry of `getTileStats(cityInfo, civInfo)`. */
    tileFood: Pos -> real,
    /** `Automation.rankTileForCityWork`. */
    rankTile: (Pos, Stats) -> real,
    /** `Automation.rankSpecialist`. */
    rankSpecialist: (string, Stats) -> real,
    /** `cityStats.update()`: the statistics of a given assignment of citizens. */
    computeStats: (set<Pos>, Counter) -> Stats,
    /** The food a specialist adds to the running statistics (2 minus the reduced consumption). */
    specialistFoodBonus: real,
    /** `newSpecialists()` of every built building, in build order. */
    buildingSpecialists: seq<Counter>,
    /** `cityInfo.manualSpecialists`: the player, not the engine, places specialists. */
    manualSpecialists: bool,
    /** What the growth formula needs to know about the owner. */
    growth: Growth.GrowthRules)

  /** The specialist capacity of the city (`getMaxSpecialists`). */
  function MaxSpecialists(w: World): Counter
  {
    Capacity(w.buildingSpecialists)
  }

  /** A tile the engine may put a citizen on: within 3 of the centre and not yielding anyway. */
  predicate IsTileCandidate(w: World, worked: set<Pos>, t: Pos)
  {
    w.distanceToCenter(t) <= 3 && !w.providesYield(t, worked)
  }

  /** The city's tiles filtered down to candidates. */
  function TileCandidates(w: World, worked: set<Pos>, ts: seq<Pos>): (r: seq<Pos>)
    ensures forall t :: t in r <==> t in ts && IsTileCandidate(w, worked, t)
  {
    if ts == [] then []
    else
      var rest := TileCandidates(w, worked, ts[..|ts| - 1]);
      var last := ts[|ts| - 1];
      assert ts == ts[..|ts| - 1] + [last];
      if IsTileCandidate(w, worked, last) then rest + [last] else rest
  }

  /** A worked tile that may stay worked: owned, worked by this city, within 3 of the centre. */
  predicate KeepsTile(w: World, t: Pos)
  {
    w.ownedByCiv(t) && w.workedByThisCity(t) && w.distanceToCenter(t) <= 3
  }

  /**
   * Kotlin's `maxByOrNull`: the first element of greatest score, or nothing
   * for an empty sequence. A later element replaces the best so far only when
   * it scores strictly higher.
   */
  function MaxBy<T>(s: seq<T>, score: T -> real): (r: Option<T>)
    ensures r.None? <==> s == []
    ensures r.Some? ==> r.value in s && forall x :: x in s ==> score(x) <= score(r.value)
  {
    if s == [] then None
    else
      var best := MaxBy(s[..|s| - 1], score);
      var last := s[|s| - 1];
      assert s == s[..|s| - 1] + [last];
      if best.None? || score(best.value) < score(last) then Some(last) else best
  }

  /** `maxByOrNull` keeps the first of several equally good elements. */
  lemma {:induction false} MaxByIsFirst<T>(s: seq<T>, score: T -> real)
    requires MaxBy(s, score).Some?
    ensures exists i :: 0 <= i < |s| && s[i] == MaxBy(s, score).value
                        && forall j :: 0 <= j < i ==> score(s[j]) < score(s[i])
  {
    var best := MaxBy(s[..|s| - 1], score);
    var last := s[|s| - 1];
    var m := MaxBy(s, score).value;
    if best.None? || score(best.value) < score(last) {
      assert forall j :: 0 <= j < |s| - 1 ==> s[..|s| - 1][j] == s[j];
      assert s[|s| - 1] == m;
    } else {
      var prefix := s[..|s| - 1];
      MaxByIsFirst(prefix, score);
      var i :| 0 <= i < |prefix| && prefix[i] == best.value
               && forall j :: 0 <= j < i ==> score(prefix[j]) < score(prefix[i]);
      assert s[i] == m;
      assert forall j :: 0 <= j < i ==> score(s[j]) < score(s[i]);
    }
  }

  /** The tile `autoAssignPopulation` would work next: the best-ranked candidate. */
  function BestTile(w: World, worked: set<Pos>, stats: Stats): Option<Pos>
  {
    MaxBy(TileCandidates(w, worked, w.tiles), t => w.rankTile(t, stats))
  }

  /** The best tile is a candidate no other candidate outranks; there is none only without candidates. */
  lemma BestTileIsBest(w: World, worked: set<Pos>, stats: Stats)
    ensures var b := BestTile(w, worked, stats);
            (b.None? <==> forall t :: t in w.tiles ==> !IsTileCandidate(w, worked, t))
            && (b.Some? ==> b.value in w.tiles && IsTileCandidate(w, worked, b.value)
                            && forall t :: t in w.tiles && IsTileCandidate(w, worked, t) ==>
                                 w.rankTile(t, stats) <= w.rankTile(b.value, stats))
  {
    var cs := TileCandidates(w, worked, w.tiles);
    if cs != [] {
      assert cs[0] in cs;
    }
  }
}
