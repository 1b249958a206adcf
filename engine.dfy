// One simulation run as an object: the grid array, the live-plant counter,
// the event history, the next plant id, the live plant processes and the
// clock, all updated in place. Each method is one atomic piece of a plant
// process and is proved to change the state exactly as the matching step of
// PlantModel does, which keeps the invariant PlantModel.Inv.
module Engine {
  import opened Grid
  import opened Spread
  import opened PlantModel
  import opened Seeding

  class Simulation {
    const n: int
    const grid: array2<int>
    var nPlants: int
    var eventHistory: seq<Event>
    var nextId: int
    var live: map<int, Plant>
    var clock: int

    /** The grid contents as rows of cells, kept equal to the array. */
    ghost var cells: seq<seq<int>>

    ghost function Abs(): World
      reads this
    {
      World(n, cells, nPlants, eventHistory, nextId, live, clock)
    }

    ghost predicate Valid()
      reads this, grid
    {
      && grid.Length0 == n && grid.Length1 == n && Inv(Abs())
      && forall i, j :: 0 <= i < n && 0 <= j < n ==> cells[i][j] == grid[i, j]
    }

    /** A fresh environment: an all-empty n-by-n grid, no plants, an empty
        history, ids starting at 0 and the clock at 0. */
    constructor (size: int)
      requires size > 0
      ensures Valid() && fresh(grid)
      ensures Abs() == Initial(size)
    {
      n := size;
      grid := new int[size, size]((_, _) => EMPTY);
      nPlants, eventHistory, nextId, live, clock := 0, [], 0, map[], 0;
      cells := Blank(size);
      new;
      InitialInv(size);
    }

    /** Plant.__init__: a plant of the given species is born on cell (x, y)
        at time now. The cell must be in the grid (a fatal assertion in the
        source) and empty: the reproduction branch checks it, the benign
        seeding loop visits distinct cells, and the weed loop only the corner
        the benign loop leaves clear. */
    method Birth(species: int, x: int, y: int, params: Params, lifetime: int, now: int)
      requires Valid()
      requires 0 <= x < n && 0 <= y < n
      requires grid[x, y] == EMPTY
      requires IsSpecies(species) && ParamsOk(params) && lifetime >= 1 && clock <= now
      modifies this, grid
      ensures Abs() == BirthStep(old(Abs()), species, x, y, params, lifetime, now)
      ensures Valid()
    {
      ghost var before := Abs();
      nPlants := nPlants + 1;
      var id := nextId;
      nextId := nextId + 1;
      grid[x, y] := species;
      cells := SetCell(cells, x, y, species);
      eventHistory := eventHistory + [Event(now, species, x, y, nPlants)];
      live := live[id := Plant(id, species, x, y, params, now + lifetime)];
      clock := now;
      assert Abs() == BirthStep(before, species, x, y, params, lifetime, now);
      BirthPreservesInv(before, species, x, y, params, lifetime, now);
    }

    /** The death branch of live_and_prosper: plant id dies at time now. */
    method Die(id: int, now: int)
      requires Valid() && id in live && clock <= now
      modifies this, grid
      ensures Abs() == DeathStep(old(Abs()), id, now)
      ensures Valid()
    {
      ghost var before := Abs();
      assert LivePlantOk(before, id);
      var p := live[id];
      grid[p.x, p.y] := EMPTY;
      cells := SetCell(cells, p.x, p.y, EMPTY);
      nPlants := nPlants - 1;
      eventHistory := eventHistory + [Event(now, EMPTY, p.x, p.y, nPlants)];
      live := live - {id};
      clock := now;
      assert Abs() == DeathStep(before, id, now);
      DeathPreservesInv(before, id, now);
    }

    /** The reproduction branch of live_and_prosper: draw a non-zero offset,
        clamp the target onto the grid and give birth there if the cell is
        empty; otherwise nothing but the clock changes. */
    method AttemptReproduce(id: int, draws: seq<(int, int)>, lifetime: int, now: int)
      requires Valid() && id in live && clock <= now && lifetime >= 1
      requires DrawsInRange(draws, live[id].params.maxSpreadRange) && HasNonZero(draws)
      modifies this, grid
      ensures Abs() == AttemptStep(old(Abs()), id, Accepted(draws).0, Accepted(draws).1, lifetime, now)
      ensures Valid()
    {
      ghost var before := Abs();
      assert LivePlantOk(before, id);
      var p := live[id];
      var dx, dy := SampleOffset(draws, p.params.maxSpreadRange);
      var newX := Clamp(p.x + dx, n);
      var newY := Clamp(p.y + dy, n);
      if grid[newX, newY] == EMPTY {
        Birth(p.species, newX, newY, p.params, lifetime, now);
      } else {
        clock := now;
        AttemptPreservesInv(before, id, dx, dy, lifetime, now);
      }
    }

    /** One resumption of plant id's life loop at time now. The death timer is
        checked first: if it fired the plant dies, even when the reproduction
        timer fired too; otherwise the plant attempts to reproduce. */
    method Resume(id: int, deathFired: bool, reproFired: bool, draws: seq<(int, int)>, lifetime: int, now: int)
      requires Valid() && id in live && clock <= now
      requires deathFired || reproFired
      requires deathFired ==> now == live[id].deathTime
      requires !deathFired ==> now < live[id].deathTime
      requires !deathFired ==>
        lifetime >= 1 && DrawsInRange(draws, live[id].params.maxSpreadRange) && HasNonZero(draws)
      modifies this, grid
      ensures var offset := if deathFired then (0, 0) else Accepted(draws);
        Abs() == ResumeStep(old(Abs()), id, deathFired, offset.0, offset.1, lifetime, now)
      ensures Valid()
    {
      if deathFired {
        Die(id, now);
      } else {
        AttemptReproduce(id, draws, lifetime, now);
      }
    }

    /** The body of run_sim's two seeding loops: a plant of the given
        species and parameters is born at time now on each site in turn, the
        k-th of them living lifetimes[k]. The sites must be distinct, on the
        grid and empty. */
    method BirthAll(sites: seq<(int, int)>, species: int, params: Params, lifetimes: seq<int>, now: int)
      requires Valid() && clock <= now
      requires SitesOn(cells, sites) && NoDup(sites)
      requires forall k :: 0 <= k < |sites| ==> cells[sites[k].0][sites[k].1] == EMPTY
      requires IsSpecies(species) && ParamsOk(params)
      requires |lifetimes| == |sites| && forall k :: 0 <= k < |lifetimes| ==> lifetimes[k] >= 1
      modifies this, grid
      ensures Abs() == BirthsAt(old(Abs()), sites, species, params, lifetimes, now)
      ensures Valid()
    {
      ghost var w0 := Abs();
      var i := 0;
      while i < |sites|
        invariant 0 <= i <= |sites|
        invariant SitesOn(w0.cells, sites[..i])
        invariant Abs() == BirthsAt(w0, sites[..i], species, params, lifetimes[..i], now)
        invariant Valid() && clock <= now
      {
        var (x, y) := sites[i];
        BirthsAtStep(w0, sites, species, params, lifetimes, now, i);
        PlacedAt(w0.cells, sites[..i], species, x, y);
        assert (x, y) !in sites[..i];
        Birth(species, x, y, params, lifetimes[i], now);
        i := i + 1;
      }
      assert sites[..i] == sites && lifetimes[..i] == lifetimes;
    }

    /** run_sim's seeding at time 0 on a fresh environment: a benign plant on
        every cell the mask marks outside the weed corner, in the row-major
        order of np.where, then a weed on every corner cell in the order of
        product(range(4), range(4)). Lifetime k goes to the k-th plant born. */
    method Seed(mask: seq<seq<bool>>, benign: Params, weed: Params, lifetimes: seq<int>)
      requires Valid() && n >= CORNER && Abs() == Initial(n)
      requires |mask| == n && forall i :: 0 <= i < n ==> |mask[i]| == n
      requires ParamsOk(benign) && ParamsOk(weed)
      requires |lifetimes| == |BenignSites(mask)| + CORNER * CORNER
      requires forall i :: 0 <= i < |lifetimes| ==> lifetimes[i] >= 1
      modifies this, grid
      ensures Abs() == SeededWorld(mask, n, benign, weed, lifetimes)
      ensures Valid()
      ensures cells == SeedGrid(mask, n)
      ensures nPlants == |BenignSites(mask)| + CORNER * CORNER
      ensures eventHistory == BirthEvents(BenignSites(mask), BENIGN, 0, 0) +
                              BirthEvents(CornerSites(), WEED, 0, |BenignSites(mask)|)
    {
      var sites := BenignSites(mask);
      var count := |sites|;
      SeedSitesOnGrid(mask, n);
      BenignSitesSpec(mask, n);
      SplitPositive(lifetimes, count);
      BirthAll(sites, BENIGN, benign, lifetimes[..count], 0);
      CornerSitesSpec();
      CornerFreeAfterBenign(mask, n);
      BirthAll(CornerSites(), WEED, weed, lifetimes[count..], 0);
      SeededWorldCells(mask, n, benign, weed, lifetimes);
      SeededWorldLog(mask, n, benign, weed, lifetimes);
    }
  }
}
