// The state of one simulation run as a value, the three state changes a plant
// process makes (birth, death, reproduction attempt) as functions on it, and
// the invariants each change preserves.
module PlantModel {
  import opened Grid
  import opened Spread

  /** Per-species parameters a plant passes on unchanged to its offspring. */
  datatype Params = Params(avgLifetime: int, avgProliferationTime: int, maxSpreadRange: int)

  /** The averages are the means of geometric draws (success probability
      1 / average), so they are at least 1; a spread range of at least 1 lets
      the offset rejection loop accept something. */
  predicate ParamsOk(p: Params) {
    p.avgLifetime >= 1 && p.avgProliferationTime >= 1 && p.maxSpreadRange >= 1
  }

  /** A live plant process: its id, species, cell, parameters and the time its
      death timer fires (birth time plus the drawn lifetime). */
  datatype Plant = Plant(id: int, species: int, x: int, y: int, params: Params, deathTime: int)

  /** One record of the event history; species is 0 for a death. */
  datatype Event = Event(t: int, species: int, x: int, y: int, nPlants: int)

  /** Grid, live-plant counter, event history, next plant id, the live plant
      processes by id, and the simulation clock. */
  datatype World = World(n: int, cells: seq<seq<int>>, nPlants: int, log: seq<Event>,
                         nextId: int, live: map<int, Plant>, clock: int)

  function Initial(n: nat): World {
    World(n, Blank(n), 0, [], 0, map[], 0)
  }

  predicate InGrid(n: int, x: int, y: int) {
    0 <= x < n && 0 <= y < n
  }

  // ---------------------------------------------------------------- history

  /** Change of the population that an event records. */
  function Delta(species: int): int {
    if species == EMPTY then -1 else 1
  }

  /** Population just before entry i of the history (0 before the first). */
  function PopBefore(log: seq<Event>, i: int): int
    requires 0 <= i <= |log|
  {
    if i == 0 then 0 else log[i - 1].nPlants
  }

  /** Each entry's population is the previous one plus one for a birth and
      minus one for a death (stated entry by entry in ChainedAt). */
  ghost predicate Chained(log: seq<Event>)
    decreases |log|
  {
    log == [] ||
      (Chained(log[..|log| - 1]) &&
       log[|log| - 1].nPlants == PopBefore(log, |log| - 1) + Delta(log[|log| - 1].species))
  }

  /** Consecutive entry times never decrease (for all pairs: SortedAt). */
  ghost predicate TimesSorted(log: seq<Event>)
    decreases |log|
  {
    |log| <= 1 || (TimesSorted(log[..|log| - 1]) && log[|log| - 2].t <= log[|log| - 1].t)
  }

  /** The history is chained, time-ordered, ends at the current population
      and holds no entry later than the clock. */
  ghost predicate LogOk(log: seq<Event>, nPlants: int, clock: int) {
    && Chained(log)
    && PopBefore(log, |log|) == nPlants
    && TimesSorted(log)
    && (log != [] ==> log[|log| - 1].t <= clock)
  }

  /** Appending an event stamped no earlier than the clock whose population is
      the current one plus its delta keeps the history well formed. */
  lemma AppendKeepsLog(log: seq<Event>, nPlants: int, clock: int, e: Event, now: int)
    requires LogOk(log, nPlants, clock)
    requires clock <= now && e.t == now
    requires e.nPlants == nPlants + Delta(e.species)
    ensures LogOk(log + [e], e.nPlants, now)
  {
    assert (log + [e])[..|log|] == log;
  }

  /** Every entry of a chained history differs from the one before it by
      exactly the delta of its own kind. */
  lemma {:induction false} ChainedAt(log: seq<Event>, i: int)
    requires Chained(log) && 0 <= i < |log|
    ensures log[i].nPlants == PopBefore(log, i) + Delta(log[i].species)
    decreases |log|
  {
    if i < |log| - 1 {
      var prefix := log[..|log| - 1];
      ChainedAt(prefix, i);
      assert prefix[i] == log[i];
      assert PopBefore(prefix, i) == PopBefore(log, i);
    }
  }

  /** In a time-ordered history every earlier entry is no later than every
      later one. */
  lemma {:induction false} SortedAt(log: seq<Event>, i: int, j: int)
    requires TimesSorted(log) && 0 <= i <= j < |log|
    ensures log[i].t <= log[j].t
    decreases |log|
  {
    if j < |log| - 1 {
      SortedAt(log[..|log| - 1], i, j);
    } else if i < j {
      SortedAt(log[..|log| - 1], i, j - 1);
    }
  }

  // --------------------------------------------------------------- registry

  ghost predicate LivePlantOk(w: World, id: int)
    requires Square(w.cells, w.n) && id in w.live
  {
    var p := w.live[id];
    && p.id == id && 0 <= id < w.nextId
    && InGrid(w.n, p.x, p.y)
    && IsSpecies(p.species) && w.cells[p.x][p.y] == p.species
    && ParamsOk(p.params)
  }

  /** No two live plants share a cell. */
  ghost predicate Separate(live: map<int, Plant>) {
    forall id1, id2 :: id1 in live && id2 in live && id1 != id2 ==>
      (live[id1].x, live[id1].y) != (live[id2].x, live[id2].y)
  }

  /** The invariant of a run: a square grid whose cells are empty or hold a
      species; every live plant sits on its own cell holding its species; the
      counter equals both the number of non-empty cells and the number of live
      plants; the history is chained, time-ordered and ends at the counter. */
  ghost predicate Inv(w: World) {
    && w.n > 0
    && Square(w.cells, w.n)
    && CellsOk(w.cells)
    && (forall id :: id in w.live ==> LivePlantOk(w, id))
    && Separate(w.live)
    && w.nPlants == CountCells(w.cells)
    && w.nPlants == |w.live|
    && LogOk(w.log, w.nPlants, w.clock)
    && w.nextId >= 0
  }

  /** Every live id is below the next id to be handed out. */
  lemma IdsBelowNext(w: World)
    requires Inv(w)
    ensures forall id :: id in w.live ==> 0 <= id < w.nextId
  {
    forall id | id in w.live
      ensures 0 <= id < w.nextId
    {
      assert LivePlantOk(w, id);
    }
  }

  lemma InitialInv(n: nat)
    requires n > 0
    ensures Inv(Initial(n))
  {
    CountCellsEmpty(Blank(n));
  }

  /** The live population never exceeds the number of cells. */
  lemma PopulationBounded(w: World)
    requires Inv(w)
    ensures 0 <= w.nPlants <= w.n * w.n
  {
    CountCellsBound(w.cells, w.n);
  }

  // ------------------------------------------------------------------ steps

  /** Plant.__init__: write the species into the cell, count the plant,
      give it the next id, record a birth event and set its death time. */
  function BirthStep(w: World, species: int, x: int, y: int, params: Params, lifetime: int, now: int): World
    requires 0 <= x < |w.cells| && 0 <= y < |w.cells[x]|
  {
    var p := Plant(w.nextId, species, x, y, params, now + lifetime);
    w.(cells := SetCell(w.cells, x, y, species),
       nPlants := w.nPlants + 1,
       log := w.log + [Event(now, species, x, y, w.nPlants + 1)],
       nextId := w.nextId + 1,
       live := w.live[w.nextId := p],
       clock := now)
  }

  /** The death branch of live_and_prosper: clear the plant's cell, uncount
      it, record a death event and end its process. */
  function DeathStep(w: World, id: int, now: int): World
    requires id in w.live
    requires 0 <= w.live[id].x < |w.cells| && 0 <= w.live[id].y < |w.cells[w.live[id].x]|
  {
    var p := w.live[id];
    w.(cells := SetCell(w.cells, p.x, p.y, EMPTY),
       nPlants := w.nPlants - 1,
       log := w.log + [Event(now, EMPTY, p.x, p.y, w.nPlants - 1)],
       live := w.live - {id},
       clock := now)
  }

  /** The shape a step needs: a square grid and a live plant on it. */
  ghost predicate CanStep(w: World, id: int) {
    && w.n > 0 && Square(w.cells, w.n)
    && id in w.live && InGrid(w.n, w.live[id].x, w.live[id].y)
  }

  /** Parent position plus offset, clamped per axis onto the grid. */
  function Target(n: int, p: Plant, dx: int, dy: int): (int, int)
    requires n > 0
  {
    (Clamp(p.x + dx, n), Clamp(p.y + dy, n))
  }

  /** A reproduction attempt with accepted offset (dx, dy): an offspring of
      the same species and parameters is born on the target cell if it is
      empty; otherwise only the clock moves. */
  function AttemptStep(w: World, id: int, dx: int, dy: int, lifetime: int, now: int): World
    requires CanStep(w, id)
  {
    var p := w.live[id];
    var (tx, ty) := Target(w.n, p, dx, dy);
    if w.cells[tx][ty] == EMPTY then BirthStep(w, p.species, tx, ty, p.params, lifetime, now)
    else w.(clock := now)
  }

  /** One resumption of a plant process: the death timer is checked first, so
      death wins even when the reproduction timer fired at the same time. */
  function ResumeStep(w: World, id: int, deathFired: bool, dx: int, dy: int, lifetime: int, now: int): World
    requires CanStep(w, id)
  {
    if deathFired then DeathStep(w, id, now) else AttemptStep(w, id, dx, dy, lifetime, now)
  }

  // ------------------------------------------------------------ properties

  /** A birth into an empty cell keeps the invariant. The cell then holds the
      species, the counter rose by one, exactly one birth event was appended,
      no other cell changed and the newborn's id exceeds every live id. */
  lemma BirthPreservesInv(w: World, species: int, x: int, y: int, params: Params, lifetime: int, now: int)
    requires Inv(w) && InGrid(w.n, x, y) && w.cells[x][y] == EMPTY
    requires IsSpecies(species) && ParamsOk(params) && w.clock <= now
    ensures var w' := BirthStep(w, species, x, y, params, lifetime, now);
      && Inv(w')
      && w'.cells[x][y] == species
      && (forall a, b :: InGrid(w.n, a, b) && (a, b) != (x, y) ==> w'.cells[a][b] == w.cells[a][b])
      && w'.nPlants == w.nPlants + 1
      && w'.log == w.log + [Event(now, species, x, y, w'.nPlants)]
      && (forall id :: id in w.live ==> id < w'.live[w.nextId].id)
  {
    var w' := BirthStep(w, species, x, y, params, lifetime, now);
    CountCellsUpdate(w.cells, x, y, species);
    AppendKeepsLog(w.log, w.nPlants, w.clock, Event(now, species, x, y, w.nPlants + 1), now);
    IdsBelowNext(w);
    forall id | id in w'.live
      ensures LivePlantOk(w', id)
    {
      if id != w.nextId {
        assert LivePlantOk(w, id);
        assert (w.live[id].x, w.live[id].y) != (x, y);
      }
    }
    forall id1, id2 | id1 in w'.live && id2 in w'.live && id1 != id2
      ensures (w'.live[id1].x, w'.live[id1].y) != (w'.live[id2].x, w'.live[id2].y)
    {
      if id1 == w.nextId {
        assert LivePlantOk(w, id2);
      } else if id2 == w.nextId {
        assert LivePlantOk(w, id1);
      }
    }
  }

  /** Plant.__init__ writes the cell without looking at it: a birth onto an
      occupied cell counts a plant the grid does not show, so the counter and
      the grid disagree afterwards. This is why every caller passes an empty
      cell. */
  lemma BirthOnOccupiedBreaksCount(w: World, species: int, x: int, y: int, params: Params, lifetime: int, now: int)
    requires Inv(w) && InGrid(w.n, x, y) && w.cells[x][y] != EMPTY
    requires IsSpecies(species)
    ensures var w' := BirthStep(w, species, x, y, params, lifetime, now);
      w'.nPlants == CountCells(w'.cells) + 1
  {
    CountCellsUpdate(w.cells, x, y, species);
  }

  /** A death keeps the invariant. The plant's cell is then empty, the counter
      fell by one, exactly one death event was appended, no other cell changed
      and the plant is no longer live. */
  lemma DeathPreservesInv(w: World, id: int, now: int)
    requires Inv(w) && id in w.live && w.clock <= now
    ensures LivePlantOk(w, id)
    ensures var p := w.live[id]; var w' := DeathStep(w, id, now);
      && Inv(w')
      && w'.cells[p.x][p.y] == EMPTY
      && (forall a, b :: InGrid(w.n, a, b) && (a, b) != (p.x, p.y) ==> w'.cells[a][b] == w.cells[a][b])
      && w'.nPlants == w.nPlants - 1
      && w'.log == w.log + [Event(now, EMPTY, p.x, p.y, w'.nPlants)]
      && w'.live.Keys == w.live.Keys - {id}
  {
    assert LivePlantOk(w, id);
    var p := w.live[id];
    var w' := DeathStep(w, id, now);
    CountCellsUpdate(w.cells, p.x, p.y, EMPTY);
    AppendKeepsLog(w.log, w.nPlants, w.clock, Event(now, EMPTY, p.x, p.y, w.nPlants - 1), now);
    assert w'.live.Keys == w.live.Keys - {id};
    assert |w'.live.Keys| == |w.live.Keys| - 1;
    forall q | q in w'.live
      ensures LivePlantOk(w', q)
    {
      assert LivePlantOk(w, q);
      assert (w.live[q].x, w.live[q].y) != (p.x, p.y);
    }
  }

  /** A reproduction attempt keeps the invariant. If the target cell is empty
      an offspring with the parent's species and parameters is born there;
      otherwise grid, counter, history and live plants are all unchanged. */
  lemma AttemptPreservesInv(w: World, id: int, dx: int, dy: int, lifetime: int, now: int)
    requires Inv(w) && id in w.live && w.clock <= now
    ensures var p := w.live[id]; var (tx, ty) := Target(w.n, p, dx, dy);
      var w' := AttemptStep(w, id, dx, dy, lifetime, now);
      && Inv(w')
      && InGrid(w.n, tx, ty)
      && (w.cells[tx][ty] == EMPTY ==>
            && w'.cells[tx][ty] == p.species
            && w'.nPlants == w.nPlants + 1
            && w'.log == w.log + [Event(now, p.species, tx, ty, w'.nPlants)]
            && w'.live == w.live[w.nextId := Plant(w.nextId, p.species, tx, ty, p.params, now + lifetime)])
      && (w.cells[tx][ty] != EMPTY ==> w' == w.(clock := now))
  {
    var p := w.live[id];
    assert LivePlantOk(w, id);
    var (tx, ty) := Target(w.n, p, dx, dy);
    if w.cells[tx][ty] == EMPTY {
      BirthPreservesInv(w, p.species, tx, ty, p.params, lifetime, now);
    }
  }

  /** When clamping maps the target back onto the parent's own cell, that cell
      is occupied by the parent, so the attempt changes nothing but the clock. */
  lemma SelfTargetFails(w: World, id: int, dx: int, dy: int, lifetime: int, now: int)
    requires Inv(w) && id in w.live
    requires Target(w.n, w.live[id], dx, dy) == (w.live[id].x, w.live[id].y)
    ensures AttemptStep(w, id, dx, dy, lifetime, now) == w.(clock := now)
  {
    assert LivePlantOk(w, id);
  }

  /** The offspring target lies within the accepted offset of its parent in
      each axis, and so within the spread range. */
  lemma TargetWithinSpread(w: World, id: int, dx: int, dy: int)
    requires Inv(w) && id in w.live
    ensures var p := w.live[id]; var (tx, ty) := Target(w.n, p, dx, dy);
      Magnitude(tx - p.x) <= Magnitude(dx) && Magnitude(ty - p.y) <= Magnitude(dy)
  {
    assert LivePlantOk(w, id);
    var p := w.live[id];
    ClampStaysNear(p.x, dx, w.n);
    ClampStaysNear(p.y, dy, w.n);
  }

  /** A resumption keeps the invariant. When the death timer fired the plant
      dies whatever else fired: its cell is released, one death event is
      appended and no offspring is created. */
  lemma ResumePreservesInv(w: World, id: int, deathFired: bool, dx: int, dy: int, lifetime: int, now: int)
    requires Inv(w) && id in w.live && w.clock <= now
    ensures var w' := ResumeStep(w, id, deathFired, dx, dy, lifetime, now);
      && Inv(w')
      && (deathFired ==>
            && w'.live.Keys == w.live.Keys - {id}
            && w'.nPlants == w.nPlants - 1
            && |w'.log| == |w.log| + 1 && w'.log[|w.log|].species == EMPTY)
      && w.log <= w'.log && w.nextId <= w'.nextId && w'.clock == now
  {
    if deathFired {
      DeathPreservesInv(w, id, now);
    } else {
      AttemptPreservesInv(w, id, dx, dy, lifetime, now);
    }
  }

  /** A birth into an empty cell followed by the newborn's death restores the
      grid, the counter and the live plants; the history keeps both events. */
  lemma BirthThenDeathRestores(w: World, species: int, x: int, y: int, params: Params, lifetime: int, born: int, died: int)
    requires Inv(w) && InGrid(w.n, x, y) && w.cells[x][y] == EMPTY
    requires IsSpecies(species) && ParamsOk(params) && w.clock <= born <= died
    ensures var b := BirthStep(w, species, x, y, params, lifetime, born);
      && w.nextId in b.live
      && var d := DeathStep(b, w.nextId, died);
      && d.cells == w.cells && d.nPlants == w.nPlants && d.live == w.live
      && d.log == w.log + [Event(born, species, x, y, w.nPlants + 1), Event(died, EMPTY, x, y, w.nPlants)]
  {
    var b := BirthStep(w, species, x, y, params, lifetime, born);
    BirthPreservesInv(w, species, x, y, params, lifetime, born);
    IdsBelowNext(w);
    var d := DeathStep(b, w.nextId, died);
    assert d.cells == w.cells by {
      assert SetCell(b.cells, x, y, EMPTY) == w.cells[x := w.cells[x][y := species][y := EMPTY]];
      assert w.cells[x][y := species][y := EMPTY] == w.cells[x];
    }
    assert d.live == w.live;
  }

  // ------------------------------------------------------------------ runs

  /** One resumption of one plant process as the scheduler delivers it: which
      timers fired, the time, the accepted offset and the lifetime drawn for a
      possible offspring. */
  datatype Resumption = Resumption(id: int, deathFired: bool, reproFired: bool,
                                   dx: int, dy: int, lifetime: int, now: int)

  /** The resumptions admitted: the plant is live, time does not go back, at
      least one timer fired, the death timer fires exactly at the plant's death
      time, an attempt alone comes strictly before it, and the clock never
      passes the death time of any live plant (a plant due to die is resumed
      before time moves on); an attempt comes with a non-zero offset within
      the spread range and a lifetime of at least 1. Every schedule simpy can
      produce is admitted, and some it cannot: a plant's first attempt less
      than one time unit after its birth, attempts of one plant less than one
      time unit apart, and resumptions at the same time in an order other
      than simpy's first-scheduled-first. */
  ghost predicate Enabled(w: World, r: Resumption) {
    && CanStep(w, r.id)
    && w.clock <= r.now
    && (r.deathFired || r.reproFired)
    && (forall q :: q in w.live ==> r.now <= w.live[q].deathTime)
    && (r.deathFired ==> r.now == w.live[r.id].deathTime)
    && (!r.deathFired ==> r.now < w.live[r.id].deathTime)
    && (!r.deathFired ==>
          var range := w.live[r.id].params.maxSpreadRange;
          && r.lifetime >= 1 && (r.dx, r.dy) != (0, 0)
          && -range <= r.dx <= range && -range <= r.dy <= range)
  }

  function Apply(w: World, r: Resumption): World
    requires CanStep(w, r.id)
  {
    ResumeStep(w, r.id, r.deathFired, r.dx, r.dy, r.lifetime, r.now)
  }

  /** Every resumption of the schedule is enabled in the state it meets. */
  ghost predicate Legal(w: World, rs: seq<Resumption>)
    decreases |rs|
  {
    rs == [] || (Enabled(w, rs[0]) && Legal(Apply(w, rs[0]), rs[1..]))
  }

  /** The state after running the resumptions in order, one at a time. The
      state reached keeps the invariant, the history only grows, plant ids
      only grow and the clock never goes back. */
  function Replay(w: World, rs: seq<Resumption>): (r: World)
    requires Inv(w) && Legal(w, rs)
    ensures Inv(r)
    ensures w.log <= r.log && w.nextId <= r.nextId && w.clock <= r.clock
    decreases |rs|
  {
    if rs == [] then w
    else
      var r0 := rs[0];
      ResumePreservesInv(w, r0.id, r0.deathFired, r0.dx, r0.dy, r0.lifetime, r0.now);
      Replay(Apply(w, r0), rs[1..])
  }

  /** Every prefix of a legal schedule is legal, so every intermediate state
      of the run keeps the invariant and lies between the start and the end
      in history, ids and time. */
  lemma {:induction false} ReplayPrefix(w: World, rs: seq<Resumption>, k: nat)
    requires Inv(w) && Legal(w, rs) && k <= |rs|
    ensures Legal(w, rs[..k])
    ensures var mid := Replay(w, rs[..k]);
      && Inv(mid)
      && w.log <= mid.log <= Replay(w, rs).log
      && w.clock <= mid.clock <= Replay(w, rs).clock
    decreases k
  {
    if k == 0 {
      assert rs[..k] == [];
    } else {
      var r0 := rs[0];
      ResumePreservesInv(w, r0.id, r0.deathFired, r0.dx, r0.dy, r0.lifetime, r0.now);
      ReplayPrefix(Apply(w, r0), rs[1..], k - 1);
      assert rs[..k][0] == r0 && rs[..k][1..] == rs[1..][..k - 1];
    }
  }

  // ---------------------------------------------------------------- seeding

  /** The events of plants of one species born at time now on the given
      sites in turn, p0 plants being alive before the first. */
  function BirthEvents(sites: seq<(int, int)>, species: int, now: int, p0: int): seq<Event> {
    seq(|sites|, k requires 0 <= k < |sites| => Event(now, species, sites[k].0, sites[k].1, p0 + k + 1))
  }

  lemma BirthEventsSnoc(sites: seq<(int, int)>, species: int, now: int, p0: int)
    requires sites != []
    ensures var m := |sites| - 1;
      BirthEvents(sites, species, now, p0) ==
      BirthEvents(sites[..m], species, now, p0) + [Event(now, species, sites[m].0, sites[m].1, p0 + m + 1)]
  {
  }

  /** Births of plants of one species and parameters at time now on the
      given sites in turn, the k-th of them living lifetimes[k]; each site
      takes the species. */
  function BirthsAt(w: World, sites: seq<(int, int)>, species: int, params: Params,
                    lifetimes: seq<int>, now: int): (r: World)
    requires SitesOn(w.cells, sites) && |lifetimes| == |sites|
    ensures r.n == w.n && r.cells == Placed(w.cells, sites, species)
    decreases |sites|
  {
    if sites == [] then w
    else
      var m := |sites| - 1;
      var before := BirthsAt(w, sites[..m], species, params, lifetimes[..m], now);
      BirthStep(before, species, sites[m].0, sites[m].1, params, lifetimes[m], now)
  }

  /** The counter and the ids advance by the number of sites, the history
      gains one birth event per site in order, and the clock reads now once
      any plant was born. */
  lemma {:induction false} BirthsAtSpec(w: World, sites: seq<(int, int)>, species: int, params: Params,
                                        lifetimes: seq<int>, now: int)
    requires SitesOn(w.cells, sites) && |lifetimes| == |sites|
    ensures var r := BirthsAt(w, sites, species, params, lifetimes, now);
      && r.nPlants == w.nPlants + |sites|
      && r.log == w.log + BirthEvents(sites, species, now, w.nPlants)
      && r.nextId == w.nextId + |sites|
      && r.clock == (if sites == [] then w.clock else now)
    decreases |sites|
  {
    if sites != [] {
      var m := |sites| - 1;
      BirthsAtSpec(w, sites[..m], species, params, lifetimes[..m], now);
      BirthEventsSnoc(sites, species, now, w.nPlants);
    }
  }

  /** One more site is one more birth. */
  lemma BirthsAtStep(w: World, sites: seq<(int, int)>, species: int, params: Params,
                     lifetimes: seq<int>, now: int, i: int)
    requires SitesOn(w.cells, sites) && |lifetimes| == |sites| && 0 <= i < |sites|
    ensures SitesOn(w.cells, sites[..i]) && SitesOn(w.cells, sites[..i + 1])
    ensures BirthsAt(w, sites[..i + 1], species, params, lifetimes[..i + 1], now) ==
      BirthStep(BirthsAt(w, sites[..i], species, params, lifetimes[..i], now),
                species, sites[i].0, sites[i].1, params, lifetimes[i], now)
  {
    assert sites[..i + 1][..i] == sites[..i];
    assert lifetimes[..i + 1][..i] == lifetimes[..i];
  }

  /** Births on distinct empty cells of the grid keep the invariant. */
  lemma {:induction false} BirthsAtPreservesInv(w: World, sites: seq<(int, int)>, species: int,
                                                params: Params, lifetimes: seq<int>, now: int)
    requires Inv(w) && SitesOn(w.cells, sites) && NoDup(sites)
    requires forall k :: 0 <= k < |sites| ==> w.cells[sites[k].0][sites[k].1] == EMPTY
    requires IsSpecies(species) && ParamsOk(params) && w.clock <= now
    requires |lifetimes| == |sites|
    ensures Inv(BirthsAt(w, sites, species, params, lifetimes, now))
    decreases |sites|
  {
    if sites != [] {
      var m := |sites| - 1;
      var prefix := sites[..m];
      BirthsAtPreservesInv(w, prefix, species, params, lifetimes[..m], now);
      BirthsAtSpec(w, prefix, species, params, lifetimes[..m], now);
      var before := BirthsAt(w, prefix, species, params, lifetimes[..m], now);
      PlacedAt(w.cells, prefix, species, sites[m].0, sites[m].1);
      assert sites[m] !in prefix;
      BirthPreservesInv(before, species, sites[m].0, sites[m].1, params, lifetimes[m], now);
    }
  }
}
