# Plant distribution simulation: the birth/death engine in Dafny

The simulation in `plant_distribution/simulation.py` runs an `n × n` grid on which
benign plants (`1`) and weeds (`-1`) are born, try to reproduce and die. Empty
cells hold `0`. Each plant is a simpy process. It is born in `Plant.__init__`:
its cell takes its species, the environment's `n_plants` counter rises, it gets
the next id, a birth event is appended to `event_history`, and a death timer is
set. It then loops in `live_and_prosper`, each time racing a reproduction timer
against that death timer:

- If the death timer fired, the plant dies. Its cell is cleared, the counter
  falls and a death event is appended.
- Otherwise it draws a nonzero offset in `[-r, r]²` by rejection and clamps the
  target onto the grid. If the target cell is empty, an offspring with the
  same species and parameters is born there.

`run_sim` seeds the grid before the run starts. It places benign plants on a
random mask (the top-left 4×4 corner cleared, the cells visited in `np.where`
order), then weeds on every corner cell.

The model has two layers:

- **A value layer.**
  - `Grid`: the grid as `seq<seq<int>>`, the count of non-empty cells, and cell writes.
  - `Spread`: the rejection loop and the clamp.
  - `PlantModel`: the whole run state as a `World` value, the three state changes
    (`BirthStep`, `DeathStep`, `AttemptStep`, combined in `ResumeStep`), and the
    invariant `Inv`.
  - `Seeding`: the seeding sites and the seeded world.
- **An imperative layer.** `Engine.Simulation` is a class holding the grid as an
  `array2<int>` with the counter, history, next id, live plants and clock as
  fields that its methods update in place. Every method is proved to change the
  state exactly as the matching value-layer step does (`Abs() == Step(old(Abs()), …)`)
  and to keep `Valid()`, which is `Inv` of the abstract state plus the array
  agreeing with the ghost copy of its cells.

`Inv` says:

- The counter equals the number of non-empty cells and the number of live plants.
- Every live plant sits on its own cell, which holds its species.
- No two live plants share a cell.
- The history's populations chain by +1 per birth and −1 per death, and end at the counter.
- The history's times never decrease and never exceed the clock.

Randomness and the scheduler are inputs:

- A drawn lifetime is a parameter `lifetime ≥ 1`, the range of a geometric draw.
- The offset draws are a finite stream `draws` of pairs in `[-r, r]²` containing a
  nonzero pair.
- Which timers fired and the current time `now` are the parameters of a
  resumption. `PlantModel.Enabled` admits a resumption only if no live plant's death time has passed, and an attempt alone only strictly before its plant's death time. It admits every schedule simpy can produce, and some it cannot: a plant's first attempt less than one time unit after its birth (even in the same instant), attempts of one plant less than one time unit apart, and resumptions at the same time in an order other than simpy's first-scheduled-first.

## Model

| member | source | states |
|---|---|---|
| Grid.Blank | plant_distribution/simulation.py:25 | the module grid `np.zeros((n, n))`: an n-by-n grid whose every cell is empty |
| Grid.SetCell | plant_distribution/simulation.py:58 | the cell write `grid[x, y] = species` (and `grid[x, y] = 0` at line 71): the grid keeps its shape, the written cell holds the new value and every other cell is unchanged |
| Grid.CountCellsUpdate | plant_distribution/simulation.py:58 | writing one cell changes the number of non-empty cells by the change in that cell's occupancy |
| Grid.PlacedAt | plant_distribution/simulation.py:99-105 | after a series of births on a list of sites a cell holds the species exactly when it is one of the sites, and its old value otherwise |
| Spread.Clamp | plant_distribution/simulation.py:82-83 | `min(max(v, 0), n - 1)` lies in `[0, n)`, is `v` when `v` is on the grid, `0` below it and `n - 1` above it |
| Spread.ClampNearest | plant_distribution/simulation.py:82-83 | the clamped coordinate is the grid coordinate nearest to the unclamped one (projection, not wrap-around or rejection) |
| Spread.ClampStaysNear | plant_distribution/simulation.py:82-83 | for a parent on the grid, clamping never moves the target further from the parent than the drawn offset |
| Spread.FirstNonZeroIndex | plant_distribution/simulation.py:79-81 | the pair the rejection loop accepts is the first nonzero pair of the draw stream; every earlier pair is `(0, 0)` |
| Spread.Accepted | plant_distribution/simulation.py:79-81 | the offset the rejection loop ends with: the first nonzero pair of the draw stream |
| Spread.SampleOffset | plant_distribution/simulation.py:78-81 | the rejection loop returns the first nonzero draw, so the offset is never `(0, 0)` and each component lies in `[-r, r]` |
| PlantModel.AppendKeepsLog | plant_distribution/simulation.py:60 | appending an event stamped `now ≥ clock` whose population is the counter plus its ±1 keeps the history chained, time-ordered and ending at the counter |
| PlantModel.ChainedAt | plant_distribution/simulation.py:73 | in a well-formed history every entry's population is the previous entry's plus 1 for a birth and minus 1 for a death |
| PlantModel.SortedAt | plant_distribution/simulation.py:60 | in a well-formed history every earlier entry's time is no later than every later entry's |
| PlantModel.IdsBelowNext | plant_distribution/simulation.py:54-55 | every live plant's id is below the next id to be handed out |
| PlantModel.Initial | plant_distribution/simulation.py:91-93 | the state a first run starts from: an all-empty grid (line 25), no plants, an empty history (line 38), ids from 0 (line 42), the counter at 0 (line 93) and the clock at 0 |
| PlantModel.InitialInv | plant_distribution/simulation.py:91-93 | the state a first run starts from (the all-empty module grid of line 25, the empty module history of line 38, the counter reset at line 93) satisfies the invariant |
| PlantModel.PopulationBounded | plant_distribution/simulation.py:47 | the live population is between 0 and `n * n` |
| PlantModel.BirthStep | plant_distribution/simulation.py:44-63 | the birth: the cell takes the species, the counter rises by one, the plant gets the next id, the event with the new population is appended, its death time is the birth time plus its lifetime, and the clock reads the birth time |
| PlantModel.DeathStep | plant_distribution/simulation.py:70-75 | the death: the plant's cell is cleared, the counter falls by one, the event with species 0 and the new population is appended and the plant's process ends |
| PlantModel.Target | plant_distribution/simulation.py:82-83 | the offspring cell: the parent's cell plus the offset, clamped onto the grid in each axis |
| PlantModel.AttemptStep | plant_distribution/simulation.py:77-88 | the reproduction attempt with the accepted offset: clamp the target per axis, and give birth there with the parent's species and parameters only if the cell is empty |
| PlantModel.ResumeStep | plant_distribution/simulation.py:65-88 | one pass of the life loop: the death timer is looked at first, so the plant dies when it fired, and otherwise attempts to reproduce |
| PlantModel.BirthPreservesInv | plant_distribution/simulation.py:44-63 | a birth on an empty cell keeps the invariant; the cell takes the species, no other cell changes, the counter rises by 1, exactly the event `(now, species, x, y, n_plants)` is appended, and the new id exceeds every live id |
| PlantModel.BirthOnOccupiedBreaksCount | plant_distribution/simulation.py:58 | the unconditional cell write of `Plant.__init__` onto an occupied cell leaves the counter one above the number of non-empty cells, which is why every caller passes an empty cell: the reproduction branch checks it, the benign seeding loop visits distinct cells, and the weed loop only the corner cleared for it |
| PlantModel.DeathPreservesInv | plant_distribution/simulation.py:70-75 | a death keeps the invariant; the plant's cell becomes empty, no other cell changes, the counter falls by 1, exactly the event `(now, 0, x, y, n_plants)` is appended and the plant is no longer live |
| PlantModel.AttemptPreservesInv | plant_distribution/simulation.py:77-88 | a reproduction attempt keeps the invariant and its target is on the grid; on an empty target an offspring with the parent's species and parameters is born there; on an occupied target the state is unchanged except that the clock reads `now` |
| PlantModel.SelfTargetFails | plant_distribution/simulation.py:82-88 | when clamping maps the target back onto the parent's own cell, the attempt changes nothing but the clock |
| PlantModel.TargetWithinSpread | plant_distribution/simulation.py:78-83 | the offspring target lies within the accepted offset of the parent in each axis |
| PlantModel.ResumePreservesInv | plant_distribution/simulation.py:65-88 | one resumption keeps the invariant; if the death timer fired the plant dies (one death event, counter −1, plant gone) whether or not the reproduction timer also fired; the history only grows, ids never decrease and the clock reads `now` |
| PlantModel.BirthThenDeathRestores | plant_distribution/simulation.py:44-75 | a birth on an empty cell followed by the newborn's death restores grid, counter and live plants, leaving exactly the birth and death events in the history |
| PlantModel.Replay | plant_distribution/simulation.py:65-88 | any legal schedule of resumptions keeps the invariant in the state it reaches; the history only grows, the next id only grows and the clock never goes back |
| PlantModel.ReplayPrefix | plant_distribution/simulation.py:65-88 | every prefix of a legal schedule is legal, so every intermediate state of the run keeps the invariant, and its history and clock lie between those of the start and the end |
| PlantModel.BirthsAt | plant_distribution/simulation.py:99-105 | births of one species on a list of sites, one after the other, leave the grid with each site written with the species |
| PlantModel.BirthsAtSpec | plant_distribution/simulation.py:99-105 | after births on a list of sites the counter and the next id have advanced by the number of sites and the history has gained one birth event per site, in order, with populations counting up from the previous one |
| PlantModel.BirthsAtPreservesInv | plant_distribution/simulation.py:99-105 | births on distinct empty cells of the grid keep the invariant |
| Seeding.ClearCorner | plant_distribution/simulation.py:98 | the mask keeps its shape and loses exactly the entries in the 4×4 corner |
| Seeding.Where | plant_distribution/simulation.py:99 | `np.where` on a boolean matrix: the positions of its true entries, row by row |
| Seeding.RowSitesSpec | plant_distribution/simulation.py:99 | the sites listed for one row are exactly its true entries, each once |
| Seeding.SitesFromSpec | plant_distribution/simulation.py:99 | `np.where` lists exactly the true entries of the mask, each once |
| Seeding.BenignSites | plant_distribution/simulation.py:97-99 | the benign seeding sites: `np.where` of the mask with the 4×4 weed corner cleared |
| Seeding.BenignSitesSpec | plant_distribution/simulation.py:97-99 | the benign sites are exactly the in-grid cells marked in the mask outside the corner, each listed once |
| Seeding.CornerSites | plant_distribution/simulation.py:104 | `product(range(4), range(4))`: entry k is `(k / 4, k % 4)` |
| Seeding.CornerSitesSpec | plant_distribution/simulation.py:104 | `product(range(4), range(4))` lists exactly the corner cells, each once |
| Seeding.SeedSitesOnGrid | plant_distribution/simulation.py:97-105 | the benign sites and the corner sites lie on the grid |
| Seeding.CornerFreeAfterBenign | plant_distribution/simulation.py:98-101 | after the benign births every corner cell is still empty for the weeds |
| Seeding.SeededCell | plant_distribution/simulation.py:97-105 | after both seeding loops a cell holds a weed in the corner, a benign plant where the mask is set outside it, and is empty otherwise |
| Seeding.SeedingPlacesAll | plant_distribution/simulation.py:97-105 | the grid after the benign births and then the weed births equals the seeded grid |
| Seeding.SeededWorld | plant_distribution/simulation.py:97-105 | the state after both seeding loops: benign births on the benign sites of the fresh state, then weed births on the corner, all at time 0 |
| Seeding.SeededWorldCells | plant_distribution/simulation.py:97-105 | the seeded world holds weeds on the corner and benign plants on the marked cells outside it, and counts every plant |
| Seeding.SeededWorldLog | plant_distribution/simulation.py:99-105 | the seeded history is one birth event per plant at time 0: the benign plants in `np.where` order, then the weeds in product order, with populations 1, 2, … |
| Seeding.SeededWorldInv | plant_distribution/simulation.py:97-105 | the seeded world satisfies the invariant |
| Engine.Simulation.constructor | plant_distribution/simulation.py:91-93 | the state of a first run: a new environment with its counter at 0 (lines 92-93) over the all-empty grid of line 25, the empty history of line 38 and ids from 0 (line 42), clock 0 |
| Engine.Simulation.Birth | plant_distribution/simulation.py:44-63 | updates grid, counter, id, history, live plants and clock in place exactly as `BirthStep`, keeping the invariant |
| Engine.Simulation.Die | plant_distribution/simulation.py:70-75 | updates the state in place exactly as `DeathStep`, keeping the invariant |
| Engine.Simulation.AttemptReproduce | plant_distribution/simulation.py:77-88 | samples the offset with the rejection loop, clamps and checks the cell, and updates the state exactly as `AttemptStep` with the accepted offset, keeping the invariant |
| Engine.Simulation.Resume | plant_distribution/simulation.py:65-88 | one resumption of the life loop, death checked first: updates the state exactly as `ResumeStep`, keeping the invariant |
| Engine.Simulation.BirthAll | plant_distribution/simulation.py:99-105 | either seeding loop: one birth per site in order, the state ending as `BirthsAt` of the old state, keeping the invariant |
| Engine.Simulation.Seed | plant_distribution/simulation.py:97-105 | `run_sim`'s seeding on a fresh environment ends in `SeededWorld`: the seeded grid, every plant counted, the benign then the weed birth events, and the invariant |

## Left out

- simpy itself (the event queue, `env.process`, `env.timeout`, the `|` condition) is not modelled. Each resumption of a plant's loop is one `Resume` call, whose parameters record which timers fired and the time; `PlantModel.Enabled` admits every schedule simpy can produce, and some it cannot: a plant's first attempt less than one time unit after its birth (even in the same instant), attempts of one plant less than one time unit apart, and resumptions at the same time in an order other than simpy's first-scheduled-first. The horizon of `env.run(until=T)` (line 107) stops the scheduler at time T; that only cuts a schedule short, and `PlantModel.ReplayPrefix` covers every such prefix of a legal schedule.
- The drawing of the time between reproduction attempts (line 67) is left out. Only the time `now` at which the resumption happens is kept.
- All numpy draws are inputs: the mask of `np.random.rand(n, n) < 0.1`, the geometric lifetimes, and the `randint` offset pairs. Their distributions are not modelled, only their ranges.
- The rejection loop is modelled on a finite draw stream that contains a nonzero pair. An endless run of `(0, 0)` draws, which has probability 0, is not modelled.
- `print` output, the pandas DataFrame and the CSV export are I/O and are not modelled.
- The module constants (`n`, the averages, the spread ranges, `T`) are parameters. The constants only fix their values.
- State that survives across calls of `run_sim` in one interpreter is not modelled. The module-level `grid` (line 25) and `event_history` (line 38) are never reset by `run_sim`, and neither is the class attribute `Plant.next_id` (line 42); only `env.n_plants` restarts at 0 (line 93). A second run would start with the first run's plants on the grid and a counter of 0. The model starts each `Simulation` from the state of a first run.
- Engine.Simulation.Birth: requires the target cell to be empty and in the grid. `Plant.__init__` checks neither before it counts the plant and takes the next id. The bounds are fatal assertions that fire after `n_plants` and `next_id` were already incremented, and every caller passes an empty cell. `PlantModel.BirthOnOccupiedBreaksCount` shows what an occupied cell would do to the counter.
- Engine.Simulation.Seed: requires the grid to be at least 4 × 4. Clearing `xys[0:4, 0:4]` (line 98) works for any size, since numpy clamps slices, but on a smaller grid `product(range(4), range(4))` (line 104) yields a coordinate ≥ n and the assertion of lines 56-57 aborts the run inside the weed loop; that aborted run is not modelled.
