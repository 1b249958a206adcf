// Where run_sim places the starting population: benign plants on the cells
// of a random mask, with the weed corner cleared first, visited in the
// row-major order of np.where; then weeds on every cell of the corner.
module Seeding {

  import opened Grid
  import opened PlantModel

  /** Side of the top-left square kept free for weeds. */
  const CORNER: int := 4

  predicate InCorner(x: int, y: int) {
    0 <= x < CORNER && 0 <= y < CORNER
  }

  /** The weed sites: product(range(4), range(4)), row by row. */
  function CornerSites(): (c: seq<(int, int)>)
    ensures |c| == CORNER * CORNER
    ensures forall k :: 0 <= k < |c| ==> c[k] == (k / CORNER, k % CORNER)
  {
    seq(CORNER * CORNER, k => (k / CORNER, k % CORNER))
  }

  /** The mask with its corner square set to false (xys[0:4, 0:4] = 0). */
  function ClearCorner(mask: seq<seq<bool>>): (m: seq<seq<bool>>)
    ensures |m| == |mask|
    ensures forall i :: 0 <= i < |m| ==> |m[i]| == |mask[i]|
    ensures forall i, j :: 0 <= i < |mask| && 0 <= j < |mask[i]| ==> m[i][j] == (mask[i][j] && !InCorner(i, j))
  {
    seq(|mask|, i requires 0 <= i < |mask| =>
      seq(|mask[i]|, j requires 0 <= j < |mask[i]| => mask[i][j] && !InCorner(i, j)))
  }

  /** Positions (x, j), (x, j + 1), ... of the true entries of row x. */
  function RowSites(row: seq<bool>, x: int, j: nat): seq<(int, int)>
    requires j <= |row|
    decreases |row| - j
  {
    if j == |row| then [] else (if row[j] then [(x, j)] else []) + RowSites(row, x, j + 1)
  }

  /** Positions of the true entries of rows i, i + 1, ..., row by row. */
  function SitesFrom(m: seq<seq<bool>>, i: nat): seq<(int, int)>
    requires i <= |m|
    decreases |m| - i
  {
    if i == |m| then [] else RowSites(m[i], i, 0) + SitesFrom(m, i + 1)
  }

  /** np.where on a boolean matrix: the positions of its true entries in
      row-major order. */
  function Where(m: seq<seq<bool>>): seq<(int, int)> {
    SitesFrom(m, 0)
  }

  /** The benign sites of a run: np.where of the mask with the corner cleared. */
  function BenignSites(mask: seq<seq<bool>>): seq<(int, int)> {
    Where(ClearCorner(mask))
  }

  lemma NoDupConcat(s: seq<(int, int)>, t: seq<(int, int)>)
    requires NoDup(s) && NoDup(t)
    requires forall p :: p in s ==> p !in t
    ensures NoDup(s + t)
  {
    forall a, b | 0 <= a < b < |s + t|
      ensures (s + t)[a] != (s + t)[b]
    {
      if a < |s| && b >= |s| {
        assert (s + t)[a] in s;
        assert (s + t)[b] == t[b - |s|];
      }
    }
  }

  lemma {:induction false} RowSitesSpec(row: seq<bool>, x: int, j: nat)
    requires j <= |row|
    ensures forall p :: p in RowSites(row, x, j) <==> p.0 == x && j <= p.1 < |row| && row[p.1]
    ensures NoDup(RowSites(row, x, j))
    decreases |row| - j
  {
    if j < |row| {
      RowSitesSpec(row, x, j + 1);
      NoDupConcat(if row[j] then [(x, j)] else [], RowSites(row, x, j + 1));
    }
  }

  lemma {:induction false} SitesFromSpec(m: seq<seq<bool>>, i: nat)
    requires i <= |m|
    ensures forall p :: p in SitesFrom(m, i) <==> i <= p.0 < |m| && 0 <= p.1 < |m[p.0]| && m[p.0][p.1]
    ensures NoDup(SitesFrom(m, i))
    decreases |m| - i
  {
    if i < |m| {
      RowSitesSpec(m[i], i, 0);
      SitesFromSpec(m, i + 1);
      NoDupConcat(RowSites(m[i], i, 0), SitesFrom(m, i + 1));
    }
  }

  /** The benign sites are exactly the in-grid cells the mask marks outside
      the corner, each listed once; so no benign plant lands in the corner
      and no two benign births target the same cell. */
  lemma BenignSitesSpec(mask: seq<seq<bool>>, n: int)
    requires |mask| == n && forall i :: 0 <= i < n ==> |mask[i]| == n
    ensures forall p :: p in BenignSites(mask) <==>
      0 <= p.0 < n && 0 <= p.1 < n && mask[p.0][p.1] && !InCorner(p.0, p.1)
    ensures NoDup(BenignSites(mask))
  {
    SitesFromSpec(ClearCorner(mask), 0);
  }

  /** The weed sites are exactly the corner cells, each listed once. */
  lemma CornerSitesSpec()
    ensures forall p :: p in CornerSites() <==> InCorner(p.0, p.1)
    ensures NoDup(CornerSites())
  {
    var c := CornerSites();
    forall p: (int, int) | InCorner(p.0, p.1)
      ensures p in c
    {
      assert c[CORNER * p.0 + p.1] == p;
    }
    forall a, b | 0 <= a < b < |c|
      ensures c[a] != c[b]
    {
      assert a == CORNER * (a / CORNER) + a % CORNER;
      assert b == CORNER * (b / CORNER) + b % CORNER;
    }
  }

  /** What run_sim leaves on the grid before the processes start: weeds on
      the corner, benign plants where the mask is set outside it, and empty
      cells elsewhere. */
  function SeedGrid(mask: seq<seq<bool>>, n: int): (g: seq<seq<int>>)
    requires |mask| == n && forall i :: 0 <= i < n ==> |mask[i]| == n
    ensures Square(g, n)
    ensures forall x, y :: 0 <= x < n && 0 <= y < n ==>
      g[x][y] == (if InCorner(x, y) then WEED else if mask[x][y] then BENIGN else EMPTY)
  {
    seq(n, x requires 0 <= x < n =>
      seq(n, y requires 0 <= y < n =>
        if InCorner(x, y) then WEED else if mask[x][y] then BENIGN else EMPTY))
  }

  /** Both lists of sites lie on the n-by-n grid. */
  lemma SeedSitesOnGrid(mask: seq<seq<bool>>, n: int)
    requires n >= CORNER
    requires |mask| == n && forall i :: 0 <= i < n ==> |mask[i]| == n
    ensures SitesOn(Blank(n), BenignSites(mask))
    ensures SitesOn(Placed(Blank(n), BenignSites(mask), BENIGN), CornerSites())
  {
    BenignSitesSpec(mask, n);
    var s := BenignSites(mask);
    assert forall k :: 0 <= k < |s| ==> s[k] in s;
  }

  /** The benign births leave every corner cell empty for the weeds. */
  lemma CornerFreeAfterBenign(mask: seq<seq<bool>>, n: int)
    requires n >= CORNER
    requires |mask| == n && forall i :: 0 <= i < n ==> |mask[i]| == n
    requires SitesOn(Blank(n), BenignSites(mask))
    ensures SitesOn(Placed(Blank(n), BenignSites(mask), BENIGN), CornerSites())
    ensures forall k :: 0 <= k < |CornerSites()| ==>
      Placed(Blank(n), BenignSites(mask), BENIGN)[CornerSites()[k].0][CornerSites()[k].1] == EMPTY
  {
    BenignSitesSpec(mask, n);
    var c := CornerSites();
    forall k | 0 <= k < |c|
      ensures Placed(Blank(n), BenignSites(mask), BENIGN)[c[k].0][c[k].1] == EMPTY
    {
      PlacedAt(Blank(n), BenignSites(mask), BENIGN, c[k].0, c[k].1);
    }
  }

  /** One cell of the grid after both sets of births. */
  lemma SeededCell(mask: seq<seq<bool>>, n: int, x: int, y: int)
    requires n >= CORNER
    requires |mask| == n && forall i :: 0 <= i < n ==> |mask[i]| == n
    requires 0 <= x < n && 0 <= y < n
    requires SitesOn(Blank(n), BenignSites(mask))
    requires SitesOn(Placed(Blank(n), BenignSites(mask), BENIGN), CornerSites())
    ensures Placed(Placed(Blank(n), BenignSites(mask), BENIGN), CornerSites(), WEED)[x][y]
      == if InCorner(x, y) then WEED else if mask[x][y] then BENIGN else EMPTY
  {
    BenignSitesSpec(mask, n);
    CornerSitesSpec();
    PlacedAt(Blank(n), BenignSites(mask), BENIGN, x, y);
    PlacedAt(Placed(Blank(n), BenignSites(mask), BENIGN), CornerSites(), WEED, x, y);
  }

  /** Placing benign plants on the benign sites of an empty grid, then weeds
      on the corner, yields the seeded grid. */
  lemma SeedingPlacesAll(mask: seq<seq<bool>>, n: int)
    requires n >= CORNER
    requires |mask| == n && forall i :: 0 <= i < n ==> |mask[i]| == n
    ensures SitesOn(Blank(n), BenignSites(mask))
    ensures SitesOn(Placed(Blank(n), BenignSites(mask), BENIGN), CornerSites())
    ensures Placed(Placed(Blank(n), BenignSites(mask), BENIGN), CornerSites(), WEED) == SeedGrid(mask, n)
  {
    SeedSitesOnGrid(mask, n);
    var both := Placed(Placed(Blank(n), BenignSites(mask), BENIGN), CornerSites(), WEED);
    forall x, y | 0 <= x < n && 0 <= y < n
      ensures both[x][y] == SeedGrid(mask, n)[x][y]
    {
      SeededCell(mask, n, x, y);
    }
    SameCells(both, SeedGrid(mask, n));
  }

  /** The world in which run_sim starts the simulation: in a fresh n-by-n
      world, benign plants are born at time 0 on the benign sites, then weeds
      on the corner; the k-th plant born lives lifetimes[k]. */
  function SeededWorld(mask: seq<seq<bool>>, n: int, benign: Params, weed: Params, lifetimes: seq<int>): World
    requires n >= CORNER
    requires |mask| == n && forall i :: 0 <= i < n ==> |mask[i]| == n
    requires |lifetimes| == |BenignSites(mask)| + CORNER * CORNER
  {
    SeedSitesOnGrid(mask, n);
    var count := |BenignSites(mask)|;
    var w1 := BirthsAt(Initial(n), BenignSites(mask), BENIGN, benign, lifetimes[..count], 0);
    BirthsAt(w1, CornerSites(), WEED, weed, lifetimes[count..], 0)
  }

  /** Every lifetime in either part of the split is positive. */
  lemma SplitPositive(lifetimes: seq<int>, count: int)
    requires 0 <= count <= |lifetimes| && forall i :: 0 <= i < |lifetimes| ==> lifetimes[i] >= 1
    ensures forall k :: 0 <= k < |lifetimes[..count]| ==> lifetimes[..count][k] >= 1
    ensures forall k :: 0 <= k < |lifetimes[count..]| ==> lifetimes[count..][k] >= 1
  {
    forall k | 0 <= k < |lifetimes[count..]|
      ensures lifetimes[count..][k] >= 1
    {
      assert lifetimes[count..][k] == lifetimes[count + k];
    }
  }

  /** The seeded grid holds weeds on the corner and benign plants on the
      marked cells outside it, and every plant is counted. */
  lemma SeededWorldCells(mask: seq<seq<bool>>, n: int, benign: Params, weed: Params, lifetimes: seq<int>)
    requires n >= CORNER
    requires |mask| == n && forall i :: 0 <= i < n ==> |mask[i]| == n
    requires |lifetimes| == |BenignSites(mask)| + CORNER * CORNER
    ensures SeededWorld(mask, n, benign, weed, lifetimes).cells == SeedGrid(mask, n)
    ensures SeededWorld(mask, n, benign, weed, lifetimes).nPlants == |BenignSites(mask)| + CORNER * CORNER
  {
    SeedingPlacesAll(mask, n);
    var count := |BenignSites(mask)|;
    var w1 := BirthsAt(Initial(n), BenignSites(mask), BENIGN, benign, lifetimes[..count], 0);
    BirthsAtSpec(Initial(n), BenignSites(mask), BENIGN, benign, lifetimes[..count], 0);
    BirthsAtSpec(w1, CornerSites(), WEED, weed, lifetimes[count..], 0);
  }

  /** The seeded history is one birth event per plant: benign plants first in
      np.where order, then the weeds in product order, all at time 0. */
  lemma SeededWorldLog(mask: seq<seq<bool>>, n: int, benign: Params, weed: Params, lifetimes: seq<int>)
    requires n >= CORNER
    requires |mask| == n && forall i :: 0 <= i < n ==> |mask[i]| == n
    requires |lifetimes| == |BenignSites(mask)| + CORNER * CORNER
    ensures SeededWorld(mask, n, benign, weed, lifetimes).log ==
      BirthEvents(BenignSites(mask), BENIGN, 0, 0) + BirthEvents(CornerSites(), WEED, 0, |BenignSites(mask)|)
  {
    SeedSitesOnGrid(mask, n);
    var count := |BenignSites(mask)|;
    var w1 := BirthsAt(Initial(n), BenignSites(mask), BENIGN, benign, lifetimes[..count], 0);
    BirthsAtSpec(Initial(n), BenignSites(mask), BENIGN, benign, lifetimes[..count], 0);
    BirthsAtSpec(w1, CornerSites(), WEED, weed, lifetimes[count..], 0);
    assert w1.log == BirthEvents(BenignSites(mask), BENIGN, 0, 0);
  }

  /** The seeded world keeps the invariant. */
  lemma SeededWorldInv(mask: seq<seq<bool>>, n: int, benign: Params, weed: Params, lifetimes: seq<int>)
    requires n >= CORNER
    requires |mask| == n && forall i :: 0 <= i < n ==> |mask[i]| == n
    requires ParamsOk(benign) && ParamsOk(weed)
    requires |lifetimes| == |BenignSites(mask)| + CORNER * CORNER
    ensures Inv(SeededWorld(mask, n, benign, weed, lifetimes))
  {
    var sites := BenignSites(mask);
    var count := |sites|;
    SeedSitesOnGrid(mask, n);
    BenignSitesSpec(mask, n);
    CornerSitesSpec();
    CornerFreeAfterBenign(mask, n);
    InitialInv(n);
    BirthsAtPreservesInv(Initial(n), sites, BENIGN, benign, lifetimes[..count], 0);
    var w1 := BirthsAt(Initial(n), sites, BENIGN, benign, lifetimes[..count], 0);
    BirthsAtPreservesInv(w1, CornerSites(), WEED, weed, lifetimes[count..], 0);
  }
}
