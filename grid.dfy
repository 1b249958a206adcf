// The n-by-n occupancy grid seen as a value: one row per x coordinate, one
// cell per y coordinate. A cell holds 0 when empty, 1 for a benign plant and
// -1 for a weed. The population counter of the simulation is compared against
// CountCells, the number of cells that are not empty.
module Grid {

  const EMPTY: int := 0
  const BENIGN: int := 1
  const WEED: int := -1

  predicate IsSpecies(s: int) {
    s == BENIGN || s == WEED
  }

  /** Every row has length n and there are n rows. */
  ghost predicate Square(g: seq<seq<int>>, n: int) {
    |g| == n && forall i :: 0 <= i < |g| ==> |g[i]| == n
  }

  /** Every cell is empty or holds one of the two species. */
  ghost predicate CellsOk(g: seq<seq<int>>) {
    forall i, j :: 0 <= i < |g| && 0 <= j < |g[i]| ==> g[i][j] == EMPTY || IsSpecies(g[i][j])
  }

  function Occupied(v: int): nat {
    if v != EMPTY then 1 else 0
  }

  function CountRow(row: seq<int>): (c: nat)
    ensures c <= |row|
  {
    if row == [] then 0 else Occupied(row[0]) + CountRow(row[1..])
  }

  /** Number of non-empty cells of the grid. */
  function CountCells(g: seq<seq<int>>): nat {
    if g == [] then 0 else CountRow(g[0]) + CountCells(g[1..])
  }

  /** The grid after writing v into cell (i, j). */
  function SetCell(g: seq<seq<int>>, i: int, j: int, v: int): (g': seq<seq<int>>)
    requires 0 <= i < |g| && 0 <= j < |g[i]|
    ensures |g'| == |g|
    ensures forall a :: 0 <= a < |g| ==> |g'[a]| == |g[a]|
    ensures g'[i][j] == v
    ensures forall a, b :: 0 <= a < |g| && 0 <= b < |g[a]| && (a, b) != (i, j) ==> g'[a][b] == g[a][b]
  {
    g[i := g[i][j := v]]
  }

  /** Writing one cell changes the row count by the change in that cell's occupancy. */
  lemma {:induction false} CountRowUpdate(row: seq<int>, j: int, v: int)
    requires 0 <= j < |row|
    ensures CountRow(row[j := v]) == CountRow(row) - Occupied(row[j]) + Occupied(v)
  {
    if j == 0 {
      assert row[j := v][1..] == row[1..];
    } else {
      CountRowUpdate(row[1..], j - 1, v);
      assert row[j := v][1..] == row[1..][j - 1 := v];
    }
  }

  /** Writing one cell changes the grid count by the change in that cell's occupancy. */
  lemma {:induction false} CountCellsUpdate(g: seq<seq<int>>, i: int, j: int, v: int)
    requires 0 <= i < |g| && 0 <= j < |g[i]|
    ensures CountCells(SetCell(g, i, j, v)) == CountCells(g) - Occupied(g[i][j]) + Occupied(v)
  {
    var g' := SetCell(g, i, j, v);
    if i == 0 {
      assert g'[1..] == g[1..];
      CountRowUpdate(g[0], j, v);
    } else {
      CountCellsUpdate(g[1..], i - 1, j, v);
      assert g'[1..] == SetCell(g[1..], i - 1, j, v);
    }
  }

  /** A grid of m rows of width n has at most m * n occupied cells. */
  lemma {:induction false} CountCellsBound(g: seq<seq<int>>, n: nat)
    requires forall i :: 0 <= i < |g| ==> |g[i]| == n
    ensures CountCells(g) <= |g| * n
  {
    if g != [] {
      CountCellsBound(g[1..], n);
      assert CountCells(g[1..]) <= (|g| - 1) * n;
      assert (|g| - 1) * n + n == |g| * n;
    }
  }

  /** The n-by-n grid with every cell empty. */
  function Blank(n: nat): (g: seq<seq<int>>)
    ensures |g| == n
    ensures forall i :: 0 <= i < n ==> |g[i]| == n
    ensures forall i, j :: 0 <= i < n && 0 <= j < n ==> g[i][j] == EMPTY
  {
    seq(n, _ => seq(n, _ => EMPTY))
  }

  lemma {:induction false} CountRowEmpty(row: seq<int>)
    requires forall j :: 0 <= j < |row| ==> row[j] == EMPTY
    ensures CountRow(row) == 0
  {
    if row != [] {
      CountRowEmpty(row[1..]);
    }
  }

  /** A grid with no occupied cell counts zero. */
  lemma {:induction false} CountCellsEmpty(g: seq<seq<int>>)
    requires forall i, j :: 0 <= i < |g| && 0 <= j < |g[i]| ==> g[i][j] == EMPTY
    ensures CountCells(g) == 0
  {
    if g != [] {
      CountRowEmpty(g[0]);
      CountCellsEmpty(g[1..]);
    }
  }

  /** Two grids with the same shape and the same cells are equal. */
  lemma SameCells(g: seq<seq<int>>, h: seq<seq<int>>)
    requires |g| == |h| && forall i :: 0 <= i < |g| ==> |g[i]| == |h[i]|
    requires forall i, j :: 0 <= i < |g| && 0 <= j < |g[i]| ==> g[i][j] == h[i][j]
    ensures g == h
  {
    forall i | 0 <= i < |g|
      ensures g[i] == h[i]
    {
      assert forall j :: 0 <= j < |g[i]| ==> g[i][j] == h[i][j];
    }
  }

  /** The sites all lie on grid g. */
  ghost predicate SitesOn(g: seq<seq<int>>, sites: seq<(int, int)>) {
    forall k :: 0 <= k < |sites| ==> 0 <= sites[k].0 < |g| && 0 <= sites[k].1 < |g[sites[k].0]|
  }

  /** No site is listed twice. */
  ghost predicate NoDup(s: seq<(int, int)>) {
    forall a, b :: 0 <= a < b < |s| ==> s[a] != s[b]
  }

  /** The grid after writing v into each site in turn. */
  function Placed(g: seq<seq<int>>, sites: seq<(int, int)>, v: int): (g': seq<seq<int>>)
    requires SitesOn(g, sites)
    ensures |g'| == |g| && forall a :: 0 <= a < |g| ==> |g'[a]| == |g[a]|
    decreases |sites|
  {
    if sites == [] then g
    else
      var last := sites[|sites| - 1];
      SetCell(Placed(g, sites[..|sites| - 1], v), last.0, last.1, v)
  }

  /** Placing one more site is one more cell write. */
  lemma PlacedStep(g: seq<seq<int>>, sites: seq<(int, int)>, i: int, v: int)
    requires SitesOn(g, sites) && 0 <= i < |sites|
    ensures SitesOn(g, sites[..i]) && SitesOn(g, sites[..i + 1])
    ensures Placed(g, sites[..i + 1], v) == SetCell(Placed(g, sites[..i], v), sites[i].0, sites[i].1, v)
  {
    assert sites[..i + 1][..i] == sites[..i];
  }

  /** After the writes a cell holds v exactly when it is one of the sites,
      and otherwise what it held before. */
  lemma {:induction false} PlacedAt(g: seq<seq<int>>, sites: seq<(int, int)>, v: int, a: int, b: int)
    requires SitesOn(g, sites) && 0 <= a < |g| && 0 <= b < |g[a]|
    ensures Placed(g, sites, v)[a][b] == if (a, b) in sites then v else g[a][b]
    decreases |sites|
  {
    if sites != [] {
      var prefix := sites[..|sites| - 1];
      PlacedAt(g, prefix, v, a, b);
      assert sites == prefix + [sites[|sites| - 1]];
    }
  }
}
