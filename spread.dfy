// Where an offspring may land: the offset drawn by the rejection loop and the
// per-axis clamp onto the grid.
module Spread {

  /** Projects coordinate v onto [0, n - 1]: min(max(v, 0), n - 1). */
  function Clamp(v: int, n: int): (r: int)
    requires n > 0
    ensures 0 <= r < n
    ensures 0 <= v < n ==> r == v
    ensures v < 0 ==> r == 0
    ensures v >= n ==> r == n - 1
  {
    var low := if v < 0 then 0 else v;
    if low < n - 1 then low else n - 1
  }

  function Magnitude(a: int): nat {
    if a < 0 then -a else a
  }

  /** The clamped coordinate is the grid coordinate nearest to v. */
  lemma ClampNearest(v: int, n: int, c: int)
    requires n > 0 && 0 <= c < n
    ensures Magnitude(Clamp(v, n) - v) <= Magnitude(c - v)
  {
  }

  /** Clamping never moves a target further from a parent that lies on the
      grid: the offspring stays within the drawn offset of its parent. */
  lemma ClampStaysNear(p: int, d: int, n: int)
    requires n > 0 && 0 <= p < n
    ensures Magnitude(Clamp(p + d, n) - p) <= Magnitude(d)
  {
  }

  /** Each drawn pair has both components in [-r, r], the range of
      randint(low = -r, high = r + 1). */
  ghost predicate DrawsInRange(draws: seq<(int, int)>, r: int) {
    forall i :: 0 <= i < |draws| ==> -r <= draws[i].0 <= r && -r <= draws[i].1 <= r
  }

  /** The draw stream contains a pair other than (0, 0), so the rejection loop
      stops within it. */
  predicate HasNonZero(draws: seq<(int, int)>) {
    draws != [] && (draws[0] != (0, 0) || HasNonZero(draws[1..]))
  }

  /** Position of the first pair that is not (0, 0): the pair the rejection
      loop accepts. */
  function FirstNonZeroIndex(draws: seq<(int, int)>): (k: nat)
    requires HasNonZero(draws)
    ensures k < |draws| && draws[k] != (0, 0)
    ensures forall j :: 0 <= j < k ==> draws[j] == (0, 0)
  {
    if draws[0] != (0, 0) then 0 else 1 + FirstNonZeroIndex(draws[1..])
  }

  /** The offset the rejection loop accepts from the draw stream. */
  function Accepted(draws: seq<(int, int)>): (int, int)
    requires HasNonZero(draws)
  {
    draws[FirstNonZeroIndex(draws)]
  }

  /** The rejection loop: start from (0, 0) and draw pairs until one is not
      (0, 0). The accepted offset is never (0, 0) and each component lies in
      [-r, r]. */
  method SampleOffset(draws: seq<(int, int)>, r: int) returns (dx: int, dy: int)
    requires DrawsInRange(draws, r)
    requires HasNonZero(draws)
    ensures (dx, dy) == Accepted(draws)
    ensures (dx, dy) != (0, 0)
    ensures -r <= dx <= r && -r <= dy <= r
  {
    dx, dy := 0, 0;
    var i := 0;
    while dx == 0 && dy == 0
      invariant 0 <= i <= |draws|
      invariant forall j :: 0 <= j < i && (dx, dy) == (0, 0) ==> draws[j] == (0, 0)
      invariant (dx, dy) == (0, 0) ==> HasNonZero(draws[i..])
      invariant (dx, dy) != (0, 0) ==> 0 < i && (dx, dy) == draws[i - 1]
      invariant (dx, dy) != (0, 0) ==> forall j :: 0 <= j < i - 1 ==> draws[j] == (0, 0)
      decreases |draws| - i
    {
      assert draws[i..][0] == draws[i];
      assert draws[i..][1..] == draws[i + 1..];
      dx, dy := draws[i].0, draws[i].1;
      i := i + 1;
    }
  }
}
