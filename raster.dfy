/** Elevation grids, pixel addresses and the small helpers every stage of the
    peak finder shares. */
module Raster {

  /** A pixel address in (x, y) = (column, row) order, the order the peak
      records use. */
  datatype Pixel = Pixel(x: int, y: int)

  /** A row-major elevation grid: g[y][x] is the sample at row y, column x. */
  type Grid = seq<seq<int>>

  datatype Option<T> = None | Some(value: T)

  function Min(a: int, b: int): int { if a <= b then a else b }

  function Max(a: int, b: int): int { if a <= b then b else a }

  function Abs(a: int): nat { if a < 0 then -a else a }

  /** Number of columns (0 for a grid without rows). */
  function Cols(g: Grid): nat { if |g| == 0 then 0 else |g[0]| }

  /** Every row has the same length: the grid is rectangular. */
  predicate IsGrid(g: Grid) { forall y :: 0 <= y < |g| ==> |g[y]| == Cols(g) }

  predicate InGrid(g: Grid, p: Pixel) { 0 <= p.y < |g| && 0 <= p.x < Cols(g) }

  function At(g: Grid, p: Pixel): int
    requires IsGrid(g) && InGrid(g, p)
  {
    g[p.y][p.x]
  }

  predicate AllInGrid(g: Grid, ps: seq<Pixel>) { forall k :: 0 <= k < |ps| ==> InGrid(g, ps[k]) }

  /** Squared Euclidean distance between two pixels (distances are compared squared). */
  function Dist2(p: Pixel, q: Pixel): nat
  {
    (p.x - q.x) * (p.x - q.x) + (p.y - q.y) * (p.y - q.y)
  }

  /** The grid's current contents, read from the caller's array. */
  function ToGrid(img: array2<int>): (g: Grid)
    reads img
    ensures |g| == img.Length0 && IsGrid(g)
    ensures |g| > 0 ==> Cols(g) == img.Length1
    ensures forall y, x :: 0 <= y < img.Length0 && 0 <= x < img.Length1 ==> g[y][x] == img[y, x]
  {
    seq(img.Length0, y requires 0 <= y < img.Length0 reads img =>
      seq(img.Length1, x requires 0 <= x < img.Length1 reads img => img[y, x]))
  }

  /** The set of elevations that occur in the grid. */
  ghost function Heights(g: Grid): set<int>
    requires IsGrid(g)
  {
    set y, x | 0 <= y < |g| && 0 <= x < Cols(g) :: g[y][x]
  }

  lemma HeightInHeights(g: Grid, p: Pixel)
    requires IsGrid(g) && InGrid(g, p)
    ensures At(g, p) in Heights(g)
  {
    assert g[p.y][p.x] == At(g, p);
  }

  /** The smallest sample of one row. */
  function RowMin(row: seq<int>): (m: int)
    requires |row| > 0
    ensures forall x :: 0 <= x < |row| ==> m <= row[x]
    ensures exists x :: 0 <= x < |row| && row[x] == m
  {
    if |row| == 1 then row[0]
    else
      var m0 := RowMin(row[..|row| - 1]);
      assert forall x :: 0 <= x < |row| - 1 ==> row[..|row| - 1][x] == row[x];
      Min(m0, row[|row| - 1])
  }

  /** The smallest sample among the first n rows. */
  function MinOfRows(g: Grid, n: nat): (m: int)
    requires IsGrid(g) && 0 < n <= |g| && Cols(g) > 0
    ensures forall y, x :: 0 <= y < n && 0 <= x < Cols(g) ==> m <= g[y][x]
    ensures exists y, x :: 0 <= y < n && 0 <= x < Cols(g) && g[y][x] == m
  {
    if n == 1 then RowMin(g[0])
    else Min(MinOfRows(g, n - 1), RowMin(g[n - 1]))
  }

  /** np.min of the grid: a sample no other sample is below. */
  function GridMin(g: Grid): (m: int)
    requires IsGrid(g) && |g| > 0 && Cols(g) > 0
    ensures forall p :: InGrid(g, p) ==> m <= At(g, p)
    ensures exists p :: InGrid(g, p) && At(g, p) == m
  {
    var m := MinOfRows(g, |g|);
    var y, x :| 0 <= y < |g| && 0 <= x < Cols(g) && g[y][x] == m;
    assert InGrid(g, Pixel(x, y)) && At(g, Pixel(x, y)) == m;
    m
  }

  /** A product of non-negative numbers is non-negative, and at least the
      first factor when the second is positive. */
  lemma {:induction false} MulNat(d: nat, t: nat)
    ensures d * t >= 0 && (t >= 1 ==> d * t >= d)
    decreases t
  {
    if t > 0 {
      MulNat(d, t - 1);
      assert d * t == d * (t - 1) + d;
    }
  }

  /** Multiplying by a non-negative factor is monotone. */
  lemma MulMonotone(c: int, x: int, y: int)
    requires c >= 0 && x <= y
    ensures c * x <= c * y
  {
    MulNat(c, y - x);
    assert c * (y - x) == c * y - c * x;
  }

  /** A square grows with the absolute value. */
  lemma SquareBound(a: int, m: nat)
    requires Abs(a) <= m
    ensures a * a <= m * m
  {
    MulMonotone(Abs(a), Abs(a), m);
    MulMonotone(m, Abs(a), m);
    assert a * a == Abs(a) * Abs(a);
    assert Abs(a) * m == m * Abs(a);
  }
}
