/** Grid paths and the bottleneck ("saddle") height between two pixels: the
    maximum, over all 4-connected paths from start to end, of the lowest
    elevation on the path. */
module Paths {
  import opened Raster

  /** a and b are 4-neighbours (one step right, left, down or up). */
  predicate Adjacent4(a: Pixel, b: Pixel)
  {
    (a.x == b.x && Abs(a.y - b.y) == 1) || (a.y == b.y && Abs(a.x - b.x) == 1)
  }

  /** P is a 4-connected sequence of grid pixels from s to e. */
  ghost predicate IsPath(g: Grid, P: seq<Pixel>, s: Pixel, e: Pixel)
  {
    IsGrid(g) && |P| > 0 && P[0] == s && P[|P| - 1] == e && AllInGrid(g, P) &&
    forall k :: 0 <= k < |P| - 1 ==> Adjacent4(P[k], P[k + 1])
  }

  /** The lowest elevation on a sequence of grid pixels. */
  function PathMin(g: Grid, P: seq<Pixel>): (m: int)
    requires IsGrid(g) && |P| > 0 && AllInGrid(g, P)
    ensures forall k :: 0 <= k < |P| ==> m <= At(g, P[k])
    ensures exists k :: 0 <= k < |P| && At(g, P[k]) == m
  {
    if |P| == 1 then At(g, P[0])
    else
      var front := P[..|P| - 1];
      assert forall k :: 0 <= k < |front| ==> front[k] == P[k];
      Min(PathMin(g, front), At(g, P[|P| - 1]))
  }

  /** No path from s to e stays above v. */
  ghost predicate AtMostOnPaths(g: Grid, s: Pixel, e: Pixel, v: int)
  {
    forall P {:trigger IsPath(g, P, s, e)} :: IsPath(g, P, s, e) ==> PathMin(g, P) <= v
  }

  /** v is the bottleneck height from s to e: some path attains it and no
      path does better. */
  ghost predicate IsBottleneck(g: Grid, s: Pixel, e: Pixel, v: int)
  {
    (exists P {:trigger IsPath(g, P, s, e)} :: IsPath(g, P, s, e) && PathMin(g, P) == v) && AtMostOnPaths(g, s, e, v)
  }

  /** Dropping the last pixel of a path leaves a path to its predecessor. */
  lemma PathPrefix(g: Grid, P: seq<Pixel>, s: Pixel, e: Pixel)
    requires IsPath(g, P, s, e) && |P| > 1
    ensures IsPath(g, P[..|P| - 1], s, P[|P| - 2])
    ensures PathMin(g, P) == Min(PathMin(g, P[..|P| - 1]), At(g, e))
  {
    var front := P[..|P| - 1];
    assert forall k :: 0 <= k < |front| ==> front[k] == P[k];
  }

  /** Stepping from the end of a path to a 4-neighbour extends it. */
  lemma PathExtend(g: Grid, P: seq<Pixel>, s: Pixel, c: Pixel, n: Pixel)
    requires IsPath(g, P, s, c) && InGrid(g, n) && Adjacent4(c, n)
    ensures IsPath(g, P + [n], s, n)
    ensures PathMin(g, P + [n]) == Min(PathMin(g, P), At(g, n))
  {
    var Q := P + [n];
    assert Q[..|Q| - 1] == P;
    assert forall k :: 0 <= k < |P| ==> Q[k] == P[k];
  }

  /** Any two grid pixels are joined by a path (the grid is connected). */
  lemma {:induction false} PathExists(g: Grid, s: Pixel, e: Pixel) returns (P: seq<Pixel>)
    requires IsGrid(g) && InGrid(g, s) && InGrid(g, e)
    ensures IsPath(g, P, s, e)
    decreases Abs(e.x - s.x) + Abs(e.y - s.y)
  {
    if e == s {
      P := [s];
    } else {
      var prev :=
        if e.x < s.x then Pixel(e.x + 1, e.y)
        else if e.x > s.x then Pixel(e.x - 1, e.y)
        else if e.y < s.y then Pixel(e.x, e.y + 1)
        else Pixel(e.x, e.y - 1);
      var Q := PathExists(g, s, prev);
      PathExtend(g, Q, s, prev, e);
      P := Q + [e];
    }
  }

  /** A set of pixels that holds the start of a path and is closed under
      stepping to grid 4-neighbours holds the end of the path. */
  lemma {:induction false} ClosedSetHoldsPathEnd(g: Grid, F: set<Pixel>, P: seq<Pixel>, s: Pixel, e: Pixel)
    requires IsPath(g, P, s, e) && s in F
    requires forall f, n :: f in F && InGrid(g, n) && Adjacent4(f, n) ==> n in F
    ensures e in F
    decreases |P|
  {
    if |P| > 1 {
      PathPrefix(g, P, s, e);
      ClosedSetHoldsPathEnd(g, F, P[..|P| - 1], s, P[|P| - 2]);
    }
  }

  /** The lowest elevation of a path is one of the grid's elevations. */
  lemma PathMinInHeights(g: Grid, P: seq<Pixel>)
    requires IsGrid(g) && |P| > 0 && AllInGrid(g, P)
    ensures PathMin(g, P) in Heights(g)
  {
    var k :| 0 <= k < |P| && At(g, P[k]) == PathMin(g, P);
    HeightInHeights(g, P[k]);
  }

  /** Some path from s to e has lowest elevation v. */
  ghost predicate Attained(g: Grid, s: Pixel, e: Pixel, v: int)
  {
    exists P {:trigger IsPath(g, P, s, e)} :: IsPath(g, P, s, e) && PathMin(g, P) == v
  }

  /** The larger of two optional values. */
  function OptMax(a: Option<int>, b: Option<int>): Option<int>
  {
    if a.None? then b else if b.None? then a else Some(Max(a.value, b.value))
  }

  /** The highest attained elevation among g[y][0..n]. */
  ghost function BestInRow(g: Grid, s: Pixel, e: Pixel, y: nat, n: nat): (r: Option<int>)
    requires IsGrid(g) && y < |g| && n <= Cols(g)
    ensures r.Some? ==> Attained(g, s, e, r.value)
    ensures forall x :: 0 <= x < n && Attained(g, s, e, g[y][x]) ==> r.Some? && g[y][x] <= r.value
  {
    if n == 0 then None
    else OptMax(BestInRow(g, s, e, y, n - 1), if Attained(g, s, e, g[y][n - 1]) then Some(g[y][n - 1]) else None)
  }

  /** The highest attained elevation among the first m rows. */
  ghost function BestInRows(g: Grid, s: Pixel, e: Pixel, m: nat): (r: Option<int>)
    requires IsGrid(g) && m <= |g|
    ensures r.Some? ==> Attained(g, s, e, r.value)
    ensures forall y, x :: 0 <= y < m && 0 <= x < Cols(g) && Attained(g, s, e, g[y][x]) ==>
              r.Some? && g[y][x] <= r.value
  {
    if m == 0 then None else OptMax(BestInRows(g, s, e, m - 1), BestInRow(g, s, e, m - 1, Cols(g)))
  }

  /** Between any two grid pixels there is a bottleneck height: every path
      minimum is a grid elevation, and the highest attained one is never
      exceeded. */
  lemma BottleneckExists(g: Grid, s: Pixel, e: Pixel)
    requires IsGrid(g) && InGrid(g, s) && InGrid(g, e)
    ensures exists v :: IsBottleneck(g, s, e, v)
  {
    var P0 := PathExists(g, s, e);
    var k0 :| 0 <= k0 < |P0| && At(g, P0[k0]) == PathMin(g, P0);
    assert Attained(g, s, e, g[P0[k0].y][P0[k0].x]);
    var best := BestInRows(g, s, e, |g|);
    var m := best.value;
    forall P: seq<Pixel> | IsPath(g, P, s, e)
      ensures PathMin(g, P) <= m
    {
      var k :| 0 <= k < |P| && At(g, P[k]) == PathMin(g, P);
      assert Attained(g, s, e, g[P[k].y][P[k].x]);
    }
    assert IsBottleneck(g, s, e, m);
  }

  /** Two bottleneck heights between the same pixels are equal. */
  lemma BottleneckUnique(g: Grid, s: Pixel, e: Pixel, v1: int, v2: int)
    requires IsBottleneck(g, s, e, v1) && IsBottleneck(g, s, e, v2)
    ensures v1 == v2
  {
    var P1 :| IsPath(g, P1, s, e) && PathMin(g, P1) == v1;
    var P2 :| IsPath(g, P2, s, e) && PathMin(g, P2) == v2;
    assert v1 <= v2 && v2 <= v1;
  }

  /** The saddle height between s and e (the true bottleneck value). */
  ghost function Saddle(g: Grid, s: Pixel, e: Pixel): int
    requires IsGrid(g) && InGrid(g, s) && InGrid(g, e)
  {
    BottleneckExists(g, s, e);
    var v :| IsBottleneck(g, s, e, v); v
  }

  lemma SaddleIsBottleneck(g: Grid, s: Pixel, e: Pixel)
    requires IsGrid(g) && InGrid(g, s) && InGrid(g, e)
    ensures IsBottleneck(g, s, e, Saddle(g, s, e))
  {
    BottleneckExists(g, s, e);
  }

  /** Both endpoints lie on every path, so a bottleneck is at most the lower
      of the two endpoint elevations. */
  lemma BottleneckBelowEndpoints(g: Grid, s: Pixel, e: Pixel, v: int)
    requires IsBottleneck(g, s, e, v)
    ensures InGrid(g, s) && InGrid(g, e)
    ensures v <= At(g, s) && v <= At(g, e)
  {
    var P :| IsPath(g, P, s, e) && PathMin(g, P) == v;
    assert P[0] == s && P[|P| - 1] == e;
  }
}
