/** compute_nearest_higher: for every candidate peak, the index of the
    nearest candidate that is strictly higher, or -1. Distances are compared
    squared and exactly; the starting bar min_d = 1e12 becomes 10^24. */
module Nearest {
  import opened Raster

  /** (1e12)^2: a candidate must be nearer than min_d's starting value. */
  const Sentinel2: nat := 1_000_000_000_000_000_000_000_000

  /** Squared distance between candidates i and j. */
  function D2(coords: seq<Pixel>, i: nat, j: nat): nat
    requires i < |coords| && j < |coords|
  {
    Dist2(coords[i], coords[j])
  }

  /** Candidate j can be chosen for i: strictly higher and nearer than the
      starting bar. */
  predicate Higher(coords: seq<Pixel>, heights: seq<int>, i: nat, j: nat)
    requires |coords| == |heights| && i < |coords| && j < |coords|
  {
    heights[j] > heights[i] && D2(coords, i, j) < Sentinel2
  }

  /** r is the answer for i among candidates 0..m-1: -1 when none of them can
      be chosen; otherwise one that can, at least as near as every other and
      strictly nearer than every earlier one (the smallest index wins ties). */
  predicate IsNearestWithin(coords: seq<Pixel>, heights: seq<int>, i: nat, m: nat, r: int)
    requires |coords| == |heights| && i < |coords| && m <= |coords|
  {
    if r == -1 then
      forall j :: 0 <= j < m ==> !Higher(coords, heights, i, j)
    else
      0 <= r < m && Higher(coords, heights, i, r) &&
      forall j :: 0 <= j < m && Higher(coords, heights, i, j) ==>
        D2(coords, i, r) <= D2(coords, i, j) && (j < r ==> D2(coords, i, r) < D2(coords, i, j))
  }

  /** The answer for i among all candidates. */
  predicate IsNearestHigher(coords: seq<Pixel>, heights: seq<int>, i: nat, r: int)
    requires |coords| == |heights| && i < |coords|
  {
    IsNearestWithin(coords, heights, i, |coords|, r)
  }

  /** A reference definition: scan the candidates 0..m-1 one at a time,
      keeping the first nearest strictly higher one. */
  function NearestWithin(coords: seq<Pixel>, heights: seq<int>, i: nat, m: nat): (r: int)
    requires |coords| == |heights| && i < |coords| && m <= |coords|
    ensures -1 <= r < m
  {
    if m == 0 then -1
    else
      var r := NearestWithin(coords, heights, i, m - 1);
      if Higher(coords, heights, i, m - 1) && (r == -1 || D2(coords, i, m - 1) < D2(coords, i, r)) then m - 1
      else r
  }

  /** The scan meets the characterization. */
  lemma {:induction false} NearestWithinCorrect(coords: seq<Pixel>, heights: seq<int>, i: nat, m: nat)
    requires |coords| == |heights| && i < |coords| && m <= |coords|
    ensures IsNearestWithin(coords, heights, i, m, NearestWithin(coords, heights, i, m))
  {
    if m > 0 {
      NearestWithinCorrect(coords, heights, i, m - 1);
    }
  }

  /** The nearest strictly higher candidate of i, or -1. */
  function NearestHigher(coords: seq<Pixel>, heights: seq<int>, i: nat): (r: int)
    requires |coords| == |heights| && i < |coords|
    ensures -1 <= r < |coords|
  {
    NearestWithin(coords, heights, i, |coords|)
  }

  lemma NearestHigherCorrect(coords: seq<Pixel>, heights: seq<int>, i: nat)
    requires |coords| == |heights| && i < |coords|
    ensures IsNearestHigher(coords, heights, i, NearestHigher(coords, heights, i))
  {
    NearestWithinCorrect(coords, heights, i, |coords|);
  }

  /** The characterization leaves no choice. */
  lemma NearestUnique(coords: seq<Pixel>, heights: seq<int>, i: nat, m: nat, r1: int, r2: int)
    requires |coords| == |heights| && i < |coords| && m <= |coords|
    requires IsNearestWithin(coords, heights, i, m, r1) && IsNearestWithin(coords, heights, i, m, r2)
    ensures r1 == r2
  {
    if r1 != -1 && r2 != -1 {
      assert D2(coords, i, r1) <= D2(coords, i, r2) && D2(coords, i, r2) <= D2(coords, i, r1);
    }
  }

  /** compute_nearest_higher(coords, heights): the double loop. */
  method ComputeNearestHigher(coords: seq<Pixel>, heights: seq<int>) returns (nearest: seq<int>)
    requires |coords| == |heights|
    ensures |nearest| == |coords|
    ensures forall i :: 0 <= i < |coords| ==> IsNearestHigher(coords, heights, i, nearest[i])
  {
    var n := |coords|;
    nearest := seq(n, _ => -1);
    for i := 0 to n
      invariant |nearest| == n
      invariant forall i' :: 0 <= i' < i ==> IsNearestHigher(coords, heights, i', nearest[i'])
    {
      var xi, yi := coords[i].x, coords[i].y;
      var hi := heights[i];
      var minD: nat := Sentinel2;
      var best := -1;
      for j := 0 to n
        invariant IsNearestWithin(coords, heights, i, j, best)
        invariant best == -1 ==> minD == Sentinel2
        invariant best != -1 ==> 0 <= best < n && minD == D2(coords, i, best)
      {
        var hj := heights[j];
        if hj > hi {
          var dx := xi - coords[j].x;
          var dy := yi - coords[j].y;
          var d := dx * dx + dy * dy;
          if d < minD {
            minD := d;
            best := j;
          }
        }
      }
      nearest := nearest[i := best];
    }
  }

  /** The largest coordinate for which the starting bar can never bite:
      two such pixels are less than 1e12 apart. */
  const CoordBound: nat := 100_000_000_000

  /** Within that range -1 means exactly that no candidate is strictly
      higher (the highest peak, and its equals), and otherwise the answer is
      strictly higher. */
  lemma NoneHigherIffMinusOne(coords: seq<Pixel>, heights: seq<int>, i: nat)
    requires |coords| == |heights| && i < |coords|
    requires forall k :: 0 <= k < |coords| ==> 0 <= coords[k].x <= CoordBound && 0 <= coords[k].y <= CoordBound
    ensures NearestHigher(coords, heights, i) == -1 <==> forall j :: 0 <= j < |coords| ==> heights[j] <= heights[i]
    ensures NearestHigher(coords, heights, i) != -1 ==> heights[NearestHigher(coords, heights, i)] > heights[i]
  {
    NearestHigherCorrect(coords, heights, i);
    forall j | 0 <= j < |coords|
      ensures Higher(coords, heights, i, j) == (heights[j] > heights[i])
    {
      SquareBound(coords[i].x - coords[j].x, CoordBound);
      SquareBound(coords[i].y - coords[j].y, CoordBound);
      assert CoordBound * CoordBound + CoordBound * CoordBound < Sentinel2;
    }
  }
}
