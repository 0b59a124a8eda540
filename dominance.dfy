/** calculate_dominance_distance and calculate_orographic_dominance. The
    dominance of a peak at p is the Euclidean distance to the nearest other
    pixel of the grid at least as high as p (the distance transform of the
    mask "lower than p, or p itself", read at p). Distances are kept squared,
    so comparing them with a threshold is exact. */
module Dominance {
  import opened Raster

  /** q limits the dominance of p: another grid pixel at least as high. */
  predicate Dominates(g: Grid, p: Pixel, q: Pixel)
    requires IsGrid(g) && InGrid(g, p)
  {
    InGrid(g, q) && q != p && At(g, q) >= At(g, p)
  }

  /** The smaller of two optional distances. */
  function OptMin(a: Option<nat>, b: Option<nat>): (r: Option<nat>)
    ensures r == None <==> a == None && b == None
    ensures r.Some? ==> (r == a || r == b) && (a.Some? ==> r.value <= a.value) && (b.Some? ==> r.value <= b.value)
  {
    match a
    case None => b
    case Some(u) =>
      match b
      case None => a
      case Some(v) => if u <= v then a else b
  }

  /** The squared distance from p to q if q limits p. */
  function Candidate(g: Grid, p: Pixel, q: Pixel): Option<nat>
    requires IsGrid(g) && InGrid(g, p) && InGrid(g, q)
  {
    if q != p && At(g, q) >= At(g, p) then Some(Dist2(p, q)) else None
  }

  /** The nearest limiting pixel among columns 0..x-1 of row y. */
  function RowNearest(g: Grid, p: Pixel, y: nat, x: nat): Option<nat>
    requires IsGrid(g) && InGrid(g, p) && y < |g| && x <= Cols(g)
  {
    if x == 0 then None
    else OptMin(RowNearest(g, p, y, x - 1), Candidate(g, p, Pixel(x - 1, y)))
  }

  /** The nearest limiting pixel among rows 0..n-1. */
  function RowsNearest(g: Grid, p: Pixel, n: nat): Option<nat>
    requires IsGrid(g) && InGrid(g, p) && n <= |g|
  {
    if n == 0 then None
    else OptMin(RowsNearest(g, p, n - 1), RowNearest(g, p, n - 1, Cols(g)))
  }

  /** calculate_dominance_distance(peak_xy, height_map), squared: None when
      no other pixel is at least as high. */
  function DominanceDistance(g: Grid, p: Pixel): (r: Option<nat>)
    requires IsGrid(g) && InGrid(g, p)
  {
    RowsNearest(g, p, |g|)
  }

  /** The part of the grid a scan has covered: rows 0..n-1, or columns
      0..x-1 of row y. */
  datatype Region = Rows(n: nat) | RowPart(y: nat, x: nat)

  predicate InRegion(q: Pixel, reg: Region)
  {
    match reg
    case Rows(n) => 0 <= q.y < n
    case RowPart(y, x) => q.y == y && 0 <= q.x < x
  }

  /** r is the nearest limiting distance among the pixels of reg. */
  ghost predicate IsNearestIn(g: Grid, p: Pixel, r: Option<nat>, reg: Region)
    requires IsGrid(g) && InGrid(g, p)
  {
    match r
    case None => forall q :: InRegion(q, reg) ==> !Dominates(g, p, q)
    case Some(d) =>
      (exists q :: InRegion(q, reg) && Dominates(g, p, q) && Dist2(p, q) == d) &&
      (forall q :: InRegion(q, reg) && Dominates(g, p, q) ==> d <= Dist2(p, q))
  }

  /** The row scan finds the nearest limiting pixel of its part of the row. */
  lemma {:induction false} RowNearestCorrect(g: Grid, p: Pixel, y: nat, x: nat)
    requires IsGrid(g) && InGrid(g, p) && y < |g| && x <= Cols(g)
    ensures IsNearestIn(g, p, RowNearest(g, p, y, x), RowPart(y, x))
  {
    if x > 0 {
      RowNearestCorrect(g, p, y, x - 1);
      var q := Pixel(x - 1, y);
      var front := RowNearest(g, p, y, x - 1);
      var r := RowNearest(g, p, y, x);
      assert Candidate(g, p, q).Some? <==> Dominates(g, p, q);
      if r.Some? {
        if r == Candidate(g, p, q) {
          assert q.y == y && 0 <= q.x < x && Dominates(g, p, q) && Dist2(p, q) == r.value;
        } else {
          var w :| InRegion(w, RowPart(y, x - 1)) && Dominates(g, p, w) && Dist2(p, w) == front.value;
          assert w.y == y && 0 <= w.x < x;
        }
      }
    }
  }

  /** The scan over rows finds the nearest limiting pixel of its rows. */
  lemma {:induction false} RowsNearestCorrect(g: Grid, p: Pixel, n: nat)
    requires IsGrid(g) && InGrid(g, p) && n <= |g|
    ensures IsNearestIn(g, p, RowsNearest(g, p, n), Rows(n))
  {
    if n > 0 {
      RowsNearestCorrect(g, p, n - 1);
      RowNearestCorrect(g, p, n - 1, Cols(g));
      var front := RowsNearest(g, p, n - 1);
      var row := RowNearest(g, p, n - 1, Cols(g));
      var r := RowsNearest(g, p, n);
      if r.Some? {
        if r == row {
          var w :| InRegion(w, RowPart(n - 1, Cols(g))) && Dominates(g, p, w) && Dist2(p, w) == row.value;
          assert 0 <= w.y < n;
        } else {
          var w :| InRegion(w, Rows(n - 1)) && Dominates(g, p, w) && Dist2(p, w) == front.value;
          assert 0 <= w.y < n;
        }
      }
      forall q: Pixel | 0 <= q.y < n && Dominates(g, p, q)
        ensures r.Some? && r.value <= Dist2(p, q)
      {
        if q.y < n - 1 {
          assert InRegion(q, Rows(n - 1));
        } else {
          assert InRegion(q, RowPart(n - 1, Cols(g)));
        }
      }
    }
  }

  /** The dominance distance is the squared distance to the nearest other
      pixel at least as high, and None exactly when there is none. */
  lemma DominanceDistanceCorrect(g: Grid, p: Pixel)
    requires IsGrid(g) && InGrid(g, p)
    ensures DominanceDistance(g, p) == None <==> forall q :: !Dominates(g, p, q)
    ensures DominanceDistance(g, p).Some? ==>
              (exists q :: Dominates(g, p, q) && Dist2(p, q) == DominanceDistance(g, p).value) &&
              (forall q :: Dominates(g, p, q) ==> DominanceDistance(g, p).value <= Dist2(p, q))
  {
    RowsNearestCorrect(g, p, |g|);
    var r := DominanceDistance(g, p);
    assert forall q :: Dominates(g, p, q) ==> InRegion(q, Rows(|g|));
    if r.Some? {
      var w :| InRegion(w, Rows(|g|)) && Dominates(g, p, w) && Dist2(p, w) == r.value;
    }
  }

  /** A peak's dominance: infinite, or a distance kept squared. */
  datatype Dominance = Infinite | Distance(d2: nat)

  /** dominance >= dominance_threshold_val: infinity passes every threshold,
      and a distance sqrt(d2) passes t when t <= 0 or d2 >= t^2. */
  predicate Meets(d: Dominance, t: real)
  {
    d.Infinite? || t <= 0.0 || d.d2 as real >= t * t
  }

  /** calculate_orographic_dominance(peak_height, prominence): 0 for height 0,
      otherwise the prominence as a percentage of the height. */
  function OrographicDominance(h: int, prom: int): (r: real)
    ensures h == 0 ==> r == 0.0
    ensures h != 0 ==> r * (h as real) == 100.0 * (prom as real)
  {
    if h == 0 then 0.0 else (prom as real / h as real) * 100.0
  }

  /** For a prominence between 0 and a positive height the orographic
      dominance is a percentage: between 0 and 100, and 100 exactly when the
      prominence is the whole height. */
  lemma OrographicIsPercentage(h: int, prom: int)
    requires 0 <= prom <= h && h > 0
    ensures 0.0 <= OrographicDominance(h, prom) <= 100.0
    ensures OrographicDominance(h, prom) == 100.0 <==> prom == h
  {
    var hr, pr := h as real, prom as real;
    var q := pr / hr;
    assert q * hr == pr;
    assert q < 0.0 ==> q * hr < 0.0;
    assert q > 1.0 ==> q * hr > 1.0 * hr;
    if prom == h {
      RealCancel(q, 1.0, hr);
    }
  }

  /** A positive factor cancels. */
  lemma RealCancel(a: real, b: real, c: real)
    requires c > 0.0 && a * c == b * c
    ensures a == b
  {
    assert (a - b) * c == 0.0;
  }
}
