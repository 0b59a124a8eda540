/** Local-maximum detection (find_local_maxima): after border masking, a pixel
    is a candidate when it equals scipy's maximum_filter(size=7) at that
    pixel and is not the grid's minimum; np.argwhere lists the candidates in
    row-major (y, x) order. */
module Maxima {
  import opened Raster
  import opened Border

  /** maximum_filter(size=7) looks 3 pixels each way. */
  const Radius: nat := 3

  /** q lies in the 7x7 window centred on p, clipped to the grid. */
  predicate InWindow(g: Grid, p: Pixel, q: Pixel)
  {
    InGrid(g, q) && Abs(q.x - p.x) <= Radius && Abs(q.y - p.y) <= Radius
  }

  /** Largest of row[lo..hi]. */
  function SegmentMax(row: seq<int>, lo: nat, hi: nat): (m: int)
    requires lo < hi <= |row|
    ensures forall x :: lo <= x < hi ==> row[x] <= m
    ensures exists x :: lo <= x < hi && row[x] == m
    decreases hi - lo
  {
    if hi == lo + 1 then row[lo] else Max(SegmentMax(row, lo, hi - 1), row[hi - 1])
  }

  /** Largest window sample in rows lo..hi of the columns around p. */
  function WindowRowsMax(g: Grid, p: Pixel, lo: nat, hi: nat): (m: int)
    requires IsGrid(g) && InGrid(g, p) && lo < hi <= |g|
    requires p.y - Radius <= lo && hi <= p.y + Radius + 1
    ensures forall q :: InWindow(g, p, q) && lo <= q.y < hi ==> At(g, q) <= m
    ensures exists q :: InWindow(g, p, q) && lo <= q.y < hi && At(g, q) == m
    decreases hi - lo
  {
    var xlo := if p.x < Radius then 0 else p.x - Radius;
    var xhi := if p.x + Radius + 1 < Cols(g) then p.x + Radius + 1 else Cols(g);
    var r := SegmentMax(g[hi - 1], xlo, xhi);
    var x :| xlo <= x < xhi && g[hi - 1][x] == r;
    assert InWindow(g, p, Pixel(x, hi - 1)) && At(g, Pixel(x, hi - 1)) == r;
    assert forall q :: InWindow(g, p, q) && q.y == hi - 1 ==> xlo <= q.x < xhi && g[hi - 1][q.x] <= r;
    if hi == lo + 1 then r else Max(WindowRowsMax(g, p, lo, hi - 1), r)
  }

  /** maximum_filter(img, size=7) at p. Its default 'reflect' mode only
      repeats samples that already lie in the clipped window, so the value is
      the maximum over the window clipped to the grid. */
  function WindowMax(g: Grid, p: Pixel): (m: int)
    requires IsGrid(g) && InGrid(g, p)
    ensures forall q :: InWindow(g, p, q) ==> At(g, q) <= m
    ensures exists q :: InWindow(g, p, q) && At(g, q) == m
  {
    var ylo := if p.y < Radius then 0 else p.y - Radius;
    var yhi := if p.y + Radius + 1 < |g| then p.y + Radius + 1 else |g|;
    WindowRowsMax(g, p, ylo, yhi)
  }

  /** local_max == 1 at p: max_out == img_data and img_data != np.min(img_data). */
  predicate IsLocalMax(g: Grid, p: Pixel)
    requires IsGrid(g) && |g| > 0 && Cols(g) > 0
  {
    InGrid(g, p) && At(g, p) == WindowMax(g, p) && At(g, p) != GridMin(g)
  }

  /** Row-major order of np.argwhere: by row, then by column. */
  predicate RowMajorBefore(a: Pixel, b: Pixel)
  {
    a.y < b.y || (a.y == b.y && a.x < b.x)
  }

  predicate RowMajorSorted(ps: seq<Pixel>)
  {
    forall i, j :: 0 <= i < j < |ps| ==> RowMajorBefore(ps[i], ps[j])
  }

  /** A rectangular boolean mask with the grid's shape. */
  predicate IsMask(mask: seq<seq<bool>>, cols: nat)
  {
    forall y :: 0 <= y < |mask| ==> |mask[y]| == cols
  }

  /** The set pixels of row y from column x on. */
  function RowArgWhere(mask: seq<seq<bool>>, cols: nat, y: nat, x: nat): (r: seq<Pixel>)
    requires IsMask(mask, cols) && y < |mask| && x <= cols
    ensures forall k :: 0 <= k < |r| ==> r[k].y == y && x <= r[k].x < cols && mask[y][r[k].x]
    ensures forall x' :: x <= x' < cols && mask[y][x'] ==> Pixel(x', y) in r
    ensures RowMajorSorted(r)
    decreases cols - x
  {
    if x == cols then []
    else
      var rest := RowArgWhere(mask, cols, y, x + 1);
      if mask[y][x] then
        var r := [Pixel(x, y)] + rest;
        assert forall k :: 0 < k < |r| ==> r[k] == rest[k - 1];
        r
      else rest
  }

  /** The set pixels of rows y and below, in row-major order. */
  function ArgWhereFrom(mask: seq<seq<bool>>, cols: nat, y: nat): (r: seq<Pixel>)
    requires IsMask(mask, cols) && y <= |mask|
    ensures forall k :: 0 <= k < |r| ==> y <= r[k].y < |mask| && 0 <= r[k].x < cols && mask[r[k].y][r[k].x]
    ensures forall y', x' :: y <= y' < |mask| && 0 <= x' < cols && mask[y'][x'] ==> Pixel(x', y') in r
    ensures RowMajorSorted(r)
    decreases |mask| - y
  {
    if y == |mask| then []
    else
      var row := RowArgWhere(mask, cols, y, 0);
      var rest := ArgWhereFrom(mask, cols, y + 1);
      assert forall i, j :: 0 <= i < |row| && 0 <= j < |rest| ==> RowMajorBefore(row[i], rest[j]);
      row + rest
  }

  /** np.argwhere(mask): every set pixel, each once, in row-major order. */
  function ArgWhere(mask: seq<seq<bool>>, cols: nat): (r: seq<Pixel>)
    requires IsMask(mask, cols)
    ensures forall k :: 0 <= k < |r| ==> 0 <= r[k].y < |mask| && 0 <= r[k].x < cols && mask[r[k].y][r[k].x]
    ensures forall y, x :: 0 <= y < |mask| && 0 <= x < cols && mask[y][x] ==> Pixel(x, y) in r
    ensures RowMajorSorted(r)
  {
    ArgWhereFrom(mask, cols, 0)
  }

  /** The array local_max: 1 where max_out == img_data, cleared where
      img_data == np.min(img_data). */
  function LocalMaxMask(g: Grid): (mask: seq<seq<bool>>)
    requires IsGrid(g) && |g| > 0 && Cols(g) > 0
    ensures |mask| == |g| && IsMask(mask, Cols(g))
    ensures forall y, x :: 0 <= y < |g| && 0 <= x < Cols(g) ==> mask[y][x] == IsLocalMax(g, Pixel(x, y))
  {
    var m := GridMin(g);
    seq(|g|, y requires 0 <= y < |g| =>
      seq(Cols(g), x requires 0 <= x < Cols(g) =>
        g[y][x] == WindowMax(g, Pixel(x, y)) && g[y][x] != m))
  }

  /** np.argwhere(local_max == 1): exactly the local maxima, each once, in
      row-major order. */
  function LocalMaxima(g: Grid): (r: seq<Pixel>)
    requires IsGrid(g) && |g| > 0 && Cols(g) > 0
    ensures forall k :: 0 <= k < |r| ==> IsLocalMax(g, r[k])
    ensures forall p :: IsLocalMax(g, p) ==> p in r
    ensures RowMajorSorted(r)
  {
    var mask := LocalMaxMask(g);
    var r := ArgWhere(mask, Cols(g));
    MaskListing(g, mask, r);
    r
  }

  /** A listing of the set cells of a mask that marks exactly the local
      maxima lists exactly the local maxima. */
  lemma MaskListing(g: Grid, mask: seq<seq<bool>>, r: seq<Pixel>)
    requires IsGrid(g) && |g| > 0 && Cols(g) > 0 && |mask| == |g| && IsMask(mask, Cols(g))
    requires forall y, x :: 0 <= y < |g| && 0 <= x < Cols(g) ==> mask[y][x] == IsLocalMax(g, Pixel(x, y))
    requires forall k :: 0 <= k < |r| ==> 0 <= r[k].y < |mask| && 0 <= r[k].x < Cols(g) && mask[r[k].y][r[k].x]
    requires forall y, x :: 0 <= y < |mask| && 0 <= x < Cols(g) && mask[y][x] ==> Pixel(x, y) in r
    ensures forall k :: 0 <= k < |r| ==> IsLocalMax(g, r[k])
    ensures forall p :: IsLocalMax(g, p) ==> p in r
  {
    forall k | 0 <= k < |r|
      ensures IsLocalMax(g, r[k])
    {
      var p := r[k];
      assert mask[p.y][p.x] == IsLocalMax(g, Pixel(p.x, p.y));
    }
    forall p | IsLocalMax(g, p)
      ensures p in r
    {
      assert mask[p.y][p.x];
    }
  }

  /** find_local_maxima: masks the caller's grid in place, then lists the
      local maxima of the masked grid. */
  method FindLocalMaxima(img: array2<int>, borderWidth: nat) returns (cands: seq<Pixel>)
    requires img.Length0 > 0 && img.Length1 > 0
    modifies img
    ensures ToGrid(img) == MaskBorder(old(ToGrid(img)), borderWidth)
    ensures cands == LocalMaxima(ToGrid(img))
  {
    SetImageBordersToZero(img, borderWidth);
    cands := LocalMaxima(ToGrid(img));
  }

  /** A candidate is as high as every sample of its clipped 7x7 window and is
      not the grid minimum; conversely such a pixel is a candidate. */
  lemma LocalMaxCharacterized(g: Grid, p: Pixel)
    requires IsGrid(g) && |g| > 0 && Cols(g) > 0
    ensures IsLocalMax(g, p) <==>
      (InGrid(g, p) && (forall q :: InWindow(g, p, q) ==> At(g, q) <= At(g, p)) && At(g, p) != GridMin(g))
  {
    if InGrid(g, p) {
      assert InWindow(g, p, p);
    }
  }

  /** A perfectly flat grid has no candidates: every cell is the minimum. */
  lemma FlatGridHasNoCandidates(g: Grid, h: int)
    requires IsGrid(g) && |g| > 0 && Cols(g) > 0
    requires forall p :: InGrid(g, p) ==> At(g, p) == h
    ensures LocalMaxima(g) == []
  {
    var r := LocalMaxima(g);
    assert |r| > 0 ==> IsLocalMax(g, r[0]);
  }

  /** With a non-negative grid and a border of width at least 1, no frame cell
      of the masked grid is a candidate: the frame holds 0, which is then the
      grid minimum. */
  lemma FrameCellsAreNotCandidates(g: Grid, w: nat)
    requires IsGrid(g) && |g| > 0 && Cols(g) > 0 && w >= 1
    requires forall p :: InGrid(g, p) ==> At(g, p) >= 0
    ensures var m := MaskBorder(g, w);
      forall k :: 0 <= k < |LocalMaxima(m)| ==>
        !InFrame(|g|, Cols(g), w, LocalMaxima(m)[k].y, LocalMaxima(m)[k].x)
  {
    var m := MaskBorder(g, w);
    assert At(m, Pixel(0, 0)) == 0;
    forall p | InGrid(m, p)
      ensures At(m, p) >= 0
    {
      assert At(m, p) == if InFrame(|g|, Cols(g), w, p.y, p.x) then 0 else At(g, p);
    }
    assert GridMin(m) == 0;
  }

  /** Below zero the masked frame stands above the interior, and every
      frame pixel becomes a candidate (on a 3 x 3 grid of -1 with a border
      of width 1, all eight frame pixels are). */
  lemma NegativeTerrainFrameCandidates(g: Grid, w: nat)
    requires IsGrid(g) && w >= 1 && |g| > 2 * w && Cols(g) > 2 * w
    requires forall p :: InGrid(g, p) ==> At(g, p) < 0
    ensures var m := MaskBorder(g, w);
      forall p :: InGrid(m, p) && InFrame(|g|, Cols(g), w, p.y, p.x) ==> IsLocalMax(m, p)
  {
    var m := MaskBorder(g, w);
    var inner := Pixel(w, w);
    assert !InFrame(|g|, Cols(g), w, inner.y, inner.x) && At(m, inner) == At(g, inner);
    assert GridMin(m) < 0;
    forall q | InGrid(m, q)
      ensures At(m, q) <= 0
    {
      assert At(g, q) < 0;
    }
    forall p | InGrid(m, p) && InFrame(|g|, Cols(g), w, p.y, p.x)
      ensures IsLocalMax(m, p)
    {
      assert At(m, p) == 0;
      assert InWindow(m, p, p);
    }
  }

  /** The smallest instance: a 3 x 3 grid of -1 with a border of width 1. */
  lemma NegativeTerrainExample()
    ensures var g := [[-1, -1, -1], [-1, -1, -1], [-1, -1, -1]];
      IsGrid(g) && IsLocalMax(MaskBorder(g, 1), Pixel(0, 0))
  {
    var g := [[-1, -1, -1], [-1, -1, -1], [-1, -1, -1]];
    assert IsGrid(g) && |g| == 3 && Cols(g) == 3;
    forall p | InGrid(g, p)
      ensures At(g, p) < 0
    {
      assert g[p.y] == [-1, -1, -1];
    }
    NegativeTerrainFrameCandidates(g, 1);
    assert InGrid(MaskBorder(g, 1), Pixel(0, 0)) && InFrame(3, 3, 1, 0, 0);
  }
}
