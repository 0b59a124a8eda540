/** Border masking: set_image_borders_to_zero writes 0 into a frame of the
    given width around the grid, in place, through four numpy slice
    assignments. */
module Border {
  import opened Raster

  /** First index selected by the Python slice a[-w:] on an axis of length
      n. For w == 0 the slice is a[0:], the whole axis. */
  function TailStart(n: nat, w: nat): (t: nat)
    ensures t <= n
  {
    if w == 0 then 0 else if n <= w then 0 else n - w
  }

  /** Cell (y, x) is written by one of img[:w, :], img[-w:, :], img[:, :w]
      or img[:, -w:].  */
  predicate InFrame(rows: nat, cols: nat, w: nat, y: int, x: int)
  {
    y < w || y >= TailStart(rows, w) || x < w || x >= TailStart(cols, w)
  }

  /** The value-level result of masking: frame cells 0, all others kept. */
  function MaskBorder(g: Grid, w: nat): (r: Grid)
    requires IsGrid(g)
    ensures IsGrid(r) && |r| == |g| && Cols(r) == Cols(g)
  {
    seq(|g|, y requires 0 <= y < |g| =>
      seq(Cols(g), x requires 0 <= x < Cols(g) =>
        if InFrame(|g|, Cols(g), w, y, x) then 0 else g[y][x]))
  }

  /** img[lo:hi, :] = 0 */
  method ZeroRows(img: array2<int>, lo: nat, hi: nat)
    requires lo <= hi <= img.Length0
    modifies img
    ensures forall y, x :: 0 <= y < img.Length0 && 0 <= x < img.Length1 ==>
              img[y, x] == if lo <= y < hi then 0 else old(img[y, x])
  {
    var y := lo;
    while y < hi
      invariant lo <= y <= hi
      invariant forall y', x :: 0 <= y' < img.Length0 && 0 <= x < img.Length1 ==>
                  img[y', x] == if lo <= y' < y then 0 else old(img[y', x])
    {
      var x := 0;
      while x < img.Length1
        invariant 0 <= x <= img.Length1
        invariant forall y', x' :: 0 <= y' < img.Length0 && 0 <= x' < img.Length1 ==>
                    img[y', x'] == if lo <= y' < y || (y' == y && x' < x) then 0 else old(img[y', x'])
      {
        img[y, x] := 0;
        x := x + 1;
      }
      y := y + 1;
    }
  }

  /** img[:, lo:hi] = 0 */
  method ZeroCols(img: array2<int>, lo: nat, hi: nat)
    requires lo <= hi <= img.Length1
    modifies img
    ensures forall y, x :: 0 <= y < img.Length0 && 0 <= x < img.Length1 ==>
              img[y, x] == if lo <= x < hi then 0 else old(img[y, x])
  {
    var y := 0;
    while y < img.Length0
      invariant 0 <= y <= img.Length0
      invariant forall y', x :: 0 <= y' < img.Length0 && 0 <= x < img.Length1 ==>
                  img[y', x] == if y' < y && lo <= x < hi then 0 else old(img[y', x])
    {
      var x := lo;
      while x < hi
        invariant lo <= x <= hi
        invariant forall y', x' :: 0 <= y' < img.Length0 && 0 <= x' < img.Length1 ==>
                    img[y', x'] == if (y' < y || (y' == y && x' < x)) && lo <= x' < hi then 0 else old(img[y', x'])
      {
        img[y, x] := 0;
        x := x + 1;
      }
      y := y + 1;
    }
  }

  /** set_image_borders_to_zero: the frame of width w becomes 0 in place and
      every other cell keeps its value. */
  method SetImageBordersToZero(img: array2<int>, w: nat)
    modifies img
    ensures forall y, x :: 0 <= y < img.Length0 && 0 <= x < img.Length1 ==>
              img[y, x] == if InFrame(img.Length0, img.Length1, w, y, x) then 0 else old(img[y, x])
    ensures ToGrid(img) == MaskBorder(old(ToGrid(img)), w)
  {
    var rows, cols := img.Length0, img.Length1;
    ZeroRows(img, 0, if w < rows then w else rows);
    ZeroRows(img, TailStart(rows, w), rows);
    ZeroCols(img, 0, if w < cols then w else cols);
    ZeroCols(img, TailStart(cols, w), cols);
    ghost var g0 := old(ToGrid(img));
    ghost var g1 := ToGrid(img);
    assert rows > 0 ==> Cols(g0) == cols;
    assert forall y :: 0 <= y < rows ==> g1[y] == MaskBorder(g0, w)[y];
  }

  /** With w >= 1 the frame is exactly the cells within w of an edge. */
  lemma FrameOfPositiveWidth(rows: nat, cols: nat, w: nat, y: int, x: int)
    requires w >= 1
    ensures InFrame(rows, cols, w, y, x) <==> (y < w || y >= rows - w || x < w || x >= cols - w)
  {
  }

  /** Width 0 selects img[-0:, :], the whole grid: every cell becomes 0. */
  lemma ZeroWidthClearsGrid(g: Grid)
    requires IsGrid(g)
    ensures forall y, x :: 0 <= y < |g| && 0 <= x < Cols(g) ==> MaskBorder(g, 0)[y][x] == 0
  {
  }

  /** Masking twice with the same width changes nothing further. */
  lemma MaskIdempotent(g: Grid, w: nat)
    requires IsGrid(g)
    ensures MaskBorder(MaskBorder(g, w), w) == MaskBorder(g, w)
  {
    var m := MaskBorder(g, w);
    assert forall y :: 0 <= y < |g| ==> MaskBorder(m, w)[y] == m[y];
  }
}
