/** get_path_between_points: a digital straight line between two pixels, as
    skimage.draw.line draws it. The exact pixel choice of the library is not
    part of this model; LinePath is one rounded digital line that meets the
    same contract: it starts and ends at the given pixels, has
    max(|dx|, |dy|) + 1 pixels, moves by at most one row and one column per
    step and stays inside the bounding box of its endpoints. */
module Line {
  import opened Raster

  /** Number of steps of the line: the larger coordinate difference. */
  function Steps(p1: Pixel, p2: Pixel): nat
  {
    Max(Abs(p2.x - p1.x), Abs(p2.y - p1.y))
  }

  /** a + k * (b - a) / n, rounded half up. */
  function Lerp(a: int, b: int, k: nat, n: nat): int
    requires n > 0
  {
    a + (2 * k * (b - a) + n) / (2 * n)
  }

  /** Pixel k of the n-step line from p1 to p2. */
  function LinePoint(p1: Pixel, p2: Pixel, k: nat, n: nat): Pixel
    requires n > 0
  {
    Pixel(Lerp(p1.x, p2.x, k, n), Lerp(p1.y, p2.y, k, n))
  }

  /** The pixels point(k), ..., point(n). */
  function LineFrom(point: nat -> Pixel, k: nat, n: nat): (r: seq<Pixel>)
    requires k <= n + 1
    ensures |r| == n + 1 - k
    decreases n + 1 - k
  {
    if k == n + 1 then [] else [point(k)] + LineFrom(point, k + 1, n)
  }

  /** The pixels of the line from p1 to p2. */
  function LinePath(p1: Pixel, p2: Pixel): (r: seq<Pixel>)
    ensures |r| == Steps(p1, p2) + 1
  {
    var n := Steps(p1, p2);
    if n == 0 then [p1] else LineFrom((k: nat) => LinePoint(p1, p2, k, n), 0, n)
  }

  /** Element i of LineFrom(point, k, n) is point(k + i). */
  lemma {:induction false} LineFromAt(point: nat -> Pixel, k: nat, n: nat)
    requires k <= n + 1
    ensures forall i :: 0 <= i < n + 1 - k ==> LineFrom(point, k, n)[i] == point(k + i)
    decreases n + 1 - k
  {
    if k <= n {
      var rest := LineFrom(point, k + 1, n);
      LineFromAt(point, k + 1, n);
      assert LineFrom(point, k, n) == [point(k)] + rest;
      forall i | 1 <= i < n + 1 - k
        ensures LineFrom(point, k, n)[i] == point(k + i)
      {
        assert LineFrom(point, k, n)[i] == rest[i - 1];
        assert k + 1 + (i - 1) == k + i;
      }
    }
  }

  /** A non-zero multiple of d > 0 is at least d away from 0. */
  lemma MulBound(d: int, t: int)
    requires d > 0
    ensures t >= 1 ==> d * t >= d
    ensures t <= -1 ==> d * t <= -d
  {
    if t >= 0 {
      MulNat(d, t);
    } else {
      MulNat(d, -t);
      assert d * t == -(d * (-t));
    }
  }

  /** m / d == q exactly when d * q <= m < d * q + d. */
  lemma DivIs(m: int, d: int, q: int)
    requires d > 0 && d * q <= m < d * q + d
    ensures m / d == q
  {
    var q', r' := m / d, m % d;
    assert m == d * q' + r' && 0 <= r' < d;
    MulBound(d, q - q');
    assert d * (q - q') == d * q - d * q';
  }

  /** Flooring division is monotone. */
  lemma DivMonotone(a: int, b: int, d: int)
    requires a <= b && d > 0
    ensures a / d <= b / d
  {
    var qa, qb := a / d, b / d;
    assert a == d * qa + a % d && b == d * qb + b % d;
    MulBound(d, qa - qb);
    assert d * (qa - qb) == d * qa - d * qb;
  }

  /** Adding d to the numerator adds one to the quotient. */
  lemma DivShift(a: int, d: int)
    requires d > 0
    ensures (a + d) / d == a / d + 1
  {
    var q := a / d;
    assert a == d * q + a % d;
    assert d * (q + 1) == d * q + d;
    DivIs(a + d, d, q + 1);
  }

  /** Quotients of numerators at most d apart differ by at most one. */
  lemma DivClose(a: int, b: int, d: int)
    requires a <= b <= a + d && d > 0
    ensures a / d <= b / d <= a / d + 1
  {
    DivMonotone(a, b, d);
    DivMonotone(b, a + d, d);
    DivShift(a, d);
  }

  /** One more step adds 2c to the numerator of Lerp. */
  lemma NumeratorStep(k: int, c: int)
    ensures 2 * (k + 1) * c == 2 * k * c + 2 * c
  {
  }

  /** The rounded coordinate moves by at most one per step. */
  lemma LerpStep(a: int, b: int, k: nat, n: nat)
    requires n > 0 && k < n && Abs(b - a) <= n
    ensures Abs(Lerp(a, b, k + 1, n) - Lerp(a, b, k, n)) <= 1
  {
    var c, d := b - a, 2 * n;
    var u := 2 * k * c + n;
    var v := 2 * (k + 1) * c + n;
    NumeratorStep(k, c);
    assert v == u + 2 * c;
    if c >= 0 {
      DivClose(u, v, d);
    } else {
      DivClose(v, u, d);
    }
    assert Lerp(a, b, k, n) == a + u / d && Lerp(a, b, k + 1, n) == a + v / d;
  }

  /** 0 <= 2k * c <= 2n * c for c >= 0 and k <= n. */
  lemma ScaledBetween(c: int, k: nat, n: nat)
    requires c >= 0 && k <= n
    ensures 0 <= 2 * k * c <= 2 * n * c
  {
    MulMonotone(c, 0, 2 * k);
    MulMonotone(c, 2 * k, 2 * n);
    assert 2 * k * c == c * (2 * k) && 2 * n * c == c * (2 * n);
  }

  /** Lerp upward or downward: the rounded value lies between the ends. */
  lemma LerpUp(a: int, b: int, k: nat, n: nat)
    requires n > 0 && k <= n && a <= b
    ensures a <= Lerp(a, b, k, n) <= b
  {
    LerpEnds(a, b, n);
    ScaledBetween(b - a, k, n);
    DivMonotone(n, 2 * k * (b - a) + n, 2 * n);
    DivMonotone(2 * k * (b - a) + n, 2 * n * (b - a) + n, 2 * n);
  }

  lemma LerpDown(a: int, b: int, k: nat, n: nat)
    requires n > 0 && k <= n && b < a
    ensures b <= Lerp(a, b, k, n) <= a
  {
    LerpEnds(a, b, n);
    ScaledBetween(a - b, k, n);
    assert 2 * k * (b - a) == -(2 * k * (a - b)) && 2 * n * (b - a) == -(2 * n * (a - b));
    DivMonotone(2 * k * (b - a) + n, n, 2 * n);
    DivMonotone(2 * n * (b - a) + n, 2 * k * (b - a) + n, 2 * n);
  }

  /** The rounded coordinate stays between a and b. */
  lemma LerpBetween(a: int, b: int, k: nat, n: nat)
    requires n > 0 && k <= n
    ensures Min(a, b) <= Lerp(a, b, k, n) <= Max(a, b)
  {
    if a <= b {
      LerpUp(a, b, k, n);
    } else {
      LerpDown(a, b, k, n);
    }
  }

  /** The endpoints are exact. */
  lemma LerpEnds(a: int, b: int, n: nat)
    requires n > 0
    ensures Lerp(a, b, 0, n) == a && Lerp(a, b, n, n) == b
  {
    DivIs(n, 2 * n, 0);
    DivIs(2 * n * (b - a) + n, 2 * n, b - a);
  }

  /** The contract of the line: from p1 to p2, 8-connected steps, inside
      the bounding box (so on the grid whenever both endpoints are). */
  lemma LinePathIsLine(p1: Pixel, p2: Pixel)
    ensures var r := LinePath(p1, p2);
      r[0] == p1 && r[|r| - 1] == p2 &&
      (forall k :: 0 <= k < |r| - 1 ==> Abs(r[k + 1].x - r[k].x) <= 1 && Abs(r[k + 1].y - r[k].y) <= 1) &&
      (forall k :: 0 <= k < |r| ==>
         Min(p1.x, p2.x) <= r[k].x <= Max(p1.x, p2.x) && Min(p1.y, p2.y) <= r[k].y <= Max(p1.y, p2.y))
  {
    var n := Steps(p1, p2);
    if n > 0 {
      LineFromAt((k: nat) => LinePoint(p1, p2, k, n), 0, n);
      LerpEnds(p1.x, p2.x, n);
      LerpEnds(p1.y, p2.y, n);
      forall k | 0 <= k < n
        ensures Abs(Lerp(p1.x, p2.x, k + 1, n) - Lerp(p1.x, p2.x, k, n)) <= 1
        ensures Abs(Lerp(p1.y, p2.y, k + 1, n) - Lerp(p1.y, p2.y, k, n)) <= 1
      {
        LerpStep(p1.x, p2.x, k, n);
        LerpStep(p1.y, p2.y, k, n);
      }
      forall k | 0 <= k <= n
        ensures Min(p1.x, p2.x) <= Lerp(p1.x, p2.x, k, n) <= Max(p1.x, p2.x)
        ensures Min(p1.y, p2.y) <= Lerp(p1.y, p2.y, k, n) <= Max(p1.y, p2.y)
      {
        LerpBetween(p1.x, p2.x, k, n);
        LerpBetween(p1.y, p2.y, k, n);
      }
    }
  }

  /** A line between two grid pixels stays on the grid. */
  lemma LinePathInGrid(g: Grid, p1: Pixel, p2: Pixel)
    requires InGrid(g, p1) && InGrid(g, p2)
    ensures AllInGrid(g, LinePath(p1, p2))
  {
    LinePathIsLine(p1, p2);
  }
}
