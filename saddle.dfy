/** get_maxmin_saddle: a modified Dijkstra search that returns the highest
    possible "lowest point" over all 4-connected paths from start to end.

    best[y, x] starts at -inf everywhere except the start pixel; the queue
    holds (-saddle, x, y) tuples and always yields the least tuple, i.e. the
    largest saddle, ties broken by the smaller x and then the smaller y.
    Popped entries are expanded without a staleness check, exactly as the
    search does; an entry is pushed only when it raises best strictly. */
module Saddle {
  import opened Raster
  import opened Paths

  /** An entry of best: -inf, or an elevation. */
  datatype Bound = NegInf | Fin(h: int)

  /** A queue entry (saddle, pixel), standing for the tuple (-saddle, x, y). */
  datatype Entry = Entry(saddle: int, cell: Pixel)

  /** b >= v */
  predicate AtLeast(b: Bound, v: int) { b.Fin? && b.h >= v }

  /** a <= b */
  predicate BoundLe(a: Bound, b: Bound) { a.NegInf? || (b.Fin? && a.h <= b.h) }

  /** The tuple order of the queue: (-a.saddle, a.x, a.y) <= (-b.saddle, b.x, b.y). */
  predicate TupleLe(a: Entry, b: Entry)
  {
    a.saddle > b.saddle ||
    (a.saddle == b.saddle && (a.cell.x < b.cell.x || (a.cell.x == b.cell.x && a.cell.y <= b.cell.y)))
  }

  /** Index of the entry heappop returns: the least tuple of the queue. */
  function Top(pq: seq<Entry>): (k: nat)
    requires |pq| > 0
    ensures k < |pq| && forall j :: 0 <= j < |pq| ==> TupleLe(pq[k], pq[j])
  {
    if |pq| == 1 then 0
    else
      var front := pq[..|pq| - 1];
      var k := Top(front);
      assert forall j :: 0 <= j < |front| ==> front[j] == pq[j];
      if TupleLe(pq[k], pq[|pq| - 1]) then k else |pq| - 1
  }

  /** The queue without the entry at index k. */
  function Remove(pq: seq<Entry>, k: nat): (r: seq<Entry>)
    requires k < |pq|
    ensures |r| == |pq| - 1
    ensures forall x :: x in r ==> x in pq
    ensures forall x :: x in pq && x != pq[k] ==> x in r
  {
    assert pq == pq[..k] + [pq[k]] + pq[k + 1..];
    pq[..k] + pq[k + 1..]
  }

  /** The four neighbour offsets, in the order the search tries them. */
  function Neighbour(c: Pixel, d: nat): (n: Pixel)
    requires d < 4
    ensures Adjacent4(c, n)
  {
    if d == 0 then Pixel(c.x + 1, c.y)
    else if d == 1 then Pixel(c.x - 1, c.y)
    else if d == 2 then Pixel(c.x, c.y + 1)
    else Pixel(c.x, c.y - 1)
  }

  /** The offset index of p among the four neighbours of c, or -1. */
  function NeighbourIndex(c: Pixel, p: Pixel): (d: int)
    ensures -1 <= d < 4
    ensures d >= 0 ==> Neighbour(c, d) == p
    ensures d >= 0 <==> Adjacent4(c, p)
  {
    if p == Pixel(c.x + 1, c.y) then 0
    else if p == Pixel(c.x - 1, c.y) then 1
    else if p == Pixel(c.x, c.y + 1) then 2
    else if p == Pixel(c.x, c.y - 1) then 3
    else -1
  }

  // ---------------------------------------------------------------------
  // The table best, as a value
  // ---------------------------------------------------------------------

  /** A table with the grid's shape. */
  predicate IsTable(g: Grid, B: seq<seq<Bound>>)
  {
    |B| == |g| && forall y :: 0 <= y < |B| ==> |B[y]| == Cols(g)
  }

  function Update(B: seq<seq<Bound>>, p: Pixel, b: Bound): seq<seq<Bound>>
    requires 0 <= p.y < |B| && 0 <= p.x < |B[p.y]|
  {
    B[p.y := B[p.y][p.x := b]]
  }

  /** The table and the pushed entries after the first d neighbours of c,
      popped with saddle cur, have been tried: a grid neighbour n rises to
      min(cur, h(n)) and is pushed when that is above its best value. */
  function Relaxed(g: Grid, B: seq<seq<Bound>>, c: Pixel, cur: int, d: nat): (r: (seq<seq<Bound>>, seq<Entry>))
    requires IsGrid(g) && IsTable(g, B) && d <= 4
    ensures IsTable(g, r.0)
  {
    if d == 0 then (B, [])
    else
      var prev := Relaxed(g, B, c, cur, d - 1);
      var n := Neighbour(c, d - 1);
      if InGrid(g, n) && !AtLeast(prev.0[n.y][n.x], Min(cur, At(g, n))) then
        (Update(prev.0, n, Fin(Min(cur, At(g, n)))), prev.1 + [Entry(Min(cur, At(g, n)), n)])
      else prev
  }

  /** Cell p after d neighbours: raised to min(cur, h(p)) when it is one of
      those neighbours and was below that, unchanged otherwise. */
  lemma {:induction false} RelaxedAt(g: Grid, B: seq<seq<Bound>>, c: Pixel, cur: int, d: nat, p: Pixel)
    requires IsGrid(g) && IsTable(g, B) && d <= 4 && InGrid(g, p)
    ensures Relaxed(g, B, c, cur, d).0[p.y][p.x] ==
              if 0 <= NeighbourIndex(c, p) < d && !AtLeast(B[p.y][p.x], Min(cur, At(g, p)))
              then Fin(Min(cur, At(g, p))) else B[p.y][p.x]
  {
    if d > 0 {
      RelaxedAt(g, B, c, cur, d - 1, p);
      var n := Neighbour(c, d - 1);
      if p == n {
        assert NeighbourIndex(c, p) == d - 1 by {
          NeighbourDistinct(c, NeighbourIndex(c, p), d - 1);
        }
      } else {
        assert NeighbourIndex(c, p) != d - 1;
      }
    }
  }

  /** The four neighbours are different pixels. */
  lemma NeighbourDistinct(c: Pixel, d1: int, d2: int)
    requires 0 <= d1 < 4 && 0 <= d2 < 4 && Neighbour(c, d1) == Neighbour(c, d2)
    ensures d1 == d2
  {
  }

  /** Relaxing all four neighbours of c raises exactly the 4-neighbours
      below min(cur, h) to that value and leaves every other cell as it
      was. */
  lemma RelaxedCells(g: Grid, B: seq<seq<Bound>>, c: Pixel, cur: int)
    requires IsGrid(g) && IsTable(g, B)
    ensures forall p :: InGrid(g, p) ==>
              Relaxed(g, B, c, cur, 4).0[p.y][p.x] ==
                if Adjacent4(c, p) && !AtLeast(B[p.y][p.x], Min(cur, At(g, p)))
                then Fin(Min(cur, At(g, p))) else B[p.y][p.x]
  {
    forall p | InGrid(g, p)
      ensures Relaxed(g, B, c, cur, 4).0[p.y][p.x] ==
                if Adjacent4(c, p) && !AtLeast(B[p.y][p.x], Min(cur, At(g, p)))
                then Fin(Min(cur, At(g, p))) else B[p.y][p.x]
    {
      RelaxedAt(g, B, c, cur, 4, p);
    }
  }

  /** Pairs (pixel, elevation) the table is still below; every strict raise
      of an entry to a grid elevation removes one, so the search ends. */
  ghost function Pot(g: Grid, B: seq<seq<Bound>>): set<(int, int, int)>
    requires IsGrid(g) && IsTable(g, B)
  {
    set y, x, v | 0 <= y < |g| && 0 <= x < Cols(g) && v in Heights(g) && !AtLeast(B[y][x], v) :: (y, x, v)
  }

  /** A finite table entry is backed by a path from s with no point lower. */
  ghost predicate Reached(g: Grid, s: Pixel, B: seq<seq<Bound>>, W: map<Pixel, seq<Pixel>>, p: Pixel)
    requires IsGrid(g) && IsTable(g, B) && InGrid(g, p)
  {
    B[p.y][p.x].Fin? ==>
      p in W && IsPath(g, W[p], s, p) && PathMin(g, W[p]) >= B[p.y][p.x].h && B[p.y][p.x].h in Heights(g)
  }

  /** Every queued saddle is a grid elevation, at most its pixel's entry. */
  ghost predicate QueueOk(g: Grid, B: seq<seq<Bound>>, pq: seq<Entry>)
    requires IsGrid(g) && IsTable(g, B)
  {
    forall k :: 0 <= k < |pq| ==>
      InGrid(g, pq[k].cell) && AtLeast(B[pq[k].cell.y][pq[k].cell.x], pq[k].saddle) && pq[k].saddle in Heights(g)
  }

  /** Every finite entry that is not final is in the queue with its value. */
  ghost predicate Queued(g: Grid, B: seq<seq<Bound>>, F: set<Pixel>, pq: seq<Entry>)
    requires IsGrid(g) && IsTable(g, B)
  {
    forall p {:trigger B[p.y][p.x]} :: InGrid(g, p) && B[p.y][p.x].Fin? && p !in F ==> Entry(B[p.y][p.x].h, p) in pq
  }

  /** f's entry is the saddle from s: no path does better. */
  ghost predicate Final(g: Grid, s: Pixel, B: seq<seq<Bound>>, f: Pixel)
    requires IsGrid(g) && IsTable(g, B)
  {
    InGrid(g, f) && B[f.y][f.x].Fin? && AtMostOnPaths(g, s, f, B[f.y][f.x].h)
  }

  /** f has been expanded: each neighbour's entry is at least what the step
      from f gives. */
  ghost predicate Settled(g: Grid, B: seq<seq<Bound>>, f: Pixel)
    requires IsGrid(g) && IsTable(g, B) && InGrid(g, f) && B[f.y][f.x].Fin?
  {
    forall n {:trigger Adjacent4(f, n)} :: InGrid(g, n) && Adjacent4(f, n) ==> AtLeast(B[n.y][n.x], Min(B[f.y][f.x].h, At(g, n)))
  }

  /** Every finite entry is backed by a witness path. */
  ghost predicate AllReached(g: Grid, s: Pixel, B: seq<seq<Bound>>, W: map<Pixel, seq<Pixel>>)
    requires IsGrid(g) && IsTable(g, B)
  {
    forall p {:trigger Reached(g, s, B, W, p)} :: InGrid(g, p) ==> Reached(g, s, B, W, p)
  }

  /** Every pixel of F is final. */
  ghost predicate AllFinal(g: Grid, s: Pixel, B: seq<seq<Bound>>, F: set<Pixel>)
    requires IsGrid(g) && IsTable(g, B)
  {
    forall f :: f in F ==> Final(g, s, B, f)
  }

  /** Every pixel of F other than c is final and settled. */
  ghost predicate SettledBut(g: Grid, s: Pixel, B: seq<seq<Bound>>, F: set<Pixel>, c: Option<Pixel>)
    requires IsGrid(g) && IsTable(g, B)
  {
    forall f {:trigger Final(g, s, B, f)} {:trigger Settled(g, B, f)} :: f in F && Some(f) != c ==> Final(g, s, B, f) && Settled(g, B, f)
  }

  /** Once the end pixel is final it is no longer queued. */
  predicate EndGuard(e: Pixel, F: set<Pixel>, pq: seq<Entry>)
  {
    e !in F || forall k :: 0 <= k < |pq| ==> pq[k].cell != e
  }

  /** The shape of the state and the start entry. */
  predicate Shape(g: Grid, s: Pixel, e: Pixel, B: seq<seq<Bound>>)
  {
    IsGrid(g) && InGrid(g, s) && InGrid(g, e) && IsTable(g, B) && AtLeast(B[s.y][s.x], At(g, s))
  }

  /** What holds between pops, apart from settledness of the final pixels. */
  ghost predicate Core(g: Grid, s: Pixel, e: Pixel, B: seq<seq<Bound>>, F: set<Pixel>, pq: seq<Entry>,
                       W: map<Pixel, seq<Pixel>>)
  {
    Shape(g, s, e, B) && AllReached(g, s, B, W) && QueueOk(g, B, pq) && Queued(g, B, F, pq) &&
    AllFinal(g, s, B, F) && EndGuard(e, F, pq)
  }

  /** The loop invariant of the search. */
  ghost predicate Inv(g: Grid, s: Pixel, e: Pixel, B: seq<seq<Bound>>, F: set<Pixel>, pq: seq<Entry>,
                      W: map<Pixel, seq<Pixel>>)
  {
    Core(g, s, e, B, F, pq, W) && SettledBut(g, s, B, F, None)
  }

  /** Progress while the neighbours of c, popped with saddle cur, are
      tried: the first d of them are done. Together with Core this is the
      invariant of the inner loop. */
  ghost predicate Progress(g: Grid, s: Pixel, B: seq<seq<Bound>>, F: set<Pixel>, c: Pixel, cur: int, d: nat)
  {
    IsGrid(g) && IsTable(g, B) && InGrid(g, c) && c in F && d <= 4 &&
    AtLeast(B[c.y][c.x], cur) && cur in Heights(g) &&
    SettledBut(g, s, B, F, Some(c)) &&
    (cur == B[c.y][c.x].h || Settled(g, B, c)) &&
    (forall d' :: 0 <= d' < d && InGrid(g, Neighbour(c, d')) ==>
       AtLeast(B[Neighbour(c, d').y][Neighbour(c, d').x], Min(cur, At(g, Neighbour(c, d')))))
  }

  // ---------------------------------------------------------------------
  // Lemmas about the invariant
  // ---------------------------------------------------------------------

  /** Every finite entry of best is at most the pixel's own elevation and
      the start elevation. */
  lemma BestBelowHeights(g: Grid, s: Pixel, e: Pixel, B: seq<seq<Bound>>, F: set<Pixel>, pq: seq<Entry>,
                         W: map<Pixel, seq<Pixel>>, p: Pixel)
    requires Core(g, s, e, B, F, pq, W) && InGrid(g, p) && B[p.y][p.x].Fin?
    ensures B[p.y][p.x].h <= At(g, p) && B[p.y][p.x].h <= At(g, s)
  {
    assert Reached(g, s, B, W, p);
    var P := W[p];
    assert P[0] == s && P[|P| - 1] == p;
  }

  /** The state before the first pop. */
  lemma InitInv(g: Grid, s: Pixel, e: Pixel, B: seq<seq<Bound>>)
    requires IsGrid(g) && InGrid(g, s) && InGrid(g, e) && IsTable(g, B)
    requires forall y, x :: 0 <= y < |g| && 0 <= x < Cols(g) ==>
               B[y][x] == if y == s.y && x == s.x then Fin(At(g, s)) else NegInf
    ensures Inv(g, s, e, B, {}, [Entry(At(g, s), s)], map[s := [s]])
  {
    HeightInHeights(g, s);
    assert IsPath(g, [s], s, s);
  }

  /** A path from s that ends outside the final set has its lowest point at
      most the largest queued saddle: where it leaves the final set, the
      entry of the first pixel outside is queued. */
  lemma {:induction false} CutBound(g: Grid, s: Pixel, e: Pixel, B: seq<seq<Bound>>, F: set<Pixel>,
                                    pq: seq<Entry>, W: map<Pixel, seq<Pixel>>, P: seq<Pixel>, t: Pixel, top: int)
    requires Shape(g, s, e, B) && Queued(g, B, F, pq) && SettledBut(g, s, B, F, None)
    requires IsPath(g, P, s, t) && t !in F
    requires forall k :: 0 <= k < |pq| ==> pq[k].saddle <= top
    ensures PathMin(g, P) <= top
    decreases |P|
  {
    if |P| == 1 {
      assert t == s;
      assert Entry(B[s.y][s.x].h, s) in pq;
    } else {
      PathPrefix(g, P, s, t);
      var front := P[..|P| - 1];
      var p := P[|P| - 2];
      if p in F {
        assert Final(g, s, B, p) && Settled(g, B, p);
        assert PathMin(g, front) <= B[p.y][p.x].h;
        assert Adjacent4(p, t);
        assert AtLeast(B[t.y][t.x], Min(B[p.y][p.x].h, At(g, t)));
        assert Entry(B[t.y][t.x].h, t) in pq;
      } else {
        CutBound(g, s, e, B, F, pq, W, front, p, top);
      }
    }
  }

  /** A pixel that is not final and is popped with the largest saddle has
      that saddle as its entry, and no path to it does better. */
  lemma PopFinal(g: Grid, s: Pixel, e: Pixel, B: seq<seq<Bound>>, F: set<Pixel>, pq: seq<Entry>,
                 W: map<Pixel, seq<Pixel>>, k: nat)
    requires Inv(g, s, e, B, F, pq, W) && k < |pq|
    requires forall j :: 0 <= j < |pq| ==> pq[j].saddle <= pq[k].saddle
    requires pq[k].cell !in F
    ensures InGrid(g, pq[k].cell)
    ensures B[pq[k].cell.y][pq[k].cell.x] == Fin(pq[k].saddle)
    ensures AtMostOnPaths(g, s, pq[k].cell, pq[k].saddle)
  {
    var c := pq[k].cell;
    assert Entry(B[c.y][c.x].h, c) in pq;
    forall P | IsPath(g, P, s, c)
      ensures PathMin(g, P) <= pq[k].saddle
    {
      CutBound(g, s, e, B, F, pq, W, P, c, pq[k].saddle);
    }
  }

  /** Popping the end pixel: its saddle is the bottleneck. */
  lemma PopEnd(g: Grid, s: Pixel, e: Pixel, B: seq<seq<Bound>>, F: set<Pixel>, pq: seq<Entry>,
               W: map<Pixel, seq<Pixel>>, k: nat)
    requires Inv(g, s, e, B, F, pq, W) && k < |pq|
    requires forall j :: 0 <= j < |pq| ==> pq[j].saddle <= pq[k].saddle
    requires pq[k].cell == e
    ensures IsBottleneck(g, s, e, pq[k].saddle)
  {
    PopFinal(g, s, e, B, F, pq, W, k);
    assert Reached(g, s, B, W, e);
  }

  /** Removing a popped entry keeps the queue entries valid. */
  lemma QueueOkRemove(g: Grid, B: seq<seq<Bound>>, pq: seq<Entry>, k: nat)
    requires IsGrid(g) && IsTable(g, B) && QueueOk(g, B, pq) && k < |pq|
    ensures QueueOk(g, B, Remove(pq, k))
  {
    var pq' := Remove(pq, k);
    forall j | 0 <= j < |pq'|
      ensures InGrid(g, pq'[j].cell) && AtLeast(B[pq'[j].cell.y][pq'[j].cell.x], pq'[j].saddle)
      ensures pq'[j].saddle in Heights(g)
    {
      assert pq'[j] in pq;
    }
  }

  /** The popped pixel joins F; every other pixel keeps its queue entry. */
  lemma QueuedRemove(g: Grid, B: seq<seq<Bound>>, F: set<Pixel>, pq: seq<Entry>, k: nat)
    requires IsGrid(g) && IsTable(g, B) && Queued(g, B, F, pq) && k < |pq|
    ensures Queued(g, B, F + {pq[k].cell}, Remove(pq, k))
  {
    var F', pq' := F + {pq[k].cell}, Remove(pq, k);
    forall p | InGrid(g, p) && B[p.y][p.x].Fin? && p !in F'
      ensures Entry(B[p.y][p.x].h, p) in pq'
    {
      assert Entry(B[p.y][p.x].h, p) in pq;
    }
  }

  lemma EndGuardRemove(e: Pixel, F: set<Pixel>, pq: seq<Entry>, k: nat)
    requires EndGuard(e, F, pq) && k < |pq| && pq[k].cell != e
    ensures EndGuard(e, F + {pq[k].cell}, Remove(pq, k))
  {
    var pq' := Remove(pq, k);
    forall j | 0 <= j < |pq'| && e in F
      ensures pq'[j].cell != e
    {
      assert pq'[j] in pq;
    }
  }

  /** Popping any other pixel c: c becomes final. */
  lemma StartCore(g: Grid, s: Pixel, e: Pixel, B: seq<seq<Bound>>, F: set<Pixel>, pq: seq<Entry>,
                  W: map<Pixel, seq<Pixel>>, k: nat)
    requires Inv(g, s, e, B, F, pq, W) && k < |pq|
    requires forall j :: 0 <= j < |pq| ==> pq[j].saddle <= pq[k].saddle
    requires pq[k].cell != e
    ensures Final(g, s, B, pq[k].cell)
    ensures pq[k].cell !in F ==> B[pq[k].cell.y][pq[k].cell.x].h == pq[k].saddle
    ensures Core(g, s, e, B, F + {pq[k].cell}, Remove(pq, k), W)
  {
    var c := pq[k].cell;
    if c !in F {
      PopFinal(g, s, e, B, F, pq, W, k);
    }
    QueueOkRemove(g, B, pq, k);
    QueuedRemove(g, B, F, pq, k);
    EndGuardRemove(e, F, pq, k);
  }

  /** ... and its neighbours are next. */
  lemma StartProgress(g: Grid, s: Pixel, e: Pixel, B: seq<seq<Bound>>, F: set<Pixel>, pq: seq<Entry>, k: nat)
    requires Shape(g, s, e, B) && QueueOk(g, B, pq) && SettledBut(g, s, B, F, None) && k < |pq|
    requires Final(g, s, B, pq[k].cell)
    requires pq[k].cell !in F ==> B[pq[k].cell.y][pq[k].cell.x].h == pq[k].saddle
    ensures Progress(g, s, B, F + {pq[k].cell}, pq[k].cell, pq[k].saddle, 0)
  {
  }

  /** B' is B with some entries raised. */
  ghost predicate Grows(g: Grid, B: seq<seq<Bound>>, B': seq<seq<Bound>>)
  {
    IsTable(g, B) && IsTable(g, B') && forall p :: InGrid(g, p) ==> BoundLe(B[p.y][p.x], B'[p.y][p.x])
  }

  lemma UpdateGrows(g: Grid, B: seq<seq<Bound>>, n: Pixel, v: int)
    requires IsTable(g, B) && InGrid(g, n) && !AtLeast(B[n.y][n.x], v)
    ensures Grows(g, B, Update(B, n, Fin(v)))
    ensures forall p :: InGrid(g, p) && p != n ==> Update(B, n, Fin(v))[p.y][p.x] == B[p.y][p.x]
    ensures Update(B, n, Fin(v))[n.y][n.x] == Fin(v)
  {
  }

  lemma GrowsTrans(g: Grid, B0: seq<seq<Bound>>, B1: seq<seq<Bound>>, B2: seq<seq<Bound>>)
    requires Grows(g, B0, B1) && Grows(g, B1, B2)
    ensures Grows(g, B0, B2)
  {
    forall p | InGrid(g, p)
      ensures BoundLe(B0[p.y][p.x], B2[p.y][p.x])
    {
      assert BoundLe(B0[p.y][p.x], B1[p.y][p.x]) && BoundLe(B1[p.y][p.x], B2[p.y][p.x]);
    }
  }

  /** A table that grew and has one entry strictly above its old value, at a
      grid elevation, has a smaller Pot. */
  lemma PotDrops(g: Grid, B0: seq<seq<Bound>>, B: seq<seq<Bound>>, p: Pixel)
    requires IsGrid(g) && Grows(g, B0, B) && InGrid(g, p) && B[p.y][p.x].Fin? && B[p.y][p.x].h in Heights(g)
    requires !AtLeast(B0[p.y][p.x], B[p.y][p.x].h)
    ensures Pot(g, B) < Pot(g, B0)
  {
    var v := B[p.y][p.x].h;
    assert (p.y, p.x, v) in Pot(g, B0);
    assert (p.y, p.x, v) !in Pot(g, B);
    forall u | u in Pot(g, B)
      ensures u in Pot(g, B0)
    {
      var y, x, w :| 0 <= y < |g| && 0 <= x < Cols(g) && w in Heights(g) && !AtLeast(B[y][x], w) && u == (y, x, w);
      assert InGrid(g, Pixel(x, y));
      assert BoundLe(B0[y][x], B[y][x]);
    }
  }

  /** Pixel p of B stands strictly above its value in B0. */
  ghost predicate RaisedAbove(g: Grid, B0: seq<seq<Bound>>, B: seq<seq<Bound>>, p: Pixel)
  {
    IsTable(g, B0) && IsTable(g, B) && InGrid(g, p) && B[p.y][p.x].Fin? && !AtLeast(B0[p.y][p.x], B[p.y][p.x].h)
  }

  /** Raising n strictly in a table that has grown from B0 keeps it grown
      from B0 and leaves n strictly above its value in B0. */
  lemma RaiseFromStart(g: Grid, B0: seq<seq<Bound>>, B: seq<seq<Bound>>, n: Pixel, v: int)
    requires IsTable(g, B0) && IsTable(g, B) && Grows(g, B0, B) && InGrid(g, n) && !AtLeast(B[n.y][n.x], v)
    ensures Grows(g, B0, Update(B, n, Fin(v))) && RaisedAbove(g, B0, Update(B, n, Fin(v)), n)
  {
    UpdateGrows(g, B, n, v);
    GrowsTrans(g, B0, B, Update(B, n, Fin(v)));
    assert BoundLe(B0[n.y][n.x], B[n.y][n.x]);
  }

  /** The four neighbours are 4-neighbours. */
  lemma NeighbourAdjacent(c: Pixel, d: nat)
    requires d < 4
    ensures Adjacent4(c, Neighbour(c, d))
  {
  }

  /** Raising entries other than f's keeps f settled. */
  lemma SettledGrows(g: Grid, B: seq<seq<Bound>>, B': seq<seq<Bound>>, f: Pixel)
    requires IsGrid(g) && Grows(g, B, B') && InGrid(g, f) && B[f.y][f.x].Fin? && B'[f.y][f.x] == B[f.y][f.x]
    requires Settled(g, B, f)
    ensures Settled(g, B', f)
  {
    forall n | InGrid(g, n) && Adjacent4(f, n)
      ensures AtLeast(B'[n.y][n.x], Min(B'[f.y][f.x].h, At(g, n)))
    {
      assert BoundLe(B[n.y][n.x], B'[n.y][n.x]);
    }
  }

  /** Raising the entry of a pixel outside F keeps F final. */
  lemma AllFinalGrows(g: Grid, s: Pixel, B: seq<seq<Bound>>, B': seq<seq<Bound>>, F: set<Pixel>, n: Pixel)
    requires IsGrid(g) && IsTable(g, B) && IsTable(g, B') && n !in F
    requires forall p :: InGrid(g, p) && p != n ==> B'[p.y][p.x] == B[p.y][p.x]
    requires AllFinal(g, s, B, F)
    ensures AllFinal(g, s, B', F)
  {
    forall f | f in F
      ensures Final(g, s, B', f)
    {
      assert Final(g, s, B, f);
    }
  }

  /** Raising the entry of a pixel outside F keeps F settled. */
  lemma SettledButGrows(g: Grid, s: Pixel, B: seq<seq<Bound>>, B': seq<seq<Bound>>, F: set<Pixel>, c: Option<Pixel>, n: Pixel)
    requires IsGrid(g) && Grows(g, B, B') && n !in F
    requires forall p :: InGrid(g, p) && p != n ==> B'[p.y][p.x] == B[p.y][p.x]
    requires SettledBut(g, s, B, F, c)
    ensures SettledBut(g, s, B', F, c)
  {
    forall f | f in F && Some(f) != c
      ensures Final(g, s, B', f) && Settled(g, B', f)
    {
      assert Final(g, s, B, f) && Settled(g, B, f);
      SettledGrows(g, B, B', f);
    }
  }

  /** Pushing a valid entry for the raised pixel keeps the queue valid. */
  lemma QueueOkPush(g: Grid, B: seq<seq<Bound>>, B': seq<seq<Bound>>, pq: seq<Entry>, n: Pixel, v: int)
    requires IsGrid(g) && Grows(g, B, B') && QueueOk(g, B, pq)
    requires InGrid(g, n) && B'[n.y][n.x] == Fin(v) && v in Heights(g)
    ensures QueueOk(g, B', pq + [Entry(v, n)])
  {
    var pq' := pq + [Entry(v, n)];
    forall j | 0 <= j < |pq'|
      ensures InGrid(g, pq'[j].cell) && AtLeast(B'[pq'[j].cell.y][pq'[j].cell.x], pq'[j].saddle)
      ensures pq'[j].saddle in Heights(g)
    {
      if j < |pq| {
        assert pq'[j] == pq[j];
        assert BoundLe(B[pq[j].cell.y][pq[j].cell.x], B'[pq[j].cell.y][pq[j].cell.x]);
      }
    }
  }

  /** The raised pixel is queued with its new value. */
  lemma QueuedPush(g: Grid, B: seq<seq<Bound>>, F: set<Pixel>, pq: seq<Entry>, n: Pixel, v: int)
    requires IsGrid(g) && IsTable(g, B) && InGrid(g, n) && Queued(g, B, F, pq)
    ensures IsTable(g, Update(B, n, Fin(v)))
    ensures Queued(g, Update(B, n, Fin(v)), F, pq + [Entry(v, n)])
  {
    var B': seq<seq<Bound>> := Update(B, n, Fin(v));
    var pq' := pq + [Entry(v, n)];
    forall p: Pixel | InGrid(g, p) && B'[p.y][p.x].Fin? && p !in F
      ensures Entry(B'[p.y][p.x].h, p) in pq'
    {
      if p == n {
        assert pq'[|pq|] == Entry(v, n);
      } else {
        assert B'[p.y][p.x] == B[p.y][p.x];
        assert Entry(B[p.y][p.x].h, p) in pq;
      }
    }
  }

  /** The raised pixel gets the extended path as its witness. */
  lemma ReachedPush(g: Grid, s: Pixel, B: seq<seq<Bound>>, W: map<Pixel, seq<Pixel>>, n: Pixel, v: int, P: seq<Pixel>)
    requires IsGrid(g) && IsTable(g, B) && InGrid(g, n) && AllReached(g, s, B, W)
    requires IsPath(g, P, s, n) && PathMin(g, P) >= v && v in Heights(g)
    ensures IsTable(g, Update(B, n, Fin(v)))
    ensures AllReached(g, s, Update(B, n, Fin(v)), W[n := P])
  {
    var B', W' := Update(B, n, Fin(v)), W[n := P];
    forall p | InGrid(g, p)
      ensures Reached(g, s, B', W', p)
    {
      if p != n {
        assert Reached(g, s, B, W, p);
        assert B'[p.y][p.x] == B[p.y][p.x];
      }
    }
  }

  /** A raised neighbour of c is not final: the path to c extended by the
      step reaches it with lowest point at least the new saddle. */
  lemma RaisedNotFinal(g: Grid, s: Pixel, B: seq<seq<Bound>>, F: set<Pixel>, W: map<Pixel, seq<Pixel>>,
                       c: Pixel, cur: int, n: Pixel)
    requires IsGrid(g) && IsTable(g, B) && InGrid(g, c) && InGrid(g, n) && Adjacent4(c, n)
    requires AllReached(g, s, B, W) && AllFinal(g, s, B, F) && AtLeast(B[c.y][c.x], cur)
    requires !AtLeast(B[n.y][n.x], Min(cur, At(g, n)))
    ensures n !in F && c in W
    ensures IsPath(g, W[c] + [n], s, n) && PathMin(g, W[c] + [n]) >= Min(cur, At(g, n))
  {
    assert Reached(g, s, B, W, c);
    PathExtend(g, W[c], s, c, n);
  }

  /** The core invariant survives raising neighbour n of c to v and
      pushing (v, n). */
  lemma RaiseKeepsCore(g: Grid, s: Pixel, e: Pixel, B: seq<seq<Bound>>, F: set<Pixel>, pq: seq<Entry>,
                       W: map<Pixel, seq<Pixel>>, c: Pixel, cur: int, n: Pixel, v: int)
    requires Core(g, s, e, B, F, pq, W) && InGrid(g, c) && AtLeast(B[c.y][c.x], cur) && cur in Heights(g)
    requires InGrid(g, n) && Adjacent4(c, n) && v == Min(cur, At(g, n)) && !AtLeast(B[n.y][n.x], v)
    ensures n !in F && c in W && IsTable(g, Update(B, n, Fin(v)))
    ensures Core(g, s, e, Update(B, n, Fin(v)), F, pq + [Entry(v, n)], W[n := W[c] + [n]])
  {
    var B' := Update(B, n, Fin(v));
    RaisedNotFinal(g, s, B, F, W, c, cur, n);
    HeightInHeights(g, n);
    assert v in Heights(g);
    UpdateGrows(g, B, n, v);
    ReachedPush(g, s, B, W, n, v, W[c] + [n]);
    QueueOkPush(g, B, B', pq, n, v);
    QueuedPush(g, B, F, pq, n, v);
    AllFinalGrows(g, s, B, B', F, n);
    assert BoundLe(B[s.y][s.x], B'[s.y][s.x]);
  }

  /** A strict raise of neighbour d of c to saddle v = min(cur, h(n)),
      n outside F: one neighbour further. */
  lemma RaiseKeepsProgress(g: Grid, s: Pixel, B: seq<seq<Bound>>, F: set<Pixel>, c: Pixel, cur: int, d: nat,
                           n: Pixel, v: int)
    requires Progress(g, s, B, F, c, cur, d) && d < 4 && n == Neighbour(c, d) && InGrid(g, n) && n !in F
    requires v == Min(cur, At(g, n)) && !AtLeast(B[n.y][n.x], v)
    ensures IsTable(g, Update(B, n, Fin(v)))
    ensures Progress(g, s, Update(B, n, Fin(v)), F, c, cur, d + 1)
  {
    var B' := Update(B, n, Fin(v));
    UpdateGrows(g, B, n, v);
    SettledButGrows(g, s, B, B', F, Some(c), n);
    if cur != B[c.y][c.x].h {
      SettledGrows(g, B, B', c);
    }
    forall d' | 0 <= d' < d + 1 && InGrid(g, Neighbour(c, d'))
      ensures AtLeast(B'[Neighbour(c, d').y][Neighbour(c, d').x], Min(cur, At(g, Neighbour(c, d'))))
    {
      var m := Neighbour(c, d');
      assert BoundLe(B[m.y][m.x], B'[m.y][m.x]);
    }
  }

  /** A neighbour off the grid, or one that would not rise: nothing changes. */
  lemma RelaxSkip(g: Grid, s: Pixel, B: seq<seq<Bound>>, F: set<Pixel>, c: Pixel, cur: int, d: nat)
    requires Progress(g, s, B, F, c, cur, d) && d < 4
    requires var n := Neighbour(c, d);
      InGrid(g, n) ==> AtLeast(B[n.y][n.x], Min(cur, At(g, n)))
    ensures Progress(g, s, B, F, c, cur, d + 1)
  {
  }

  /** All four neighbours tried: c is settled and the loop invariant holds
      again. */
  lemma RelaxDone(g: Grid, s: Pixel, e: Pixel, B: seq<seq<Bound>>, F: set<Pixel>, pq: seq<Entry>,
                  W: map<Pixel, seq<Pixel>>, c: Pixel, cur: int)
    requires Core(g, s, e, B, F, pq, W) && Progress(g, s, B, F, c, cur, 4)
    ensures Inv(g, s, e, B, F, pq, W)
  {
    if cur == B[c.y][c.x].h {
      forall n | InGrid(g, n) && Adjacent4(c, n)
        ensures AtLeast(B[n.y][n.x], Min(B[c.y][c.x].h, At(g, n)))
      {
        var d := if n.x == c.x + 1 then 0 else if n.x == c.x - 1 then 1 else if n.y == c.y + 1 then 2 else 3;
        assert Neighbour(c, d) == n;
      }
    }
    assert Final(g, s, B, c);
  }

  /** An empty queue: the final set is closed under steps, so it holds the
      end pixel, whose entry is then the bottleneck. */
  lemma Exhausted(g: Grid, s: Pixel, e: Pixel, B: seq<seq<Bound>>, F: set<Pixel>, W: map<Pixel, seq<Pixel>>)
    requires Inv(g, s, e, B, F, [], W)
    ensures B[e.y][e.x].Fin? && IsBottleneck(g, s, e, B[e.y][e.x].h)
  {
    assert s in F by {
      assert !(Entry(B[s.y][s.x].h, s) in []);
    }
    forall f, n | f in F && InGrid(g, n) && Adjacent4(f, n)
      ensures n in F
    {
      assert Final(g, s, B, f) && Settled(g, B, f);
      assert B[n.y][n.x].Fin?;
      assert !(Entry(B[n.y][n.x].h, n) in []);
    }
    var P := PathExists(g, s, e);
    ClosedSetHoldsPathEnd(g, F, P, s, e);
    assert Final(g, s, B, e);
    assert Reached(g, s, B, W, e);
  }

  // ---------------------------------------------------------------------
  // The search
  // ---------------------------------------------------------------------

  /** best holds the table B. */
  ghost predicate Holds(best: array2<Bound>, g: Grid, B: seq<seq<Bound>>)
    reads best
  {
    best.Length0 == |g| && best.Length1 == Cols(g) && IsTable(g, B) &&
    forall y, x :: 0 <= y < |g| && 0 <= x < Cols(g) ==> best[y, x] == B[y][x]
  }

  /** The invariant of the loop over the neighbours of c, popped with
      saddle cur, after the first d of them: best holds the table B, which
      is B0 relaxed at those neighbours; E are the entries pushed so far. */
  ghost predicate Relaxing(g: Grid, best: array2<Bound>, start: Pixel, end: Pixel, B0: seq<seq<Bound>>,
                           pq0: seq<Entry>, F: set<Pixel>, c: Pixel, cur: int, d: nat, B: seq<seq<Bound>>,
                           E: seq<Entry>, pq: seq<Entry>, W: map<Pixel, seq<Pixel>>, pushed: bool, raised: Pixel)
    reads best
  {
    d <= 4 && Holds(best, g, B) && Core(g, start, end, B, F, pq, W) && Progress(g, start, B, F, c, cur, d) &&
    Grows(g, B0, B) && Relaxed(g, B0, c, cur, d) == (B, E) && pq == pq0 + E &&
    (pushed ==> RaisedAbove(g, B0, B, raised)) && (!pushed ==> B == B0 && pq == pq0)
  }

  /** One round of the loop over the neighbours: neighbour d of c is raised
      and pushed when it lies on the grid and its best value is below
      min(cur, h). */
  method TryNeighbour(g: Grid, best: array2<Bound>, start: Pixel, end: Pixel, ghost B0: seq<seq<Bound>>,
                      pq0: seq<Entry>, ghost F: set<Pixel>, c: Pixel, cur: int, d: nat, ghost B1: seq<seq<Bound>>,
                      ghost E1: seq<Entry>, pq1: seq<Entry>, ghost W1: map<Pixel, seq<Pixel>>,
                      ghost pushed1: bool, ghost raised1: Pixel)
    returns (ghost B: seq<seq<Bound>>, ghost E: seq<Entry>, pq: seq<Entry>, ghost W: map<Pixel, seq<Pixel>>,
             ghost pushed: bool, ghost raised: Pixel)
    requires d < 4 && Relaxing(g, best, start, end, B0, pq0, F, c, cur, d, B1, E1, pq1, W1, pushed1, raised1)
    modifies best
    ensures Relaxing(g, best, start, end, B0, pq0, F, c, cur, d + 1, B, E, pq, W, pushed, raised)
  {
    B, E, pq, W, pushed, raised := B1, E1, pq1, W1, pushed1, raised1;
    var n := Neighbour(c, d);
    if 0 <= n.x < best.Length1 && 0 <= n.y < best.Length0 {
      var saddle := Min(cur, g[n.y][n.x]);
      if best[n.y, n.x].NegInf? || saddle > best[n.y, n.x].h {
        pq, B, W := Raise(g, best, start, end, B0, F, c, cur, d, n, saddle, pq, B, W);
        assert pq0 + (E + [Entry(saddle, n)]) == pq;
        assert Relaxed(g, B0, c, cur, d + 1) == (Update(B1, n, Fin(saddle)), E + [Entry(saddle, n)]);
        E := E + [Entry(saddle, n)];
        pushed, raised := true, n;
      } else {
        RelaxSkip(g, start, B, F, c, cur, d);
      }
    } else {
      RelaxSkip(g, start, B, F, c, cur, d);
    }
  }

  /** The loop over the four neighbours of the popped pixel c: each grid
      neighbour n whose best is below min(cur, h(n)) is raised to it and
      pushed. Afterwards c is settled; either some entry rose (Pot shrank)
      or nothing changed. */
  method RelaxNeighbours(g: Grid, best: array2<Bound>, start: Pixel, end: Pixel, c: Pixel, cur: int,
                         pq0: seq<Entry>, ghost B0: seq<seq<Bound>>, ghost F: set<Pixel>,
                         ghost W0: map<Pixel, seq<Pixel>>)
    returns (pq: seq<Entry>, ghost B: seq<seq<Bound>>, ghost W: map<Pixel, seq<Pixel>>)
    requires Holds(best, g, B0)
    requires Core(g, start, end, B0, F, pq0, W0) && Progress(g, start, B0, F, c, cur, 0) && c != end
    modifies best
    ensures Holds(best, g, B) && Inv(g, start, end, B, F, pq, W)
    ensures B == Relaxed(g, B0, c, cur, 4).0 && pq == pq0 + Relaxed(g, B0, c, cur, 4).1
    ensures Grows(g, B0, B)
    ensures Pot(g, B) < Pot(g, B0) || (B == B0 && pq == pq0)
  {
    pq, B, W := pq0, B0, W0;
    ghost var pushed := false;
    ghost var raised := c;
    ghost var E: seq<Entry> := [];
    var d := 0;
    while d < 4
      invariant 0 <= d <= 4
      invariant Relaxing(g, best, start, end, B0, pq0, F, c, cur, d, B, E, pq, W, pushed, raised)
      decreases 4 - d
    {
      B, E, pq, W, pushed, raised := TryNeighbour(g, best, start, end, B0, pq0, F, c, cur, d, B, E, pq, W, pushed, raised);
      d := d + 1;
    }
    if pushed {
      assert Reached(g, start, B, W, raised);
      PotDrops(g, B0, B, raised);
    }
    RelaxDone(g, start, end, B, F, pq, W, c, cur);
  }

  /** The raising branch for neighbour d of c: best[n] := min(cur, h(n))
      and (min(cur, h(n)), n) is pushed. */
  method Raise(g: Grid, best: array2<Bound>, start: Pixel, end: Pixel, ghost B0: seq<seq<Bound>>,
               ghost F: set<Pixel>, c: Pixel, cur: int, d: nat, n: Pixel, saddle: int, pq0: seq<Entry>,
               ghost B1: seq<seq<Bound>>, ghost W1: map<Pixel, seq<Pixel>>)
    returns (pq: seq<Entry>, ghost B: seq<seq<Bound>>, ghost W: map<Pixel, seq<Pixel>>)
    requires Holds(best, g, B1) && Core(g, start, end, B1, F, pq0, W1) && Progress(g, start, B1, F, c, cur, d)
    requires Grows(g, B0, B1) && d < 4 && n == Neighbour(c, d) && InGrid(g, n)
    requires saddle == Min(cur, At(g, n)) && !AtLeast(B1[n.y][n.x], saddle)
    modifies best
    ensures B == Update(B1, n, Fin(saddle)) && pq == pq0 + [Entry(saddle, n)]
    ensures Holds(best, g, B) && Core(g, start, end, B, F, pq, W) && Progress(g, start, B, F, c, cur, d + 1)
    ensures Grows(g, B0, B) && RaisedAbove(g, B0, B, n)
  {
    NeighbourAdjacent(c, d);
    RaiseKeepsCore(g, start, end, B1, F, pq0, W1, c, cur, n, saddle);
    RaiseKeepsProgress(g, start, B1, F, c, cur, d, n, saddle);
    RaiseFromStart(g, B0, B1, n, saddle);
    best[n.y, n.x] := Fin(saddle);
    B := Update(B1, n, Fin(saddle));
    W := W1[n := W1[c] + [n]];
    pq := pq0 + [Entry(saddle, n)];
  }

  /** The set-up of get_maxmin_saddle: every best value is -inf except the
      start's own elevation, and the queue holds the start alone. */
  method StartSearch(g: Grid, start: Pixel, end: Pixel)
    returns (best: array2<Bound>, ghost B: seq<seq<Bound>>, pq: seq<Entry>, ghost F: set<Pixel>,
             ghost W: map<Pixel, seq<Pixel>>)
    requires IsGrid(g) && InGrid(g, start) && InGrid(g, end)
    ensures fresh(best) && Holds(best, g, B) && Inv(g, start, end, B, F, pq, W)
    ensures B == StartTable(g, start) && pq == [Entry(At(g, start), start)] && F == {}
  {
    var rows, cols := |g|, Cols(g);
    best := new Bound[rows, cols]((y: int, x: int) => NegInf);
    best[start.y, start.x] := Fin(At(g, start));
    B := StartTable(g, start);
    pq := [Entry(At(g, start), start)];
    F := {};
    W := map[start := [start]];
    InitInv(g, start, end, B);
  }

  /** The best values at the start of the search. */
  ghost function StartTable(g: Grid, s: Pixel): (B: seq<seq<Bound>>)
    requires IsGrid(g) && InGrid(g, s)
    ensures IsTable(g, B)
    ensures forall y, x :: 0 <= y < |g| && 0 <= x < Cols(g) ==>
              B[y][x] == if y == s.y && x == s.x then Fin(At(g, s)) else NegInf
  {
    seq(|g|, y requires 0 <= y < |g| =>
      seq(Cols(g), x requires 0 <= x < Cols(g) => if y == s.y && x == s.x then Fin(At(g, s)) else NegInf))
  }

  /** A bottleneck value is the saddle, and it lies below both ends. */
  lemma BottleneckIsSaddle(g: Grid, start: Pixel, end: Pixel, r: int)
    requires IsGrid(g) && InGrid(g, start) && InGrid(g, end) && IsBottleneck(g, start, end, r)
    ensures r == Saddle(g, start, end) && r <= At(g, start) && r <= At(g, end)
  {
    SaddleIsBottleneck(g, start, end);
    BottleneckUnique(g, start, end, r, Saddle(g, start, end));
    BottleneckBelowEndpoints(g, start, end, r);
  }

  /** One round of the search for a popped entry k that is not the end:
      its pixel is settled and its neighbours are relaxed. */
  method Settle(g: Grid, best: array2<Bound>, start: Pixel, end: Pixel, pq0: seq<Entry>,
                ghost B0: seq<seq<Bound>>, ghost F0: set<Pixel>, ghost W0: map<Pixel, seq<Pixel>>, k: nat)
    returns (pq: seq<Entry>, ghost B: seq<seq<Bound>>, ghost F: set<Pixel>, ghost W: map<Pixel, seq<Pixel>>)
    requires Holds(best, g, B0) && Inv(g, start, end, B0, F0, pq0, W0)
    requires Grows(g, StartTable(g, start), B0)
    requires k < |pq0| && (forall j :: 0 <= j < |pq0| ==> TupleLe(pq0[k], pq0[j])) && pq0[k].cell != end
    modifies best
    ensures Holds(best, g, B) && Inv(g, start, end, B, F, pq, W)
    ensures Grows(g, StartTable(g, start), B)
    ensures F == F0 + {pq0[k].cell}
    ensures Pot(g, B) < Pot(g, B0) || (B == B0 && |pq| < |pq0|)
  {
    var cur, c := pq0[k].saddle, pq0[k].cell;
    StartCore(g, start, end, B0, F0, pq0, W0, k);
    StartProgress(g, start, end, B0, F0, pq0, k);
    F := F0 + {c};
    pq, B, W := RelaxNeighbours(g, best, start, end, c, cur, Remove(pq0, k), B0, F, W0);
    GrowsTrans(g, StartTable(g, start), B0, B);
  }

  /** get_maxmin_saddle(height_map, start, end): the best-first search. */
  method GetMaxminSaddle(g: Grid, start: Pixel, end: Pixel) returns (r: int)
    requires IsGrid(g) && InGrid(g, start) && InGrid(g, end)
    ensures IsBottleneck(g, start, end, r)
    ensures r == Saddle(g, start, end)
    ensures r <= At(g, start) && r <= At(g, end)
  {
    var best, B, pq, F, W := StartSearch(g, start, end);
    while pq != []
      invariant Holds(best, g, B) && Inv(g, start, end, B, F, pq, W)
      invariant Grows(g, StartTable(g, start), B)
      decreases Pot(g, B), |pq|
    {
      var k := Top(pq);
      var cur, c := pq[k].saddle, pq[k].cell;
      if c == end {
        PopEnd(g, start, end, B, F, pq, W, k);
        r := cur;
        BottleneckIsSaddle(g, start, end, r);
        return;
      }
      pq, B, F, W := Settle(g, best, start, end, pq, B, F, W, k);
    }
    Exhausted(g, start, end, B, F, W);
    r := best[end.y, end.x].h;
    BottleneckIsSaddle(g, start, end, r);
  }
}
