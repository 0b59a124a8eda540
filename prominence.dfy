/** calculate_prominent_peaks: rank the candidates by decreasing elevation,
    find each one's nearest strictly higher candidate, estimate the saddle on
    the straight line between them and, when that estimate passes the
    threshold, replace it by the exact maximin saddle. A candidate with no
    strictly higher one is its own prominence. */
module Prominence {
  import opened Raster
  import opened Sorting
  import opened Nearest
  import opened Line
  import opened Paths
  import Search = Saddle

  /** A candidate and its elevation: one row of (coords, heights). */
  datatype Cand = Cand(pos: Pixel, height: int)

  /** One record ((x, y), height, prominence) of the result. */
  datatype Prominent = Prominent(pos: Pixel, height: int, prominence: int)

  function CandHeight(c: Cand): int { c.height }

  function Positions(r: seq<Cand>): (ps: seq<Pixel>)
    ensures |ps| == |r| && forall k :: 0 <= k < |r| ==> ps[k] == r[k].pos
  {
    seq(|r|, k requires 0 <= k < |r| => r[k].pos)
  }

  function Elevations(r: seq<Cand>): (hs: seq<int>)
    ensures |hs| == |r| && forall k :: 0 <= k < |r| ==> hs[k] == r[k].height
  {
    seq(|r|, k requires 0 <= k < |r| => r[k].height)
  }

  /** Heights never increase along hs. */
  predicate Descending(hs: seq<int>)
  {
    forall a, b :: 0 <= a < b < |hs| ==> hs[a] >= hs[b]
  }

  /** The shape calculate_prominent_peaks works on: ranked positions on the
      grid and their elevations. */
  predicate Table(g: Grid, coords: seq<Pixel>, heights: seq<int>)
  {
    IsGrid(g) && |coords| == |heights| && AllInGrid(g, coords) &&
    forall k :: 0 <= k < |coords| ==> heights[k] == At(g, coords[k])
  }

  /** The candidates with their elevations, in input order. */
  function Tagged(g: Grid, cands: seq<Pixel>): (t: seq<Cand>)
    requires IsGrid(g) && AllInGrid(g, cands)
    ensures |t| == |cands| && forall k :: 0 <= k < |t| ==> t[k] == Cand(cands[k], At(g, cands[k]))
  {
    seq(|cands|, k requires 0 <= k < |cands| => Cand(cands[k], At(g, cands[k])))
  }

  /** coords = coords[order] and heights = heights[order] with
      order = np.argsort(-heights): the candidates with their elevations,
      highest first. */
  function Ranked(g: Grid, cands: seq<Pixel>): (r: seq<Cand>)
    requires IsGrid(g) && AllInGrid(g, cands)
    ensures |r| == |cands| && NonIncreasing(r, CandHeight)
    ensures forall k :: 0 <= k < |r| ==> InGrid(g, r[k].pos) && r[k].pos in cands && r[k].height == At(g, r[k].pos)
    ensures Table(g, Positions(r), Elevations(r)) && Descending(Elevations(r))
  {
    var tagged := Tagged(g, cands);
    var r := SortDescending(tagged, CandHeight);
    SortLength(tagged, CandHeight);
    forall k | 0 <= k < |r|
      ensures InGrid(g, r[k].pos) && r[k].pos in cands && r[k].height == At(g, r[k].pos)
    {
      SortedFromInput(tagged, CandHeight, k);
      var m :| 0 <= m < |tagged| && tagged[m] == r[k];
    }
    assert forall a, b :: 0 <= a < b < |r| ==> CandHeight(r[a]) >= CandHeight(r[b]);
    r
  }

  /** The lowest elevation on the straight line between two pixels, the
      first saddle estimate (min over get_path_between_points). */
  function LineSaddle(g: Grid, p: Pixel, q: Pixel): (m: int)
    requires IsGrid(g) && InGrid(g, p) && InGrid(g, q)
    ensures m <= At(g, p) && m <= At(g, q)
  {
    LinePathInGrid(g, p, q);
    LinePathIsLine(p, q);
    var path := LinePath(p, q);
    assert path[0] == p && path[|path| - 1] == q;
    PathMin(g, path)
  }

  /** What the loop appends for a candidate at p of height h whose nearest
      strictly higher candidate is at q: the line estimate first, then, when
      it passes and use_dijkstra is set, the exact saddle. */
  ghost function Linked(g: Grid, p: Pixel, h: int, q: Pixel, threshold: real, useDijkstra: bool): seq<Prominent>
    requires IsGrid(g) && InGrid(g, p) && InGrid(g, q)
  {
    var approx := h - LineSaddle(g, p, q);
    if approx as real < threshold then []
    else if !useDijkstra then [Prominent(p, h, approx)]
    else
      var exact := h - Saddle(g, p, q);
      if exact as real >= threshold then [Prominent(p, h, exact)] else []
  }

  /** What the loop appends for ranked candidate i: nothing, or one record. */
  ghost function PeakAt(g: Grid, coords: seq<Pixel>, heights: seq<int>, i: nat, threshold: real,
                        useDijkstra: bool): seq<Prominent>
    requires Table(g, coords, heights) && i < |coords|
  {
    var p, h := coords[i], heights[i];
    var j := NearestHigher(coords, heights, i);
    if j == -1 then
      if h as real >= threshold then [Prominent(p, h, h)] else []
    else Linked(g, p, h, coords[j], threshold, useDijkstra)
  }

  /** The records of all ranked candidates, one entry per candidate. */
  ghost function Records(g: Grid, coords: seq<Pixel>, heights: seq<int>, threshold: real,
                         useDijkstra: bool): (rs: seq<seq<Prominent>>)
    requires Table(g, coords, heights)
    ensures |rs| == |coords|
    ensures forall i :: 0 <= i < |rs| ==> rs[i] == PeakAt(g, coords, heights, i, threshold, useDijkstra)
  {
    seq(|coords|, i requires 0 <= i < |coords| => PeakAt(g, coords, heights, i, threshold, useDijkstra))
  }

  /** The entries of the first m candidates, in order: what the loop has
      appended after m rounds. */
  function Joined(rs: seq<seq<Prominent>>, m: nat): seq<Prominent>
    requires m <= |rs|
  {
    if m == 0 then [] else Joined(rs, m - 1) + rs[m - 1]
  }

  /** The result of calculate_prominent_peaks, as a value. */
  ghost function ProminentPeaks(g: Grid, cands: seq<Pixel>, threshold: real, useDijkstra: bool): seq<Prominent>
    requires IsGrid(g) && AllInGrid(g, cands)
  {
    if |cands| == 0 then []
    else
      var r := Ranked(g, cands);
      Joined(Records(g, Positions(r), Elevations(r), threshold, useDijkstra), |r|)
  }

  /** One pass of the loop body of calculate_prominent_peaks: candidate i
      with nearest strictly higher candidate j. */
  method CandidateRecord(g: Grid, coords: seq<Pixel>, heights: seq<int>, i: nat, j: int, threshold: real,
                         useDijkstra: bool) returns (rec: seq<Prominent>)
    requires Table(g, coords, heights) && i < |coords| && IsNearestHigher(coords, heights, i, j)
    ensures rec == PeakAt(g, coords, heights, i, threshold, useDijkstra)
  {
    NearestHigherCorrect(coords, heights, i);
    NearestUnique(coords, heights, i, |coords|, j, NearestHigher(coords, heights, i));
    var p, h := coords[i], heights[i];
    rec := [];
    if j == -1 {
      if h as real >= threshold {
        rec := [Prominent(p, h, h)];
      }
    } else {
      rec := LinkedRecord(g, p, h, coords[j], threshold, useDijkstra);
    }
  }

  /** The branch of the loop body for a candidate with a strictly higher
      neighbour at q. */
  method LinkedRecord(g: Grid, p: Pixel, h: int, q: Pixel, threshold: real, useDijkstra: bool)
    returns (rec: seq<Prominent>)
    requires IsGrid(g) && InGrid(g, p) && InGrid(g, q)
    ensures rec == Linked(g, p, h, q, threshold, useDijkstra)
  {
    rec := [];
    var saddle := LineSaddle(g, p, q);
    var prom := h - saddle;
    if prom as real >= threshold {
      if useDijkstra {
        rec := ExactRecord(g, p, h, q, threshold);
      } else {
        rec := [Prominent(p, h, prom)];
      }
    }
  }

  /** The use_dijkstra branch: the exact saddle replaces the line estimate,
      and the record is kept when the exact prominence still passes. */
  method ExactRecord(g: Grid, p: Pixel, h: int, q: Pixel, threshold: real) returns (rec: seq<Prominent>)
    requires IsGrid(g) && InGrid(g, p) && InGrid(g, q)
    ensures rec == if (h - Saddle(g, p, q)) as real >= threshold then [Prominent(p, h, h - Saddle(g, p, q))] else []
  {
    var saddle := Search.GetMaxminSaddle(g, p, q);
    var prom := h - saddle;
    rec := if prom as real >= threshold then [Prominent(p, h, prom)] else [];
  }

  /** calculate_prominent_peaks(candidates, height_map, threshold, use_dijkstra). */
  method CalculateProminentPeaks(g: Grid, cands: seq<Pixel>, threshold: real, useDijkstra: bool)
    returns (peaks: seq<Prominent>)
    requires IsGrid(g) && AllInGrid(g, cands)
    ensures peaks == ProminentPeaks(g, cands, threshold, useDijkstra)
  {
    if |cands| == 0 {
      return [];
    }
    var ranked := Ranked(g, cands);
    var coords, heights := Positions(ranked), Elevations(ranked);
    var nearest := ComputeNearestHigher(coords, heights);
    ghost var recs := Records(g, coords, heights, threshold, useDijkstra);
    peaks := [];
    for i := 0 to |coords|
      invariant peaks == Joined(recs, i)
    {
      var rec := CandidateRecord(g, coords, heights, i, nearest[i], threshold, useDijkstra);
      assert rec == recs[i];
      peaks := peaks + rec;
    }
  }

  // ---------------------------------------------------------------------
  // Properties of the result
  // ---------------------------------------------------------------------

  /** Record e was produced by ranked candidate k: same pixel and height,
      prominence at the threshold or above, and either the height itself or
      non-negative. */
  predicate ComesFrom(coords: seq<Pixel>, heights: seq<int>, e: Prominent, k: nat, threshold: real)
    requires |coords| == |heights| && k < |coords|
  {
    e.pos == coords[k] && e.height == heights[k] && e.prominence as real >= threshold &&
    (e.prominence == e.height || 0 <= e.prominence)
  }

  /** The record of candidate i, if any, comes from it; it is the height
      itself when no candidate is strictly higher. */
  lemma PeakAtComesFrom(g: Grid, coords: seq<Pixel>, heights: seq<int>, i: nat, threshold: real, useDijkstra: bool)
    requires Table(g, coords, heights) && i < |coords|
    ensures |PeakAt(g, coords, heights, i, threshold, useDijkstra)| <= 1
    ensures forall a :: 0 <= a < |PeakAt(g, coords, heights, i, threshold, useDijkstra)| ==>
              ComesFrom(coords, heights, PeakAt(g, coords, heights, i, threshold, useDijkstra)[a], i, threshold) &&
              (NearestHigher(coords, heights, i) == -1 ==>
                 PeakAt(g, coords, heights, i, threshold, useDijkstra)[a].prominence == heights[i])
  {
    var j := NearestHigher(coords, heights, i);
    if j != -1 {
      var p, q := coords[i], coords[j];
      var s := Saddle(g, p, q);
      SaddleIsBottleneck(g, p, q);
      BottleneckBelowEndpoints(g, p, q, s);
      assert LineSaddle(g, p, q) <= At(g, p);
    }
  }

  /** Every entry holds at most one record, and it comes from its own
      candidate. */
  predicate FromCandidates(coords: seq<Pixel>, heights: seq<int>, rs: seq<seq<Prominent>>, threshold: real)
    requires |coords| == |heights| == |rs|
  {
    forall i :: 0 <= i < |rs| ==>
      |rs[i]| <= 1 && forall a :: 0 <= a < |rs[i]| ==> ComesFrom(coords, heights, rs[i][a], i, threshold)
  }

  /** The records computed for the ranked candidates come from them. */
  lemma RecordsFromCandidates(g: Grid, coords: seq<Pixel>, heights: seq<int>, threshold: real, useDijkstra: bool)
    requires Table(g, coords, heights)
    ensures FromCandidates(coords, heights, Records(g, coords, heights, threshold, useDijkstra), threshold)
  {
    var rs := Records(g, coords, heights, threshold, useDijkstra);
    forall i | 0 <= i < |rs|
      ensures |rs[i]| <= 1 && forall a :: 0 <= a < |rs[i]| ==> ComesFrom(coords, heights, rs[i][a], i, threshold)
    {
      PeakAtComesFrom(g, coords, heights, i, threshold, useDijkstra);
    }
  }

  /** The records of the first m candidates, in order, come from strictly
      increasing ranked candidates below m: origin[a] is the candidate that
      produced record a. */
  lemma {:induction false} KeptOrigins(coords: seq<Pixel>, heights: seq<int>, rs: seq<seq<Prominent>>, m: nat,
                                       threshold: real)
    returns (origin: seq<nat>)
    requires |coords| == |heights| == |rs| && m <= |rs| && FromCandidates(coords, heights, rs, threshold)
    ensures |origin| == |Joined(rs, m)|
    ensures forall a :: 0 <= a < |origin| ==>
              origin[a] < m && ComesFrom(coords, heights, Joined(rs, m)[a], origin[a], threshold)
    ensures forall a, b :: 0 <= a < b < |origin| ==> origin[a] < origin[b]
  {
    if m == 0 {
      origin := [];
    } else {
      var o := KeptOrigins(coords, heights, rs, m - 1, threshold);
      origin := AppendOrigins(coords, heights, threshold, m, Joined(rs, m - 1), rs[m - 1], o);
    }
  }

  /** Appending the at most one record of candidate m - 1 to records that
      come from candidates below m - 1. */
  lemma AppendOrigins(coords: seq<Pixel>, heights: seq<int>, threshold: real, m: nat,
                      front: seq<Prominent>, last: seq<Prominent>, o: seq<nat>)
    returns (origin: seq<nat>)
    requires |coords| == |heights| && 0 < m <= |coords|
    requires |o| == |front| && |last| <= 1
    requires forall a :: 0 <= a < |o| ==> o[a] < m - 1 && ComesFrom(coords, heights, front[a], o[a], threshold)
    requires forall a, b :: 0 <= a < b < |o| ==> o[a] < o[b]
    requires forall a :: 0 <= a < |last| ==> ComesFrom(coords, heights, last[a], m - 1, threshold)
    ensures |origin| == |front + last|
    ensures forall a :: 0 <= a < |origin| ==>
              origin[a] < m && ComesFrom(coords, heights, (front + last)[a], origin[a], threshold)
    ensures forall a, b :: 0 <= a < b < |origin| ==> origin[a] < origin[b]
  {
    var all := front + last;
    origin := o + seq(|last|, _ => m - 1);
    forall a | 0 <= a < |origin|
      ensures origin[a] < m && ComesFrom(coords, heights, all[a], origin[a], threshold)
    {
      if a < |o| {
        assert all[a] == front[a] && origin[a] == o[a];
      } else {
        assert all[a] == last[a - |front|] && origin[a] == m - 1;
      }
    }
    forall a, b | 0 <= a < b < |origin|
      ensures origin[a] < origin[b]
    {
      if b < |o| {
        assert origin[a] == o[a] && origin[b] == o[b];
      } else {
        assert origin[a] == o[a] && origin[b] == m - 1;
      }
    }
  }

  /** A candidate with no strictly higher candidate is kept, with its
      height as prominence, exactly when the height reaches the threshold. */
  lemma HighestKeptIffThreshold(g: Grid, coords: seq<Pixel>, heights: seq<int>, i: nat, threshold: real,
                                useDijkstra: bool)
    requires Table(g, coords, heights) && i < |coords| && NearestHigher(coords, heights, i) == -1
    ensures PeakAt(g, coords, heights, i, threshold, useDijkstra) ==
              if heights[i] as real >= threshold then [Prominent(coords[i], heights[i], heights[i])] else []
  {
  }

  /** Heights never increase along the records when the candidates are
      ranked. */
  lemma KeptHeightsNonIncreasing(coords: seq<Pixel>, heights: seq<int>, rs: seq<seq<Prominent>>, m: nat,
                                 threshold: real)
    requires |coords| == |heights| == |rs| && m <= |rs| && FromCandidates(coords, heights, rs, threshold)
    requires Descending(heights)
    ensures forall a, b :: 0 <= a < b < |Joined(rs, m)| ==> Joined(rs, m)[a].height >= Joined(rs, m)[b].height
  {
    var origin := KeptOrigins(coords, heights, rs, m, threshold);
  }

  /** The main properties of calculate_prominent_peaks: every record passes
      the threshold and is one of the candidates with its own height; the
      heights come out non-increasing; the prominence is the height itself
      or non-negative. */
  lemma ProminentPeaksProperties(g: Grid, cands: seq<Pixel>, threshold: real, useDijkstra: bool)
    requires IsGrid(g) && AllInGrid(g, cands)
    ensures forall a :: 0 <= a < |ProminentPeaks(g, cands, threshold, useDijkstra)| ==>
              var e := ProminentPeaks(g, cands, threshold, useDijkstra)[a];
              e.prominence as real >= threshold && e.pos in cands && InGrid(g, e.pos) &&
              e.height == At(g, e.pos) && (e.prominence == e.height || e.prominence >= 0)
    ensures forall a, b :: 0 <= a < b < |ProminentPeaks(g, cands, threshold, useDijkstra)| ==>
              ProminentPeaks(g, cands, threshold, useDijkstra)[a].height >=
              ProminentPeaks(g, cands, threshold, useDijkstra)[b].height
  {
    if |cands| > 0 {
      var r := Ranked(g, cands);
      var coords, heights := Positions(r), Elevations(r);
      var rs := Records(g, coords, heights, threshold, useDijkstra);
      RecordsFromCandidates(g, coords, heights, threshold, useDijkstra);
      var origin := KeptOrigins(coords, heights, rs, |r|, threshold);
      KeptHeightsNonIncreasing(coords, heights, rs, |r|, threshold);
    }
  }

  /** Every record of an entry below m is among the first m entries. */
  lemma {:induction false} JoinedComplete(rs: seq<seq<Prominent>>, m: nat, i: nat)
    requires i < m <= |rs|
    ensures forall a :: 0 <= a < |rs[i]| ==> rs[i][a] in Joined(rs, m)
  {
    if i < m - 1 {
      JoinedComplete(rs, m - 1, i);
    }
    assert Joined(rs, m) == Joined(rs, m - 1) + rs[m - 1];
  }

  /** Conversely to KeptOrigins: the record ranked candidate i yields, if
      any, is in the result. */
  lemma ProminentPeaksComplete(g: Grid, cands: seq<Pixel>, threshold: real, useDijkstra: bool, i: nat)
    requires IsGrid(g) && AllInGrid(g, cands) && i < |cands|
    ensures var r := Ranked(g, cands);
      forall a :: 0 <= a < |PeakAt(g, Positions(r), Elevations(r), i, threshold, useDijkstra)| ==>
        PeakAt(g, Positions(r), Elevations(r), i, threshold, useDijkstra)[a] in
          ProminentPeaks(g, cands, threshold, useDijkstra)
  {
    var r := Ranked(g, cands);
    var rs := Records(g, Positions(r), Elevations(r), threshold, useDijkstra);
    JoinedComplete(rs, |r|, i);
  }

  /** A candidate with no strictly higher candidate and a height at the
      threshold is in the result with its height as prominence. */
  lemma HighestInResult(g: Grid, cands: seq<Pixel>, threshold: real, useDijkstra: bool, i: nat)
    requires IsGrid(g) && AllInGrid(g, cands) && i < |cands|
    requires var r := Ranked(g, cands);
      NearestHigher(Positions(r), Elevations(r), i) == -1 && r[i].height as real >= threshold
    ensures var r := Ranked(g, cands);
      Prominent(r[i].pos, r[i].height, r[i].height) in ProminentPeaks(g, cands, threshold, useDijkstra)
  {
    var r := Ranked(g, cands);
    var coords, heights := Positions(r), Elevations(r);
    HighestKeptIffThreshold(g, coords, heights, i, threshold, useDijkstra);
    ProminentPeaksComplete(g, cands, threshold, useDijkstra, i);
    var rec := PeakAt(g, coords, heights, i, threshold, useDijkstra);
    assert rec == [Prominent(r[i].pos, r[i].height, r[i].height)];
    assert rec[0] in ProminentPeaks(g, cands, threshold, useDijkstra);
  }

  /** Ranking distinct candidates gives distinct positions. */
  lemma RankedDistinct(g: Grid, cands: seq<Pixel>)
    requires IsGrid(g) && AllInGrid(g, cands) && Distinct(cands)
    ensures Distinct(Positions(Ranked(g, cands)))
  {
    var tagged := Tagged(g, cands);
    var r := Ranked(g, cands);
    assert Distinct(tagged) by {
      forall a, b | 0 <= a < b < |tagged|
        ensures tagged[a] != tagged[b]
      {
        assert tagged[a].pos == cands[a] && tagged[b].pos == cands[b];
      }
    }
    PermutationKeepsDistinct(tagged, r);
    var ps := Positions(r);
    forall a, b | 0 <= a < b < |ps|
      ensures ps[a] != ps[b]
    {
      assert r[a] == Cand(r[a].pos, r[a].height) && r[b] == Cand(r[b].pos, r[b].height);
    }
  }

  /** Distinct candidates give records at distinct positions. */
  lemma ProminentPeaksDistinct(g: Grid, cands: seq<Pixel>, threshold: real, useDijkstra: bool)
    requires IsGrid(g) && AllInGrid(g, cands) && Distinct(cands)
    ensures forall a, b :: 0 <= a < b < |ProminentPeaks(g, cands, threshold, useDijkstra)| ==>
              ProminentPeaks(g, cands, threshold, useDijkstra)[a].pos != ProminentPeaks(g, cands, threshold, useDijkstra)[b].pos
  {
    if |cands| > 0 {
      var r := Ranked(g, cands);
      var coords, heights := Positions(r), Elevations(r);
      RankedDistinct(g, cands);
      var rs := Records(g, coords, heights, threshold, useDijkstra);
      RecordsFromCandidates(g, coords, heights, threshold, useDijkstra);
      var origin := KeptOrigins(coords, heights, rs, |r|, threshold);
    }
  }

  /** No candidates, no records (the early return). */
  lemma NoCandidatesNoPeaks(g: Grid, threshold: real, useDijkstra: bool)
    requires IsGrid(g)
    ensures ProminentPeaks(g, [], threshold, useDijkstra) == []
  {
  }
}
