/** find_peaks: detect the candidates on the border-masked grid, keep the
    prominent ones, order them by decreasing height (a stable sort) and keep
    those that reach the minimum height, the orographic dominance threshold
    and the dominance threshold. All later stages see the grid as
    find_local_maxima left it, with its border zeroed in place. */
module Pipeline {
  import opened Raster
  import opened Border
  import opened Maxima
  import opened Sorting
  import opened Prominence
  import opened Dominance

  /** The parameters of find_peaks. */
  datatype Settings = Settings(prominence: real, dominance: real, orographic: real, borderWidth: nat,
                               minHeight: real)

  /** One entry ((x, y), height, prominence, dominance) of the result. */
  datatype Peak = Peak(pos: Pixel, height: int, prominence: int, dominance: Dominance)

  function RecordHeight(e: Prominent): int { e.height }

  /** Every record lies on the grid. */
  predicate OnGrid(g: Grid, s: seq<Prominent>)
  {
    forall k :: 0 <= k < |s| ==> InGrid(g, s[k].pos)
  }

  /** higher_peaks: the positions of the records before index i that are at
      least h high. */
  function HigherBefore(s: seq<Prominent>, i: nat, h: int): seq<Pixel>
    requires i <= |s|
  {
    if i == 0 then []
    else HigherBefore(s, i - 1, h) + (if s[i - 1].height >= h then [s[i - 1].pos] else [])
  }

  /** higher_peaks is empty exactly when every earlier record is lower. */
  lemma {:induction false} HigherBeforeEmpty(s: seq<Prominent>, i: nat, h: int)
    requires i <= |s|
    ensures |HigherBefore(s, i, h)| == 0 <==> forall k :: 0 <= k < i ==> s[k].height < h
  {
    if i > 0 {
      HigherBeforeEmpty(s, i - 1, h);
    }
  }

  /** The dominance of record i: infinite when no earlier record is as
      high, otherwise the distance to the nearest other pixel at least as
      high (infinite as well if the grid has none). */
  function DominanceOf(g: Grid, s: seq<Prominent>, i: nat): Dominance
    requires IsGrid(g) && OnGrid(g, s) && i < |s|
  {
    if |HigherBefore(s, i, s[i].height)| == 0 then Infinite
    else
      match DominanceDistance(g, s[i].pos)
      case None => Infinite
      case Some(d) => Distance(d)
  }

  /** What the filter loop appends for sorted record i. */
  function Decide(g: Grid, s: seq<Prominent>, i: nat, cfg: Settings): (r: seq<Peak>)
    requires IsGrid(g) && OnGrid(g, s) && i < |s|
    ensures r == if Passes(g, s, i, cfg) then [PeakFrom(g, s, i)] else []
  {
    var e := s[i];
    if (e.height as real) < cfg.minHeight then []
    else if OrographicDominance(e.height, e.prominence) < cfg.orographic then []
    else
      var dom := DominanceOf(g, s, i);
      if Meets(dom, cfg.dominance) then [Peak(e.pos, e.height, e.prominence, dom)] else []
  }

  /** The peaks kept from the first m sorted records. */
  function FilteredUpTo(g: Grid, s: seq<Prominent>, m: nat, cfg: Settings): seq<Peak>
    requires IsGrid(g) && OnGrid(g, s) && m <= |s|
  {
    if m == 0 then [] else FilteredUpTo(g, s, m - 1, cfg) + Decide(g, s, m - 1, cfg)
  }

  /** The prominent peaks of the masked grid, highest first. */
  ghost function SortedPeaks(g: Grid, cands: seq<Pixel>, cfg: Settings): (s: seq<Prominent>)
    requires IsGrid(g) && AllInGrid(g, cands)
    ensures OnGrid(g, s)
  {
    var pp := ProminentPeaks(g, cands, cfg.prominence, true);
    ProminentPeaksProperties(g, cands, cfg.prominence, true);
    SortOfSortedIsIdentity(pp, RecordHeight);
    SortDescending(pp, RecordHeight)
  }

  /** What find_peaks returns for the candidates cands of the masked grid g. */
  ghost function PeaksOf(g: Grid, cands: seq<Pixel>, cfg: Settings): seq<Peak>
    requires IsGrid(g) && AllInGrid(g, cands)
  {
    if |cands| == 0 then []
    else
      var s := SortedPeaks(g, cands, cfg);
      FilteredUpTo(g, s, |s|, cfg)
  }

  /** The result of find_peaks on the grid g0 the caller passed in. */
  ghost function FoundPeaks(g0: Grid, cfg: Settings): seq<Peak>
    requires IsGrid(g0) && |g0| > 0 && Cols(g0) > 0
  {
    var g := MaskBorder(g0, cfg.borderWidth);
    PeaksOf(g, LocalMaxima(g), cfg)
  }

  /** find_peaks(dem_data, ...): dem_data has its border zeroed in place. */
  method FindPeaks(dem: array2<int>, cfg: Settings) returns (peaks: seq<Peak>)
    requires dem.Length0 > 0 && dem.Length1 > 0
    modifies dem
    ensures ToGrid(dem) == MaskBorder(old(ToGrid(dem)), cfg.borderWidth)
    ensures peaks == FoundPeaks(old(ToGrid(dem)), cfg)
  {
    var cands := FindLocalMaxima(dem, cfg.borderWidth);
    peaks := RankAndFilter(ToGrid(dem), cands, cfg);
  }

  /** The part of find_peaks after the candidates are found. */
  method RankAndFilter(g: Grid, cands: seq<Pixel>, cfg: Settings) returns (peaks: seq<Peak>)
    requires IsGrid(g) && AllInGrid(g, cands)
    ensures peaks == PeaksOf(g, cands, cfg)
  {
    if |cands| == 0 {
      return [];
    }
    var info := CalculateProminentPeaks(g, cands, cfg.prominence, true);
    var sorted := SortDescending(info, RecordHeight);
    assert sorted == SortedPeaks(g, cands, cfg);
    peaks := [];
    for i := 0 to |sorted|
      invariant peaks == FilteredUpTo(g, sorted, i, cfg)
    {
      var kept := FilterStep(g, sorted, i, cfg);
      peaks := peaks + kept;
    }
  }

  /** One pass of the filter loop of find_peaks over sorted record i. */
  method FilterStep(g: Grid, sorted: seq<Prominent>, i: nat, cfg: Settings) returns (kept: seq<Peak>)
    requires IsGrid(g) && OnGrid(g, sorted) && i < |sorted|
    ensures kept == Decide(g, sorted, i, cfg)
  {
    kept := [];
    var e := sorted[i];
    if (e.height as real) < cfg.minHeight {
      return;
    }
    var oro := OrographicDominance(e.height, e.prominence);
    if oro < cfg.orographic {
      return;
    }
    var higher := HigherBefore(sorted, i, e.height);
    var dominance := Infinite;
    if |higher| != 0 {
      var d := DominanceDistance(g, e.pos);
      if d.Some? {
        dominance := Distance(d.value);
      }
    }
    if Meets(dominance, cfg.dominance) {
      kept := [Peak(e.pos, e.height, e.prominence, dominance)];
    }
  }

  // ---------------------------------------------------------------------
  // Properties of the result
  // ---------------------------------------------------------------------

  /** Peak k was kept from sorted record i: same pixel, height and
      prominence, its dominance, and all three filters passed. */
  predicate KeptFrom(g: Grid, s: seq<Prominent>, k: Peak, i: nat, cfg: Settings)
    requires IsGrid(g) && OnGrid(g, s) && i < |s|
  {
    k.pos == s[i].pos && k.height == s[i].height && k.prominence == s[i].prominence &&
    k.dominance == DominanceOf(g, s, i) &&
    k.height as real >= cfg.minHeight && OrographicDominance(k.height, k.prominence) >= cfg.orographic &&
    Meets(k.dominance, cfg.dominance)
  }

  /** The peaks kept from the first m records come, in order, from strictly
      increasing records below m. */
  lemma {:induction false} FilteredOrigins(g: Grid, s: seq<Prominent>, m: nat, cfg: Settings)
    returns (origin: seq<nat>)
    requires IsGrid(g) && OnGrid(g, s) && m <= |s|
    ensures |origin| == |FilteredUpTo(g, s, m, cfg)|
    ensures forall a :: 0 <= a < |origin| ==> origin[a] < m && KeptFrom(g, s, FilteredUpTo(g, s, m, cfg)[a], origin[a], cfg)
    ensures forall a, b :: 0 <= a < b < |origin| ==> origin[a] < origin[b]
  {
    if m == 0 {
      origin := [];
    } else {
      var front := FilteredUpTo(g, s, m - 1, cfg);
      var last := Decide(g, s, m - 1, cfg);
      var o := FilteredOrigins(g, s, m - 1, cfg);
      DecideKeptFrom(g, s, m - 1, cfg);
      origin := AppendKept(g, s, m, cfg, front, last, o);
    }
  }

  /** What the loop appends for record i is at most one peak, kept from i. */
  lemma DecideKeptFrom(g: Grid, s: seq<Prominent>, i: nat, cfg: Settings)
    requires IsGrid(g) && OnGrid(g, s) && i < |s|
    ensures |Decide(g, s, i, cfg)| <= 1
    ensures forall a :: 0 <= a < |Decide(g, s, i, cfg)| ==> KeptFrom(g, s, Decide(g, s, i, cfg)[a], i, cfg)
  {
  }

  /** Appending the at most one peak of record m - 1 to peaks kept from
      records below m - 1. */
  lemma AppendKept(g: Grid, s: seq<Prominent>, m: nat, cfg: Settings, front: seq<Peak>, last: seq<Peak>,
                   o: seq<nat>)
    returns (origin: seq<nat>)
    requires IsGrid(g) && OnGrid(g, s) && 0 < m <= |s|
    requires |o| == |front| && |last| <= 1
    requires forall a :: 0 <= a < |o| ==> o[a] < m - 1 && KeptFrom(g, s, front[a], o[a], cfg)
    requires forall a, b :: 0 <= a < b < |o| ==> o[a] < o[b]
    requires forall a :: 0 <= a < |last| ==> KeptFrom(g, s, last[a], m - 1, cfg)
    ensures |origin| == |front + last|
    ensures forall a :: 0 <= a < |origin| ==> origin[a] < m && KeptFrom(g, s, (front + last)[a], origin[a], cfg)
    ensures forall a, b :: 0 <= a < b < |origin| ==> origin[a] < origin[b]
  {
    var all := front + last;
    origin := o + seq(|last|, _ => m - 1);
    forall a | 0 <= a < |origin|
      ensures origin[a] < m && KeptFrom(g, s, all[a], origin[a], cfg)
    {
      if a < |o| {
        assert all[a] == front[a] && origin[a] == o[a];
      } else {
        assert all[a] == last[a - |front|] && origin[a] == m - 1;
      }
    }
    forall a, b | 0 <= a < b < |origin|
      ensures origin[a] < origin[b]
    {
      if b < |o| {
        assert origin[a] == o[a] && origin[b] == o[b];
      } else {
        assert origin[a] == o[a] && origin[b] == m - 1;
      }
    }
  }

  /** The records as calculate_prominent_peaks leaves them: on the grid, as
      high as their pixel, at distinct pixels and highest first. */
  predicate WellFormed(g: Grid, s: seq<Prominent>)
  {
    IsGrid(g) && OnGrid(g, s) &&
    (forall k :: 0 <= k < |s| ==> s[k].height == At(g, s[k].pos)) &&
    (forall a, b :: 0 <= a < b < |s| ==> s[a].pos != s[b].pos && s[a].height >= s[b].height)
  }

  /** On such records the dominance is infinite exactly when no earlier
      record is as high, which is exactly the first record; otherwise it is
      the distance to the nearest other pixel at least as high. */
  lemma DominanceOfCharacterized(g: Grid, s: seq<Prominent>, i: nat)
    requires WellFormed(g, s) && i < |s|
    ensures DominanceOf(g, s, i) == Infinite <==> forall k :: 0 <= k < i ==> s[k].height < s[i].height
    ensures DominanceOf(g, s, i) == Infinite <==> i == 0
    ensures DominanceOf(g, s, i).Distance? ==>
              DominanceDistance(g, s[i].pos) == Some(DominanceOf(g, s, i).d2)
  {
    HigherBeforeEmpty(s, i, s[i].height);
    if i > 0 {
      assert s[0].height >= s[i].height;
      DominanceDistanceCorrect(g, s[i].pos);
      assert Dominates(g, s[i].pos, s[0].pos);
    }
  }

  /** The kept peaks' heights never increase when the records' do not. */
  lemma FilteredHeightsNonIncreasing(g: Grid, s: seq<Prominent>, cfg: Settings)
    requires IsGrid(g) && OnGrid(g, s) && NonIncreasing(s, RecordHeight)
    ensures forall a, b :: 0 <= a < b < |FilteredUpTo(g, s, |s|, cfg)| ==>
              FilteredUpTo(g, s, |s|, cfg)[a].height >= FilteredUpTo(g, s, |s|, cfg)[b].height
  {
    var origin := FilteredOrigins(g, s, |s|, cfg);
    var res := FilteredUpTo(g, s, |s|, cfg);
    forall a, b | 0 <= a < b < |res|
      ensures res[a].height >= res[b].height
    {
      assert RecordHeight(s[origin[a]]) >= RecordHeight(s[origin[b]]);
    }
  }

  /** Pixels listed in row-major order are distinct. */
  lemma RowMajorDistinct(ps: seq<Pixel>)
    requires RowMajorSorted(ps)
    ensures Distinct(ps)
  {
    forall a, b | 0 <= a < b < |ps|
      ensures ps[a] != ps[b]
    {
      assert RowMajorBefore(ps[a], ps[b]);
    }
  }

  /** The sorted records are well formed, and sorting them changed nothing:
      calculate_prominent_peaks already returns them highest first, and the
      stable sort keeps that order. */
  lemma SortedPeaksWellFormed(g: Grid, cands: seq<Pixel>, cfg: Settings)
    requires IsGrid(g) && AllInGrid(g, cands) && Distinct(cands)
    ensures SortedPeaks(g, cands, cfg) == ProminentPeaks(g, cands, cfg.prominence, true)
    ensures WellFormed(g, SortedPeaks(g, cands, cfg))
  {
    var pp := ProminentPeaks(g, cands, cfg.prominence, true);
    ProminentPeaksProperties(g, cands, cfg.prominence, true);
    ProminentPeaksDistinct(g, cands, cfg.prominence, true);
    SortOfSortedIsIdentity(pp, RecordHeight);
  }

  /** Every peak of find_peaks on distinct candidates is a sorted record that
      passed all three filters; it keeps the record's pixel, height and
      prominence, and its dominance is infinite exactly when no earlier
      sorted record is as high (that is, for the first record only); the
      records kept come in sorted order. */
  lemma PeaksOfOrigins(g: Grid, cands: seq<Pixel>, cfg: Settings) returns (origin: seq<nat>)
    requires IsGrid(g) && AllInGrid(g, cands) && Distinct(cands) && |cands| > 0
    ensures |origin| == |PeaksOf(g, cands, cfg)|
    ensures forall a, b :: 0 <= a < b < |origin| ==> origin[a] < origin[b]
    ensures forall a :: 0 <= a < |origin| ==>
              var e, k, s := PeaksOf(g, cands, cfg)[a], origin[a], SortedPeaks(g, cands, cfg);
              k < |s| && e.pos == s[k].pos && e.height == s[k].height && e.prominence == s[k].prominence &&
              (e.dominance == Infinite <==> forall j :: 0 <= j < k ==> s[j].height < e.height) &&
              (e.dominance == Infinite <==> k == 0)
  {
    var s := SortedPeaks(g, cands, cfg);
    SortedPeaksWellFormed(g, cands, cfg);
    origin := FilteredOrigins(g, s, |s|, cfg);
    var res := PeaksOf(g, cands, cfg);
    forall a | 0 <= a < |origin|
      ensures (res[a].dominance == Infinite <==> forall j :: 0 <= j < origin[a] ==> s[j].height < res[a].height) &&
              (res[a].dominance == Infinite <==> origin[a] == 0)
    {
      DominanceOfCharacterized(g, s, origin[a]);
    }
  }

  /** Sorted record i passes the three filters of the loop. */
  predicate Passes(g: Grid, s: seq<Prominent>, i: nat, cfg: Settings)
    requires IsGrid(g) && OnGrid(g, s) && i < |s|
  {
    s[i].height as real >= cfg.minHeight &&
    OrographicDominance(s[i].height, s[i].prominence) >= cfg.orographic &&
    Meets(DominanceOf(g, s, i), cfg.dominance)
  }

  /** The peak the loop appends for sorted record i. */
  function PeakFrom(g: Grid, s: seq<Prominent>, i: nat): (e: Peak)
    requires IsGrid(g) && OnGrid(g, s) && i < |s|
    ensures e.pos == s[i].pos && e.height == s[i].height && e.prominence == s[i].prominence
    ensures e.dominance == DominanceOf(g, s, i)
  {
    Peak(s[i].pos, s[i].height, s[i].prominence, DominanceOf(g, s, i))
  }

  /** Conversely to FilteredOrigins: every sorted record below m that
      passes the filters is kept. */
  lemma {:induction false} FilteredComplete(g: Grid, s: seq<Prominent>, m: nat, cfg: Settings, i: nat)
    requires IsGrid(g) && OnGrid(g, s) && i < m <= |s| && Passes(g, s, i, cfg)
    ensures PeakFrom(g, s, i) in FilteredUpTo(g, s, m, cfg)
  {
    if i < m - 1 {
      FilteredComplete(g, s, m - 1, cfg, i);
    } else {
      assert Decide(g, s, i, cfg) == [PeakFrom(g, s, i)];
    }
    assert FilteredUpTo(g, s, m, cfg) == FilteredUpTo(g, s, m - 1, cfg) + Decide(g, s, m - 1, cfg);
  }

  /** Every sorted prominent peak that passes the filters is in the
      result of the ranking and filtering stage. */
  lemma PeaksOfComplete(g: Grid, cands: seq<Pixel>, cfg: Settings, i: nat)
    requires IsGrid(g) && AllInGrid(g, cands) && |cands| > 0
    requires i < |SortedPeaks(g, cands, cfg)| && Passes(g, SortedPeaks(g, cands, cfg), i, cfg)
    ensures PeakFrom(g, SortedPeaks(g, cands, cfg), i) in PeaksOf(g, cands, cfg)
  {
    var s := SortedPeaks(g, cands, cfg);
    FilteredComplete(g, s, |s|, cfg, i);
  }

  /** Every prominent peak of the masked grid that passes the filters is
      returned by find_peaks. */
  lemma FoundPeaksComplete(g0: Grid, cfg: Settings, i: nat)
    requires IsGrid(g0) && |g0| > 0 && Cols(g0) > 0
    requires var g := MaskBorder(g0, cfg.borderWidth);
      var s := SortedPeaks(g, LocalMaxima(g), cfg);
      i < |s| && Passes(g, s, i, cfg)
    ensures var g := MaskBorder(g0, cfg.borderWidth);
      PeakFrom(g, SortedPeaks(g, LocalMaxima(g), cfg), i) in FoundPeaks(g0, cfg)
  {
    var g := MaskBorder(g0, cfg.borderWidth);
    PeaksOfComplete(g, LocalMaxima(g), cfg, i);
  }

  /** What find_peaks promises of one peak e of the masked grid g: it lies
      on the grid with its own elevation, its prominence reaches the
      prominence threshold, its height the minimum height, its orographic
      dominance and its dominance their thresholds, and a finite dominance
      is the squared distance to the nearest other pixel at least as high. */
  predicate PeakPromise(g: Grid, e: Peak, cfg: Settings)
    requires IsGrid(g)
  {
    InGrid(g, e.pos) && e.height == At(g, e.pos) &&
    e.prominence as real >= cfg.prominence && e.height as real >= cfg.minHeight &&
    OrographicDominance(e.height, e.prominence) >= cfg.orographic && Meets(e.dominance, cfg.dominance) &&
    (e.dominance.Distance? ==> DominanceDistance(g, e.pos) == Some(e.dominance.d2))
  }

  /** Every peak keeps the promise, and the heights never increase. */
  predicate Promised(g: Grid, res: seq<Peak>, cfg: Settings)
    requires IsGrid(g)
  {
    (forall a :: 0 <= a < |res| ==> PeakPromise(g, res[a], cfg)) &&
    (forall a, b :: 0 <= a < b < |res| ==> res[a].height >= res[b].height)
  }

  /** The ranking and filtering stage keeps the promise on distinct
      candidates, and every peak is one of them. */
  lemma PeaksOfProperties(g: Grid, cands: seq<Pixel>, cfg: Settings)
    requires IsGrid(g) && AllInGrid(g, cands) && Distinct(cands)
    ensures Promised(g, PeaksOf(g, cands, cfg), cfg)
    ensures forall a :: 0 <= a < |PeaksOf(g, cands, cfg)| ==> PeaksOf(g, cands, cfg)[a].pos in cands
  {
    if |cands| > 0 {
      var s := SortedPeaks(g, cands, cfg);
      SortedPeaksWellFormed(g, cands, cfg);
      ProminentPeaksProperties(g, cands, cfg.prominence, true);
      var origin := FilteredOrigins(g, s, |s|, cfg);
      FilteredHeightsNonIncreasing(g, s, cfg);
      var res := PeaksOf(g, cands, cfg);
      forall a | 0 <= a < |res|
        ensures PeakPromise(g, res[a], cfg) && res[a].pos in cands
      {
        DominanceOfCharacterized(g, s, origin[a]);
      }
    }
  }

  /** On the candidates of a grid every peak is moreover a local maximum. */
  lemma LocalMaxPeaksProperties(g: Grid, cfg: Settings)
    requires IsGrid(g) && |g| > 0 && Cols(g) > 0
    ensures Promised(g, PeaksOf(g, LocalMaxima(g), cfg), cfg)
    ensures forall a :: 0 <= a < |PeaksOf(g, LocalMaxima(g), cfg)| ==>
              IsLocalMax(g, PeaksOf(g, LocalMaxima(g), cfg)[a].pos)
  {
    var cands := LocalMaxima(g);
    RowMajorDistinct(cands);
    PeaksOfProperties(g, cands, cfg);
    var res := PeaksOf(g, cands, cfg);
    forall a | 0 <= a < |res|
      ensures IsLocalMax(g, res[a].pos)
    {
      assert res[a].pos in cands;
    }
  }

  /** The promises of find_peaks on the grid the caller passed in: every
      peak is a local maximum of the border-masked grid and keeps the
      promise there. */
  lemma FoundPeaksProperties(g0: Grid, cfg: Settings)
    requires IsGrid(g0) && |g0| > 0 && Cols(g0) > 0
    ensures Promised(MaskBorder(g0, cfg.borderWidth), FoundPeaks(g0, cfg), cfg)
    ensures forall a :: 0 <= a < |FoundPeaks(g0, cfg)| ==>
              IsLocalMax(MaskBorder(g0, cfg.borderWidth), FoundPeaks(g0, cfg)[a].pos)
  {
    LocalMaxPeaksProperties(MaskBorder(g0, cfg.borderWidth), cfg);
  }
}
