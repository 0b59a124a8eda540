# Peak finder — a verified model of the peak-extraction core

This project models the peak extraction of `peak_analysis.py`.
The program reads a digital elevation model (a 2-D grid of integer heights). It finds the summits of that model and filters them by four measures:

- **prominence:** how far one must descend before reaching higher ground;
- **dominance:** the distance to the nearest pixel at least as high;
- **orographic dominance:** prominence as a percentage of height;
- **minimum height.**

The pipeline `find_peaks` runs in five stages:

1. **Border zeroing** (`set_image_borders_to_zero`, module `Border`). The caller's grid is changed in place: a frame `width` pixels wide becomes 0. Python's `img[-0:]` selects every row and every column, so a width of 0 clears the whole grid.
2. **Candidate detection** (`find_local_maxima`, module `Maxima`).
   - A pixel is a candidate when it equals the maximum of its 7×7 neighbourhood clipped to the grid, and it is not the grid minimum.
   - The `reflect` border mode of `maximum_filter` gives the same maximum as the clipped window, since the reflected samples lie inside the clipped window.
   - Candidates come out in row-major order, as `np.argwhere` lists them.
3. **Prominence** (`calculate_prominent_peaks`, modules `Nearest`, `Line`, `Paths`, `Saddle`, `Sorting`, `Prominence`).
   - Candidates are ranked by decreasing height. Each is linked to its nearest strictly higher candidate; among equally near ones, the smallest rank wins.
   - A candidate with no higher one is its own prominence.
   - Otherwise a first saddle estimate is the lowest pixel on the straight digital line between the two.
   - When that estimate passes the threshold, it is replaced by the exact maximin saddle over all 4-connected paths. That saddle is computed by the modified Dijkstra search `get_maxmin_saddle`, which works on a table `best` and a binary heap of `(-saddle, x, y)` tuples.
4. **Dominance** (`calculate_dominance_distance`, `calculate_orographic_dominance`, module `Dominance`).
   - Dominance is the Euclidean distance to the nearest other pixel at least as high. It is kept squared, so comparing it with a threshold is exact.
   - Orographic dominance is `prominence / height * 100`, and 0 for height 0.
5. **Filtering** (`find_peaks`, module `Pipeline`).
   - The prominent peaks are sorted stably by decreasing height.
   - Each peak is kept when it reaches the minimum height, the orographic threshold and the dominance threshold.
   - Dominance is infinite when no earlier sorted peak is at least as high. Otherwise it is the distance from stage 4.

Each stage's entities are modelled as follows:

- **Grids:** the grid `find_peaks` receives and changes is an `array2<int>`. All other stages read a value snapshot `seq<seq<int>>` of it (`Raster.ToGrid`).
- **Stateful operations:**
  - Border zeroing, the double loop of `compute_nearest_higher` and the Dijkstra search are methods with loops and invariants.
  - `get_maxmin_saddle` updates an `array2` of bounds in place. It is proved against a ghost table and the path specification in `Paths`.
  - Each method is proved equal to a specification function, or to satisfy a specification predicate.
- **Functions and lemmas:**
  - The pure parts are functions.
  - The promises of the program are lemmas about those functions.
  - The main promises are summarised in `Pipeline.FoundPeaksProperties`. Every peak returned by `find_peaks`:
    - is a local maximum of the masked grid;
    - carries its own height;
    - meets every threshold.
  - The result is ordered by non-increasing height. A finite dominance is exactly the nearest-higher distance.

## Model

| member | source | states |
|---|---|---|
| Border.SetImageBordersToZero | peak_analysis.py:10-21 | every pixel of the frame (within `width` of an edge, or everything when `width` is 0) becomes 0 and every other pixel keeps its value; the new grid is `MaskBorder` of the old one |
| Border.ZeroRows | peak_analysis.py:17-18 | rows `lo..hi-1` become 0 and every other pixel is unchanged |
| Border.ZeroCols | peak_analysis.py:19-20 | columns `lo..hi-1` become 0 and every other pixel is unchanged |
| Border.MaskBorder | peak_analysis.py:10-21 | masking keeps the grid's shape |
| Border.FrameOfPositiveWidth | peak_analysis.py:17-20 | for a width of at least 1 the zeroed frame is exactly the pixels less than `width` from an edge |
| Border.ZeroWidthClearsGrid | peak_analysis.py:18-20 | a width of 0 zeroes every pixel (the `[-0:]` slices select everything) |
| Border.MaskIdempotent | peak_analysis.py:10-21 | zeroing the border twice is the same as once |
| Maxima.WindowMax | peak_analysis.py:35 | the maximum filter's value at p bounds every pixel of the 7×7 window clipped to the grid and is attained in it |
| Maxima.IsLocalMax | peak_analysis.py:35-40 | a pixel is a candidate when it is on the grid, equals the maximum filter there and is not the grid minimum (characterized in `LocalMaxCharacterized`) |
| Maxima.LocalMaxMask | peak_analysis.py:38-40 | the mask is set exactly where the pixel equals its window maximum and is not the grid minimum |
| Maxima.ArgWhere | peak_analysis.py:43 | lists exactly the set cells of the mask, in row-major order |
| Maxima.LocalMaxima | peak_analysis.py:35-43 | every listed pixel is a local maximum, every local maximum is listed, and the list is row-major sorted |
| Maxima.MaskListing | peak_analysis.py:38-43 | listing the set cells of a mask that marks exactly the local maxima gives every local maximum and nothing else |
| Maxima.FindLocalMaxima | peak_analysis.py:24-45 | zeroes the caller's grid border in place and returns the local maxima of the masked grid |
| Maxima.LocalMaxCharacterized | peak_analysis.py:35-40 | a pixel is a candidate if and only if it is on the grid, no pixel of its window is higher, and it is not the grid minimum |
| Maxima.FlatGridHasNoCandidates | peak_analysis.py:39-40 | a constant grid has no candidates (the minimum exclusion removes them all) |
| Maxima.FrameCellsAreNotCandidates | peak_analysis.py:32-40 | on a grid without negative heights and a border of width at least 1, no candidate lies in the zeroed frame |
| Maxima.NegativeTerrainFrameCandidates | peak_analysis.py:32-40 | on a grid whose heights are all negative, with a border of width at least 1 and an interior left over, every frame pixel is a candidate: the zeroed frame stands above the interior |
| Maxima.NegativeTerrainExample | peak_analysis.py:32-40 | on a 3×3 grid of -1 with a border of width 1, the corner pixel (0, 0) is a candidate of the masked grid |
| Line.LinePath | peak_analysis.py:48-56 | the line has max(abs(dx), abs(dy)) + 1 pixels |
| Line.LinePathIsLine | peak_analysis.py:48-56 | the line starts at p1, ends at p2, moves at most one row and one column per step, and stays in the bounding box of its ends |
| Line.LinePathInGrid | peak_analysis.py:55-56 | a line between two grid pixels stays on the grid |
| Paths.PathMin | peak_analysis.py:159 | the lowest elevation on a path: no path pixel is lower and some path pixel has it |
| Paths.PathExtend | peak_analysis.py:112-116 | stepping to a 4-neighbour extends a path and its minimum becomes `min(cur_min, neigh_h)` |
| Paths.PathExists | peak_analysis.py:112-114 | any two grid pixels are joined by a 4-connected path on the grid |
| Paths.BottleneckExists | peak_analysis.py:84-91 | some value is the maximin over all 4-paths from start to end |
| Paths.Saddle | peak_analysis.py:84-91 | the saddle height between two pixels, defined as the maximin over all 4-paths (`SaddleIsBottleneck`) |
| Paths.BottleneckUnique | peak_analysis.py:84-91 | the maximin value is unique |
| Paths.SaddleIsBottleneck | peak_analysis.py:84-91 | `Saddle` is that maximin value |
| Paths.BottleneckBelowEndpoints | peak_analysis.py:84-91 | the maximin value is at most the height of both endpoints |
| Saddle.Top | peak_analysis.py:104 | `heappop` takes the least `(-saddle, x, y)` tuple of the queue |
| Saddle.Remove | peak_analysis.py:104 | popping removes that one entry and keeps every other |
| Saddle.Neighbour | peak_analysis.py:112-113 | the four offsets in the order the loop tries them, (1,0), (-1,0), (0,1), (0,-1); each is a 4-neighbour |
| Saddle.NeighbourIndex | peak_analysis.py:112-113 | the offset index of p among the neighbours of c: -1 exactly when p is not a 4-neighbour, and otherwise the offset that reaches p |
| Saddle.StartTable | peak_analysis.py:97-98 | `best` starts at -inf everywhere except the start pixel, which holds its elevation |
| Saddle.Relaxed | peak_analysis.py:112-119 | the table and pushed entries after the first d offsets of the neighbour loop; the table keeps its shape |
| Saddle.RelaxedAt | peak_analysis.py:112-119 | after the first d offsets, a cell is `Fin(min(cur_min, neigh_h))` when it is one of those neighbours and its best was below that, and keeps its old best otherwise |
| Saddle.RelaxedCells | peak_analysis.py:111-119 | after all four offsets, exactly the 4-neighbours whose best was below `min(cur_min, neigh_h)` are raised to it; every other cell is unchanged |
| Saddle.TryNeighbour | peak_analysis.py:113-119 | one round of the neighbour loop keeps the loop invariant: the table and queue are `Relaxed` of the table and queue before the loop, one offset further |
| Saddle.Raise | peak_analysis.py:117-119 | `best[ny, nx] := saddle` and the push: the table changes at n alone, the queue gains `(saddle, n)`, and the search invariant is kept |
| Saddle.StartSearch | peak_analysis.py:92-101 | the table is `StartTable` (-inf everywhere, the start its own elevation), the queue holds the start entry alone, nothing is settled yet, and the search invariant holds |
| Saddle.RelaxNeighbours | peak_analysis.py:111-119 | the new table and queue are `Relaxed` of the old ones: each grid neighbour whose best is below `min(cur_min, neigh_h)` rises to it and is pushed in offset order, and no best value ever falls; the search invariant is kept and either the termination measure drops or nothing changes |
| Saddle.Settle | peak_analysis.py:103-119 | one round of the outer loop for a popped pixel other than the end: the pixel is settled, its neighbours relaxed, no best value falls since the start, and the termination measure drops |
| Saddle.BottleneckIsSaddle | peak_analysis.py:103-121 | the value found when the search stops is the maximin saddle and lies below both endpoints |
| Saddle.GetMaxminSaddle | peak_analysis.py:84-121 | returns the maximin over all 4-connected paths from start to end, which is at most both endpoint heights |
| Nearest.NearestWithinCorrect | peak_analysis.py:72-80 | the scan over candidates `0..m-1` gives -1 exactly when none is strictly higher, and otherwise a strictly higher one at minimal distance with the smallest index among the equally near |
| Nearest.NearestHigher | peak_analysis.py:59-82 | the nearest strictly higher candidate of i over all candidates, or -1; the result is -1 or a candidate index (characterized in `NearestHigherCorrect`) |
| Nearest.NearestHigherCorrect | peak_analysis.py:67-81 | the nearest strictly higher candidate meets that characterization over all candidates |
| Nearest.NearestUnique | peak_analysis.py:78-80 | the characterization determines the answer (the strict `<` keeps the first of equally near candidates) |
| Nearest.ComputeNearestHigher | peak_analysis.py:59-82 | every entry of `nearest` is the nearest strictly higher candidate, or -1 |
| Nearest.NoneHigherIffMinusOne | peak_analysis.py:66-81 | for coordinates below `CoordBound`, the answer is -1 if and only if no candidate is strictly higher, and is otherwise strictly higher |
| Sorting.Insert | peak_analysis.py:220 | inserting one element adds exactly it to the multiset |
| Sorting.InsertSorted | peak_analysis.py:220 | inserting into a non-increasing sequence keeps it non-increasing |
| Sorting.SortDescending | peak_analysis.py:138-140 | the result is a permutation of the input with non-increasing keys |
| Sorting.SortOfSortedIsIdentity | peak_analysis.py:220 | the stable sort leaves a sequence already non-increasing in its key unchanged |
| Sorting.PermutationKeepsDistinct | peak_analysis.py:138-140 | reordering distinct elements keeps them distinct |
| Prominence.Ranked | peak_analysis.py:134-140 | the ranked table has one entry per candidate, each a candidate with its own elevation, in non-increasing height |
| Prominence.RankedDistinct | peak_analysis.py:134-140 | ranking distinct candidates gives distinct positions |
| Prominence.LineSaddle | peak_analysis.py:158-159 | the line estimate of the saddle is at most the height of both ends |
| Prominence.Linked | peak_analysis.py:157-170 | the record a candidate with a higher neighbour yields: none when the line estimate fails the threshold, the line prominence without `use_dijkstra`, and otherwise the exact prominence when it passes |
| Prominence.PeakAt | peak_analysis.py:146-170 | the record of ranked candidate i: its height as prominence when nothing is higher and it passes, else `Linked` with its nearest higher candidate |
| Prominence.ProminentPeaks | peak_analysis.py:124-173 | the records of all ranked candidates, in rank order (properties in `ProminentPeaksProperties` and `ProminentPeaksComplete`) |
| Prominence.LinkedRecord | peak_analysis.py:157-170 | computes the record of a candidate with a strictly higher neighbour: the line estimate, then the exact saddle when it passes and `use_dijkstra` is set |
| Prominence.ExactRecord | peak_analysis.py:162-167 | the `use_dijkstra` branch: the record carries the exact prominence and is kept exactly when that passes the threshold |
| Prominence.CandidateRecord | peak_analysis.py:146-170 | the loop body appends exactly the record of candidate i given its nearest strictly higher candidate |
| Prominence.CalculateProminentPeaks | peak_analysis.py:124-173 | returns the specified record list `ProminentPeaks` |
| Prominence.PeakAtComesFrom | peak_analysis.py:151-170 | each candidate yields at most one record, with its own pixel and height and a prominence at the threshold; the prominence is the height itself when nothing is higher, and otherwise non-negative |
| Prominence.HighestKeptIffThreshold | peak_analysis.py:151-155 | a candidate with no strictly higher candidate is kept, with its height as prominence, exactly when its height reaches the threshold |
| Prominence.RecordsFromCandidates | peak_analysis.py:146-170 | every record of the table comes from its own ranked candidate |
| Prominence.KeptOrigins | peak_analysis.py:145-170 | the records come in order from strictly increasing ranks, each from the candidate of its rank |
| Prominence.KeptHeightsNonIncreasing | peak_analysis.py:137-170 | record heights never increase along the result |
| Prominence.JoinedComplete | peak_analysis.py:145-170 | every record a candidate yields is in the list the loop builds |
| Prominence.ProminentPeaksComplete | peak_analysis.py:146-172 | conversely to `RecordsFromCandidates`: every record any ranked candidate yields is in the result |
| Prominence.HighestInResult | peak_analysis.py:151-154 | a candidate with no strictly higher candidate that reaches the threshold is in the result with its height as prominence |
| Prominence.ProminentPeaksProperties | peak_analysis.py:124-173 | every record passes the threshold, is a candidate with its own height, has prominence equal to the height or non-negative, and heights never increase |
| Prominence.ProminentPeaksDistinct | peak_analysis.py:124-173 | distinct candidates give records at distinct positions |
| Prominence.NoCandidatesNoPeaks | peak_analysis.py:130-131 | no candidates give no records |
| Dominance.RowNearestCorrect | peak_analysis.py:185-190 | the scan of part of a row finds the nearest pixel there at least as high |
| Dominance.RowsNearestCorrect | peak_analysis.py:185-190 | the scan of the first rows finds the nearest pixel there at least as high |
| Dominance.DominanceDistance | peak_analysis.py:176-190 | the squared distance from the peak to the nearest other pixel at least as high, or none (characterized in `DominanceDistanceCorrect`) |
| Dominance.DominanceDistanceCorrect | peak_analysis.py:176-190 | the squared dominance is the distance to the nearest other pixel at least as high, and is absent exactly when no other pixel is that high |
| Dominance.OrographicDominance | peak_analysis.py:192-198 | 0 for height 0; otherwise the value times the height is 100 times the prominence |
| Dominance.OrographicIsPercentage | peak_analysis.py:192-198 | for a prominence between 0 and a positive height the value lies in [0, 100], and is 100 exactly when the prominence is the whole height |
| Dominance.Meets | peak_analysis.py:237 | `dominance >= dominance_threshold_val`: infinity meets every threshold, and a distance `sqrt(d2)` meets `t` when `t <= 0` or `d2 >= t * t` |
| Pipeline.HigherBeforeEmpty | peak_analysis.py:232-233 | `higher_peaks` is empty exactly when every earlier sorted peak is lower |
| Pipeline.HigherBefore | peak_analysis.py:232 | `higher_peaks`: the positions of the earlier sorted peaks at least as high, in order |
| Pipeline.DominanceOf | peak_analysis.py:231-236 | infinite when no earlier sorted peak is as high, otherwise the dominance distance (characterized in `DominanceOfCharacterized`) |
| Pipeline.SortedPeaks | peak_analysis.py:217-220 | the sorted prominent peaks lie on the grid |
| Pipeline.FilterStep | peak_analysis.py:222-238 | the loop body keeps sorted peak i with its dominance exactly as the three tests decide |
| Pipeline.Decide | peak_analysis.py:222-238 | the loop appends sorted peak i, with its own fields and dominance, exactly when it passes the three tests, and nothing otherwise |
| Pipeline.Passes | peak_analysis.py:222-238 | the three tests of the loop: minimum height, orographic threshold, dominance threshold |
| Pipeline.PeakFrom | peak_analysis.py:238 | the tuple appended for sorted peak i carries its position, height, prominence and dominance |
| Pipeline.DecideKeptFrom | peak_analysis.py:222-238 | each sorted peak yields at most one result, with its own pixel, height, prominence and dominance, and only when it passes the minimum-height, orographic and dominance tests |
| Pipeline.FilteredOrigins | peak_analysis.py:219-238 | the kept peaks come in order from strictly increasing sorted indices |
| Pipeline.FilteredHeightsNonIncreasing | peak_analysis.py:219-238 | the kept peaks never increase in height |
| Pipeline.DominanceOfCharacterized | peak_analysis.py:231-236 | on well-formed sorted peaks the dominance is infinite exactly when no earlier peak is as high, which is exactly the first peak; a finite dominance is the squared nearest-higher distance |
| Pipeline.RowMajorDistinct | peak_analysis.py:43 | a row-major sorted candidate list has no duplicates |
| Pipeline.SortedPeaksWellFormed | peak_analysis.py:217-220 | the stable sort leaves the prominent peaks unchanged, and they are on the grid at their own heights, distinct and non-increasing |
| Pipeline.PeaksOfOrigins | peak_analysis.py:219-238 | the result is a subsequence of the sorted peaks with their fields, and a peak's dominance is infinite exactly when no earlier sorted peak is as high, that is, only for the first |
| Pipeline.FilteredComplete | peak_analysis.py:221-238 | conversely to `FilteredOrigins`: every sorted peak below m that passes the three tests is kept |
| Pipeline.PeaksOfComplete | peak_analysis.py:213-242 | every sorted prominent peak that passes the three tests is in the result |
| Pipeline.FoundPeaksComplete | peak_analysis.py:200-242 | every sorted prominent peak of the masked grid that passes the three tests is returned by `find_peaks` |
| Pipeline.PeaksOfProperties | peak_analysis.py:213-242 | every peak lies on the grid at its height and meets the prominence, minimum height, orographic and dominance thresholds; heights never increase; every peak is a candidate |
| Pipeline.LocalMaxPeaksProperties | peak_analysis.py:211-242 | the same promises, and every peak is a local maximum of the grid |
| Pipeline.RankAndFilter | peak_analysis.py:213-242 | ranks and filters the candidates into the specified `PeaksOf` |
| Pipeline.PeaksOf | peak_analysis.py:213-242 | the result for the candidates of the masked grid: nothing without candidates, else the filtered sorted prominent peaks |
| Pipeline.FoundPeaks | peak_analysis.py:200-242 | the result of `find_peaks` on the caller's grid: the peaks of its masked grid and local maxima |
| Pipeline.FindPeaks | peak_analysis.py:200-242 | zeroes the caller's grid border in place and returns the specified peaks of the original grid |
| Pipeline.FoundPeaksProperties | peak_analysis.py:200-242 | every peak of `find_peaks` is a local maximum of the masked grid, at its own height, meets all thresholds, and has the nearest-higher distance as its finite dominance; heights never increase |

## Left out

- Floating point:
  - Heights are integers and thresholds exact reals.
  - `np.hypot`, `distance_transform_edt` and the division in the orographic dominance are modelled exactly: distances are kept squared, and a distance `sqrt(d2)` meets a threshold `t` when `t <= 0` or `d2 >= t * t`.
  - That this comparison agrees with the square-root one is not proved here.
  - Float rounding is not modelled.
- Maxima.FrameCellsAreNotCandidates: the border exclusion holds only on terrain without negative heights. Below zero the zeroed frame is higher than the interior, and `NegativeTerrainFrameCandidates` shows that every frame pixel then becomes a candidate; `NegativeTerrainExample` gives the 3×3 grid of -1 with a border of width 1.
- Dominance.DominanceDistance:
  - The internal algorithm of `distance_transform_edt` is not modelled; only its value at the peak is, as a scan for the nearest pixel at least as high.
  - When no other pixel is at least as high, the model reports an infinite dominance. Within `find_peaks` that case never arises: `DominanceOfCharacterized` shows that a peak with an earlier, at-least-as-high peak always has a finite distance.
- Line.LinePath: the exact pixels `skimage.draw.line` chooses are not modelled. The model takes one rounded digital line with the same contract: the same ends, the same number of pixels, 8-connected steps, inside the bounding box. The two may pick different pixels, so the line saddle estimate may differ from the library's.
- Prominence.LineSaddle: an approximate prominence at least as large as the exact one is not claimed; the straight line only gives an upper bound on the saddle.
- Prominence.Ranked:
  - `np.argsort` is not stable, and the model ranks with one fixed stable sort.
  - The order among equal heights, and hence which of two equally near higher candidates is chosen, may differ from NumPy's.
  - Only a permutation ordered by non-increasing height is claimed.
- Nearest.NoneHigherIffMinusOne:
  - The initial `min_d = 1e12`, squared, is kept as a bound.
  - The "-1 if and only if none is higher" direction is proved for coordinates below `CoordBound` (10^11), where every real distance is below the bound.
- Integer width: `np.int64` coordinates and heights, and the numba compilation, are not modelled; integers are unbounded.
- Saddle.GetMaxminSaddle: the saddle is an integer where the source returns a float. The closing `return best[ey, ex]` is modelled; the grid is 4-connected, so the end is always reached and both exits give the same value.
- Preconditions:
  - `Maxima.FindLocalMaxima` and `Pipeline.FindPeaks` require a grid with at least one row and one column. NumPy's `np.min` fails on an empty array.
- Output and ambient effects: the `print` calls, `time`, the `__main__` block and the default argument values are not modelled.
- The GUI (`gui.py`), the geographic conversions (`geo_utils.py`) and the file reader (`reader.py`) are not part of this model.
