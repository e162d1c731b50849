# Embedding explorer core, modelled in Dafny

The embedding explorer (the `App` component of `src/App.jsx` together with
`src/utils/umap.js`) shows a corpus of embedding vectors, one per patient
document, as a 3-D point cloud. This project models its core:

- **Distance engine** (`distance.dfy`): `euclideanDistance`, and `cosineDistance` with its accumulation loop. Both throw on a dimension mismatch.
- **Normaliser** (`normalize.dfy`): `normalizeEmbeddings`, the column-wise z-score with the population standard deviation and the divisor `std || 1`, written with its accumulation passes over arrays.
- **Neighbour ranker** (`ranking.dfy`): the block shared by the click handler and the two effects on `neighborsChanged` and `distanceType`. It greys every point and paints the focal point red. It measures every point against the focal point and stable-sorts the measurements (ascending for Euclidean, descending for cosine). `colorizeClosestNodes` then paints sorted positions `1..k` in three opacity tiers, and the first `k` measurements become the neighbour table.
- **Iterative projection** (`umap_stepper.dfy`): `runUmapAsync`. It calls `initializeFit` once, then steps and reports progress `epochs` times, then calls `getEmbedding`. The UMAP object is a class whose embedding is updated in place and which logs the calls made on it. The method returns those calls, interleaved with the progress reports, as a trace.
- **Session** (`session.dfy`): the component state and the operations that change it:
  - `addEmbedding`;
  - the attach step of `runUmap`, with its coordinate cache;
  - the PCA branch of the effect on `[algorithm, data]`;
  - the effect on the PCA axes;
  - the three re-ranking entry points.

`common.dfy` holds the error results and the square root. JavaScript numbers are modelled as reals. `Math.sqrt` is a parameter `sqrt` constrained by `IsSqrt`: on a non-negative argument it returns the non-negative number whose square is that argument. `Math.random`, the embedding service, and the PCA and UMAP numerics are also parameters. An exception that ends a handler or an effect is an `Err` result.

Behaviours of the code worth knowing, each of which the model keeps:

- `colorizeClosestNodes` can repaint the focal point (`src/App.jsx:318-327`). The loop paints sorted positions `1..k`, and the focal point need not sit at position 0:
  - under cosine, a point with a larger quotient ranks before the focal point (`Ranking.CosineFocalRepainted`);
  - under Euclidean, an earlier point with an identical embedding does the same (`Ranking.EuclideanFocalFirst`).
- `k` is not clamped to the corpus size (`src/App.jsx:314-330`): with `k >= n` the loop reads `distances[n]` and throws (`IndexOutOfRange`). The neighbour count starts at 1000 (`src/App.jsx:124`) and the slider's minimum is 100 (`src/App.jsx:1647`), so a corpus of at most `k` points gets no ranking at all (`Session.ClickOnSmallCorpusOnlySelects`).
- The cosine value is not confined to [-1, 1] (`src/App.jsx:110-113`): each magnitude is rooted twice, so a vector's value against itself is its magnitude (`Distance.CosineSelfIsMagnitude`, `Distance.CosineExceedsOne`).
- Loading the corpus does not check that all embeddings have one dimensionality (`src/App.jsx:500-567`): the ranking throws on a mismatch against the focal point, and the normaliser takes its column count from the first row (`src/App.jsx:287`).
- The projection loop cannot be cancelled (`src/utils/umap.js:16-37`): once started it always runs all `epochs` steps.

## Model

| member | source | states |
|---|---|---|
| Common.Pow2 | src/App.jsx:302 | `Math.pow(x, 2)` is never negative |
| Distance.EuclideanDistance | src/App.jsx:83-93 | fails with `DimensionMismatch` exactly when the lengths differ; otherwise a non-negative value whose square is the sum of squared differences |
| Distance.CosineDistance | src/App.jsx:95-114 | fails exactly on a length mismatch; otherwise the loop's dot product and magnitudes give `Dot(a, b) / (sqrt(sqrt(NormSq(a))) * sqrt(sqrt(NormSq(b))))` (`CosineQuotient`) |
| Distance.SquaredDiffSum | src/App.jsx:89-91 | the reduced sum of squared differences is non-negative |
| Distance.NormSq | src/App.jsx:104-108 | an accumulated squared magnitude is non-negative |
| Distance.SquaredDiffSumSymmetric | src/App.jsx:89-91 | the sum of squared differences does not depend on argument order |
| Distance.EuclideanSymmetric | src/App.jsx:83-93 | `euclideanDistance(a, b) == euclideanDistance(b, a)`, the error case included |
| Distance.SquaredDiffSumZeroIff | src/App.jsx:89-91 | the sum of squared differences is 0 exactly on equal vectors |
| Distance.EuclideanZeroIffEqual | src/App.jsx:83-93 | the distance is 0 if and only if the vectors are equal |
| Distance.DotSymmetric | src/App.jsx:104-105 | the accumulated dot product is symmetric |
| Distance.DotSelf | src/App.jsx:104-108 | a vector's dot product with itself is its squared magnitude |
| Distance.CosineSymmetric | src/App.jsx:95-114 | the cosine quotient is symmetric |
| Distance.CosineSelfIsMagnitude | src/App.jsx:110-113 | a vector's cosine value against itself is its magnitude, not 1 |
| Distance.CosineExceedsOne | src/App.jsx:110-113 | for `[4]` against itself the quotient is 4: the value is not confined to [-1, 1] |
| Distance.CosineQuotient | src/App.jsx:110-113 | the divisor is positive, so the quotient times the divisor gives back the dot product, and the value is positive, zero or negative exactly as the dot product is |
| Distance.MetricValue | src/App.jsx:661-666 | the value the ranking compares: under Euclidean non-negative, its square the sum of squared differences, 0 exactly for an identical embedding; under cosine positive exactly when the dot product is |
| Normalize.SquaredDeviation | src/App.jsx:300-304 | the accumulated squared deviation is non-negative |
| Normalize.Column | src/App.jsx:292-296 | a column has one entry per row |
| Normalize.Divisor | src/App.jsx:310 | the divisor (the deviation, or 1 in place of a zero deviation) is never 0, and equals the deviation whenever that is non-zero |
| Normalize.Standardized | src/App.jsx:309-311 | the z-scores of a column have one entry per row |
| Normalize.Means | src/App.jsx:298 | one mean per feature |
| Normalize.Stds | src/App.jsx:306 | one deviation per feature |
| Normalize.Normalized | src/App.jsx:309-311 | the output has one row per input row, each as long as its input row |
| Normalize.NormalizedInverts | src/App.jsx:309-311 | normalising loses nothing: an output times its column divisor plus its column mean is the input |
| Normalize.ColumnSums | src/App.jsx:292-296 | the first pass leaves, in a fresh array, every column's sum |
| Normalize.ColumnSquaredDeviations | src/App.jsx:300-304 | the second pass leaves every column's squared deviation from the given means |
| Normalize.DivideByCount | src/App.jsx:298 | dividing every column sum by the row count leaves every column mean in place |
| Normalize.RootOfVariance | src/App.jsx:306 | replacing every squared deviation by the root of its quotient by the row count leaves every column's population deviation in place |
| Normalize.NormalizeEmbeddings | src/App.jsx:286-312 | fails (`EmptyInput`) exactly on an empty matrix; otherwise returns the column-wise z-scores `Normalized(data)`, with the shape of the input |
| Normalize.ColumnOfPrefix | src/App.jsx:292-296 | one more row adds its entry to the column sum |
| Normalize.SquaredDeviationOfPrefix | src/App.jsx:300-304 | one more row adds its squared deviation |
| Normalize.SumOfConstant | src/App.jsx:292-298 | the sum of `n` copies of `c` is `n * c` |
| Normalize.ConstantColumnNormalizesToZero | src/App.jsx:306-311 | a constant feature normalises to 0 everywhere (the fallback divisor 1 avoids the division by zero) |
| Normalize.SumOfStandardized | src/App.jsx:309-311 | the z-scores of a column sum to `(sum - n*m) / d` |
| Normalize.ColumnOfNormalized | src/App.jsx:309-311 | each output column is the z-scores of the input column |
| Normalize.MeanTimesCount | src/App.jsx:298 | the mean times the row count is the column sum |
| Normalize.StandardizedSumsToZero | src/App.jsx:298-311 | the z-scores of a column around its own mean sum to 0 for any divisor |
| Normalize.NormalizedColumnSumsToZero | src/App.jsx:286-312 | every output column has mean 0 |
| Normalize.SquaredZScore | src/App.jsx:310 | a squared z-score times the squared divisor is the squared deviation |
| Normalize.SquaredDeviationIsSumOfSquares | src/App.jsx:300-304 | the accumulated squared deviation is the sum of the per-row squared deviations |
| Normalize.SquaresOfStandardized | src/App.jsx:300-311 | row by row, a squared z-score times the squared divisor is that row's squared deviation |
| Normalize.ScaledSquaredDeviation | src/App.jsx:300-304 | when every per-row squared deviation of one column scales by `p` to that of another, so does the accumulated total |
| Normalize.SquaredDeviationOfStandardized | src/App.jsx:300-311 | standardising divides the squared deviation by the squared divisor |
| Normalize.StandardizedHasUnitVariance | src/App.jsx:300-311 | a column standardised by its own non-zero deviation has population variance 1 |
| Normalize.NormalizedColumnHasUnitVariance | src/App.jsx:286-312 | every output column whose input deviation is non-zero has population variance 1 |
| Points.Greyed | src/App.jsx:381-386 | definition of the grey reset: every point with its colour replaced by the neutral grey |
| Ranking.NotBeforeTransitive | src/App.jsx:668-672 | the sort order (metric direction, then index) is transitive |
| Ranking.RanksBefore | src/App.jsx:668-672 | the comparator: a smaller distance (Euclidean) or a larger quotient (cosine) ranks first, equal metrics keep index order, and no entry ranks before itself |
| Ranking.RanksBeforeStrictTotal | src/App.jsx:668-672 | of two entries with different indices exactly one ranks before the other |
| Ranking.SortEntries | src/App.jsx:668-672 | `distances.sort` leaves the array sorted by the comparator (ties in index order) and a permutation of what it held |
| Ranking.InsertLast | src/App.jsx:668-672 | one insertion step extends the sorted prefix by one entry and permutes the array |
| Ranking.Steps | src/App.jsx:315 | `Math.ceil(neighbors / 3)`: `k <= 3 * steps < k + 3` |
| Ranking.Tier | src/App.jsx:319-320 | the clamped tier index is a valid index of the opacity ladder |
| Ranking.Opacity | src/App.jsx:316-320 | the alpha is one of 192, 128, 64: 192 for the first `steps` positions, 128 for the next `steps`, 64 after |
| Ranking.PaintedUpTo | src/App.jsx:318-327 | the loop's effect after `i` positions: the array keeps its length |
| Ranking.ColorizeClosestNodes | src/App.jsx:314-330 | the in-place loop over positions `1..k` leaves exactly `PaintedUpTo(old data, distances, color, k, k)` |
| Ranking.TierNeverClamped | src/App.jsx:319-320 | `Math.min(…, 2)` never takes effect: the floor quotient is at most 2 for positions up to `k` |
| Ranking.TierBand | src/App.jsx:315-320 | position `i` is in tier `t` if and only if `t*steps < i <= (t+1)*steps` |
| Ranking.OpacityNonIncreasing | src/App.jsx:316-320 | along the ranking the tier never decreases and the opacity never increases |
| Ranking.PaintedUpToEffect | src/App.jsx:318-327 | the point of each position `p` in `1..k` gets `[...color, opacity(p)]` and its metric; every other point is unchanged |
| Ranking.PaintedUpToOnlyColors | src/App.jsx:322-326 | the colouring changes nothing of a point but its colour and metric |
| Ranking.Highlighted | src/App.jsx:649-658 | the focal point becomes red, every other point grey, nothing else changes |
| Ranking.Measure | src/App.jsx:661-666 | the `{index, metric}` object of point `i` carries index `i` |
| Ranking.Measured | src/App.jsx:661-666 | the unsorted `distances` array has one entry per point, in index order |
| Ranking.Table | src/App.jsx:677-685 | the neighbour table has exactly `k` rows |
| Ranking.RankNeighbors | src/App.jsx:644-689 | fails with `DimensionMismatch` exactly when some embedding length differs from the focal one, else with `IndexOutOfRange` exactly when `k >= n`; otherwise the ranking is a sorted permutation of the measurements, the points are the highlighted points painted by `colorizeClosestNodes`, the table holds the first `k` entries, and the result is `Reranked` |
| Ranking.IndexedOccursOnce | src/App.jsx:661-666 | in the unsorted array no entry occurs twice |
| Ranking.MeasuredPermutation | src/App.jsx:661-672 | the sorted array names every point once, with that point's own measurement |
| Ranking.TwoOccurrences | src/App.jsx:668-672 | an entry at two positions occurs twice in the multiset |
| Ranking.RankingOrder | src/App.jsx:668-672 | the ranking is strictly ordered: ascending (Euclidean) or descending (cosine) by metric, with ties kept in index order |
| Ranking.StrictlySortedUnique | src/App.jsx:668-672 | two strictly sorted arrays with the same entries are equal |
| Ranking.RankingUnique | src/App.jsx:668-672 | the stable sort has exactly one possible result |
| Ranking.PaintedIsNotRed | src/App.jsx:322-326 | a painted colour (alpha 192, 128 or 64) is never the highlight red (alpha 256) |
| Ranking.FocalKeepsRedIff | src/App.jsx:655-674 | the focal point keeps its highlight if and only if no position `1..k` names it |
| Ranking.EuclideanFocalFirst | src/App.jsx:661-669 | under Euclidean the focal point ranks first unless an earlier point has an identical embedding |
| Ranking.EuclideanFocalKeepsRed | src/App.jsx:644-689 | under Euclidean a focal point without an earlier duplicate keeps its highlight for every `k` |
| Ranking.CosineExampleValues | src/App.jsx:95-114 | the cosine values of `[1]` and `[4]` against `[1]` are 1 and 2 |
| Ranking.CosineExampleMeasured | src/App.jsx:709-714 | the measurements of that two-point corpus against point 0 |
| Ranking.CosineExampleRanking | src/App.jsx:716-720 | under cosine the measurements 1 (point 0) and 2 (point 1) are ranked point 1 first |
| Ranking.CosineFocalRepainted | src/App.jsx:692-737 | under cosine the focal point can rank second and lose its highlight (`[1]` focal, `[4]` other, `k == 1`) |
| Ranking.ReferenceExample | src/App.jsx:661-674 | `[0,0]`, `[1,0]`, `[0,1]`, `[5,5]` around point 0 rank in index order with metrics 0, 1, 1, √50, and `k == 3` gives tiers 0, 1, 2 |
| Ranking.Insert | src/App.jsx:668-672 | the reference insertion adds one entry |
| Ranking.SortedEntries | src/App.jsx:668-672 | the reference sort keeps the length |
| Ranking.InsertIsRanking | src/App.jsx:668-672 | inserting into a sorted sequence keeps it sorted and adds exactly that entry |
| Ranking.InsertPermutes | src/App.jsx:668-672 | inserting an entry into a sequence adds exactly that entry to its multiset |
| Ranking.SortedEntriesIsRanking | src/App.jsx:668-672 | the reference sort is a sorted permutation of its input |
| Ranking.Reranked | src/App.jsx:644-689 | the ranking block as a function of its inputs; a successful ranking keeps the number of points |
| Ranking.RerankedOnlyColors | src/App.jsx:644-689 | a successful ranking changes nothing of any point but its colour and metric |
| UmapStepper.Umap.constructor | src/utils/umap.js:4-8 | a new UMAP object has no embedding yet |
| UmapStepper.Umap.InitializeFit | src/utils/umap.js:11 | `initializeFit(data)` sets the embedding to the fitted start |
| UmapStepper.Umap.Step | src/utils/umap.js:19 | `step()` advances the embedding by one epoch |
| UmapStepper.Umap.GetEmbedding | src/utils/umap.js:31 | `getEmbedding()` returns the current embedding, changes nothing else and logs the call |
| UmapStepper.StepRound | src/utils/umap.js:18-28 | one round of `stepUMAP` advances the embedding once, appends a step and, with a callback, the report `(currentStep + 1, epochs)`; the object's call log stays the trace without its reports |
| UmapStepper.Max0 | src/utils/umap.js:18 | definition of the number of steps taken: 0 for `epochs <= 0`, otherwise `epochs` |
| UmapStepper.RunUmapAsync | src/utils/umap.js:3-38 | resolves with the embedding after `max(epochs, 0)` steps from `initializeFit(data)`, having made exactly the calls of `Protocol`: `initializeFit`, then per epoch a step and a progress report when a callback is given, then `getEmbedding` |
| UmapStepper.ProgressReports | src/utils/umap.js:22-25 | the progress reports of a trace are progress events |
| UmapStepper.ProgressReportsAppend | src/utils/umap.js:22-25 | the reports of a concatenation are the concatenated reports |
| UmapStepper.RoundsCounts | src/utils/umap.js:17-28 | `n` rounds make `n` steps and no other UMAP calls |
| UmapStepper.Reports | src/utils/umap.js:24 | the reports accumulated one per round are exactly `(1, epochs), …, (n, epochs)` |
| UmapStepper.RoundsProgress | src/utils/umap.js:17-28 | `n` rounds report `(1, epochs)` … `(n, epochs)`, in order, only when a callback is given |
| UmapStepper.ProtocolCallCounts | src/utils/umap.js:11-31 | `initializeFit` is first and made once; `getEmbedding` is last and made once; `step` is made `max(epochs, 0)` times |
| UmapStepper.ProtocolProgress | src/utils/umap.js:22-25 | the callback receives `(1, epochs)` … `(epochs, epochs)` in order, and nothing without a callback |
| UmapStepper.ProgressWithinBounds | src/utils/umap.js:20-24 | every report carries `1 <= currentStep <= totalSteps == epochs` |
| UmapStepper.ProgressReportsContain | src/utils/umap.js:22-25 | every progress event of a trace is among its reports |
| UmapStepper.NoEpochs | src/utils/umap.js:17-31 | with `epochs <= 0` the promise resolves with the fitted embedding, without a step or a report |
| Session.Embeddings | src/App.jsx:443-445 | definition of `data.map(point => point.embedding)`, entry by entry |
| Session.QueryPoint | src/App.jsx:369-377 | the new node has a fresh id, the query as its text, the answered values as its embedding, the random colour as both its colours, an empty patient id and cancer type, and no metric or position yet |
| Session.AddEmbedding | src/App.jsx:351-413 | an empty query, a missing key or an error answer change nothing. Otherwise: every old point is greyed and the query point appended; `newNode` is the query point; the record is appended to `data`; both projection caches and the query are reset; nothing else changes |
| Session.Coord | src/App.jsx:470-472 | definition of `newUmapData[index]?.[c]`: present exactly when the row and column exist |
| Session.Positioned | src/App.jsx:466-475 | definition of the UMAP positioning: every point with its position replaced by its row's first three coordinates |
| Session.Cleared | src/App.jsx:477-483 | definition of the `newNode` reset: cleared exactly when the new chart data contains a point with its id |
| Session.UmapCoords | src/App.jsx:442-461 | cached coordinates are reused unless there are none or the update is forced; computing them fails exactly on an empty corpus |
| Session.Attached | src/App.jsx:466-486 | the attach caches the coordinates, gives every point its row's first three coordinates and changes nothing else of it, clears `newNode` exactly when a point has its id, and changes nothing else of the state |
| Session.AttachUmap | src/App.jsx:440-487 | the transform computes or reuses the coordinates (normalised embeddings through `runUmapAsync` with 200 epochs), positions every point, caches the coordinates and clears `newNode` |
| Session.Truncated | src/App.jsx:762 | one truncated embedding per record |
| Session.AxisValue | src/App.jsx:781-783 | definition of a PCA coordinate: present exactly when an axis is selected and the row has that column |
| Session.PcaSource | src/App.jsx:761-766 | a cached PCA result with rows is reused as is; with no cached rows the PCA runs on the truncated embeddings |
| Session.PcaPositioned | src/App.jsx:777-786 | definition of the PCA positioning: every point with its position replaced by the selected columns of its PCA row |
| Session.AttachPca | src/App.jsx:758-798 | does nothing on an empty corpus; fails exactly when the PCA result has fewer rows than points. Otherwise it caches the PCA result, resets the axes to 0, 1, 2 and positions the points with the axes selected before |
| Session.AxesEffect | src/App.jsx:579-592 | the axis effect fails exactly when a point has no cached PCA row; otherwise every point is repositioned at the selected columns of its row |
| Session.ChangePcaAxis | src/App.jsx:579-592 | an unchanged selection changes nothing. A changed one fails exactly when there are points but not a cached row for each; otherwise it repositions every point with the new axes |
| Session.PcaBranch | src/App.jsx:758-798 | does nothing on an empty corpus; fails (`IndexOutOfRange`) exactly when the PCA attach fails, so the axis effect it triggers never fails; on success the PCA result is cached and the axes are 0, 1, 2 |
| Session.Focused | src/App.jsx:645 | a focal index counts only when it is set and not 0: point 0 is never focused |
| Session.WithRanking | src/App.jsx:674-685 | a ranking replaces the points and the neighbour table and nothing else of the state |
| Session.PointClicked | src/App.jsx:816-876 | a click on no point changes nothing. A click on point `i` selects it and sets the reference document; a successful ranking then replaces the points and the table, and a failed one leaves only the selection changed |
| Session.NeighborsCommitted | src/App.jsx:644-689 | a commit while the flag is set, or with no truthy focal index, only stores `k` and sets the flag; otherwise the ranking is redone with `k` and the flag cleared |
| Session.DistanceTypeChanged | src/App.jsx:692-737 | an unchanged metric changes nothing; a changed one is stored and, with a truthy focal index, the ranking is redone under it and the flag cleared |
| Session.AddEmbeddingPreservesValid | src/App.jsx:380-405 | adding a query point keeps `data` and `pointData` parallel |
| Session.AddEmbeddingForcesRecompute | src/App.jsx:390-391 | after a query point is added, the next UMAP attach (forced or not) projects the grown corpus and the next PCA attach recomputes the PCA |
| Session.AttachedPreservesValid | src/App.jsx:466-486 | attaching coordinates keeps the session invariant |
| Session.PositionedKeepsIds | src/App.jsx:477-483 | positioning keeps every id, so clearing `newNode` sees the same points |
| Session.AttachReusesCache | src/App.jsx:442-486 | after an attach, an unforced `runUmap` reuses the cached coordinates and changes nothing: attaching is idempotent |
| Session.AttachPcaPreservesValid | src/App.jsx:758-798 | the PCA attach keeps the session invariant |
| Session.PcaBranchPreservesValid | src/App.jsx:758-798 | the PCA branch with the axis effect it triggers keeps the session invariant |
| Session.PcaComputedOnce | src/App.jsx:761-766 | once the branch has cached a PCA result with rows, the next run reuses it whatever PCA it is given |
| Session.PcaBranchShowsLeadingComponents | src/App.jsx:773-786 | whatever axes were selected, after the PCA branch and the axis effect it triggers, every point sits at the first three components of its PCA row |
| Session.ChangePcaAxisPreservesValid | src/App.jsx:579-592 | changing an axis keeps the session invariant |
| Session.WithRankingPreservesValid | src/App.jsx:674-685 | applying a ranking of the session's own points keeps the invariant |
| Session.ClickPreservesValid | src/App.jsx:816-876 | a click, on no point or on any point, keeps the session invariant |
| Session.CommitPreservesValid | src/App.jsx:644-689 | a successful commit of the neighbour count keeps the session invariant |
| Session.MetricChangePreservesValid | src/App.jsx:692-737 | a successful change of metric keeps the session invariant |
| Session.ClickOnSmallCorpusOnlySelects | src/App.jsx:856 | on a corpus of at most `neighbors` points a click only selects: colours and table stay as they were |
| Session.FocalZeroIgnoresMetricChange | src/App.jsx:693 | as written, with point 0 focused a metric change keeps the old colours and table |
| Session.SecondCommitIgnored | src/App.jsx:645 | as written, a commit with no focused point leaves the flag set, and a later commit after a click keeps the table of the old count |
| Session.NeighborsCommittedIntended | src/App.jsx:644-689 | corrected: with any focused point, point 0 included, a commit re-ranks with the new count and the table has `k` rows |
| Session.DistanceTypeChangedIntended | src/App.jsx:692-737 | corrected: with any focused point, point 0 included, a metric change re-ranks under the new metric |
| Session.IntendedCommitRefreshes | src/App.jsx:644-689 | with the corrected guard a commit on a focused point always succeeds for `k < n`, leaves a `k`-row table and keeps the invariant |

## Left out

- Normalize.NormalizeEmbeddings: requires every row to have the first row's length. With ragged rows the source still returns a value: a shorter row adds nothing to the columns it lacks (while the mean still divides by the row count) and yields a shorter output row, and a longer row's extra columns accumulate into `undefined` and come out as `NaN`. The model's column-wise definitions take one entry per row, and `NaN` is not represented.
- Session.UmapCoords and Session.AttachUmap: require rectangular embeddings when UMAP is run, because they normalise first and the normaliser's model needs rows of one length (see the line above).
- Distance.CosineDistance: requires non-zero vectors under cosine; the source divides by zero there and returns `NaN` (src/App.jsx:110-113). IEEE special values (`NaN` from `0 / 0`) and the order a `NaN`-returning comparator gives `sort` are not modelled.
- Distance.MetricValue: requires non-zero vectors under cosine (`CosineDefined`), as `CosineDistance` does; the source's `metric` is then `NaN`. The reason is the one given for `Distance.CosineDistance`.
- Ranking.Measure: requires `Measurable`: under cosine, a point or the focal point with a zero-norm embedding is excluded, while the source builds an entry whose `metric` is `NaN`. The reason is the one given for `Distance.CosineDistance`.
- Ranking.Measured: requires `Measurable`, as `Measure` does, for every point of the corpus. The reason is the one given for `Distance.CosineDistance`.
- Ranking.RankNeighbors: requires `Measurable`; with a zero-norm embedding under cosine the source still sorts, comparing `NaN`s, then colours and fills the table. The reason is the one given for `Distance.CosineDistance`.
- Ranking.Reranked: requires `Measurable`, as `RankNeighbors` does. The reason is the one given for `Distance.CosineDistance`.
- Session.PointClicked: requires `Measurable` for the clicked point under the current metric; the source's click handler ranks zero-norm embeddings too (src/App.jsx:816-876). The reason is the one given for `Distance.CosineDistance`.
- Session.NeighborsCommitted: requires `Measurable` for the focused point when a point is focused; the source's effect ranks zero-norm embeddings too (src/App.jsx:644-689). The reason is the one given for `Distance.CosineDistance`.
- Session.DistanceTypeChanged: requires `Measurable` for the focused point under the new metric; the source's effect ranks zero-norm embeddings too (src/App.jsx:692-737). The reason is the one given for `Distance.CosineDistance`.
- Session.NeighborsCommittedIntended: requires `Measurable` for the selected point, as `NeighborsCommitted` does. The reason is the one given for `Distance.CosineDistance`.
- Session.DistanceTypeChangedIntended: requires `Measurable` for the selected point under the new metric, as `DistanceTypeChanged` does. The reason is the one given for `Distance.CosineDistance`.
- Numbers are reals: floating-point rounding, and the `toFixed` formatting of the progress text and of the PCA components, are not modelled.
- The UMAP and PCA numerics (`umap-js`, `src/utils/pca.js`) are parameters `fit`, `advance` and `pca`. The UMAP options (dimensions, neighbour count, minimum distance) are passed through unmodelled.
- The scheduling of `runUmapAsync` (`requestAnimationFrame`, the promise) becomes a loop. The one-second `setTimeout` before the transform is not modelled.
- The stale closures of the asynchronous handlers are not modelled: each handler reads the state it is applied to.
- The embedding service request (`src/utils/gemini.js`), the server-side files, `localStorage` and `Math.random` are not modelled; random colours and ids are parameters.
- The React rendering, the deck.gl layers, `zoomToNode`/`setViewState`, the drawer (`setOpen`), the progress DOM element and tooltips are not modelled.
- The metadata colouring effects (`colorBy` and the category filters) and the `race`, `ethnicity`, `distance` and `radius` fields of a point are not part of this model.
- The per-axis `Select` inputs are one parameterised operation, `ChangePcaAxis`.
- The effect on `[algorithm, data]` (src/App.jsx:740-803) picks `runUmap()` when `algorithm` is `'umap'` and the PCA branch when it is `'pca'`, and does nothing on an empty corpus. The model has the two branches as separate operations, `AttachUmap` and `PcaBranch`, and leaves the choice between them to the caller; the `algorithm` field and its selector are not modelled.

## Findings

| source | as written | input that shows it | evidently intended | confidence | as-written member | corrected member |
|---|---|---|---|---|---|---|
| src/App.jsx:693 | `if (distanceType && clickedIndex)` treats focal index 0 as no focus | click point 0, then switch the metric: colours and table stay those of the old metric | re-rank whenever a point is focused (`clickedIndex !== null`) | not executed | Session.FocalZeroIgnoresMetricChange | Session.DistanceTypeChangedIntended |
| src/App.jsx:645 | the effect runs only when `neighborsChanged` flips, and the flag is cleared only when a point is focused | commit a new count with no point focused, click a point, commit another count: the table keeps the first count's rows | re-rank on every commit while a point is focused, point 0 included, and clear the flag regardless | not executed | Session.SecondCommitIgnored | Session.NeighborsCommittedIntended |
