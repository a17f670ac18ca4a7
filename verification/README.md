# Fibre fault localisation: a verified model

This project models the back end of an OTDR fault-localisation system and proves what it guarantees.
An optical time-domain reflectometer sends a pulse into a fibre and samples the returning light. The
system filters such a trace, detects events on it, compares the events of a current trace with those
of a baseline, and carries a localisation case through analysis, confirmation and closing while any
number of workers share the case row.

The parts, from the samples up:

- **Signal pipeline** (`Sorting`, `Rounding`, `Denoise`, `Distance`, `Peaks`, `Detection`). The methods
  are the source's loops, down to the sort in place; each is tied to a specification function, and the
  laws are proved about that function: order statistics, stability under noise, rejection of outliers,
  what merging means, what a detected event says about the samples, and that only relative levels matter.
- **Comparison** (`Comparison`, `Matching`, `ComparisonLaws`, `OrderIndependence`, `StoredEvents`). Greedy
  nearest matching, how good it is, when it is exact, also for the events that are stored, what is
  reported, and how the primary difference is chosen.
  The library sort is unstable, so every sorted arrangement counts as a possible output.
- **Rate limiter** (`RateLimiting`). The class with its map and its sweep, its refinement to a limiter for
  one key without sweeping, and the exact rate bound over all runs.
- **Tables** (`Audit`, `TraceStore`, `StoreEffects`, `TraceService`). Traces, markers and the audit log as tables updated
  in place, with transactions that roll back, handlers that others may interrupt and the database may
  fail between any two accesses, and the invariant of every reachable store.
- **Cases** (`CaseProtocol`, `CaseLaws`, `CaseLease`, `CaseLateSave`, `CaseResults`, `CaseEffects`, `CaseService`). A transition system in
  which workers, the marker tables and the clock interleave at will; every transaction is one step
  that writes both the row and its audit entry or nothing. `CaseService` runs the request handlers against it:
  repository updates write the row column by column, other handlers may run between any two
  transactions or reads, and the database may fail each of them. Every handler is shown to be a run of the transition system, so what is proved over
  runs holds of the handlers.

Assumptions: exact real arithmetic; every update of a case row sets `updated_at` (the lease depends on
it); time never runs backwards, and a limiter is first asked no earlier than it was built; requests are as the
handlers bind them.

What the proofs brought to light:

- The rate limiter lets through at most `2 * limit - 1` requests of a key in any closed interval of one
  window length, at most `limit` when windows have no length, and none with a limit below one. For every
  limit of at least one and every window there is a run that reaches the bound.
- Greedy matching finds at least half of the best possible matches. The half is tight for every
  tolerance and size, on lists that are nearest first as the traces list them; matches may cross, but only
  when their spans in the two lists add up to at most twice the tolerance. Separating either list excludes
  crossing and makes the number of matches a maximum, separating both makes the matching unique. The
  count also depends on the order of the baseline, but only by orders in which no trace lists its events.
- The primary difference of a comparison is neither always the most confident one
  nor always a loss increase. It is the most confident exactly when some loss increase is among the
  most confident or one of the most confident has no loss increase after it; it is a loss increase exactly
  when from some loss increase on, every other difference comes after a loss increase no less confident.
- When the stored merge window spans twice the tolerance, the stored events of a trace are far enough apart for
  exact comparison exactly when no reviewed marker lies within twice the tolerance of another marker. A review
  in place therefore does no harm until the trace is detected again: the reviewed marker is kept and the
  same peak is written once more (`ReviewedPeakIsListedTwice`).
- The repository's documentation (README.md:118) says that state changes use optimistic locking by version. Saving and
  recovering an analysis check the status but not the version. If every worker saves within ten minutes
  of its own start, each save ends the analysis its worker started and no worker still to save is
  recovered. Without that, a late worker may save into a rival's analysis: `SaveIsOwnIff` says exactly when
  a save ends the worker's own analysis, `EveryRunMaySaveLate` continues every run with an analysis under way
  to one whose last save ends a rival's, storing whatever result the late worker holds, and
  `SomeRunSavesLate` is a whole run of this kind. The lease never leaves a case stuck: every run whose case is
  analysing goes on to one in which a fresh worker has restarted the analysis.
- The documentation (README.md:114) speaks of continuous peaks being merged; the code measures each peak
  against the strongest one of its group so far, and this is what `IsGrouping` says. Of three peaks with
  neighbours within the window the last may stay apart (`NeighboursMayStayApart`).

## Model

| member | source | states |
|---|---|---|
| Rounding.RoundMilliLaws | backend/internal/algorithm/detect.go:129 | Rounding to three decimals keeps order and moves a value by at most 0.0005. |
| Rounding.RoundMilliBetween | backend/internal/algorithm/detect.go:129 | A value between two multiples of 0.001 stays between them when rounded, so bounds on confidences survive rounding. |
| Rounding.RoundCentiLaws | backend/internal/algorithm/distance.go:22 | Rounding to centimetres keeps order and sign and moves a value by at most half a centimetre. |
| Rounding.RoundedToGrid | backend/internal/algorithm/detect.go:129 | Both roundings end on their grid and treat positive and negative values alike. |
| Rounding.HalvesGoAway | backend/internal/algorithm/distance.go:22 | A value halfway between two grid points goes to the one farther from zero. |
| Sorting.SortInPlace | backend/internal/algorithm/compare.go:64-69 | Sorts an array in place by any total order: the result is sorted and a permutation of the input. |
| Sorting.SortFloats | backend/internal/algorithm/denoise.go:28-29 | The array ends up as the one sorted arrangement of its samples. |
| Sorting.SortUnique | backend/internal/algorithm/denoise.go:29 | There is only one sorted permutation, so medians do not depend on the sorting algorithm. |
| Sorting.SortRank | backend/internal/algorithm/denoise.go:28-36 | The k-th smallest sample is at most x exactly when more than k samples are. |
| Sorting.MedianByRank | backend/internal/algorithm/denoise.go:28-36 | The median is the mean of two samples, the first at most x exactly when at least half of all samples are, the second exactly when more than half are. |
| Sorting.MedianMonotone | backend/internal/algorithm/denoise.go:28-36 | Raising samples never lowers the median. |
| Sorting.MedianShift | backend/internal/algorithm/denoise.go:28-36 | Adding a constant to every sample adds it to the median. |
| Sorting.MedianNegate | backend/internal/algorithm/denoise.go:28-36 | Negating every sample negates the median, for odd and even sizes. |
| Sorting.MedianRejectsOutliers | backend/internal/algorithm/denoise.go:28-36 | With fewer than half of the samples corrupted at will, the median stays within any bounds of the others. |
| Denoise.MedianInPlace | backend/internal/algorithm/denoise.go:28-36 | Copying, sorting in place and reading the middle gives the median of the bucket. |
| Denoise.MovingMedian | backend/internal/algorithm/denoise.go:8-38 | Refuses short traces and windows outside 1 to 31; otherwise every sample becomes the median of its odd window, truncated at both ends. |
| Denoise.FilteredAccepts | backend/internal/algorithm/denoise.go:9-14 | Filtering succeeds exactly from three samples on and with a window of 1 to 31, and keeps the length. |
| Denoise.WindowWidth | backend/internal/algorithm/denoise.go:15-18 | Odd windows are used as they are, even ones widened by one. |
| Denoise.FilteredRejectsOutliers | backend/internal/algorithm/denoise.go:15-36 | For a window setting w, with fewer than half of the positions j with 2 * |j - i| <= w corrupted, the filtered value at i lies within any bounds of the others there, also at the ends of the trace. |
| Denoise.FilteredIsLocal | backend/internal/algorithm/denoise.go:18-27 | The filtered value depends on no other positions. |
| Denoise.SmoothedMonotone | backend/internal/algorithm/denoise.go:18-37 | A trace that is nowhere higher is filtered to one that is nowhere higher. |
| Denoise.SmoothedShift | backend/internal/algorithm/denoise.go:18-37 | Filtering commutes with a change of reference level. |
| Denoise.SmoothedStable | backend/internal/algorithm/denoise.go:18-37 | Noise of at most eps a sample moves every filtered value by at most eps. |
| Denoise.SmoothedRejectsOutliers | backend/internal/algorithm/denoise.go:20-36 | With fewer than half of a window corrupted, truncated or not, the filtered value stays within the bounds of the uncorrupted samples. |
| Denoise.SmoothedRising | backend/internal/algorithm/denoise.go:18-37 | A rising trace stays rising and keeps every value whose window is not truncated. |
| Denoise.SmoothedFalling | backend/internal/algorithm/denoise.go:18-37 | A falling trace stays falling and keeps every value whose window is not truncated. |
| Distance.RawDistanceLinear | backend/internal/algorithm/distance.go:20-21 | Unrounded distance is the index times the positive distance of one sample. |
| Distance.LightGoesThereAndBack | backend/internal/algorithm/distance.go:20-21 | Twice the distance times the refractive index is 0.299792458 metres for each nanosecond of delay. |
| Distance.SampleDistanceMeasures | backend/internal/algorithm/distance.go:10-23 | A distance is given exactly for an index from 0, a positive interval and a refractive index of 1.3 to 1.7, and is that distance to half a centimetre. |
| Distance.DistanceSpread | backend/internal/algorithm/distance.go:10-23 | Rounded distance never decreases with the index and is never negative; samples gap positions apart are at least gap one-sample distances apart, less a centimetre. |
| Peaks.DerivativePeaks | backend/internal/algorithm/detect.go:40-55 | The error for each bad argument, otherwise the list of peaks of the specification. |
| Peaks.PeaksExact | backend/internal/algorithm/detect.go:47-54 | Exactly the steps of at least the threshold are reported, once each, in order, with their own size and sign. |
| Peaks.MergePeaks | backend/internal/algorithm/detect.go:57-77 | Refuses windows below one; otherwise the loop returns the tops of the groups of the specification. |
| Peaks.TopIsFirstStrongest | backend/internal/algorithm/detect.go:66-72 | The top of a group is the first of its members of greatest magnitude. |
| Peaks.MergedMeansGrouping | backend/internal/algorithm/detect.go:57-77 | There is exactly one way to cut the peaks into contiguous groups that obeys the joining rule, and merging returns the tops of its groups. |
| Peaks.NeighboursMayStayApart | backend/internal/algorithm/detect.go:66-75 | For every window, three peaks whose neighbours are within it and of which the last is not merged, being beyond the window of the strongest. |
| Peaks.MergedApart | backend/internal/algorithm/detect.go:57-77 | Merged peaks are pairwise more than the window apart. |
| Peaks.MergedIdempotent | backend/internal/algorithm/detect.go:57-77 | Merging again with the same window changes nothing. |
| Peaks.MergedKeepsStrongest | backend/internal/algorithm/detect.go:57-77 | The first strongest peak of all survives merging. |
| Peaks.MergedSelects | backend/internal/algorithm/detect.go:57-77 | Every merged peak is one of the peaks that went in. |
| Detection.EstimateNoiseFloor | backend/internal/algorithm/detect.go:26-38 | Refuses fewer than 16 samples; otherwise the median of the last fifth. |
| Detection.NoiseFloorRejectsOutliers | backend/internal/algorithm/detect.go:30-37 | With fewer than half of the last fifth corrupted, the noise floor stays within the bounds of the other samples. |
| Detection.NoiseFloorOfLastFifth | backend/internal/algorithm/detect.go:26-38 | The noise floor exists exactly from 16 samples on; with fewer than half of the positions i with 5 * i + 5 > 4 * n corrupted it lies within any bounds of the others there. |
| Detection.PeaksStable | backend/internal/algorithm/detect.go:47-54 | When two captures differ by at most eps a sample, filtered steps of one below the threshold less 2 eps are no peaks of the other and steps of at least the threshold plus 2 eps are. |
| Detection.ClassifiedByStep | backend/internal/algorithm/detect.go:79-98 | Exactly which signed steps become end, connector, break, bend and splice; a rise has no loss and its level before the step, a drop its own size and its level after it; exactly when the confidence is at its cap. |
| Detection.ConfidenceRange | backend/internal/algorithm/detect.go:96-97 | Whatever is detected has a confidence of 0.6 to 0.99. |
| Detection.DeeperIsWorse | backend/internal/algorithm/detect.go:79-97 | Of two drops away from the end, the deeper is never classified as milder and never has less loss or confidence. |
| Detection.DropIsNoConnector | backend/internal/algorithm/detect.go:79-97 | A drop is never a connector, and its loss is its own rounded size, at least the rounded threshold. |
| Detection.Detect | backend/internal/algorithm/detect.go:100-127 | The loop with its error cases returns the detection of the specification; every array access is in range. |
| Detection.DetectedMeans | backend/internal/algorithm/detect.go:79-127 | Each event reports one step of the trace: at the distance that light measures to half a centimetre and on the route, with the type of its signed step, loss and reflectance over the noise floor to half a thousandth, and a confidence of 0.5 plus a tenth of its size in thresholds, up to 0.99. |
| Detection.DetectedAccepts | backend/internal/algorithm/detect.go:101-118 | A detection succeeds exactly with 16 samples, a positive threshold, a merge window from 1 and, if there are peaks, valid sampling parameters. |
| Detection.RejectedIsBeyond | backend/internal/algorithm/detect.go:113-122 | Exactly the merged peaks whose rounded distance is beyond the route are rejected, and the others are the events, in order. |
| Detection.RejectionsAreSuffix | backend/internal/algorithm/detect.go:113-126 | The accepted events are those of a prefix of the peaks, the rejected peaks are exactly the rest and none of them is on the route. |
| Detection.DetectedPrefix | backend/internal/algorithm/detect.go:100-127 | The same for a whole detection: accepted plus rejected is the number of merged peaks, and the events are those of a prefix. |
| Detection.DetectedWell | backend/internal/algorithm/detect.go:100-127 | Detected events lie on the route in order of distance, with confidence 0.6 to 0.99. |
| Detection.DetectedSpread | backend/internal/algorithm/detect.go:100-127 | Detected events are more than a gap apart as soon as merge window plus one sample distances exceed the gap by a centimetre. |
| Detection.FallingTraceHasNoConnector | backend/internal/algorithm/detect.go:79-127 | A raw trace that never rises, filtered and run through detection, has no connector, and every loss is at least the rounded threshold. |
| Detection.DetectionIgnoresLevel | backend/internal/service/event_service.go:56-64 | Raising or lowering a whole raw trace changes no event, no value of an event and no rejection; the noise floor moves along. |
| Comparison.Nearest | backend/internal/algorithm/compare.go:33-43 | The first of the nearest unused current events within tolerance, and -1 exactly when there is none. |
| Comparison.FindNearest | backend/internal/algorithm/compare.go:33-43 | The inner loop with its running best finds that event. |
| Comparison.MatchBaseline | backend/internal/algorithm/compare.go:30-56 | The outer loop takes the events of the greedy matching and reports what each baseline event gives. |
| Comparison.AppendNew | backend/internal/algorithm/compare.go:57-63 | The last loop appends a new difference for each current event not taken, in order. |
| Comparison.CompareBaseline | backend/internal/algorithm/compare.go:23-71 | The two argument errors; otherwise a sorted permutation by distance and kind of the differences of the greedy matching. |
| Comparison.PrimaryDifference | backend/internal/algorithm/compare.go:73-84 | Finds nothing exactly on the empty list; otherwise the distance and uncertainty of the chosen difference. |
| Comparison.ChainExists | backend/internal/algorithm/compare.go:77-82 | Every non-empty list has the positions of its running choice: the first, and from each on the next that displaces it. |
| Comparison.PrimaryLocates | backend/internal/algorithm/compare.go:77-83 | The estimate is the distance of the difference at the end of these positions, with uncertainty 1 from confidence 0.95 on and 20 - 20 * confidence below; an empty list has none. |
| Comparison.BestIsUndisplaced | backend/internal/algorithm/compare.go:77-82 | The choice is in the list, displaced the choice before it, and nothing after it displaces it. |
| Comparison.BestOfOneKind | backend/internal/algorithm/compare.go:77-82 | Among differences of one kind the first of highest confidence is chosen. |
| Comparison.LossIncreaseIsPrimaryIff | backend/internal/algorithm/compare.go:77-82 | A loss increase is chosen if and only if there is one from which on every difference of another kind comes after a loss increase that is no less confident. |
| Comparison.MostConfidentIsPrimaryIff | backend/internal/algorithm/compare.go:77-82 | The choice is as confident as any difference if and only if some loss increase is among the most confident or some most confident difference has no loss increase after it. |
| Comparison.FartherOfTwoIsPrimary | backend/internal/algorithm/compare.go:64-82 | In the sorted list of a loss increase and a more confident difference at another distance, the farther one is chosen. |
| Comparison.PrimaryIsNeitherAlways | backend/internal/algorithm/compare.go:23-84 | Two comparisons of event lists: in one a loss increase is chosen over a more confident difference, in the other a loss increase is displaced. |
| Matching.MatchIsOneToOne | backend/internal/algorithm/compare.go:32-49 | Matches are one-to-one and within tolerance. |
| Matching.MatchIsMaximal | backend/internal/algorithm/compare.go:32-63 | No event reported as disappeared is within tolerance of one reported as new. |
| Matching.GreedyIsHalfOptimal | backend/internal/algorithm/compare.go:32-49 | At least half as many matches as any one-to-one matching within tolerance. |
| Matching.GreedyHalfIsTight | backend/internal/algorithm/compare.go:32-49 | For every tolerance and n there are two lists, each nearest first, of which greedy matches n pairs while all 2n can be matched. |
| Matching.GreedyDependsOnOrder | backend/internal/algorithm/compare.go:32-49 | An instance with both lists nearest first finds one match, and two with its baseline reversed, an order in which no trace is listed. |
| Matching.MatchesMayCross | backend/internal/algorithm/compare.go:32-49 | An instance with both lists nearest first whose two matches cross. |
| Matching.CrossingIsNarrow | backend/internal/algorithm/compare.go:32-49 | Two matches that cross span at most twice the tolerance, both lists taken together. |
| Matching.SeparatedNeverCross | backend/internal/algorithm/compare.go:32-49 | When either list is more than twice the tolerance apart, no matches cross. |
| Matching.SeparatedMatch | backend/internal/algorithm/compare.go:32-49 | When each list is more than twice the tolerance apart, exactly the pairs within tolerance are matched. |
| Matching.SeparatedIsMaximum | backend/internal/algorithm/compare.go:32-49 | Then the greedy matching extends every other one and is the only maximum. |
| Matching.SeparatedBaselineIsMaximum | backend/internal/algorithm/compare.go:32-49 | With the baseline alone separated, every baseline event matched by any matching is matched, so the number of matches is a maximum. |
| Matching.SeparatedCurrentIsMaximum | backend/internal/algorithm/compare.go:32-49 | With the current events alone separated, every current event taken by any matching is taken, so the number of matches is a maximum. |
| OrderIndependence.SwapExchangesReports | backend/internal/algorithm/compare.go:44-63 | On separated lists an event is reported as disappeared one way round if and only if it is reported as new the other way round. |
| ComparisonLaws.ReportedExactly | backend/internal/algorithm/compare.go:44-63 | A difference is reported if and only if it is an unmatched baseline event, a match whose loss grew by the threshold, or an unmatched current event. |
| ComparisonLaws.ReportedFields | backend/internal/algorithm/compare.go:44-63 | Each difference names its events and gives their distance, the growth of the loss from baseline to current, at least the threshold, and the confidence of its kind, to half a thousandth; the loss grew between events within tolerance. |
| ComparisonLaws.OutputOrder | backend/internal/algorithm/compare.go:64-69 | Differences come by distance, and at one distance disappeared before increased before new. |
| ComparisonLaws.Conservation | backend/internal/algorithm/compare.go:32-63 | Matches plus disappeared is the baseline, matches plus new the current list, and only matches show a loss. |
| ComparisonLaws.SelfComparisonIsEmpty | backend/internal/algorithm/compare.go:32-70 | A list compared with itself gives no differences, even with repeated distances. |
| ComparisonLaws.RaisingThresholdOnlyRemovesLosses | backend/internal/algorithm/compare.go:51-55 | A higher loss threshold removes loss increases only and keeps every other difference. |
| ComparisonLaws.OutputIsUnique | backend/internal/algorithm/compare.go:64-69 | Where distances and kinds are distinct, all sorts give the same output. |
| ComparisonLaws.ComparisonConfidence | backend/internal/algorithm/compare.go:44-63 | Events of confidence 0.6 to 0.99 give differences of confidence 0.54 to 0.99. |
| ComparisonLaws.PrimaryUncertainty | backend/internal/algorithm/compare.go:83 | Such differences give an uncertainty of 1 to 9.2 metres. |
| OrderIndependence.SeparatedOrderIndependent | backend/internal/algorithm/compare.go:23-71 | On separated events, listing either list in another order gives the same bag of differences. |
| OrderIndependence.DetectedEventsAreSeparated | backend/internal/algorithm/detect.go:57-77 | Events of one detection are separated as soon as merge window plus one sample distances exceed twice the tolerance by a centimetre. |
| StoredEvents.ListingIsSeparatedIff | backend/internal/repository/event_repository.go:63-69 | In a reachable store the listed events of a trace whose stored merge window spans a gap, at the highest refractive index accepted, are separated by it if and only if no reviewed marker lies within the gap of another marker. |
| StoredEvents.ListingIsSeparated | backend/internal/repository/event_repository.go:63-69 | So they are when no marker is reviewed. |
| StoredEvents.StoredComparisonIsExact | backend/internal/service/case_service.go:174-194 | Two listings that meet this condition for twice the tolerance, read at different times, are matched exactly: each event with the one within tolerance, if there is one. |
| StoredEvents.ReviewedPeakIsListedTwice | backend/internal/repository/event_repository.go:14-25 | From every reachable store, reviewing any unreviewed marker in place and detecting again with the stored parameters lists one distance twice, so no listing is separated. |
| RateLimiting.RateLimiter.constructor | backend/internal/middleware/middleware.go:94-96 | A new limiter has no visitors and was last swept now. |
| RateLimiting.RateLimiter.Sweep | backend/internal/middleware/middleware.go:102-106 | The deleting loop leaves exactly the visitors whose window is not over. |
| RateLimiting.RateLimiter.Allow | backend/internal/middleware/middleware.go:98-119 | One call takes the step of the specification and returns its decision. |
| RateLimiting.SweepingIsInvisible | backend/internal/middleware/middleware.go:101-118 | In every run each decision is that of a limiter for that key alone that never sweeps. |
| RateLimiting.SoloIgnoresOthers | backend/internal/middleware/middleware.go:109-118 | That limiter depends only on the requests of its key. |
| RateLimiting.EntriesAreRecent | backend/internal/middleware/middleware.go:101-118 | Every entry kept after a call belongs to a window that started within the last two window lengths. |
| RateLimiting.ForgottenIff | backend/internal/middleware/middleware.go:101-118 | A call forgets a visitor exactly when its window is over, more than a window has passed since the last sweep and it is not let in anew. |
| RateLimiting.WindowBound | backend/internal/middleware/middleware.go:109-118 | Since a key's window opened it was granted as often as its counter says, at most the limit. |
| RateLimiting.WindowsApart | backend/internal/middleware/middleware.go:109-112 | Successive windows of a key open more than a window length apart. |
| RateLimiting.RateBound | backend/internal/middleware/middleware.go:98-119 | Over every run, at most twice the limit less one grants of a key in any closed interval of one window length; at most the limit when windows have no length; none when the limit is below one. |
| RateLimiting.RateBoundIsReached | backend/internal/middleware/middleware.go:98-119 | For every limit of at least one, every window and every start there is a run that reaches the bound. |
| TraceService.TraceDatabase.constructor | backend/internal/repository/user_repository.go:50-52 | The tables start empty. |
| Audit.LoggedIff | backend/internal/repository/audit_repository.go:14-22 | An entry goes to the end of the log exactly when its request id has a character that is not among the code points of white space. |
| TraceService.TraceDatabase.CreateAudit | backend/internal/repository/audit_repository.go:14-22 | Appends one entry, or refuses a request id that is blank once trimmed and leaves the log alone. |
| TraceService.TraceDatabase.UpdateProcessing | backend/internal/repository/trace_repository.go:55-64 | Overwrites the processing fields of one trace and nothing else; finds nothing exactly when there is no such trace. |
| TraceService.TraceDatabase.BelongsToRoute | backend/internal/repository/trace_repository.go:66-72 | True exactly for a stored trace of that route. |
| TraceService.TraceDatabase.SaveRoute | backend/internal/repository/fiber_route_repository.go:15-73 | One route is created or edited; the others stay. |
| TraceService.TraceDatabase.InsertMarkers | backend/internal/repository/event_repository.go:21 | The rows are added in order under consecutive fresh identifiers. |
| TraceService.TraceDatabase.ReplaceForTrace | backend/internal/repository/event_repository.go:14-25 | Deletes exactly the unreviewed markers of the trace and adds the new ones. |
| TraceService.TraceDatabase.ForTrace | backend/internal/repository/event_repository.go:63-69 | Lists each marker of the trace once, nearest first. |
| TraceService.CheckPoints | backend/internal/service/trace_service.go:26-33 | The point limit first, then the range of every sample. |
| TraceService.Prepare | backend/internal/service/trace_service.go:34-70 | The remaining checks of an import in their order, the defaults, and the computed record. |
| TraceService.TraceDatabase.CommitImport | backend/internal/service/trace_service.go:71-77 | One new trace and one audit entry; nothing when the database fails or the entry is refused. |
| TraceService.TraceDatabase.Import | backend/internal/service/trace_service.go:25-82 | With other transactions between its reads and its own, succeeds exactly when the database answers, the checks pass on the route read and the request id is not blank; then the tables change by one import step, else not at all. |
| TraceService.Compute | backend/internal/service/event_service.go:35-67 | The parameters in force, the filtered samples, the noise floor and the detection, or the first error. |
| TraceService.ToMarkers | backend/internal/service/event_service.go:68-71 | One unreviewed marker for each event, carrying the algorithm's values twice. |
| TraceService.TraceDatabase.CommitDetection | backend/internal/service/event_service.go:73-82 | Processing fields, markers and audit entry change together; nothing does when the trace is gone, the database fails or the entry is refused. |
| TraceService.TraceDatabase.Detect | backend/internal/service/event_service.go:19-87 | With other transactions between its reads and its own, succeeds exactly when the database answers, the trace exists, its route is found, the computation on the trace read and on a record the route has had since succeeds, and the request id is not blank; then the tables change by one detection step with those records, else not at all. |
| TraceService.TraceDatabase.WriteDetection | backend/internal/service/event_service.go:72-86 | The part after the computation: one detection step with the records that were read, exactly when the database answers and the request id is not blank. |
| TraceService.TraceDatabase.CommitReview | backend/internal/service/event_service.go:130-135 | The review columns and one audit entry, or nothing; refused when the marker is gone. |
| TraceService.TraceDatabase.ReadRoute | backend/internal/service/event_service.go:109-116 | The route of a trace, as it was at some time since; found whenever both existed at the start and the database answers. |
| TraceService.TraceDatabase.Review | backend/internal/service/event_service.go:98-140 | With other transactions between its reads and its own, succeeds exactly when the database answers, the type is supported, marker and route are found, the distance fits a record the route has had since, the marker is still there and the request id is not blank; then the marker that was read is reviewed as one review step, else nothing changes. |
| TraceService.TraceDatabase.WriteReview | backend/internal/service/event_service.go:117-139 | The part after the reads: the checked review as one review step, or the error and nothing changed. |
| TraceStore.ReachableInv | backend/internal/service/event_service.go:56-83 | In every reachable store processed points and noise floor replay from the raw points, markers have confidence 0.6 to 0.99 and last detections are accounted for, with records read long before they are used. |
| TraceStore.UnreviewedAreLastDetection | backend/internal/repository/event_repository.go:14-25 | Unreviewed markers are exactly those of the last detection under the stored parameters less those reviewed since, and each marker of that detection is still there. |
| TraceStore.RunPreserves | backend/internal/repository/event_repository.go:14-25 | Over any stretch of a run raw samples stay, reviewed markers survive every detection and algorithm values never change. |
| TraceStore.ListingConfident | backend/internal/repository/event_repository.go:63-69 | Events listed from a reachable store have confidence 0.6 to 0.99. |
| StoreEffects.ImportAccepts | backend/internal/service/trace_service.go:26-70 | Exactly which captures are imported: 16 samples up to the limit, all from -200 to 100 dB, a window of 1 to 31 or none, an existing route, valid sampling, and a last sample at a twentieth of the route or farther. |
| StoreEffects.ImportStores | backend/internal/service/trace_service.go:34-70 | The capture as it came, parameters as requested or else 5, 0.8 and 3, and the filtered samples and noise floor that follow. |
| StoreEffects.ImportWrites | backend/internal/service/trace_service.go:71-77 | The new trace gets the next identifier and nothing else changes. |
| StoreEffects.DetectionComputes | backend/internal/service/event_service.go:35-67 | Parameters as requested, else as stored, else 5, 0.8 and 3; the raw samples filtered, their noise floor and the detection with the sampling of the trace and the route. |
| StoreEffects.DetectionWritesTrace | backend/internal/repository/trace_repository.go:55-64 | The processing fields of the trace become those of the detection; captures and other traces stay. |
| StoreEffects.DetectionWritesMarkers | backend/internal/service/event_service.go:68-71 | The detected events become unreviewed markers in order, with distance, type and loss also kept as the algorithm's own. |
| StoreEffects.DetectionReplaces | backend/internal/repository/event_repository.go:14-25 | Of the markers before, exactly the unreviewed ones of the trace are gone and the others are as they were. |
| StoreEffects.ReviewMeans | backend/internal/service/event_service.go:98-130 | A review is accepted exactly for a supported type and a distance, requested or kept, within the route, and takes type, distance, note, reviewer and time. |
| StoreEffects.ReviewWrites | backend/internal/repository/event_repository.go:71-80 | Only the review columns of that marker are written. |
| StoreEffects.ListingCarries | backend/internal/service/case_service.go:186-192 | What is compared of a marker is its reviewed distance, its loss and its confidence. |
| CaseLaws.StepMoves | backend/internal/repository/case_repository.go:53-89 | A step leaves row and audit log alone, or moves the version by one along an edge of the transition table and logs that very action. |
| CaseLaws.AuditReplaysCase | backend/internal/service/case_service.go:47-52 | In every reachable state the version is the number of audit rows, replaying them gives the status, unfinished cases have no results, and a pending estimate is that of the primary difference, absent for no differences. |
| CaseLaws.AuditGrammar | backend/internal/service/case_service.go:85-242 | The audit rows are created, then analyses started and failed or recovered, then a prefix of started, completed, confirmed, closed: each analysis is ended at most once. |
| CaseLaws.StatusFollowsTable | backend/internal/constants/case.go:13-26 | Every change of status in a run is an edge of the transition table. |
| CaseLaws.LaterStatesFollow | backend/internal/repository/case_repository.go:53-89 | Versions and the log only grow; closed records never change; results and parameters are frozen from pending review, the estimate from confirmation. |
| CaseLaws.VersionDeterminesRecord | backend/internal/repository/case_repository.go:53-89 | Two states of one run with the same version have the same record and log. |
| CaseLaws.CommitActsOnSeenRecord | backend/internal/service/case_service.go:174-242 | A confirm or close that succeeds acts on the very record seen under the version it names, in the required status. |
| CaseEffects.TransitionTable | backend/internal/constants/case.go:13-26 | The five edges of the transition table, and no others. |
| CaseEffects.CreatedRow | backend/internal/service/case_service.go:38-46 | A new case has the request's traces in their places, 25 and 0.5 for parameters left at zero, version 1 and no results. |
| CaseEffects.AfterReading | backend/internal/service/case_service.go:86-121 | A draft is analysed, an analysis found at the first reading is recovered, every other state is refused; confirming needs a reviewer and an open case. |
| CaseEffects.StartWrites | backend/internal/service/case_service.go:122-127 | When a start succeeds, and that it changes status, version, time and error only. |
| CaseEffects.RecoverWrites | backend/internal/repository/case_repository.go:79-89 | A recovery succeeds exactly on an analysis untouched for ten minutes, in nanoseconds, and leaves its message. |
| CaseEffects.SaveWrites | backend/internal/service/case_service.go:129-170 | A result is saved with the parameters the request asked for, the stored ones or 25 and 0.5 in place of zeros, and the estimate of the difference at which the choice ends; an error goes back to draft with its text. |
| CaseEffects.ConfirmWrites | backend/internal/service/case_service.go:208-213 | When a confirmation succeeds, and that it writes the conclusion, distance, uncertainty and reviewer it was sent, each into its own column. |
| CaseEffects.CloseWrites | backend/internal/service/case_service.go:231-237 | When a closing succeeds, and that it writes the closing time only. |
| CaseLease.StartActsOnReadRecord | backend/internal/service/case_service.go:122-127 | A start that succeeds acts on the very record its worker read, through any number of cycles in between. |
| CaseLease.ReachableInv | backend/internal/service/case_service.go:85-172 | In every reachable state each running worker's start is in the log under its own version, no two share one, and while that version is current the analysis is its own. |
| CaseLease.TimelySaveIsOwn | backend/internal/repository/case_repository.go:66-89 | If every worker saves within ten minutes of its own start, each successful save ends the analysis its worker started. |
| CaseLease.NoLiveWorkerIsRecovered | backend/internal/repository/case_repository.go:79-89 | Under the same condition, whoever started an analysis that is recovered never saves afterwards. |
| CaseLease.StartIsKept | backend/internal/service/case_service.go:122-170 | A running worker keeps its start and version until it saves or fails. |
| CaseLease.RequestIsKept | backend/internal/service/case_service.go:85-242 | A worker handles one request, of one actor, from its arrival to the end of the run. |
| CaseLease.SaveIsOwnIff | backend/internal/repository/case_repository.go:66-77 | Whatever the times: while the case is analysing, the last start in the log is the worker's own if and only if the row still has the version of that start. |
| CaseLateSave.LateSaveTakesOver | backend/internal/repository/case_repository.go:66-77 | From every state with an analysis under way, wherever its worker is, steps lead to one where that worker's save ends the analysis of a rival still at work; a result it already held is stored as the outcome. |
| CaseLateSave.EveryRunMaySaveLate | backend/internal/repository/case_repository.go:66-77 | Every run that has an analysis under way goes on to a run whose last step is such a save, under a version that is not the one of the worker's start. |
| CaseLateSave.SomeRunSavesLate | backend/internal/repository/case_repository.go:66-77 | A run from creation in which a save ends an analysis that its worker did not start. |
| CaseLateSave.AnalysisMayRestart | backend/internal/repository/case_repository.go:79-89 | Every run whose case is analysing, also when its worker is gone, goes on to one in which a fresh worker has restarted the analysis. |
| CaseResults.ResultsAreComparisons | backend/internal/service/case_service.go:129-172 | Under every interleaving a finished case holds the comparison, under its stored parameters, of event lists of its two traces read between the start and the save of one worker, both in the log; in a timely run, within the analysis that this save ended. |
| CaseEffects.FinishedAsRequested | backend/internal/service/case_service.go:129-161 | In every run a finished case holds the result of one worker under the parameters its request asked for, those of the creation standing in for zeros. |
| CaseResults.StoreIsSound | backend/internal/service/case_service.go:174-194 | The store invariant holds in every state of every run of the case protocol. |
| CaseResults.PendingUncertainty | backend/internal/algorithm/compare.go:77-83 | End to end: differences of a finished case have confidence 0.54 to 0.99, and a pending case has an estimate exactly when it has differences, at the difference where the choice ends, with an uncertainty of 1 to 9.2 metres. |
| CaseService.CreateCase | backend/internal/service/case_service.go:24-57 | With other transactions in between, the case is created only over two different traces of the route, with a request id that is not blank and the database answering, and always when this held at the start; it starts in draft at version 1 with one audit row. |
| CaseService.Service.Write | backend/internal/repository/case_repository.go:54-56 | Writes the named columns one by one, moves the version and the time of change, and leaves the rest. |
| CaseService.Service.TransitionCase | backend/internal/repository/case_repository.go:53-64 | Updates the row exactly when both version and status match. |
| CaseService.Service.SaveCase | backend/internal/repository/case_repository.go:66-77 | Updates the row exactly when the case is analysing, whatever its version. |
| CaseService.Service.RecoverCase | backend/internal/repository/case_repository.go:81-89 | Updates the row exactly when the case is analysing and was last changed before the cutoff. |
| CaseService.Service.LogOrRollBack | backend/internal/repository/user_repository.go:54-56 | Either the change stays and is logged, or, when it or the log or the database fails, the row is as before and the log untouched. |
| CaseService.Service.RecoverStep | backend/internal/service/case_service.go:94-105 | The recovery transaction is one step of the protocol; it recovers exactly a stale analysis, and fails exactly when the database does or a recovery cannot be logged. |
| CaseService.Service.LoadStep | backend/internal/service/case_service.go:86-93 | Reading the case is one step of the protocol; a worker that its status leaves nothing to do counts as refused. |
| CaseService.Service.StartStep | backend/internal/service/case_service.go:122-129 | The start transaction is one step of the protocol; it succeeds exactly when the case is in draft under the version that was read, the entry can be logged and the database answers, and the worker's own copy takes the new status and version. |
| CaseService.Service.ReadBaselineStep | backend/internal/service/case_service.go:175-178 | Reading the first list is one step of the protocol, also when it fails. |
| CaseService.Service.ReadCurrentStep | backend/internal/service/case_service.go:179-193 | Reading the second list and comparing is one step of the protocol; a failed read and an empty list are the errors of the source. |
| CaseService.Service.SaveUpdatesOf | backend/internal/service/case_service.go:155-161 | The columns of a save: the error, or differences, parameters and, if found, the primary estimate. |
| CaseService.Service.SaveStep | backend/internal/service/case_service.go:146-170 | Saves exactly when the case is analysing, the entry can be logged and the database answers; then a result and its parameters are in the row. |
| CaseService.Service.CommitStep | backend/internal/service/case_service.go:208-237 | Confirms or closes exactly when the named version and the required status match, the entry can be logged and the database answers. |
| CaseService.Service.ReadForAnalysis | backend/internal/service/case_service.go:85-121 | With any interference and failure, an analysis goes on to its start only with a record read in draft. |
| CaseService.Service.ReadAgain | backend/internal/service/case_service.go:94-113 | An analysis found under way is recovered and the case read again, or the handler gives up. |
| CaseService.Service.AnalyzeCase | backend/internal/service/case_service.go:85-172 | With any interference and failure, the handler extends the run of the protocol by a worker for exactly this request; its result was stored and logged if and only if it reports success or could only not read the case back, and when the database always answered it fails only at a step that refused it. |
| CaseService.Service.CompareAndSave | backend/internal/service/case_service.go:131-172 | The same for the part of the analysis after its start. |
| CaseService.Service.CompareEvents | backend/internal/service/case_service.go:174-194 | Reads both lists and compares them, and leaves the worker with that result or the first error. |
| CaseService.Service.CommitAndReload | backend/internal/service/case_service.go:208-220 | The transaction of a confirm or close request and the read after it: success or not as committed, and otherwise the given refusal. |
| CaseService.Service.ConfirmCase | backend/internal/service/case_service.go:196-221 | A worker for exactly this request joins the run, unless an analyst is refused without a step; its confirmation was committed if and only if the handler reports success or could only not read the case back, and when the database always answered it fails only at a step that refused it. |
| CaseService.Service.CloseCase | backend/internal/service/case_service.go:223-242 | The same for closing, with a closing time read before the transaction. |

## Left out

- HTTP handlers, routing, request binding, JWT and password handling, logging and the front end: plumbing.
- SQL, the ORM and JSON: replaced by tables in memory with atomic transactions; encoding and decoding are taken to be inverse. `datatypes`, `gorm` and the database drivers are not part of this model.
- Floating point: samples, distances and confidences are exact reals, so NaN, infinities and rounding inside sums do not arise; the starting best distance of the matching loop becomes "none yet".
- Integer widths: identifiers, counters and versions are unbounded.
- Text of errors: formatted numbers (a sample index, the point limit) and wrapped causes are not carried.
- The retry duration of the limiter, which reads a second clock; the mutex of the limiter, whose calls are therefore taken one after the other.
- Fields the pipeline does not read: wavelength, pulse width, capture time, uploader, and the before and after snapshots, resource and route of audit rows.
- Other cases: the model has one case row and the audit rows of that case; the audit rows of traces and events are in the log of the trace tables.
- Editing routes: the protocol lets a step use any route values, so distance bounds are stated for the values a detection used and are no invariant of the store.
- The moving average and the distance uncertainty, which the pipeline does not call.
- Listing, paging and filtering: easy members only.
- TraceService.TraceDatabase.Yield: says only that the tables kept what every transaction keeps; its body is empty because the handlers are verified against the contract alone.
- CaseService.Service.Yield: says only that the run went on and the worker's own progress stayed; that is all a handler may rely on while others run. Its body is empty because the handlers are verified against the contract alone.
