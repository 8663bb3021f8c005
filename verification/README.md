# Mindscape pipeline: a verified model

The application turns a vault of messages into a "mindscape": embedded points, clustered into atoms,
territories, themes and realms, measured over time and shown on a map.  This project models the
algorithms and small protocols that carry that pipeline and proves what they promise.

| module | models |
|---|---|
| TransportPlans, AlignmentDp, DiagramDistance | the distance between two H0 persistence diagrams |
| Vectors, WardGroups, WardState, WardTheory, WardAgglomeration | mass-weighted Ward agglomeration |
| SortedLabels, Hierarchy, ChildDirections, NoiseRules, NoiseMeaning, LiminalTerritories, ThemeSplit, StabilisedHierarchy | the four levels of the hierarchy, the noise rules, the relabelling of noise, and all of it with stabilised ids |
| Clusters, Ratios, GreedyMatching, StabilizeSpec, Stabilize, StabilizeMatching, StabilizeIdentity, StabilizeRules | cluster ids that stay the same from run to run |
| Lifecycle, LifecycleRuns | points and territory profiles over deletions, re-imports and clustering runs |
| FisherTrajectory, FisherRuns, FisherRows, FisherRatio, FisherWindows | the incremental Fisher trajectory, what its columns say, its ratios, and its window lists |
| SwrCache, SwrExact | the two stale-while-revalidate caches of the map |
| EmbedService, EmbedOutcomes | model loading and inference admission of the embedding service |
| Freshness | the rule that decides when a map is rebuilt, and the baseline it reads |
| Pooling | pooling long texts from windows |
| Wrappers | Option |

Where the source changes state, the model does too: `WeightedWardGroups` works on its arrays and its
distance table in place, `NextRow` rewrites the row of the dynamic program, the profile tables, the
trajectory table, the caches, the service's globals and the stored statistics are classes.  Each such
method is proved against a function of its inputs or of the old state, and the promises are proved about
that function.  Numbers that are floats in the source are reals here.

## Where the code and its own description differ

- Nesting: after noise is moved into liminal territories a territory still determines its realm, but not
  its theme: noise of one realm is collected across themes.  `ThemeNestingSurvivesIff` says exactly when
  it does.  `ThemeNestingCanFail` gives a vault of 144 points where it does not, at the source's own
  targets: two crowds of 71 and two lone points, which are what the two noise rules flag
  (`LonePointsAreNoise`) and which lie in one realm but not in one theme.
- The liveness prune is documented to defer every dissolution while embeddings are outstanding, so that a
  re-import never costs a territory its identity.  The prune does defer, but `main` marks the territories
  named by 'dissolved' events before it, outside the gate.  A territory that is wholly absent during the
  run survives (`AbsentTerritorySurvives`); one that is partly absent can be dissolved
  (`PartlyAbsentIsDissolved`, at any minimum of points).  `BacklogRunDissolvesUnmatched` says exactly which
  ones are: those whose old cluster no new one was matched to and that hold no point still awaiting its
  embedding.
- Dissolution is documented as reversible.  A dissolved territory that holds no point stays so through any
  history of deletions, re-imports, additions and stabilised runs, from any tables (`DissolvedIsForever`):
  its id is reserved, and a territory without points is no old cluster to be matched.  What the
  restoring step brings back is a dissolved territory that holds a point before the run, exactly if the
  run clusters nothing, or such a point still awaits its embedding, or the territory is matched to a new
  cluster (`RestoredIff`).  Tables in which every territory that holds a point has a profile that is not
  dissolved never come to hold such a one (`EveryStateIsSound`).
- Skipping stored windows is documented as exact.  It is for a window list that grows at its end
  (`IncrementalIsFull`).  But the lists start at a horizon, which moves (`HorizonOfVault`).
  - Daily and weekly lists stay on one grid; monthly ones do exactly if their first days are whole weeks
    apart (`GridsAlign`), and a list goes over into a later one by dropping windows in front and appending
    some behind exactly if the two are on one grid (`SlidesIffAligned`).
  - On one grid, with too few messages in every window up to the latest front, everything agrees but the
    rolling ratio and phase of the windows just behind it (`SlidRunsAreFull`, `SlidRunAgrees`,
    `TwoClocksAgree`).
  - If windows with travel drop off the front, the lengths of new rows differ from a recompute's, exactly
    by what was travelled up to the new front (`DroppedTravel`, `SlidLengthIff`).
  - Between monthly grids that are not aligned nothing is skipped at all, and the era's table mixes the rows
    of both (`MisalignedRunsMix`); this happens within a day (`MonthlyGridsFlip`, `MonthlyRunsMix`).
- A statistics write without a count is documented to preserve the recorded baseline.  A recorded null
  becomes 0 (`OmittedCountPreservesIff`), which makes a large map look stale (`TwoUncountedRunsMakeStale`).
- The fallback comparison is documented as bounded at one rebuild per vault.  The bound is two
  (`FallbackIsBounded`, `FallbackCanTriggerTwice`; `OneFallbackIff` says when one is enough).
- Rebuilds are rare only as long as their counts succeed (`RebuildsAreRare`): without the count a stale map
  is rebuilt on every load (`UncountedRebuildsRepeat`).
- The cumulative exploration ratio D / L is at most 1 for every metric exactly if the window is linked to
  the anchor by steps that are added to L (`CumulativeRatioIff`); for pairwise different activations that is
  exactly if no window strictly between the two has too few messages (`CumulativeRatioIffNoQuiet`,
  `CumulativeRatioCanExceedOne`).
- A caller of the cache that waits can get a value older than the last bust (`JoinedComputeCanPredateBust`);
  `AwaitIsPostBust` says when it does not.

## Model

| member | source | states |
|---|---|---|
| DiagramDistance.H0Wasserstein1 | pipeline/compute-cross-scale-coupling.py:265-311 | None exactly when a diagram is missing; otherwise the least cost over every partial matching of the two multisets of deaths, crossing ones included |
| DiagramDistance.NextRow | pipeline/compute-cross-scale-coupling.py:304-310 | the cumulative-minimum row equals the next row of the three-move recurrence |
| DiagramDistance.ScanIsRecurrence | pipeline/compute-cross-scale-coupling.py:279-282 | prefix prices plus a running minimum solve the inner recurrence |
| AlignmentDp.AlignIsAttained | pipeline/compute-cross-scale-coupling.py:268-277 | the recurrence's value is the cost of some matching |
| AlignmentDp.AlignIsLeast | pipeline/compute-cross-scale-coupling.py:268-277 | no matching of sorted diagrams costs less than the recurrence, by exchanging crossed pairs |
| DiagramDistance.LeastCostIsDistance | pipeline/compute-cross-scale-coupling.py:287-311 | the least cost is unique, so the returned value is a function of the two multisets |
| DiagramDistance.DistanceIgnoresOrder | pipeline/compute-cross-scale-coupling.py:289-291 | the distance does not depend on the order of the bars |
| DiagramDistance.DistanceIsMetric | pipeline/compute-cross-scale-coupling.py:265-311 | with the diagonal at death over the square root of two it is symmetric, zero exactly on equal multisets of positive deaths, and satisfies the triangle inequality |
| DiagramDistance.OneBarEach | pipeline/compute-cross-scale-coupling.py:265-280 | between two single bars: the difference of their persistences, or the sum of both over the square root of two where that is less |
| DiagramDistance.OneBarAlone | pipeline/compute-cross-scale-coupling.py:290-298 | a single bar against none costs its death minus its birth over the square root of two |
| DiagramDistance.PersistenceOfBoth | pipeline/compute-cross-scale-coupling.py:290-291 | each bar counts for itself |
| Vectors.TwoPoint | pipeline/cluster.py:900-903 | merging two weighted points loses exactly their Ward distance of inertia, seen from any point |
| Vectors.MergeKeepsDistance | pipeline/cluster.py:929-937 | if two clusters are the cheapest of three pairs, their merger is at least as far from the third |
| WardAgglomeration.FirstLeast | pipeline/cluster.py:929-929 | the first least entry of the table in row-major order |
| WardAgglomeration.MergePair | pipeline/cluster.py:930-939 | the in-place updates make the merged state, and the rewritten table equals one computed from scratch: closed form for living pairs, infinite on the diagonal and for dead slots |
| WardAgglomeration.WeightedWardGroups | pipeline/cluster.py:897-945 | the labels number, by smallest member, the groups left by merging the cheapest pair until the target is reached |
| WardState.ArgMinIsCheapestPair | pipeline/cluster.py:929-929 | the least entry is always a pair of living clusters, and none is cheaper |
| WardTheory.RunIsExact | pipeline/cluster.py:930-933 | every living slot holds the total mass and the weighted mean of its members, with Huygens' identity for their inertia |
| WardTheory.RunIsPartition | pipeline/cluster.py:913-945 | the groups partition the inputs, each named by its smallest member; there are exactly as many as asked for, or as there were |
| WardTheory.MergeCostIsInertiaIncrease | pipeline/cluster.py:900-903 | a merge cost is the increase in within-group inertia |
| WardTheory.CostsSumToInertia | pipeline/cluster.py:897-939 | the merge costs of a run sum to the final within-group inertia |
| WardTheory.RunHasNoInversions | pipeline/cluster.py:928-939 | merge costs never decrease along a run |
| WardTheory.FewerGroupsCoarsen | pipeline/cluster.py:928-939 | stopping at fewer groups coarsens the partition obtained at more |
| WardAgglomeration.SameLabelIffTogether | pipeline/cluster.py:941-945 | two inputs have the same label exactly when they are in the same group |
| WardAgglomeration.RunLabels | pipeline/cluster.py:907-945 | the labels are exactly 0 up to the number of groups, and fewer groups only merge labels |
| WardAgglomeration.LabelsFollowLeastMembers | pipeline/cluster.py:941-945 | groups are numbered in the order of their least members |
| Hierarchy.CentroidsToGroups | pipeline/cluster.py:948-994 | the three branches: one child, few children, Ward over normalised centroids and masses |
| ChildDirections.CentroidIsDirection | pipeline/cluster.py:972-989 | Ward gets, for each child, the vector of length 1 in the direction of the point its members balance about, or that point if it is the origin |
| ChildDirections.MeanBalances | pipeline/cluster.py:972-975 | that point is the mean, and no other |
| ChildDirections.LengthsDoNotMatter | pipeline/cluster.py:975-989 | scaling the points of each child by a positive factor of its own leaves the parents unchanged |
| ChildDirections.MassesCount | pipeline/cluster.py:990-990 | a child weighs as many points as carry its label |
| Hierarchy.ChildDeterminesParent | pipeline/cluster.py:951-953 | every child cluster lies in exactly one parent |
| Hierarchy.ParentsAreExact | pipeline/cluster.py:963-994 | the parent labels in use are exactly 0 up to the smaller of target and number of children |
| NoiseRules.SearchAll | pipeline/cluster.py:796-798 | every point's 21 hits are the points most similar to it, most similar first, in some order of equals |
| NoiseRules.DetectNoise | pipeline/cluster.py:997-1048 | exactly the points that a rule flags, or, beyond the cap, as many of them as it allows and none more similar than one left out |
| NoiseRules.Capped | pipeline/cluster.py:1037-1047 | the walk from the weakest point on keeps exactly the budget of noise points, none more similar than a dropped one |
| NoiseRules.NoiseIsCapped | pipeline/cluster.py:1037-1047 | the noise is at most 15 points in a hundred, or a single point |
| NoiseMeaning.FlaggedIff | pipeline/cluster.py:1013-1028 | a point is flagged exactly if its mean similarity is more than two deviations below the mean, or fewer than three in ten of its neighbours, or none at all, share its label and the median point's cluster has as many points as hits |
| NoiseMeaning.MeanSimIs | pipeline/cluster.py:1013-1013 | the mean similarity leaves out the first hit |
| NoiseMeaning.VarianceIs | pipeline/cluster.py:1027-1027 | the variance is the mean square less the squared mean |
| NoiseMeaning.MedianIsMiddle | pipeline/cluster.py:1016-1016 | the middle value of any descending arrangement, or half the sum of the middle two |
| NoiseMeaning.NeighboursAre | pipeline/cluster.py:799-808 | two points are neighbours exactly if either is a hit of the other, first hits left out |
| NoiseMeaning.NoiseCount | pipeline/cluster.py:1030-1041 | all that is flagged, or 15 points in a hundred rounded down, at least one |
| LiminalTerritories.RelabelNoise | pipeline/cluster.py:1121-1132 | the in-place relabelling: noise of the r-th noisy realm gets the offset plus r, the rest keeps its label |
| LiminalTerritories.RunClustering | pipeline/cluster.py:1078-1135 | the stages in order: three Ward levels on labels before noise handling, then the relabelling |
| LiminalTerritories.LevelsNest | pipeline/cluster.py:1078-1113 | before noise handling an atom determines its territory, a territory its theme, a theme its realm |
| LiminalTerritories.RelabelledTerritories | pipeline/cluster.py:1121-1132 | a point is liminal exactly when its label is at or above the offset; liminal points share a label exactly within a realm |
| LiminalTerritories.LiminalLabelIs | pipeline/cluster.py:1120-1132 | noise gets 1000 above the greatest label plus the number of lower realms with noise |
| LiminalTerritories.RealmNestingSurvives | pipeline/cluster.py:1121-1132 | after relabelling a territory still lies in one realm and is liminal as a whole |
| LiminalTerritories.ThemeNestingSurvivesIff | pipeline/cluster.py:1121-1132 | it lies in one theme exactly when no realm's noise spans themes |
| ThemeSplit.ThemeNestingCanFail | pipeline/cluster.py:1121-1132 | 144 points, every level built by the clustering at its targets and the noise by the two rules on any exact nearest neighbours: two noise points share a liminal territory but no theme |
| ThemeSplit.RealmsAreParents | pipeline/cluster.py:948-994 | the Ward step on that vault joins the themes of the two lone points and no others |
| ThemeSplit.LonePointsAreNoise | pipeline/cluster.py:997-1049 | with crowds of 22 or more the noise is exactly the two lone points, whatever the search does with equals |
| LiminalTerritories.StabilisedNestingSurvives | pipeline/cluster.py:2116-2121 | relabelling by an injective map keeps realm nesting, liminality and the partition |
| StabilisedHierarchy.MapIsInjective | pipeline/stabilize.py:55-153 | on either path the id map covers the labels of the run and joins no two |
| StabilisedHierarchy.StoredHierarchyNests | pipeline/cluster.py:2103-2121 | after clustering and stabilisation, points of one stored territory lie in one stored realm and are liminal together, and the stored territories are the run's, renamed |
| Stabilize.BuildClusters | pipeline/stabilize.py:76-85 | the member sets of the non-negative labels, in order of first appearance |
| Stabilize.CollectMatches | pipeline/stabilize.py:96-104 | the pairs that reach their threshold, in loop order |
| StabilizeRules.AdmissibleIff | pipeline/stabilize.py:94-104 | a pair may match exactly if the clusters share three tenths of their union, or 15 hundredths where the old one is anchored |
| StabilizeRules.AnchoringHelps | pipeline/stabilize.py:93-103 | anchoring more territories never takes a pair away |
| StabilizeRules.SoleCandidate | pipeline/stabilize.py:88-136 | two clusters that meet only each other keep the id exactly if they share that much |
| StabilizeRules.ChosenIff | pipeline/stabilize.py:106-114 | a pair is chosen exactly if it may match and no chosen pair outranks it for one of its clusters, by score, then new id, then old id |
| Stabilize.GreedyMatch | pipeline/stabilize.py:106-134 | mapping, used clusters and events of the greedy choice |
| Stabilize.Alloc | pipeline/stabilize.py:47-53 | the first id from the start on that is neither reserved nor taken; it terminates |
| Stabilize.TopThree | pipeline/stabilize.py:208-228 | the three successors with most arrivals, the first one dominant |
| Stabilize.StabilizeIds | pipeline/stabilize.py:13-230 | mapping, events and lineage of both paths, for any iteration order of the sets |
| GreedyMatching.GreedyIsHalf | pipeline/stabilize.py:106-114 | any matching of the sorted pairs totals at most twice the greedy one |
| StabilizeMatching.ChosenIsHalf | pipeline/stabilize.py:96-114 | any set of admissible pairs using each cluster once has at most twice the chosen total overlap |
| StabilizeMatching.RejectedLost | pipeline/stabilize.py:108-110 | a rejected admissible pair shares a cluster with a chosen one that scores at least as high |
| StabilizeMatching.MajorityKeepsId | pipeline/stabilize.py:97-114 | a new cluster overlapping an old one by more than half receives its id |
| StabilizeMatching.RenamingIsQuiet | pipeline/stabilize.py:76-134 | if the partition was only renamed, the mapping recovers the old labels, all events are 'stable' and there is no lineage |
| StabilizeIdentity.IdsAreOldOrFresh | pipeline/stabilize.py:136-147 | the map is total; a formed id is no old, raw new or reserved id |
| StabilizeIdentity.IdMapIsInjective | pipeline/stabilize.py:108-147 | no two new clusters get the same id |
| StabilizeRules.FormedIds | pipeline/stabilize.py:138-155 | unmatched clusters get, without gaps, the ids from one above everything in sight |
| StabilizeRules.FormedInOrder | pipeline/stabilize.py:83-155 | and in the order in which their first points come |
| StabilizeIdentity.FirstRunKeepsOrder | pipeline/stabilize.py:55-74 | on a first run the ids avoid the reserved ones and keep the order of the labels |
| StabilizeRules.FirstRunTakesLeast | pipeline/stabilize.py:46-67 | on a first run a label gets the least id from itself on that is neither reserved nor a smaller label's |
| StabilizeIdentity.DeltasAddUp | pipeline/stabilize.py:55-206 | on first and later runs the point deltas of all events sum to new points minus old points; a first run also counts labels below -1 |
| StabilizeRules.EventOfNew | pipeline/stabilize.py:66-155 | every new cluster has an event with its id, size, change, overlap and kind: grew exactly if it has more points |
| StabilizeRules.EventOfDissolved | pipeline/stabilize.py:196-206 | every old cluster whose id goes to no new one has its event |
| StabilizeRules.EventCount | pipeline/stabilize.py:116-206 | there are no other events |
| StabilizeIdentity.ArrivalsAreShared | pipeline/stabilize.py:208-215 | the count towards a successor is the overlap of the old cluster with the new cluster that has that id |
| StabilizeIdentity.DominantOfDissolved | pipeline/stabilize.py:194-228 | in a result every dissolved cluster with survivors has exactly one dominant row, naming a new cluster that shares the most points with it, and none without |
| StabilizeRules.RowsOfDissolved | pipeline/stabilize.py:208-229 | a dissolved cluster has a row for each id its points ended under, or for the three best, with count and share, best first |
| StabilizeIdentity.BlockOfDissolved | pipeline/stabilize.py:194-228 | the lineage rows of a dissolved cluster are one block of at most three |
| StabilizeIdentity.OutNeverExceedsSize | pipeline/stabilize.py:208-228 | counts out of an old cluster never exceed its size |
| StabilizeIdentity.IntoNeverExceedsSize | pipeline/stabilize.py:208-228 | counts into a new cluster never exceed its size |
| Lifecycle.Vault.Prune | pipeline/cluster.py:1879-1970 | revive, then dissolve unless a message or a point awaits its embedding; the number dissolved |
| Lifecycle.Vault.Run | pipeline/cluster.py:2003-2164 | a stabilised run: below the minimum only the prune; otherwise write, mark, prune and insert, in that order |
| Lifecycle.PruneIsIdempotent | pipeline/cluster.py:1879-1970 | a second prune changes nothing |
| Lifecycle.PruneFollowsLiveness | pipeline/cluster.py:1879-1970 | while a message or a point awaits its embedding the prune dissolves nothing; otherwise exactly the point-less profiles end dissolved |
| LifecycleRuns.RunSettlesLiveness | pipeline/cluster.py:2138-2160 | after a run, from any tables, no profile with a point is dissolved, and without a backlog every profile without one is |
| LifecycleRuns.RunReusesOnlyOverlap | pipeline/cluster.py:1866-1876 | a point's territory after a run either had no profile row, and gets a new one, or is an old cluster overlapping up to the threshold |
| LifecycleRuns.EmbeddedAreClustered | pipeline/cluster.py:2020-2021 | the minimum is compared with the number of points that the clustering labels |
| LifecycleRuns.DeletePurgesEmptied | src/core/delete-cascade.js:226-242 | deleting removes the named points and the rows of the territories it emptied, and nothing else |
| LifecycleRuns.EveryStateIsSound | pipeline/cluster.py:1879-1970 | from tables in which every territory that holds a point has a profile that is not dissolved, every history keeps that so |
| LifecycleRuns.IdentityIsKept | pipeline/cluster.py:1866-1876 | a profile row keeps its identity as long as it exists |
| LifecycleRuns.BacklogRunDissolvesUnmatched | pipeline/cluster.py:2142-2160 | under a backlog a run that clusters dissolves exactly the unmatched old territories that hold no point awaiting its embedding |
| LifecycleRuns.AbsentTerritorySurvives | pipeline/cluster.py:1791-1813 | under a backlog a territory with no point at all survives the run |
| LifecycleRuns.PartlyAbsentIsDissolved | pipeline/cluster.py:2142-2150 | a territory that is only partly absent can be dissolved under a backlog, at any number of points from three on and any minimum up to it |
| LifecycleRuns.DissolvedIsForever | pipeline/cluster.py:1914-1945 | a dissolved territory that holds no point stays dissolved and empty for the rest of any history, from any tables |
| LifecycleRuns.RestoredIff | pipeline/cluster.py:1914-1945 | a run restores a dissolved territory exactly if it held a point and either the run clusters nothing, or a point of it is not embedded, or its cluster is matched to a new one; equivalently, if a point is in it afterwards |
| FisherTrajectory.Trajectory.RunLevelWindow | pipeline/compute-fisher.py:527-689 | the table after a run that skips stored windows, recomputes those it cannot parse or, in full mode, all, resumes the length and may stop anywhere |
| FisherTrajectory.Step | pipeline/compute-fisher.py:618-683 | the row of one new window, low-confidence windows forward-filled |
| FisherRows.QuietRow | pipeline/compute-fisher.py:618-683 | every column of a window with fewer than 15 messages |
| FisherRows.BusyRow | pipeline/compute-fisher.py:618-683 | every column of the others: step, velocity per day, anchor distance, length, ratio, and the phase, cycling below three tenths, transforming from seven tenths on, exploring between; the same over 90 daily or 13 weekly windows |
| FisherRows.ActivationIsDistribution | pipeline/fisher.py:46-72 | positive shares that add up to 1, in proportion to the count plus a hundredth |
| FisherRows.AnchorIsFirst | pipeline/compute-fisher.py:591-597 | the anchor is the first window with 15 messages or more |
| FisherTrajectory.RecentRatio | pipeline/compute-fisher.py:640-663 | the rolling ratio and phase of the last K windows |
| FisherRuns.EveryStoredRowIsFull | pipeline/compute-fisher.py:481-524 | after any growing sequence of runs, interrupted and full ones and unreadable rows included, every stored row is that of a full recompute |
| FisherRuns.IncrementalIsFull | pipeline/compute-fisher.py:527-689 | once a run over the whole list completes, the table is exactly that of one full recompute |
| FisherRuns.FullRowOfPrefix | pipeline/compute-fisher.py:591-596 | later windows change no earlier row, the anchor included |
| FisherRuns.LengthIsConfidentTravel | pipeline/fisher.py:350-364 | the stored length is the sum of the consecutive distances of the confident windows |
| FisherRuns.LengthNeverDecreases | pipeline/fisher.py:342-347 | stored length never decreases |
| FisherRuns.RollingRatioInUnit | pipeline/compute-fisher.py:640-663 | the rolling ratio lies between 0 and 1; exactly when it is defined |
| FisherRatio.DisplacementWithinTravel | pipeline/fisher.py:350-364 | displacement exceeds length by at most what quiet windows since the anchor travelled |
| FisherRatio.LinkedRatio | pipeline/fisher.py:116-126 | the cumulative ratio lies between 0 and 1 if the window is linked to the anchor by steps that count |
| FisherRatio.CumulativeRatioIff | pipeline/fisher.py:116-126 | it is at most 1 under every metric exactly if the window is so linked, or no counted step moves and there is no ratio |
| FisherRatio.CumulativeRatioIffNoQuiet | pipeline/fisher.py:342-364 | for pairwise different activations exactly if no window strictly between anchor and window has too few messages |
| FisherRatio.CumulativeRatioCanExceedOne | pipeline/fisher.py:116-126 | a quiet window between two busy ones lets some metric put D / L above 1 |
| FisherRuns.QuietPrefixDropped | pipeline/compute-fisher.py:640-663 | a recompute of a list without its leading quiet windows differs only in the rolling ratio and phase of its first windows |
| FisherWindows.WindowsFor | pipeline/compute-fisher.py:189-225 | the starts of a list: the grid from the horizon on, by the stride, up to the last whole window |
| FisherWindows.StartsAre | pipeline/compute-fisher.py:189-225 | which times are starts, in days and weeks, for each of the four lists |
| FisherWindows.GridStartIs | pipeline/compute-fisher.py:189-225 | the grid starts at the last midnight, for the weekly step the last Monday's, no later than the horizon |
| FisherWindows.HorizonOfVault | pipeline/compute-fisher.py:747-787 | where a daily, rolling or monthly list starts, for a young vault, one in between, and a very old one |
| FisherWindows.GridsAlign | pipeline/compute-fisher.py:189-225 | daily and weekly lists of any two runs are on one grid; monthly ones exactly if their first days are whole weeks apart |
| FisherWindows.SlidesIffAligned | pipeline/compute-fisher.py:189-225 | a list goes over into a later overlapping one by dropping and appending starts exactly if the stride divides the shift; otherwise they share none |
| FisherWindows.SlidRunsAreFull | pipeline/compute-fisher.py:527-689 | after any runs on one grid behind a quiet front every stored row is a full one but for the rolling fields of the first windows |
| FisherWindows.SlidRunAgrees | pipeline/compute-fisher.py:527-689 | a completed run then agrees with a recompute of its own list, wholly once a rolling slice has passed the latest front |
| FisherWindows.TwoClocksAgree | pipeline/compute-fisher.py:527-689 | the same said of two clock times, with the rows in full agreement once they are a rolling slice behind the later front |
| FisherWindows.DroppedTravel | pipeline/fisher.py:350-364 | a list that lost windows has its length less by what was travelled up to the new front |
| FisherWindows.SlidLengthIff | pipeline/compute-fisher.py:602-616 | a new row's length, resumed from stored rows, equals a recompute's exactly if nothing was travelled up to the new front |
| FisherWindows.DisjointRunAdds | pipeline/compute-fisher.py:553-590 | a run none of whose windows is stored adds its own recompute and leaves the stored rows |
| FisherWindows.MisalignedRunsMix | pipeline/compute-fisher.py:189-225 | two runs on grids that are not aligned leave the rows of both |
| FisherWindows.MonthlyGridsFlip | pipeline/compute-fisher.py:217-223 | two clock times 23 hours apart with the same days of history and monthly grids a day apart |
| FisherWindows.MonthlyRunsMix | pipeline/compute-fisher.py:217-223 | runs at those times leave monthly rows of both grids, which no recompute does |
| SwrCache.SwrStore.Get | src/mindscape-cache.js:34-53 | a value at once if one is cached, else the compute in flight; a new compute exactly if none is in flight and the entry is missing or five minutes old |
| SwrCache.SwrStore.Settle | src/mindscape-cache.js:43-47 | a result is stored only if no bust came since it was requested |
| SwrCache.SwrStore.Bust | src/mindscape-cache.js:55-59 | the generation moves and the user's entry, or all, are dropped |
| SwrCache.Mindscape.BustMindscape | src/mindscape-cache.js:113-115 | only the full cache is busted |
| SwrCache.Mindscape.BustMindscapePoints | src/mindscape-cache.js:123-129 | both caches are busted |
| SwrCache.CachedIsFresh | src/mindscape-cache.js:22-25 | in every interleaving a cached value comes from a compute requested after the last bust affecting its user |
| SwrExact.CachedExactly | src/mindscape-cache.js:34-59 | a cache holds for a user the value of the last compute that settled without a bust since its request, unless a bust affected the user since; nothing else |
| SwrCache.ComputeOrigin | src/mindscape-cache.js:38-47 | every compute was requested by a get, and its generation is current exactly if no bust came since |
| SwrCache.OneInFlight | src/mindscape-cache.js:37-50 | at most one compute per user is in flight |
| SwrCache.BustsReachTheirCaches | src/mindscape-cache.js:102-129 | a points bust empties both caches for its users; a narrative bust leaves the points cache as it is |
| SwrCache.CachedAfterLastBust | src/mindscape-cache.js:16-25 | the same for the system of both caches and both kinds of bust |
| SwrCache.JoinedComputeCanPredateBust | src/mindscape-cache.js:37-52 | a caller that waits can join a compute older than the last bust |
| SwrCache.AwaitIsPostBust | src/mindscape-cache.js:37-52 | when the compute a cold get waits for is newer than the last bust: always if it starts it, else exactly if its generation is current, where all busts concern the caller |
| EmbedService.Service.LoadStep | pipeline/embed-service.py:127-197 | each access of the loader to the shared state |
| EmbedService.Service.EmbedStep | pipeline/embed-service.py:208-228 | the checks of a request, non-blocking admission, the inference lock, and the release on every path |
| EmbedService.StepKeepsInv | pipeline/embed-service.py:127-228 | every step of every thread keeps the invariant |
| EmbedService.ReachableIsSafe | pipeline/embed-service.py:181-228 | a session comes with the tokenizer of its own load; one inference at a time, with such a pair; no load once ready; free slots and admitted requests make up the limit |
| EmbedOutcomes.ReadyNeedsLoad | pipeline/embed-service.py:136-188 | a session that is there comes from a load that got through; without one the service is never ready |
| EmbedOutcomes.LoadNumbersDiffer | pipeline/embed-service.py:136-188 | different loads have different numbers, so a pair of one number is of one load |
| EmbedOutcomes.LoadIsPublished | pipeline/embed-service.py:181-188 | after a load that gets through its own pair is published, or being assigned |
| EmbedOutcomes.FailedLoadIsRecorded | pipeline/embed-service.py:190-197 | when a load is answered as failed, neither global is set, the error is, and the lock is free |
| EmbedOutcomes.FailsClosed | pipeline/embed-service.py:190-197 | from any state, the three steps of a failure leave no session, no tokenizer and the error |
| EmbedOutcomes.ReadyNeverLoads | pipeline/embed-service.py:128-136 | once the model is there, no further thread goes to the load lock |
| EmbedOutcomes.AnswerHasReason | pipeline/embed-service.py:127-228 | every answer was decided by a step of its thread: the request, a failed load, a full queue, or how the inference ended |
| EmbedOutcomes.ReasonHasAnswer | pipeline/embed-service.py:127-228 | and such a step leaves the thread no other answer |
| EmbedService.ReadyIsForever | pipeline/embed-service.py:181-188 | once session and tokenizer are there, the same ones stay |
| EmbedService.HealthIsHonest | pipeline/embed-service.py:318-332 | reading the session and later the tokenizer, `/health` answers ready exactly if the session was there, and then the model is ready |
| EmbedService.HealthStaysReady | pipeline/embed-service.py:318-332 | a later `/health` never takes that answer back |
| EmbedService.SheddingIsExact | pipeline/embed-service.py:221-223 | a request is shed exactly when the limit is admitted; with no request inside, all slots are free |
| EmbedService.EveryStepIsProgress | pipeline/embed-service.py:127-228 | every step brings its request closer to an answer: at most 16 of its own |
| EmbedService.NobodyIsStuck | pipeline/embed-service.py:134-226 | whoever waits for a lock waits for a thread that can step |
| Freshness.StaleIff | src/mindscape-freshness.js:44-75 | stale exactly when there is a map and the corpus exceeds the reference by ten and by more than a ninth of it |
| Freshness.VerdictIs | src/mindscape-freshness.js:44-75 | the verdict for any three values, null and not-a-number among them |
| Freshness.RebuildsIff | src/mindscape-freshness.js:16-75 | a load asks for a rebuild exactly if there is no map or it is stale, in numbers |
| Freshness.GenerateStats.Write | src/generate-stats.js:30-38 | the record after a write, with and without a count |
| Freshness.GenerateStats.Close | src/jobs.js:371-378 | the two writes of a completed run |
| Freshness.OmittedCountPreservesIff | src/generate-stats.js:24-35 | a write without a count preserves the baseline exactly unless a null is recorded |
| Freshness.TwoUncountedRunsMakeStale | src/generate-stats.js:30-38 | two such writes on a vault without a record make its map stale |
| Freshness.RebuildsAreRare | src/mindscape-freshness.js:16-40 | after k stale-triggered rebuilds whose count was recorded the baseline has grown by (10/9)^k and by 10k |
| Freshness.UncountedRebuildsRepeat | src/jobs.js:374-378 | without the count, any number of loads of a stale map rebuild it, and the baseline does not move |
| Freshness.JustRebuiltIsFresh | src/mindscape-freshness.js:17-21 | a counted rebuild is never stale; an uncounted one is as stale as before |
| Freshness.FallbackIsBounded | src/mindscape-freshness.js:23-30 | the fallback triggers at most two completed rebuilds, one after a null, none after a number |
| Freshness.OneFallbackIff | src/mindscape-freshness.js:23-30 | one rebuild ends the fallback exactly if its count succeeds or a null was recorded |
| Freshness.FallbackCanTriggerTwice | src/mindscape-freshness.js:23-30 | a failed first count lets the fallback trigger again |
| Pooling.SplitWindows | pipeline/cluster.py:324-340 | the windows of every text with owner and token count |
| Pooling.PoolWindows | pipeline/cluster.py:443-463 | padded, masked batches give each window the mean of its own token vectors |
| Pooling.WeightedPool | pipeline/cluster.py:343-358 | the token-weighted mean of each text's windows |
| Pooling.WindowsCoverText | pipeline/cluster.py:331-336 | the windows join to the text; all but the last have as many tokens as the limit |
| Pooling.EmbedTexts | pipeline/embed-service.py:247-296 | the whole equals one flat mean over all of a text's token vectors, for every window and batch size |
| Pooling.OneWindowUnchanged | pipeline/cluster.py:327-330 | a text that fits one window gets the plain mean of that window |

## Left out

- Rounding: floats are reals, so `0.1`, the thresholds and the sums are exact; jaccard scores and transfer strengths are not rounded to three decimals; NaN and infinities of numpy do not occur.
- The square root of two, the vector norm, k-means labels, the standard deviation's square root, the Fisher distance, z-scores, entropy, top contributors and the network are parameters; a z-score depends on the window's start, its two vectors and its count.
- Stabilize.StabilizeIds: leaves out the centroid backup, because `main` never passes centroids.
- The `--fresh-start` path of `main`, which bypasses the reserved ids.
- `enforce_nesting`, `leiden_for_k`, UMAP, the realm and theme stabilisation beyond injectivity of the maps, and the pruning of stale realm rows.
- A missing territory in the stabiliser's input is a negative label; the iteration order of Python sets is left arbitrary where the result depends on it.
- Old rows with a realm but no territory: `main` never writes one, so an old assignment lists exactly the rows with a territory.
- Lifecycle.Vault.Run: leaves out energy, names, chronicles, anchoring rules, lineage rows and predecessor inheritance, which do not affect which profiles exist or are dissolved.
- The backlog of messages, with its exception for rows that were given up, is one bit that any operation may change; queries succeed.
- FisherTrajectory.Trajectory.RunLevelWindow: counts are per category of the fixed list; a stored row whose vector parses but whose length does not, which the source skips without advancing the length, does not occur.
- Calendar dates: times are seconds since the epoch, and a list's `now` and its days of history belong to one moment.
- The labels of k-means: the vault of `ThemeNestingCanFail` takes them to be one per direction, in order; its embeddings have three coordinates.
- NoiseRules.SearchAll: the scaling of the vectors to length 1, vaults of at most 20 points, where the index has fewer hits to give than it is asked for; the weights of the graph, which the noise rules do not read.
- LiminalTerritories.RunClustering: takes the noise as any function of the labels.
- SwrCache.SwrStore.Get: stands for `get` up to its return; the promise's callbacks are the steps Settle, Fail and Finish, in any interleaving.
- The listeners of a points bust.
- Fairness of the locks: that a waiting thread is eventually served is not stated, only that its lock's holder can step.
- Infinite numbers and strings among the JavaScript counts, and rebuilds forced by the caller.
- Pooling.EmbedTexts: one coordinate at a time; the final normalisation to unit length and the 768-to-256 slice.
- SQL, HTTP, encryption, the language model and the user interface.
