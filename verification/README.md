# A model of the directory exporter

The exporter watches directories named by targets, scans them in the background, keeps the
results in a cache and renders them as Prometheus text. This project models its core in Dafny
and proves what the code promises, and where it does not keep a promise, exactly when it does.

Each part follows one source file. Code that updates variables is a class or a method with loops,
proved against a function; the properties are lemmas about that function.

- **Discovery** (`watchlist.go`): `FileSystem`, `Paths`, `Glob`, `Pattern`, `Discovery`, `Targets`,
  with theorems in `DiscoveryTheorems`, `GlobScan` and `PatternReach` and, for bounded preorder
  listings in general, `Preorder`. `GlobMeaning`, `DiscoveryMeaning` and `TargetMeaning` tell the
  results by the tree, the settings and the text of the pattern alone.
  A tree is three total functions on paths, so a symbolic-link cycle gives infinitely many
  paths. `Discovery.Walker` is the recursive walk with its captured variables; the reference
  enumerates every acyclic directory path without looking at the pattern and filters afterwards.
- **Scanning** (`scanner.go`): `Scanner`, `ScannerTheorems`, and by the fields of the entries alone
  `ScannerMeaning`. A directory is what its `ReadDir` calls return; `ReadDirCalls` gives the chunks
  of 256 in which a directory is read to its end.
- **Buffers, activities, nodes** (`buffer.go`, `activity.go`): `Buffers`, `Activity`, `NodeActivities`,
  `Nodes`, `NodeKeys`, each of the first four with a module of its own that tells its results by what
  is on the disk (`BuffersMeaning` and so on). `Fanout` is the map their goroutines fill. `Selection`
  is how these modules say that elements are chosen and keep their order.
- **Concurrency** (`exporter.go`, `cache.go`): `WorkerPool`, `CacheProtocol` and `Protocol` are step
  systems with one step per channel, lock or atomic operation; theorems hold of every run, and
  `CacheRuns` and `ProtocolRuns` build the runs that exist. `ProtocolTrace` compares the state with the
  actions of the run that led to it.
  `CacheStore` has the objects themselves, one call at a time.
- **Text** (`metrics.go`): `Text`, `Sorting`, `Exposition`, `Render`, with theorems in
  `RenderTheorems`, `RenderContent`, `RenderMeaning`, `RenderSeries` and `RenderOrder`.

## Where the code and its promises part

- **A count is not always exact.** The project's `README.md` (lines 56 and 79) says the file count is
  always exact. `ExactCountIff`: it is, for every directory, just when `max_files_per_dir` is off. With
  that cap the count promised at `scanner.go:29-34` is min(cap, n); `CappedCountIff` shows that it is
  met for every directory just when a cap is off or `max_files_per_dir` is at most
  `max_stat_files` + 1. Otherwise spending the stat calls also stops the counting at the end of the
  current chunk of 256 entries (`scanner.go:97-124`): `StatCapStopsCount` gives the directory, and
  `CountIsCappedForIff` says of each directory whether it is counted short.
- **Reused counts are capped counts.** `buffer.go:185-195` takes a successful scan in place of a count,
  also when that scan was cut short. `ReuseIsExactIff`: it is exact for all directories just when
  `max_files_per_dir` is off; `CapBreaksReuse` covers every directory with more files than the cap.
  `ReuseIsHarmlessIff` says the same of the map that ScanAllNodeBuffers returns.
- **A pattern accepted at the start may match nothing.** `watchlist.go:73-78` checks the whole pattern,
  the walk matches segments. `CheckAgreesIff`: the two agree on whether a pattern is well formed just
  when the check refuses it or no slash of it stands inside a class or after a backslash; `[a/b]` is
  accepted and has such a slash. `TargetFindsIff` says when a
  pattern can find anything in any tree: each segment must fit the name of a directory, which
  excludes malformed segments, and the empty one of `a//b`, which passes the check as well.
- **Ready can show before the data.** `cache.go:126` loads `ready` after the lock is released.
  `EmptyReadyIff`: a snapshot can end ready with the initial, empty cache just when no SetBatch had
  begun as it took the lock. `ReadyBeforeSnapshot`: after IsReady() has held, a snapshot has data.
- **Output can depend on map order.** The comment at `metrics.go:65-68` says sorting makes it
  deterministic. Sort keys are label values joined by slashes. `TextFixedIff`: the text is independent
  of map order just when directories with equal keys print the same samples, given that different
  counts print differently, that a failed scan counts nothing (`scanner.go:41-45`) and that node
  records sit under their own keys (`ActivitiesKeyed`, `BuffersKeyed`).
  `TwoTargetsCollide` and `OneLabelTwoBases` show targets for which it is not;
  `OneTargetOneText` shows that one target alone is safe.
- **Early exit is not always a full search.** `EarlyExitIsFullSearchIff`: it is one just when each event
  of a later-searched file is matched by one at least as new in the first file that has any. Files in
  time order satisfy that; when rotation number 10 of one day is newer than number 9 they are not,
  because file names are compared as text (`NumberedFilesMislead`).

## Model

| member | source | states |
|---|---|---|
| Glob.NoMetaMatchesAtMostOne | watchlist.go:178 | a glob segment free of `*`, `?`, `[` matches at most one name, escapes included |
| GlobMeaning.MatchTokensIff | watchlist.go:178 | parsed globs match a string if and only if it falls into one piece for each token: any slash-free string for a star, one admitted character for every other token, ranges and negation written out |
| GlobMeaning.ParseIff | watchlist.go:178 | a glob has certain tokens if and only if it is their texts one after the other, with escapes, ranges and negated classes |
| GlobMeaning.MatchIff | watchlist.go:178 | so a glob matches a name if and only if it spells tokens that cut the name, and errs if and only if it spells none |
| GlobMeaning.PrefixGlob | watchlist.go:178 | a literal prefix followed by `*` matches exactly the names with that prefix |
| GlobMeaning.StarGlob | watchlist.go:178 | `*` matches every directory name |
| GlobMeaning.WordGlob | watchlist.go:178 | a plain word matches itself alone |
| Pattern.SameAtFullLength | watchlist.go:162-215 | on paths as long as the pattern the prefix test and the full test agree |
| Pattern.PrefixNeverErrs | watchlist.go:275-281 | what passes the prefix test never makes the full test err; it then matches just when it has the pattern's length |
| Pattern.PrefixClosed | watchlist.go:192-215 | the prefix test is inherited by every prefix of a path |
| Pattern.FullMatchReachesAllPrefixes | watchlist.go:338 | a full match implies that no ancestor is pruned |
| Pattern.FullMatchSegments | watchlist.go:162-188 | a full match is equal length and every component accepted by its segment |
| Pattern.PatternMeaning | watchlist.go:162-188 | a path matches if and only if it has as many names as the trimmed pattern has segments, each a glob match or, for `#include`, a listed name or a match of a listed glob |
| Pattern.PrefixMeaning | watchlist.go:192-215 | a path passes the prefix test if and only if it is no longer than the pattern and its names are accepted so far |
| Text.TrimMeaning | watchlist.go:166 | trimming drops the runs of a character at both ends and nothing else |
| Pattern.MatcherCoherent | watchlist.go:162-230 | any pattern, malformed segments included, gives tests with these properties |
| Paths.CleanIdempotent | watchlist.go:248 | cleaning a path twice is cleaning it once |
| Paths.NormalizeRules | watchlist.go:248 | cleaning drops empty elements and dots, a name with the `..` after it, and `..` at the root |
| Discovery.Walker.Walk | watchlist.go:269-358 | the pruned walk appends the filtered enumeration from its directory, keeps the first read error, and gives the ancestor set back |
| Discovery.Walker.WalkBelow | watchlist.go:310-358 | reading stops at the depth limit; a read error is kept only when it is the first |
| Discovery.Walker.WalkChildren | watchlist.go:319-357 | the entries of one directory contribute in order and leave the ancestor set as it was |
| Discovery.Walker.WalkChild | watchlist.go:320-356 | an entry contributes nothing unless it is a directory, can still match and is no real ancestor |
| Discovery.Walker.Descend | watchlist.go:348-355 | the set holds the real paths of the stack during the call and is restored after it |
| Discovery.Walker.Offer | watchlist.go:274-308 | exactly the fully matching directory is added; the error branch is dead |
| Discovery.Walker.Label | watchlist.go:284-304 | the label computation comes to LabelsOf, whose meaning DiscoveryIs states; the unequal-length branch is dead |
| Discovery.PrunedSubtreeIsEmpty | watchlist.go:337-340 | a cut subtree holds no entry and no reportable read error |
| Discovery.DiscoverDirectories | watchlist.go:247-363 | entries and error equal those of enumerate-then-filter, base checks included |
| DiscoveryTheorems.OnStackMeaning | watchlist.go:265-266 | the ancestor set is the set of real paths of the prefixes of the current path |
| DiscoveryTheorems.EnumeratedIffAcyclic | watchlist.go:319-355 | the enumeration is every listed directory path within the depth on which no real directory repeats |
| DiscoveryTheorems.EnumerateDistinct | watchlist.go:319-357 | no path is visited twice |
| DiscoveryTheorems.DiscoversExactly | watchlist.go:268-360 | an entry is found if and only if its path is acyclic, of length 1 to maxDepth and fully matched |
| DiscoveryMeaning.DiscoveryIs | watchlist.go:247-363 | the entries are, each once and in the order of the walk, the directories reachable without a cycle, within the depth and matching the pattern; each has its path below the base, the first name as stream, and as type the names after it or, with a pattern, exactly those that face a segment with `*`, `?`, `[` or `#include`, in order |
| DiscoveryMeaning.ErrorMeaning | watchlist.go:249-317 | the error is that of the base, else of the first directory in the order of the walk that was to be read and cannot be, and none when there is none |
| DiscoveryMeaning.PathIsText | watchlist.go:320 | the path of an entry is the cleaned base, a slash and its names |
| DiscoveryTheorems.LabelsInjective | watchlist.go:284-304 | two matching paths with one stream and type are one path, although literal segments are dropped |
| DiscoveryTheorems.PathOfInjective | watchlist.go:320 | different relative paths give different absolute paths |
| DiscoveryTheorems.DiscoveredLabelsAndPathsDiffer | watchlist.go:283-306 | no two entries of a discovery share labels or path |
| DiscoveryTheorems.PatternDepthSaturates | watchlist.go:79-92 | with a pattern, every depth from its length up finds the same |
| DiscoveryTheorems.RealDirectoriesBoundDepth | watchlist.go:342-349 | with N real directories, all resolvable, every depth from N - 1 up finds the same |
| Preorder.UnderMember | watchlist.go:319-357 | a bounded preorder listing holds exactly the paths that step from child to child |
| Preorder.UnderOrdered | watchlist.go:319-357 | a directory comes before what is below it, and children in listing order |
| Preorder.UptoSame | watchlist.go:270 | listings deep enough to reach a length agree up to that length |
| Preorder.UnderSaturates | watchlist.go:270 | a tree of bounded height is listed in full from any depth reaching the bound |
| Targets.ResolveExplicitDirs | watchlist.go:98-122 | explicit directories give one entry per distinct cleaned path, in order |
| Targets.DiscoverTarget | watchlist.go:64-93 | explicit list, pattern check, automatic depth and walk come to the specified result |
| Targets.DiscoverTargets | watchlist.go:51-62 | all targets' entries in order, and the first error, whichever target fails |
| Targets.ExplicitLabelsDiffer | watchlist.go:98-122 | explicit directories of a target have distinct labels, and each listed one is present |
| Targets.TargetLabelsDiffer | watchlist.go:64-93 | no target yields two entries with the same labels |
| Targets.TargetPathsDiffer | watchlist.go:92 | no auto-discovered target yields two entries with the same path |
| TargetMeaning.ExplicitMeaning | watchlist.go:98-122 | explicit directories yield one entry for the first use of each cleaned path, in list order, with first component and rest as labels |
| TargetMeaning.AutomaticMeaning | watchlist.go:64-93 | a target without them yields what discovery wants at its own depth, the pattern's, or one level, under its label or its cleaned base |
| TargetMeaning.BareTarget | watchlist.go:79-92 | a target with nothing but a base watches exactly the directories right below it, without a type |
| TargetMeaning.EntriesInBlocks | watchlist.go:51-62 | each target's entries stand in one block, in the order of the targets |
| TargetMeaning.FirstTargetError | watchlist.go:51-62 | the error is that of the first target that fails, none if none does |
| Targets.AutomaticDepthIsEnough | watchlist.go:79-91 | leaving out max_depth loses nothing against any larger depth |
| Targets.AcceptedPatternMayWatchNothing | watchlist.go:73-78 | `[a/b]` passes the pattern check and watches nothing |
| GlobScan.ParseRead | watchlist.go:178 | a glob is well formed if and only if reading it ends outside every class and escape |
| GlobScan.SegmentsParseIff | watchlist.go:73-78 | all segments are well formed if and only if the whole, `#include` replaced, is and no slash stands inside a class or after a backslash |
| PatternReach.CheckAgreesIff | watchlist.go:73-78 | the check before the walk and the walk agree on whether a pattern is well formed if and only if the check refuses it or no slash stands inside a class or after a backslash |
| PatternReach.FitsNameIff | watchlist.go:178 | a parsed segment matches some directory name if and only if each token admits a character and there are three tokens or a character other than the dot |
| PatternReach.PatternFindsIff | watchlist.go:268-360 | some tree yields an entry if and only if the depth reaches the pattern and every segment fits a directory name |
| PatternReach.TargetFindsIff | watchlist.go:64-93 | the same for a target with its automatic depth and the check before the walk |
| PatternReach.DotsFitNothing | watchlist.go:166-178 | empty, `.` and `..` segments are well formed and fit no directory |
| PatternReach.DoubleSlashFindsNothing | watchlist.go:73-78 | `a//b` passes the check with well-formed segments and can watch nothing |
| Targets.WatchedPathsAreClean | watchlist.go:108 | every watched path is in the cleaned form that buffer counting looks up |
| Scanner.ScanNext | scanner.go:64-118 | one entry takes the tally of the entries before it to theirs, and the loop is left exactly when the count cap is full |
| Scanner.ScanChunk | scanner.go:63-119 | the inner loop: the tally of everything seen, or when cancelled of what was polled before |
| Scanner.ScanDir | scanner.go:36-141 | the result, cancelled at any poll or not: a scan cut off reports exactly what was examined before, as truncated, any other the specified summary |
| ScannerTheorems.ScanIsFlat | scanner.go:55-128 | when the caps agree the result depends only on the concatenated entries |
| ScannerTheorems.SummaryMeaning | scanner.go:88-139 | count is min(maxFiles, n), n without a cap; oldest and newest are attained bounds of the times read |
| ScannerTheorems.TruncatedMeaning | scanner.go:89-100 | truncated exactly when a file was left out or counted with the stat calls spent; otherwise all was read |
| ScannerTheorems.CallsFlatten | scanner.go:61 | reading in calls of 256 returns every entry once, in order |
| ScannerMeaning.ReportMeaning | scanner.go:36-141 | over the fields of the entries: how many files are counted, which times are read (through links the target's), the least and greatest of them, when it is truncated and after which call reading stops |
| ScannerMeaning.IgnoredChangesNothing | scanner.go:70-84 | a subdirectory, a broken link or a link to a directory, put anywhere into any call's entries, changes neither the report, whatever the caps, nor the count-only scan |
| ScannerMeaning.FileCountsOnce | scanner.go:70-95 | any other entry adds exactly one to the count of a scan without a count cap and to that of the count-only scan |
| ScannerMeaning.CountMeaning | buffer.go:94-128 | the count-only scan counts exactly these entries, unless the directory cannot be opened or a poll, one for each call and each entry, finds the context cancelled |
| ScannerMeaning.CutReport | scanner.go:56-69 | a scan cut off at poll c reports a first part of at most c entries, as truncated |
| ScannerMeaning.CallsMeaning | scanner.go:61 | calls are of 256 entries but for the last with any, and an empty one ends the reading |
| ScannerTheorems.CappedCountIff | scanner.go:88-124 | the count is min(maxFiles, n), and the report that of the whole directory, for all directories if and only if a cap is off or maxFiles is at most maxStat + 1 |
| ScannerTheorems.CountIsCappedForIff | scanner.go:88-124 | for any directory and caps the count is min(maxFiles, n) if and only if no countable file follows chunks that spent the stat calls below the count cap |
| ScannerTheorems.ExactCountIff | scanner.go:88-92 | the count is that of all files, for all directories, if and only if maxFiles is off |
| ScannerTheorems.StatCapStopsCount | scanner.go:97-124 | otherwise a directory read in calls of 256 is counted short although its files fit the cap |
| Buffers.CountBufferFiles | buffer.go:94-128 | the count-only scan counts what scanDir counts, and fails exactly when the directory cannot be opened or a poll finds the context cancelled |
| Buffers.UncappedScanCountsAll | buffer.go:146-148 | without a count cap a scan and a count agree, and fail on the same directories |
| Buffers.ReuseIsExactIff | buffer.go:189-195 | reuse of scans is exact for all directories if and only if maxFiles is off |
| Buffers.CapBreaksReuse | buffer.go:191-192 | every directory with more files than the cap is counted short by reuse |
| Buffers.ReuseCutsRecord | buffer.go:185-214 | a collector whose one directory exceeds the cap reports less when its scan is reused |
| Buffers.ReuseIsHarmlessIff | buffer.go:144-220 | reuse leaves the returned map alone, over every unchanged disk, if and only if maxFiles is off |
| Buffers.SumPaths | buffer.go:185-203 | the sum over the paths that could be counted, cancelled or not; success means there is a path and all were counted |
| Buffers.BufferJob | buffer.go:172-216 | who counts as a collector, and the record it gets |
| BuffersMeaning.CollectorMeaning | buffer.go:30-33 | a type is a collector's if and only if it spells "collector" somewhere or, spaces around it aside, is "col", in any case |
| BuffersMeaning.BufferIff | buffer.go:162-181 | who gets a record: no type that is known rules it out, the configured type first, then the discovered, then the detected |
| BuffersMeaning.RecordMeaning | buffer.go:183-215 | the record: own labels, configured paths joined by commas or a dash, the sum of the counts of those that could be counted, success when there is one and all could |
| Buffers.ScanAllNodeBuffers | buffer.go:135-220 | the map is the fan-out of the launched nodes' records over cleaned scan results, cancelled at any turn and any poll |
| Buffers.CutRecord | buffer.go:196-214 | cancellation changes only count and success: never more is counted, and a record that says success is that of an undisturbed run |
| Buffers.ReuseChangesNothing | buffer.go:144-149 | over an unchanged disk without a count cap or cancellation, giving scans changes no key, count or success flag |
| Buffers.OneBufferPerCollector | buffer.go:183-215 | any order of the goroutines gives the same map, one record per collector |
| Buffers.BuffersKeyed | buffer.go:209-215 | every record is stored under its own key |
| NodeKeys.NodeKeyInjective | activity.go:330 | label/stream/node tells nodes apart for arbitrary labels |
| NodeKeys.TypedKeyInjective | activity.go:399 | so does label/stream/node/type |
| Activity.NewestFirstSorts | activity.go:189 | a day's files are searched in descending order, none lost |
| Activity.ScanLines | activity.go:198-207 | the scan of a file folds to its latest event, earlier lines winning ties |
| Activity.ScanDistributorActivity | activity.go:162-252 | the nested search with both breaks comes to DistributorActivity, whose meaning DistributorMeaning states |
| ActivityMeaning.DistributorMeaning | activity.go:162-252 | it succeeds if and only if traces are configured and some file of the days looked back on has an event; then it reports the first latest event of a file of the nearest such day, and no file of that day with an event has a larger path |
| Activity.LatestMeaning | activity.go:201-205 | the fold returns the first event attaining the largest time |
| Activity.SearchMeaning | activity.go:180-219 | in general the search returns that event of the first file with any |
| Activity.EarlyExitIsFullSearchIff | activity.go:211-219 | early exit equals a full fold if and only if the first file with events has one at least as new for each event of a later file |
| Activity.ActivityIsFullIff | activity.go:162-252 | so the reported activity is that of a full scan under exactly that condition |
| Activity.NumberedFilesMislead | activity.go:189 | files 9 and 10 of one day: the search reports 9 although 10 is newer |
| Activity.EarlyExitIsFullSearch | activity.go:188-219 | files in time order satisfy it |
| Activity.DelayMeaning | activity.go:233-239 | the delay is the age, and zero exactly for the future or within min_delay |
| Nodes.Finder.VisitTargets | activity.go:292-346 | the loops add each node with a new key, in order, and remember every key met |
| Nodes.DiscoverStreamNodes | activity.go:288-349 | the result is the node directories with their duplicates dropped |
| NodesMeaning.NodesFound | activity.go:288-349 | the nodes are the directories `<base>/<stream>/nodes/<node>` whose names start neither with "mail" nor with "rap_import", met in the order of targets, streams and nodes, and of those with one key the first is kept |
| Nodes.DiscoveryDropsOnlyDuplicates | activity.go:329-343 | a node is dropped only for one with the same label, stream and node |
| Nodes.DiscoveryKeepsEveryNode | activity.go:329-343 | when no label stands for two bases every node met is kept, directory and type included |
| Nodes.KeepsEveryNodeIff | activity.go:293-343 | every node of every tree is kept if and only if no two targets share a label over different bases |
| NodeActivities.ScanCollectorActivity | activity.go:40-97 | missing, short and non-positive audit data give the stated failed record; otherwise the delay of the epoch |
| NodeActivities.ScanAllNodeActivities | activity.go:352-408 | the map is the fan-out over the launched nodes, cancelled or not |
| NodeActivities.StoredActivity | activity.go:379-397 | a stored activity belongs to its node and names one of the two types |
| NodeActivitiesMeaning.CollectorStores | activity.go:40-97 | a node looked up as a collector stores an activity if and only if its audit file has two fields, the second a positive time; the first is the last file |
| NodeActivitiesMeaning.DistributorStores | activity.go:379-397 | one looked up as a distributor does if and only if a trace file of its stream has an event of it, and tells the event to report |
| NodeActivities.OneActivityPerNode | activity.go:397-402 | any order of the goroutines gives the same map, one record per successful node |
| NodeActivities.ActivitiesKeyed | activity.go:397-402 | every record is successful and stored under its own key |
| Fanout.OrderIrrelevant | exporter.go:213-215 | with distinct keys the order of writes does not change the map |
| Fanout.FannedOut | exporter.go:185-217 | the map has exactly one entry per storing job |
| WorkerPool.StepInv | exporter.go:177-220 | every step of every interleaving keeps counters, semaphore, wait group and map in agreement |
| WorkerPool.NeverMoreThanWorkers | exporter.go:177-189 | at most ScanWorkers scans run, over a prefix of the watch list |
| WorkerPool.AtMostWorkersScan | exporter.go:177-189 | any set of goroutines scanning at one time has at most ScanWorkers members |
| WorkerPool.CancelStops | exporter.go:181-187 | once cancelled, no launch begins but the one already past its check |
| WorkerPool.NoDeadlock | exporter.go:185-220 | before wg.Wait returns some step is always possible |
| WorkerPool.RunsEnd | exporter.go:180-220 | every run ends |
| WorkerPool.JoinedRun | exporter.go:190-220 | after wg.Wait the keys are the launched paths that stored, and the errors the failed scans |
| WorkerPool.JoinedByScans | exporter.go:190-220 | by the scans of the run alone: the keys are those of scans with a value, each with its own scan's, and the errors are the scans that failed |
| WorkerPool.RunsAgree | exporter.go:213-220 | the map depends only on what was launched and its outcomes |
| CacheProtocol.StepInv | cache.go:79-130 | every step keeps the cache invariant; ready and the error counter never go back |
| CacheProtocol.SnapshotsAreConsistent | cache.go:104-130 | a snapshot's maps and time come from one batch, and its errors cover the earlier ones |
| CacheProtocol.SnapshotsNeverGoBack | cache.go:104-119 | batch numbers of successive snapshots never decrease |
| CacheRuns.EmptyReadyIff | cache.go:104-126 | a snapshot can end ready with the empty cache if and only if no SetBatch had begun when it took the lock |
| CacheRuns.ReadyBeforeSnapshot | cache.go:100-126 | a snapshot taken after IsReady() held is ready and holds a published batch |
| CacheRuns.ReadyMayShowTheEmptyCache | cache.go:119-126 | a run in which a ready snapshot is empty |
| CacheProtocol.SetBatchAlone | cache.go:79-91 | undisturbed, the eight actions of SetBatch publish exactly the batch |
| CacheRuns.SnapshotAlone | cache.go:104-131 | undisturbed, the ten actions of Snapshot copy every field and every counter and change nothing |
| CacheStore.Cache.SetBatch | cache.go:79-91 | the batch is published, its errors added, the cache marked ready, and nothing else changes |
| CacheStore.Cache.Snapshot | cache.go:104-131 | every cached value is listed once |
| CacheStore.ListingsArePermutations | cache.go:107-117 | two listings of a map are rearrangements of each other |
| CacheStore.Exporter.Discover | exporter.go:68-77 | the watch list is replaced even when a target fails; the first failure is returned |
| Protocol.StepInv | exporter.go:68-142 | every step of loops, triggers, pool and readers keeps the system invariant |
| Protocol.NoLostReload | exporter.go:79-118 | at an idle select with an empty channel every completed trigger has been followed by a whole Discover and ScanAll, by the history kept in the state |
| ProtocolTrace.EverySendIsServed | exporter.go:79-118 | the same by the actions alone: every send comes before the receive of a reload whose Discover, scan and publication follow in order |
| ProtocolTrace.RestIsTold | exporter.go:68-142 | with both loops idle the watch list is what that reload's Discover found, or main's list when there was none, although two threads replace it; the watched total is its length in 32 bits, and scan errors and reloads are counted exactly |
| ProtocolTrace.RestRecordsAreScanned | exporter.go:142-225 | each cached record is what a scan made after the last read of the list came to, for an entry with its path |
| ProtocolTrace.StateIsTold | exporter.go:68-142 | in every state: the list is the last one set by either loop, the token is there if and only if a send followed the last receive, and the counters and failed scans add up |
| ProtocolTrace.AtMostWorkersScan | exporter.go:177-189 | at no time do more than the configured workers scan |
| Protocol.QuiescentAgreement | exporter.go:95-215 | with both loops idle the last scan read the current list, cached records carry the labels of its entries, and exactly its paths are cached unless it timed out |
| Protocol.SystemSnapshots | cache.go:104-130 | in the whole system a snapshot comes from one batch with its errors bounded |
| Protocol.SystemSnapshotsNeverGoBack | cache.go:104-119 | in the whole system batch numbers of snapshots never decrease |
| ProtocolRuns.RestIsReachable | exporter.go:79-118 | from every reachable state with the scan loop running some continuation comes to rest with every requested reload served |
| ProtocolRuns.AReloadComesToRest | exporter.go:79-118 | over any watch list two coalesced reloads are served together |
| Exposition.PassesCompose | metrics.go:254-257 | the three replacement passes are one per-character escape |
| Exposition.EscapeSafe | metrics.go:248-258 | an escaped value has no raw line feed and no unescaped quote |
| Exposition.LabelValueRoundTrip | metrics.go:254-259 | a rendered value reads back as itself whatever follows |
| Exposition.PairsRoundTrip | metrics.go:85-87 | a label block reads back as exactly its names and values |
| Exposition.PrintRoundTrip | metrics.go:22-246 | printed lines read back as themselves |
| Sorting.SortsTie | metrics.go:71-75 | two sorts of the same records differ only in the order of ties |
| Sorting.ExchangeIsSort | metrics.go:71-75 | exchanging two ties leaves a possible sort |
| Render.Writer.RenderMetrics | metrics.go:22-236 | the text is the document of the snapshot with its lists in some sorted order |
| Render.Writer.RenderDirectories | metrics.go:64-122 | the four directory families, left out when there is no entry |
| Render.Writer.RenderNodes | metrics.go:135-192 | the two families of a node type, left out when no node of it succeeded |
| RenderTheorems.StandardNamesOk | metrics.go:24-227 | the fifteen metric names are distinct and well formed |
| RenderTheorems.EachFamilyOnce | metrics.go:64-122 | each metric's lines are one group with HELP and TYPE once and first |
| RenderTheorems.DocumentRoundTrip | metrics.go:22-259 | the whole text reads back as the document |
| RenderContent.DocumentMeaning | metrics.go:22-236 | a sample is written exactly when the snapshot says so; before the first scan only readiness |
| RenderMeaning.HeaderMeaning | metrics.go:22-246 | a family has its help text and its type if and only if the snapshot has something for it; the error and reload totals are counters, all others gauges |
| RenderMeaning.EachInOrder | metrics.go:83-121 | a loop prints the lines of its records in their order |
| RenderMeaning.ListsAscend | metrics.go:71-75 | the lists are printed in ascending order of their labels joined by slashes |
| RenderMeaning.FileCountsInOrder | metrics.go:78-88 | the file counts stand in one block under their header, a line for each directory in that order |
| RenderSeries.UniqueSeriesIff | metrics.go:83-233 | no series is written twice if and only if records of a kind have distinct labels |
| RenderOrder.TextFixedIff | metrics.go:65-75 | the text is independent of map order if and only if directories with equal sort keys print the same samples |
| RenderOrder.OneTargetOneText | metrics.go:65-75 | with one target any two snapshots of a cache render the same text |
| RenderOrder.QuiescentOneText | metrics.go:65-75 | so it is for the cache of every reachable state at rest over one target's watch list |
| Protocol.PoolScannedFor | exporter.go:204-215 | the pool's results carry the labels of the watch entry they are stored for |
| RenderOrder.OneTargetUniqueSeries | metrics.go:83-233 | with one target no series is written twice |
| RenderOrder.TwoTargetsCollide | metrics.go:71-75 | two targets with distinct labels whose text depends on map order |
| RenderOrder.OneLabelTwoBases | metrics.go:71-75 | two targets sharing a label whose text does |

## Left out

- Files, clocks, HTTP, signals, tickers, logging and configuration (`main.go`, `server.go`, most of `config.go`): input and output. The disk is a set of functions, times are integers.
- A disk that changes during one call: each call sees one tree. In `Protocol` the result of every Discover and scan is arbitrary, so there the disk may change between steps.
- `filepath.Match`, `ReadDir`, `EvalSymlinks`, `sort.Slice`: library calls, modelled by what Go documents (from Go 1.16 a malformed pattern always errs).
- `parseDistributorLine`, `detectNodeType`, `resolveNodeBufferPaths` and `strconv.ParseInt`: functions given as parameters; date parsing and regular expressions are not modelled. A line too long for `bufio.Scanner` ends a file in the source; the model's lines are those the scanner returns.
- Unicode: case folding and trimming in `isCollector` cover ASCII letters and the Latin-1 spaces; invalid UTF-8 is not modelled.
- Number printing (`%g`, `%d`) and the help texts: parameters that print no line feed. Durations and timestamps are integers; counters of 64 bits are unbounded, the 32-bit watched total wraps.
- Scan durations, the truncation counter and log lines of `ScanAll`: not stored in the cache or derivable.
- `scanMu`: only the scan loop calls `ScanAll`, so it never blocks.
- The goroutines of ScanAllNodeActivities and ScanAllNodeBuffers take the lock in launch order in the methods; `OneActivityPerNode` and `OneBufferPerCollector` cover every other order, `WorkerPool` the interleavings.
- `directory_watched_total` equal to the length of the watch list between reloads: two threads set the two separately, so it does not hold in every state; `RestIsTold` has it at rest.
- Distinct paths or labels across targets, and distinct paths of explicit directories: the code does not promise them.
