# Verified model of the Slurm exporter

This project models the data path of the Prometheus Slurm exporter (scrape, cache, merge,
aggregate, emit) and proves properties of it in Dafny 4.11. `dafny verify dfyconfig.toml` checks
everything.

| file | what it models |
|---|---|
| `SlurmNodes.dfy`, `NodeScraper.dfy`, `NodeFetcher.dfy` | the double-buffered C++ node scraper, the library memory it manages, and the Go fetcher that drives it |
| `JobScraper.dfy`, `JobFetcher.dfy` | the single-resource form for jobs |
| `ThrottledCache.dfy`, `CacheThreads.dfy` | the throttled cache, as a class with sequential histories and as a system of interleaved callers |
| `TraceTable.dfy`, `TraceEmission.dfy` | the table of published traces and its join with the jobs |
| `MemUnits.dfy`, `Strings.dfy` | memory strings; splitting, joining and trimming |
| `NodeFallback.dfy`, `NodeMetrics.dfy`, `NodeMerge.dfy`, `NodePipeline.dfy` | `sinfo` text to hosts, hosts to summaries, and the two stages together |
| `JobFallback.dfy`, `JobMetrics.dfy` | `squeue` text to jobs, jobs to summaries |
| `JobJson.dfy`, `JobCollectors.dfy` | JSON jobs, scaled in place and shared by reference through the cache, and the two collectors that read them |
| `Samples.dfy`, `NodeEmission.dfy`, `JobEmission.dfy` | summaries to samples |
| `NodeFigures.dfy`, `JobFigures.dfy` | every summary figure and sample as a direct sum over the records |
| `Sums.dfy`, `Prelude.dfy` | tallies over sequences; option and result types |

## How things are modelled

- Library memory is a heap of messages indexed by pointers; freeing removes a message and pointers
  are never reused. The reload protocol is a function in which touching a pointer that is not in the
  heap is a fault (`None`), so "no use after free and no double free" says that no run is `None`.
  The classes follow the C++ code path by path and are proved equal to that function.
- Assumed of the Slurm library: it answers `NoChange` only to a non-zero update time that is
  current; a load that does not succeed leaves the out-pointer alone; freeing null does nothing;
  populating rewrites only the partition names of the node message; error codes are non-zero. The
  server may move on between the partition load and the node load.
- Clock readings, scrape results, the JSON decoders and (for `sinfo`) float parsing are parameters.
  Decoding a job text allocates one resource object for every node entry of a job.
- `float64` is `real`: the sums are exact, so order independence is about that abstraction.
- Go maps are visited in an arbitrary order (`Prelude.Pick`).
- The cache's calls are ordered by the lock. A call's readings are the age check, the start and end
  of the fetch, and the new stamp.

## Where the code differs from what one might expect

- Only a non-empty success throttles. After an empty or failed fetch the next caller fetches again
  (`ThrottledCache.EmptyAndFailedDoNotThrottle`).
- Deleting a node scraper does not release everything: each partition message that was loaded
  fresh, left uncommitted by a failed node load and then overwritten by a later partition load stays
  allocated (`NodeScraper.DestroyFreesAllButOrphans` gives the exact number,
  `NodeScraper.LeakingRun` a run of two collects that leaks).
- The getter of a node's partition text does not check for null as the job getters do. A node in no
  partition has a null text, so a collect that succeeds is followed by a memory fault exactly when
  some node loaded is in none of the partitions loaded (`NodeFetcher.CNodeFetcher.CToGoMetricConvert`,
  `NodeFetcher.ReadsFaultUnlessPlaced`; `NodeFetcher.LoneNodeFaults` is the smallest case).
- A raw `sinfo` state that contains `&` breaks the reading of the merged state as a list of distinct
  states; `NodeFallback.MergedStateIsJoin` is an equivalence.
- A summary value that is not positive is not emitted, so a scrape determines the summaries exactly
  when they are not negative (`JobEmission.UserReadBack` and its siblings are equivalences), as they
  are for inputs that are not (`JobEmission.LosslessGroups`, `NodePipeline.ScrapeIsLossless`). A node
  that reports more free than real memory makes its allocated memory negative, and the sample
  disappears (`NodePipeline.FreeAboveRealIsLost`).
- Two jobs with the same integer id that are both traced yield duplicate samples
  (`TraceEmission.UniqueIffDistinctIds` is an equivalence).

## Model

| member | source | states |
|---|---|---|
| NodeScraper.RunsAreSafe | cext/cnodefetcher.cpp:104-145 | every sequence of collects, each load answered Fresh, NoChange or Fail, runs without touching or freeing a dead message, and keeps the ownership invariant |
| NodeScraper.EntriesAreLive | cext/cnodefetcher.cpp:136-140 | every map entry points into the live committed node message, at a row of its own host |
| NodeScraper.FailureKeepsCommitted | cext/cnodefetcher.cpp:110-126 | a collect fails exactly when a load fails, and then the committed messages and the map are as before and no live message is touched |
| NodeScraper.CollectRefinesFullReload | cext/cnodefetcher.cpp:104-145 | after a successful incremental collect the map shows what a full reload shows: one entry per host, last duplicate winning, with the partitions of the partition load |
| NodeScraper.RunsRefineFullReload | cext/cnodefetcher.cpp:104-145 | the same after any run, so partial failures lose no update |
| NodeScraper.LiveMessages | cext/cnodefetcher.cpp:104-145 | after any run the live messages are the committed node message, the two partition pointers and as many lost messages as there were uncommitted fresh partition loads overwritten later; the pointers differ exactly while such a load is pending |
| NodeScraper.DestroyFreesAllButOrphans | cext/cnodefetcher.cpp:87-102 | destruction after any run is fault free, frees all node messages and leaves exactly the orphaned partition messages |
| NodeScraper.LeakingRun | cext/cnodefetcher.cpp:110-134 | a fresh partition load with a failed node load and then a successful collect is a legal run that leaks one partition message |
| NodeFetcher.NodeMetricScraper.constructor | cext/cnodefetcher.cpp:169-180 | a new scraper is the initial world and its iterator is at the end |
| NodeFetcher.NodeMetricScraper.CollectNodeInfo | cext/cnodefetcher.cpp:104-145 | the stateful collect is the protocol step: same heap, same pointers, same map, same code |
| NodeFetcher.NodeMetricScraper.Refill | cext/cnodefetcher.cpp:136-140 | the refill loop writes every row over the map in order |
| NodeFetcher.NodeMetricScraper.CommitLoads | cext/cnodefetcher.cpp:127-144 | populate, free what is superseded, refill and commit; clearing the map spoils the iterator |
| NodeFetcher.NodeMetricScraper.IterReset | cext/cnodefetcher.cpp:164-167 | iteration will visit every key of the map exactly once |
| NodeFetcher.NodeMetricScraper.IterNext | cext/cnodefetcher.cpp:155-162 | copies the next entry out and advances; at the end it reports an error and stays |
| NodeFetcher.NodeMetricScraper.Deinit | cext/cnodefetcher.cpp:87-102 | in every state between collects the frees are legal, no node message and exactly the lost partition messages survive, and all pointers are null |
| NodeFetcher.CNodeFetcher.CToGoMetricConvert | cext/cext.go:36-75 | an error exactly when a load failed, counted once; a memory fault exactly when both loads succeed and some node loaded is in no partition loaded; otherwise one converted record per host of the full reload, each host once, and the duration of the copying |
| NodeFetcher.CNodeFetcher.CopyOut | cext/cext.go:58-72 | the iteration copies out exactly what the entries show, and faults exactly when some entry's partition text is null |
| NodeFetcher.ConvertedFigures | cext/cext.go:59-71 | every figure and the state name of a reported record from the last row of its host, in literal sizes |
| NodeFetcher.ConvertedPartitions | cext/cext.go:64-64 | a record's partitions are the names of the partitions that have the host, in the server's order, when none contains a comma |
| NodeFetcher.EveryNodeConverted | cext/cext.go:58-72 | every node loaded has a record |
| NodeFetcher.ReadsFaultUnlessPlaced | cext/cnodefetcher.cpp:39-42 | after any run ending in a successful collect every partition text can be read exactly when every node loaded is in some partition loaded |
| NodeFetcher.LoneNodeFaults | cext/cnodefetcher.cpp:39-42 | one node and no partition: the collect succeeds, the host name reads, the partition text faults |
| NodeFetcher.PartitionListRoundTrip | cext/cext.go:64-64 | the partition list of a node in some partition survives the comma-separated text exactly when no name contains a comma; joining the list gives the text back in any case |
| JobScraper.CollectKeepsValid | cext/cjobfetcher.cpp:105-133 | a collect never faults, fails exactly when the load fails, changes nothing then, and otherwise leaves one live message |
| JobScraper.CollectRefinesFullReload | cext/cjobfetcher.cpp:105-133 | a successful incremental collect shows one entry per job of the server, last duplicate winning |
| JobScraper.RunsAreSafe | cext/cjobfetcher.cpp:105-133 | no run faults; between collects one job message is live once some collect has succeeded, none before |
| JobScraper.RunsRefineFullReload | cext/cjobfetcher.cpp:105-133 | the refinement after any run |
| JobScraper.EntriesAreLive | cext/cjobfetcher.cpp:125-130 | every map entry points into the live committed message, at a row of its own job |
| JobFetcher.JobMetricScraper.CollectJobInfo | cext/cjobfetcher.cpp:105-133 | the stateful collect is the protocol step |
| JobFetcher.JobMetricScraper.IterReset | cext/cjobfetcher.cpp:144-147 | iteration will visit as many distinct keys of the map as it has |
| JobFetcher.JobMetricScraper.IterNext | cext/cjobfetcher.cpp:135-142 | copies the next entry out and advances; at the end it reports an error and stays |
| JobFetcher.CJobFetcher.CToGoMetricConvert | cext/cext.go:107-150 | an error exactly when the load failed, counted once; otherwise one converted record per job of the full reload |
| JobFetcher.ConvertedFields | cext/cext.go:132-145 | every field of a reported job from the last row of its id, with literal names for null texts, root and the states |
| JobFetcher.EveryJobConverted | cext/cext.go:132-147 | every job loaded has a record |
| ThrottledCache.AtomicThrottledCache.constructor | exporter/utils.go:99-104 | a new cache is empty and stamped with the current time |
| ThrottledCache.AtomicThrottledCache.FetchOrThrottle | exporter/utils.go:82-97 | one call is the sequential step; a hit or a failed fetch changes no field |
| ThrottledCache.StateIsLastSuccess | exporter/utils.go:93-95 | the fields are the initial ones or those the last successful fetch stored |
| ThrottledCache.ResultIsLastSuccess | exporter/utils.go:82-97 | every non-error result is the data of the last successful fetch in lock order, its own or non-empty and younger than the limit; errors are exactly the failed fetches |
| ThrottledCache.NoEarlyFetch | exporter/utils.go:85-95 | after a non-empty success stamped at c no fetch starts before c plus the limit |
| ThrottledCache.QueuedCallersShare | exporter/utils.go:85-86 | callers whose age check falls within the limit of a non-empty success get its data without fetching |
| ThrottledCache.EmptyAndFailedDoNotThrottle | exporter/utils.go:85-92 | a call avoids the fetch exactly when the last success was non-empty and is younger than the limit |
| ThrottledCache.RateBound | exporter/utils.go:82-97 | a window of width W holds at most floor(W / limit) + 1 completed non-empty fetches |
| CacheThreads.RunKeepsInv | exporter/utils.go:82-97 | in every interleaving the lock discipline holds and the lock-ordered log is a history of the sequential cache |
| CacheThreads.AtMostOneFetch | exporter/utils.go:83-89 | at most one caller is inside the critical section |
| CacheThreads.ResultsAreSequential | exporter/utils.go:82-97 | each finished caller has one place in lock order and the result the sequential cache gives there |
| CacheThreads.RunsAreThrottled | exporter/utils.go:82-97 | throttling and sharing hold between different callers in every interleaving |
| CacheThreads.RunsAreRateBounded | exporter/utils.go:82-97 | the rate bound holds in every interleaving |
| CacheThreads.FailureLeavesCache | exporter/utils.go:89-92 | while a caller fetches only its own successful return writes the shared fields, so a failed fetch passes them on untouched |
| TraceTable.AtomicProcFetcher.constructor | exporter/trace.go:79-85 | a new table is empty |
| TraceTable.AtomicProcFetcher.Cleanup | exporter/trace.go:88-94 | with a clock read per entry, only entries stale by the end are deleted and all stale at the start are |
| TraceTable.AtomicProcFetcher.Add | exporter/trace.go:96-108 | job id 0 is refused and nothing changes; otherwise the log grows by this record, the table stays the last adds under their own ids with nothing fresh missing, and it is all fresh or within a threshold below 2^63 |
| TraceTable.ThresholdAsInt64 | exporter/trace.go:104-104 | a threshold below 2^63 is itself, a larger one is negative |
| TraceTable.AtomicProcFetcher.Fetch | exporter/trace.go:110-119 | a fetch from t0 to t1 returns the last add of every job fresh at t1 and of none stale at t0; with one clock reading, exactly the fresh jobs |
| TraceTable.CopySurvivesAdds | exporter/trace.go:96-119 | a returned copy still shows the adds up to its own time after any number of later adds of fresh records |
| TraceTable.TableWithinLog | exporter/trace.go:96-119 | over any operations the table is the log of last adds minus stale entries, with no key 0 |
| TraceTable.FetchShowsFreshLog | exporter/trace.go:88-119 | for every threshold a fetch shows exactly the fresh last adds, so size-triggered cleanup is unobservable |
| TraceTable.SizeBound | exporter/trace.go:104-106 | after an accepted add the table holds at most the threshold or at most the jobs added within the sample rate |
| TraceTable.Replay | exporter/trace.go:79-119 | any sequence of adds and fetches on a new table, each at one instant, leaves the table and the log of adds that the two results above are about |
| TraceEmission.Collect | exporter/trace.go:165-186 | eight samples for each traced job in job order, none if the job fetch fails |
| TraceEmission.WholeIdsJoin | exporter/trace.go:172-176 | a job with a whole id joins exactly the trace of that id |
| TraceEmission.TruncateMeans | exporter/trace.go:172-172 | other ids are cut towards zero |
| TraceEmission.JobTextIsDecimal | exporter/trace.go:176-176 | the id on a sample is its decimal numeral without leading zeros |
| TraceEmission.UniqueIffDistinctIds | exporter/trace.go:171-185 | the samples are unique exactly when no two traced jobs share an integer id |
| TraceEmission.AllocationReadBack | exporter/trace.go:177-178 | with distinct ids each traced job reads back its allocation from the job record |
| TraceEmission.UsageReadBack | exporter/trace.go:179-184 | and its usage from the trace |
| MemUnits.ScanFloatComplete | exporter/utils.go:169-171 | every decimal float literal is scanned back to its own parts, so the grammar is unambiguous |
| MemUnits.FloatsHaveNoUnit | exporter/utils.go:169-177 | no text that ends in a unit letter parses as a float: the two branches are disjoint |
| MemUnits.ParsePrinted | exporter/utils.go:168-186 | parsing any text of any memory string gives its value, scaled by 1e6, 1e9 or 1e12 for M, G, T; a plain number may have underscores between digits, one with a unit may not |
| MemUnits.LiteralParses | exporter/utils.go:168-171 | every decimal float literal parses to its own value |
| MemUnits.MemToFloatExact | exporter/utils.go:168-186 | parsing succeeds exactly on the grammar, with the value of the text, and the plain and unit forms share no string |
| MemUnits.PrintRoundTrip | exporter/utils.go:168-186 | printing a number with any number of decimals and an optional unit and parsing it gives the scaled number |
| MemUnits.UnitSizes | exporter/utils.go:172-176 | a whole number of M, G or T is 1000000, 1000000000 or 1000000000000 times that many bytes |
| MemUnits.PlainSize | exporter/utils.go:169-171 | without a unit it is that many bytes |
| MemUnits.DecimalPlaces | exporter/utils.go:168-186 | every decimal printed makes the value ten times smaller |
| MemUnits.OtherUnits | exporter/utils.go:177-181 | no other character is a unit |
| MemUnits.NumeralNext | exporter/utils.go:169-171 | digits are decimal, the most significant first |
| MemUnits.FractionValue | exporter/utils.go:169-171 | a fraction is the number without its point, moved back by its digits |
| MemUnits.SignedValue | exporter/utils.go:169-171 | a minus negates, a plus does nothing |
| MemUnits.ExponentValue | exporter/utils.go:169-171 | an exponent moves the point |
| MemUnits.PlainShapes | exporter/utils.go:169-171 | digits with an optional point parse exactly when there is a digit |
| MemUnits.ScaledShapes | exporter/utils.go:177-181 | before a unit a point needs digits behind it, and without a point there must be digits |
| MemUnits.NoSignBeforeUnit | exporter/utils.go:177-181 | a signed number takes no unit |
| MemUnits.UnderscoreIgnored | exporter/utils.go:169-171 | an underscore between digits changes nothing |
| MemUnits.MisplacedUnderscore | exporter/utils.go:169-181 | any other underscore, or one before a unit, is an error |
| NodeFallback.NodeCliFallbackFetcher.Fetch | exporter/nodes.go:113-193 | success exactly when the cpu state of every decodable line splits into four numbers, with one record per host; the counter rises by the lines that cannot be decoded, or by those before the first bad cpu state plus one, or by one for a failed scrape |
| NodeFallback.ClassifyMeaning | exporter/nodes.go:131-164 | which lines are skipped, which fail the fetch and which reach a record |
| NodeFallback.LinesOfText | exporter/nodes.go:120-120 | the lines joined are the text without newlines at its ends, and no line holds one |
| NodeFallback.AcceptedInOrder | exporter/nodes.go:120-186 | the entries merged are those of the good lines, in line order |
| NodeFallback.NodeCliFallbackFetcher.ListValues | exporter/nodes.go:188-192 | the map's records, each once, in some order |
| NodeFallback.HostTableSnoc | exporter/nodes.go:165-186 | merging one more line advances the table of host records, whose numbers come from the first line and whose partitions from all lines in order |
| NodeFallback.FirstLineNumbers | exporter/nodes.go:136-185 | a host's numbers in terms of the text of its first good line: cpu counts by position, memory in bytes, allocated plus free memory is real memory; its partitions are those of all its lines in order |
| NodeFallback.MergedStateIsJoin | exporter/nodes.go:165-171 | splitting the state string gives the distinct states in order of first appearance exactly when no raw state contains `&`; then it is their join |
| NodeFallback.MergedStateNames | exporter/nodes.go:165-171 | for arbitrary raw states the string names exactly the names that occurred |
| NodeFallback.DistinctNext | exporter/nodes.go:168-171 | the list of states grows by a new state at its end and by nothing else |
| NodeFallback.HostStates | exporter/nodes.go:165-173 | a host record's state in terms of the states on its lines |
| NodeMetrics.FetchNodePartitionMetrics | exporter/nodes.go:211-236 | the nested loops compute, for each mentioned partition, the sums and per-state tallies over its mentions |
| NodeMetrics.FetchNodeTotalCpuMetrics | exporter/nodes.go:258-274 | the cluster sums and per-state cpus and counts |
| NodeMetrics.FetchNodeTotalMemMetrics | exporter/nodes.go:282-290 | the cluster memory sums |
| NodeMetrics.PartitionOrderIndependent | exporter/nodes.go:211-236 | the partition table is the same for every order of the nodes |
| NodeMetrics.SummariesOrderIndependent | exporter/nodes.go:258-290 | so are the cpu and memory summaries |
| NodeMetrics.PartitionsOfConcatenation | exporter/nodes.go:211-236 | summarising a concatenation adds the summaries partition by partition |
| NodeMetrics.SummariesOfConcatenation | exporter/nodes.go:258-290 | the cpu and memory summaries of a concatenation are the sums, figure by figure and state by state |
| NodeMetrics.StatesPartitionTheCluster | exporter/nodes.go:262-272 | per-state cpus and counts add up to the cluster total and the number of nodes |
| NodeFigures.PartitionCpuFigures | exporter/nodes.go:227-231 | a partition's cpus, load and idle cpus: each node's once for every time it names the partition |
| NodeFigures.PartitionMemoryFigures | exporter/nodes.go:229-233 | likewise its real and free memory and weight |
| NodeFigures.PartitionStateFigures | exporter/nodes.go:224-226 | and its allocated cpus, allocated memory and node count over the nodes in a state |
| NodeFigures.ClusterFigures | exporter/nodes.go:262-290 | the six cluster figures as sums of the node fields |
| NodeFigures.ClusterStateFigures | exporter/nodes.go:266-271 | cpus and count of the nodes in a state, listed exactly when there is one |
| NodeMerge.TwoStageMerge | exporter/nodes.go:120-236 | for every weight, a partition's total over merged hosts is the sum over the lines naming it of the weight of the line's host |
| NodeMerge.PartitionCpus | exporter/nodes.go:211-236 | a partition's total cpus are the sum over the lines naming it of the cpu total on the first line of that host |
| NodeMerge.PartitionNodeCount | exporter/nodes.go:224-226 | a partition's node counts summed over states are the number of lines naming it |
| NodeMerge.OneCountPerHost | exporter/nodes.go:224-226 | with distinct host and partition pairs that is one per host |
| NodeMerge.ClusterCpus | exporter/nodes.go:258-274 | the cluster total counts each distinct host once, with its first line's total |
| NodeMerge.ReportedPartitions | exporter/nodes.go:214-223 | the partitions reported are exactly those some accepted line names |
| NodeMerge.SummariesIgnoreHostOrder | exporter/nodes.go:188-192 | the arbitrary host order reaches none of the summaries |
| NodePipeline.CachedNodeFetcher.FetchMetrics | exporter/nodes.go:195-197 | one step of the throttled cache whose fetch parses the text; a hit reads no text and changes nothing |
| NodePipeline.CachedNodeFetcher.Scrape | exporter/nodes.go:381-437 | fetch through the cache and collect: samples of the stored hosts on a hit, of the hosts of a good text on a miss, only duration and error counter for a bad one |
| NodePipeline.ScrapeShowsLines | exporter/nodes.go:399-427 | the partition and cluster cpu samples in terms of the `sinfo` lines alone |
| NodePipeline.ScrapeIsLossless | exporter/nodes.go:391-421 | when no line has a negative figure or more free than real memory, a scrape determines every partition figure |
| NodePipeline.FreeAboveRealIsLost | exporter/nodes.go:180-180 | a host with more free than real memory has negative allocated memory, and no sample shows it |
| JobFallback.StripReasonExact | exporter/jobs.go:138-146 | a pending reason is stripped exactly when it has the form `(x)` with x non-empty and on one line |
| JobFallback.JobCliFallbackFetcher.Fetch | exporter/jobs.go:101-164 | a blank text gives no jobs and no errors; otherwise the jobs are those of the emitted lines in order and the counter rises by skipped lines plus PENDING jobs with a malformed reason; a failed scrape is not counted |
| JobFallback.LinesPartitioned | exporter/jobs.go:115-162 | every line is emitted or skipped, and the jobs are those of the emitted lines in line order |
| JobFallback.EmittedFields | exporter/jobs.go:138-159 | every field of an emitted job from its line; a PENDING reason in parentheses loses them, any other stays |
| JobFallback.LinesOfText | exporter/jobs.go:108-115 | the lines joined are the text without white space at its ends, and no line holds a newline |
| JobFallback.EmittedMemory | exporter/jobs.go:132-159 | the memory the summaries see of an emitted job is what its memory string denotes, scaled by its unit |
| JobFallback.CounterMeaning | exporter/jobs.go:127-146 | what makes a line skipped, and what makes an emitted one cost an error |
| JobMetrics.TotalAllocMem | exporter/jobs.go:178-184 | the sum over the nodes, whatever the map order |
| JobMetrics.ParseUserJobMetrics | exporter/jobs.go:211-229 | the loop computes each user's tallies over that user's jobs |
| JobMetrics.ParseAccountMetrics | exporter/jobs.go:237-254 | each account's tallies |
| JobMetrics.ParsePartitionJobMetrics | exporter/jobs.go:260-273 | each partition's job counts per state |
| JobMetrics.ParseStateReasonMetric | exporter/jobs.go:279-298 | the count of pending jobs per reason bucket |
| JobMetrics.ParseFeatureMetric | exporter/jobs.go:306-321 | each feature's sums over its uses |
| JobMetrics.CountsConserved | exporter/jobs.go:211-273 | for every state the counts summed over users, accounts and partitions all equal the number of jobs in that state |
| JobMetrics.CpusConserved | exporter/jobs.go:211-254 | cpu totals of a state agree between users and accounts |
| JobMetrics.MemoryConserved | exporter/jobs.go:211-254 | memory totals of a state agree between users and accounts |
| JobMetrics.UserTotalIsStateSum | exporter/jobs.go:222-223 | a user's total is the sum of the user's state counts |
| JobMetrics.FeaturesConserved | exporter/jobs.go:306-321 | feature totals add up to the jobs plus the `&` characters in their features |
| JobMetrics.ReasonsConserved | exporter/jobs.go:284-296 | reason counts add up to the PENDING jobs; the common bucket holds exactly those whose reason mentions an unavailable node and no other bucket mentions one |
| JobFigures.UserFigures | exporter/jobs.go:211-229 | a user's cpus, memory and job count in a state as sums over the jobs of that user in that state |
| JobFigures.UsersListed | exporter/jobs.go:211-229 | a user is listed exactly when a job has it, with the number of those jobs |
| JobFigures.AccountFigures | exporter/jobs.go:237-254 | the same for accounts |
| JobFigures.PartitionFigures | exporter/jobs.go:260-273 | a partition's job count per state, listed exactly when there is such a job |
| JobFigures.FeatureFigures | exporter/jobs.go:306-321 | a feature's cpus, memory and count: each job's once for every time its list names the feature |
| JobFigures.OrdinaryReasons | exporter/jobs.go:284-296 | an ordinary reason counts the PENDING jobs that give exactly it, listed exactly when there is one |
| JobFigures.UnavailableReasons | exporter/jobs.go:289-294 | the common bucket, by its literal name, counts the PENDING jobs whose reason mentions an unavailable node |
| JobFigures.ContainsMeans | exporter/jobs.go:289-289 | mentioning a text is having it between two others |
| JobJson.ScaleMemory | exporter/jobs.go:75-79 | every resource object is scaled once per occurrence, whatever is shared |
| JobJson.ScaledOnce | exporter/jobs.go:75-79 | with no sharing all memory figures turn from gigabytes into bytes exactly once |
| JobJson.BytesOfJob | exporter/jobs.go:75-79 | every node's memory and the job's total become 1000000000 times as large, and nothing else of the job changes |
| JobJson.Unmarshal | exporter/jobs.go:69-74 | decoding gives every node entry a resource object of its own, reading as the text says |
| JobJson.JobJsonFetcher.Fetch | exporter/jobs.go:63-81 | new jobs that read in bytes, written once; only a failed scrape is counted, and no object that existed before is written |
| JobJson.JobJsonFetcher.FetchMetrics | exporter/jobs.go:83-85 | read through the shared objects, the cache is one of plain values whose fetches answer in bytes; a cached read writes nothing |
| JobCollectors.Collect | exporter/trace.go:165-186 | a job or trace collection reports the value cache's answer and leaves its next state |
| JobCollectors.CollectAll | exporter/trace.go:165-186 | for any sequence of job and trace collections on one fetcher: the snapshot and every report are those of the value cache, and what each collection was handed still reads the same at the end |
| JobCollectors.ReportsLastAnswer | exporter/utils.go:82-97 | the snapshot changes only at a successful real fetch, to that text's jobs in bytes; every report is of the last such answer |
| JobCollectors.StoredJobs | exporter/jobs.go:75-81 | the jobs stored against the decoded ones, field by field |
| Samples.EmitPositive | exporter/jobs.go:429-435 | the positive entries of a state map, each as one sample |
| JobEmission.Collect | exporter/jobs.go:400-468 | no two samples share descriptor and labels, and the samples are exactly those the summaries call for; after a failed fetch only duration and error counter |
| JobEmission.UserReadBack | exporter/jobs.go:410-427 | reading absent samples as 0 recovers each user figure exactly when it is not negative |
| JobEmission.AccountReadBack | exporter/jobs.go:437-442 | the same for accounts |
| JobEmission.PartitionReadBack | exporter/jobs.go:444-449 | partition counts always read back |
| JobEmission.FeatureReadBack | exporter/jobs.go:451-462 | feature figures read back exactly when not negative |
| JobEmission.ReasonReadBack | exporter/jobs.go:464-467 | pending-reason counts always read back |
| JobEmission.LosslessGroups | exporter/jobs.go:410-442 | for jobs without negative cpus or node memory every user and account figure reads back |
| JobEmission.LosslessFeatures | exporter/jobs.go:451-462 | and every feature figure |
| JobEmission.CountsReadBack | exporter/jobs.go:410-449 | the count samples are the numbers of jobs with that user, account or partition and state |
| JobFigures.UserSamples | exporter/jobs.go:410-427 | a user sample is there exactly for a positive sum over that user's jobs, and is that sum |
| JobFigures.AccountSamples | exporter/jobs.go:437-442 | the same for accounts |
| JobFigures.PartitionSamples | exporter/jobs.go:444-449 | a partition sample is there exactly when it counts a job |
| JobFigures.FeatureSamples | exporter/jobs.go:451-462 | a feature sample is there exactly for a positive sum, and is that sum |
| JobFigures.ReasonSamples | exporter/jobs.go:464-467 | a reason sample is there exactly when a PENDING job gives it, with the number of those jobs |
| JobFigures.UnavailableSample | exporter/jobs.go:464-467 | the sample of the common bucket |
| JobFigures.AlwaysReported | exporter/jobs.go:400-408 | duration and error counter are always there |
| JobFigures.NothingElseOnFailure | exporter/jobs.go:406-409 | and nothing else after a failed fetch |
| NodeEmission.Collect | exporter/nodes.go:381-437 | no two samples share descriptor and labels, and the samples are exactly those the summaries call for; after a failed fetch only duration and error counter |
| NodeEmission.PartitionValueReadBack | exporter/nodes.go:404-421 | a partition's single values read back exactly when not negative |
| NodeEmission.PartitionStateReadBack | exporter/nodes.go:391-403 | its per-state maps read back exactly when not negative |
| NodeEmission.LosslessPartitions | exporter/nodes.go:391-421 | for nodes whose figure is nowhere negative the partition figures read back |
| NodeEmission.TotalReadBack | exporter/nodes.go:425-436 | cluster-wide values always read back |
| NodeEmission.StateReadBack | exporter/nodes.go:428-431 | per-state cpus and counts read back, 0 for a state no node is in |
| NodeFigures.PartitionSamples | exporter/nodes.go:404-421 | each single partition sample is there exactly for a positive figure, and is that figure |
| NodeFigures.PartitionStateSamples | exporter/nodes.go:391-403 | the same per state |
| NodeFigures.ClusterSamples | exporter/nodes.go:425-436 | the six cluster samples are always there, as sums of the node fields |
| NodeFigures.ClusterStateSamples | exporter/nodes.go:428-431 | the samples of a state are there exactly when a node is in it |
| NodeFigures.AlwaysReported | exporter/nodes.go:381-386 | duration and error counter are always there |
| NodeFigures.NothingElseOnFailure | exporter/nodes.go:387-390 | and nothing else after a failed fetch |
| Strings.SplitJoin | exporter/nodes.go:167-170 | splitting inverts joining exactly when no part contains the separator |

## Left out

- NodeFetcher.NodeMetricScraper.IterReset: the C++ map iterates in key order; the order is left open, which covers key order. Keys inserted while an iterator is in use do not appear on it.
- JobFetcher.JobMetricScraper.IterReset: as for nodes, the key order is left open.
- NodeMetrics.FetchNodePartitionMetrics: the source updates a heap-allocated record in place, field by field; here the record in the map is replaced as a whole, so aliasing of that record is not captured.
- NodeFallback.NodeCliFallbackFetcher.Fetch: the same holds for the per-host records, and line decoding and float parsing are parameters.
- MemUnits.MemToFloatExact: hexadecimal floats, `inf`, `nan` and range errors of `strconv.ParseFloat` are outside the decimal grammar.
- TraceEmission.Collect: the conversion of a job id outside the `int64` range is not modelled.
- `JobMetricScraper` defines no destructor, so nothing is said about job messages at shutdown.
- JobJson.Unmarshal: a `null` node entry, whose resource pointer would be nil in the scaling loop, is not modelled.
- JobCollectors.Collect: a collection reads its jobs once, after the fetch; the source reads the same unchanged objects several times.
- NodeFetcher.CNodeFetcher.CToGoMetricConvert: a memory fault is a result of its own here; what the process does after one is not modelled.
- The getters of the C++ metric classes that compute allocated cpus and memory from the job's resource structure are plain fields of the record here.
- `NodeJsonFetcher.fetch` decodes and returns; it would add only an easy member.
- Processes, timeouts, environment variables, HTTP handlers, templates, logging and registration with Prometheus.
- Floating-point rounding, NaN and infinities in the summaries.
- `exporter/license.go`, `exporter/diags.go`, `exporter/limits.go`, `exporter/server.go` and `wrappers/proctrac.py`: field copying, flag handling and row filtering.
