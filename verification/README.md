# GeoQC verification model

This project models the algorithms and state machines of GeoQC whose results do not depend on
the geometry engine, and proves what they promise. Floats are reals, rounding is written out
(half to even), regions are finite sets of cells, distances are functions that satisfy the triangle
inequality, a spatial index is a function that returns at least the true hits, and the validator,
the repairer and the worker are functions. Code that works on lists and fields in place is modelled
with arrays, classes and loops and proved against specification functions; pure code is functions.
Every lemma carries `{:induction false}`, so each proof is the one written down.

| file | models |
|---|---|
| Common, Sorting, Rounding | shared options and results, the stable sort, rounding |
| Connectivity, UnionFind, SpanningForest, RoadConnector | road components, union-find on arrays, Kruskal's connectors |
| DatasetComparator | greedy matching of two snapshots and the difference report |
| JobManager, JobProtocol, JobSimulation, JobStranding | the job registry as an object, as interleaved atomic steps, how the two agree, and its pool of threads, which may raise on a job it queued |
| RateLimiter, RateLimitTrace, RateLimitRoom | the counter storage as an object, whole traces of it, and how much room its bound needs |
| Scoring, ScoringLaws | the deduction loops, their closed form and its laws |
| RoadSnapping | endpoint clustering, anchors, projection |
| CoverageRepair, CoverageRun, CoverageLaws | overlap erasure, gap filling, reverts, rollback and what they keep |
| RepairSession | preview, apply and undo with a cached preview |
| StreamingAudit | the chunked and the in-memory geometry audit |
| QualityProfile, QualityProfileMeaning, QualityProfileLaws | profile values, parser, printer, what a mapping means, round trip |
| ParallelExecutor | serial and pool execution of a batch |
| RoadEndpointMerge, RoadEndpointLaws | merging and grading of road endpoint findings |

## Where the code and its promises differ

- `docs/spatial-intelligence.md:111-112` says that without a distance ceiling every component gets
  connected. Connectors no longer than the node tolerance are dropped, so roads that cross without a
  shared endpoint stay apart (`RoadConnector.CrossingRoadsStayApart`); the exact condition is
  `RoadConnector.FullyConnectedExactlyWhen`.
- A category score can fall below 100 minus its cap by rounding (`ScoringLaws.FloorFails`); exactly
  when is `ScoringLaws.FloorExactlyWhen`.
- The bound on allowed checks per window length is 2*limit-1, not 2*limit, and is reached
  (`RateLimitTrace.WindowBound`, `WindowBoundIsSharp`). It holds exactly for sets of keys that fit into
  the store, whatever its size; one key more, and there is no bound
  (`RateLimitRoom.BoundExactlyWithRoom`, `BoundNeedsRoom`).
- `submit` takes a `RuntimeError` of the executor to mean that the job was not queued. CPython's pool
  can queue the job and then fail to start a thread; the rollback then deletes the record of a job that
  a thread started later, or one that comes free, still takes on (`JobStranding.StrandedJobFaults`), and
  one permit can be given back twice (`JobStranding.PermitGivenTwice`). Without that step no internal
  exception can happen (`JobStranding.FaultFreeExactlyWhen`).
- Filling a hole can cover an island that stands inside it, so a repaired coverage without failures
  may overlap (`CoverageLaws.IslandIsSwallowed`); exactly when is `CoverageLaws.DisjointExactlyWhen`, and
  `CoverageLaws.DisjointWhenRingsAreClear` is a plain test before the call. Both stages skip geometry
  collections, so collections that overlap are reported valid and stay as they are
  (`CoverageLaws.OverlappingCollections`).
- `undo` promises the state before the last apply. After an apply that changes nothing it takes back
  an earlier one (`RepairSessions.UndoRestoresExactlyWhen`; a session is `UndoCanGoTooFar`).
- The streaming engine refuses an empty dataset and reports unreadable geometries; the in-memory
  engine reports an empty result and fails on unreadable geometries (`StreamingAudit.Compare`).
- A profile built in code with spaces around its name, or with an empty reference layer on a rule,
  does not survive printing and parsing (`QualityProfileLaws.RoundTripExactlyWhen`; samples are
  `SpacedNameIsLost` and `EmptyReferenceIsLost`).
- When the same finding object is listed twice for one endpoint and is the one kept, the endpoint
  loses all its findings (`RoadEndpointLaws.OneFindingPerEndpointExactlyWhen`, `RepeatedObjectVanishes`).
  This concerns the helper on its own: its one caller, `audit_geodataframe` at
  `src/geoqc/infrastructure/gis/dataset_audit.py:184`, passes a list in which every finding is an object
  newly built by its check, so no object is listed twice and `DistinctObjectsKeepOne` applies.

## Model

| member | source | states |
|---|---|---|
| `UnionFind.DisjointSets.constructor` | src/geoqc/infrastructure/gis/road_network_connectivity.py:19-21 | starts with every item alone in its class and no recorded link |
| `UnionFind.DisjointSets.Find` | src/geoqc/infrastructure/gis/road_network_connectivity.py:23-27 | returns the root of the item's class, leaves the partition and the recorded links as they were although it rewrites parents, and takes so few halving steps that 2^(2*hops-1) never exceeds the number of items |
| `UnionFind.DisjointSets.Union` | src/geoqc/infrastructure/gis/road_network_connectivity.py:29-39 | answers true exactly when no chain of earlier unions joined the two items, and extends the relation by this one link; the root labelling stays exactly path connectivity over all unions so far |
| `UnionFind.DisjointSets.Attach` | src/geoqc/infrastructure/gis/road_network_connectivity.py:34-38 | hanging the lower-ranked root under the other keeps ranks rising, class sizes at least 2^rank, and merges exactly the two classes |
| `UnionFind.HalvingKeepsForest` | src/geoqc/infrastructure/gis/road_network_connectivity.py:24-26 | pointing an item at its grandparent keeps every class, every root, and the rank order |
| `UnionFind.RankAfterHalving` | src/geoqc/infrastructure/gis/road_network_connectivity.py:24-27 | each halving step climbs at least two ranks unless it reaches the root, and stays in the class |
| `UnionFind.StepsToRoot` | src/geoqc/infrastructure/gis/road_network_connectivity.py:23-27 | an item reaches its root in a number of parent steps bounded by the rank difference |
| `UnionFind.LogarithmicDepth` | src/geoqc/infrastructure/gis/road_network_connectivity.py:23-39 | after any history every item is within log2 of its class size of its root |
| `UnionFind.HopBound` | src/geoqc/infrastructure/gis/road_network_connectivity.py:24-27 | bounds the halving steps of one search by the logarithm of the number of items |
| `UnionFind.LinkKeepsForest` | src/geoqc/infrastructure/gis/road_network_connectivity.py:34-38 | union by rank keeps rank strictly rising along parents and every class at least 2^rank large |
| `UnionFind.LinkStaysFaithful` | src/geoqc/infrastructure/gis/road_network_connectivity.py:29-39 | after a merging union two items share a root exactly when the unions connect them |
| `UnionFind.RedundantStaysFaithful` | src/geoqc/infrastructure/gis/road_network_connectivity.py:32-33 | a refused union adds a link inside one class and changes no connectivity |
| `SpanningForest.GreedySpans` | src/geoqc/infrastructure/gis/road_network_connectivity.py:91-104 | what Kruskal keeps of any prefix is a forest joining exactly what that prefix joins |
| `SpanningForest.StopWhenConnected` | src/geoqc/infrastructure/gis/road_network_connectivity.py:105-106 | once n-1 connectors are kept no later candidate would be kept, so the early stop changes nothing |
| `SpanningForest.SpanningNeedsAsMany` | src/geoqc/infrastructure/gis/road_network_connectivity.py:90-106 | any candidate set with the same components needs at least as many members beyond each position of the sorted list as Kruskal does |
| `SpanningForest.TotalByRises` | src/geoqc/infrastructure/gis/road_network_connectivity.py:90-106 | the total length of a selection is the sum over the rises of the sorted lengths, each paid once per member beyond it |
| `SpanningForest.GreedyIsMinimal` | src/geoqc/infrastructure/gis/road_network_connectivity.py:90-106 | no selection of candidates that joins the same components is shorter in total |
| `Connectivity.ForestHasNoCycle` | src/geoqc/infrastructure/gis/road_network_connectivity.py:93-104 | removing any single connector of the forest disconnects its two ends |
| `Connectivity.ClassesWithEdge` | src/geoqc/infrastructure/gis/road_network_connectivity.py:93-108 | a link between two classes lowers the number of classes by exactly one |
| `RoadConnector.LabelByFirstAppearance` | src/geoqc/infrastructure/gis/road_network_connectivity.py:149-150 | ids are 0..k-1 in order of first appearance and equal exactly when the roots are equal |
| `RoadConnector.LinkEndpoint` | src/geoqc/infrastructure/gis/road_network_connectivity.py:141-147 | every real contact found for one endpoint becomes a link, and nothing else does |
| `RoadConnector.Roots` | src/geoqc/infrastructure/gis/road_network_connectivity.py:148 | reads every root without changing the partition |
| `RoadConnector.ConnectedMeansChained` | src/geoqc/infrastructure/gis/road_network_connectivity.py:139-147 | connectivity of the recorded contacts is the existence of a chain of touching lines |
| `RoadConnector.ComponentIds` | src/geoqc/infrastructure/gis/road_network_connectivity.py:132-150 | two lines get the same id exactly when a chain of endpoints no farther apart than the tolerance links them; ids are numbered by first appearance |
| `RoadConnector.Candidates` | src/geoqc/infrastructure/gis/road_network_connectivity.py:74-88 | exactly the component pairs whose shortest line is usable, longer than the tolerance and, when there is a ceiling, no longer than it, each once |
| `RoadConnector.SortedCandidates` | src/geoqc/infrastructure/gis/road_network_connectivity.py:90 | sorting permutes the candidates into ascending length with no repetition |
| `RoadConnector.KruskalIsMinimal` | src/geoqc/infrastructure/gis/road_network_connectivity.py:90-106 | the kept candidates form a minimum spanning forest of the candidate graph |
| `RoadConnector.ForestLinksWhatFits` | src/geoqc/infrastructure/gis/road_network_connectivity.py:79-104 | every connector respects the tolerance and the ceiling, its number is its position, and two components whose shortest line respects both end connected |
| `RoadConnector.OneKruskalChoice` | src/geoqc/infrastructure/gis/road_network_connectivity.py:90-104 | the input determines the connectors: the candidates are ranked by length, then by their components, and there is one greedy choice |
| `RoadConnector.Take` | src/geoqc/infrastructure/gis/road_network_connectivity.py:93-104 | a candidate is recorded, with the next index, exactly when its ends were not yet joined |
| `RoadConnector.Scan` | src/geoqc/infrastructure/gis/road_network_connectivity.py:93-106 | the loop keeps exactly Kruskal's choice of the part of the list it has read |
| `RoadConnector.Kruskal` | src/geoqc/infrastructure/gis/road_network_connectivity.py:90-108 | the connectors are those of the whole list despite the early stop, and the reported remainder is the number of classes, which is n minus the connectors |
| `RoadConnector.CountClasses` | src/geoqc/infrastructure/gis/road_network_connectivity.py:108 | the set of roots counts the classes of the links |
| `RoadConnector.Connect` | src/geoqc/infrastructure/gis/road_network_connectivity.py:45-115 | ids by contact chains; connectors a minimum spanning forest of the admissible candidates, each the shortest line of its components, longer than the tolerance and within the ceiling; two components end connected exactly when a chain of such lines links them; the remaining count is the initial count minus connectors |
| `RoadConnector.FullyConnectedExactlyWhen` | src/geoqc/infrastructure/gis/road_network_connectivity.py:79-88 | the network ends in one component exactly when every two components are linked by a chain of admissible shortest lines, which the drop of short connectors can prevent |
| `RoadConnector.CrossingRoadsStayApart` | src/geoqc/infrastructure/gis/road_network_connectivity.py:45-115 | the connector, run on two roads that touch at no endpoint and whose shortest line has length zero, finds two components, links nothing and leaves two, even without a distance ceiling |
| `DatasetComparator.Candidates` | src/geoqc/infrastructure/gis/shapely_enterprise_spatial.py:160-167 | exactly the pairs offered by the index whose score reaches the threshold, each once |
| `DatasetComparator.Match` | src/geoqc/infrastructure/gis/shapely_enterprise_spatial.py:171-201 | the loop takes the pairs of the greedy one-to-one matching of the sorted list and describes each |
| `DatasetComparator.MatchedKind` | src/geoqc/infrastructure/gis/shapely_enterprise_spatial.py:176-190 | a match is unchanged exactly when the geometries are equal and no attribute differs, with absent attributes read as null |
| `DatasetComparator.DescribedTells` | src/geoqc/infrastructure/gis/shapely_enterprise_spatial.py:176-215 | an entry names an attribute exactly when one side has a value the other lacks or holds differently, gives the score in percent rounded to four decimals, and is unchanged exactly when the geometries are equal and nothing disagrees; removed and added entries have similarity zero |
| `Rounding.Round4` | src/geoqc/infrastructure/gis/shapely_enterprise_spatial.py:197 | the multiple of 1/10000 nearest to the argument, the even one of two |
| `Rounding.OneRounding` | src/geoqc/infrastructure/gis/shapely_enterprise_spatial.py:197 | rounding has one answer |
| `DatasetComparator.GreedyIsOneToOne` | src/geoqc/infrastructure/gis/shapely_enterprise_spatial.py:171-175 | no left and no right feature is matched twice |
| `DatasetComparator.GreedyIsHalfOptimal` | src/geoqc/infrastructure/gis/shapely_enterprise_spatial.py:171-175 | the matching scores at least half of any one-to-one set of candidate pairs |
| `DatasetComparator.HalfIsTight` | src/geoqc/infrastructure/gis/shapely_enterprise_spatial.py:171-175 | a family of inputs on which the ratio comes as close to one half as wanted |
| `DatasetComparator.AddRemoved` | src/geoqc/infrastructure/gis/shapely_enterprise_spatial.py:202-208 | every unmatched left feature is reported removed, once |
| `DatasetComparator.AddAdded` | src/geoqc/infrastructure/gis/shapely_enterprise_spatial.py:209-215 | every unmatched right feature is reported added, once |
| `DatasetComparator.ReportIsOrdered` | src/geoqc/infrastructure/gis/shapely_enterprise_spatial.py:244-253 | although index zero and a missing index share the sort key -1, the sorted report is in the true order of kind and indices |
| `DatasetComparator.SortedReport` | src/geoqc/infrastructure/gis/shapely_enterprise_spatial.py:244-253 | sorting loses, repeats and alters no entry of the report |
| `DatasetComparator.MatchesAreBest` | src/geoqc/infrastructure/gis/shapely_enterprise_spatial.py:171-175 | the chosen matches are candidates, one-to-one, and at least half as good as any alternative |
| `DatasetComparator.OneGreedyChoice` | src/geoqc/infrastructure/gis/shapely_enterprise_spatial.py:169-175 | the input determines the matching: the candidates have one ranking and it has one greedy choice |
| `DatasetComparator.Compare` | src/geoqc/infrastructure/gis/shapely_enterprise_spatial.py:152-256 | fails exactly on a threshold outside 0..1; otherwise the matching is the greedy choice of the ranked candidates and half-optimal, every left and every right index is reported exactly once, in order, and each match tells exactly the attributes that disagree, the score in percent to four decimals, and whether anything changed; the number of candidate pairs is stated |
| `JobManager.Manager.constructor` | src/geoqc/interfaces/api/jobs.py:41-60 | workers plus queue capacity permits and no record |
| `JobManager.Manager.TryAcquire` | src/geoqc/interfaces/api/jobs.py:64 | takes a permit exactly when one is free |
| `JobManager.Manager.Release` | src/geoqc/interfaces/api/jobs.py:82 | gives a permit back and raises exactly when the semaphore is already full |
| `JobManager.Manager.Register` | src/geoqc/interfaces/api/jobs.py:67-75 | adds a queued record unless the registry is full, in which case the permit goes back |
| `JobManager.Manager.DeleteRecord` | src/geoqc/interfaces/api/jobs.py:80-81 | removes the record and raises exactly when it is missing |
| `JobManager.Manager.Transition` | src/geoqc/interfaces/api/jobs.py:132-148 | moves a record along the allowed edges, or raises and changes nothing |
| `JobManager.Transitioned` | src/geoqc/interfaces/api/jobs.py:132-148 | a queued job may start running and a running one may succeed or fail, nothing else; only its state, time and outcome change, and no other record |
| `JobManager.Manager.Cleanup` | src/geoqc/interfaces/api/jobs.py:91-102 | drops exactly the finished records older than the retention and counts them |
| `JobManager.Manager.Submit` | src/geoqc/interfaces/api/jobs.py:62-84 | which of accepted, queue full, registry full or refused by the executor happens for a token that is free after the cleanup of the call, and in every outcome but acceptance the permits and the surviving records are as before |
| `JobManager.Manager.Run` | src/geoqc/interfaces/api/jobs.py:108-122 | a queued job ends with its final record, succeeded with the result or failed with the error, releases one permit and touches no other record; without a queued record the first transition raises and the permit stays taken |
| `JobManager.Manager.Lookup` | src/geoqc/interfaces/api/jobs.py:86-89 | the record after cleanup, if it is still there |
| `JobProtocol.InitiallyInv` | src/geoqc/interfaces/api/jobs.py:53-60 | the empty registry satisfies the invariant |
| `JobProtocol.AcquireKeepsInv` | src/geoqc/interfaces/api/jobs.py:64-65 | admission keeps free permits plus admitted tickets equal to the capacity |
| `JobProtocol.RegisterKeepsInv` | src/geoqc/interfaces/api/jobs.py:66-75 | registering or refusing keeps the invariant |
| `JobProtocol.HandOverKeepsInv` | src/geoqc/interfaces/api/jobs.py:78-79 | a pool that either queues the job or refuses it keeps the invariant |
| `JobProtocol.WithdrawKeepsInv` | src/geoqc/interfaces/api/jobs.py:79-83 | the rollback finds its record, removes it and gives its permit back |
| `JobProtocol.StartKeepsInv` | src/geoqc/interfaces/api/jobs.py:109 | a worker picking up a job keeps the invariant |
| `JobProtocol.BeginKeepsInv` | src/geoqc/interfaces/api/jobs.py:110 | the transition outside the try block never raises |
| `JobProtocol.SettleKeepsInv` | src/geoqc/interfaces/api/jobs.py:111-120 | the final transition never raises |
| `JobProtocol.ReleaseKeepsInv` | src/geoqc/interfaces/api/jobs.py:121-122 | the release never exceeds the bound |
| `JobProtocol.StepKeepsInv` | src/geoqc/interfaces/api/jobs.py:62-149 | every atomic step of every thread keeps the invariant |
| `JobProtocol.EveryRunKeepsInv` | src/geoqc/interfaces/api/jobs.py:62-149 | in every interleaving permits are conserved, every unfinished task has its record in the expected state, and no fault ever happens |
| `JobProtocol.StepRespectsJob` | src/geoqc/interfaces/api/jobs.py:91-102 | a record only moves along allowed edges, and disappears only by expiry after finishing or by its own rollback |
| `JobProtocol.BusyFromStartToRelease` | src/geoqc/interfaces/api/jobs.py:77-122 | a worker is busy with a job from its start to its release, and no other step occupies or frees one |
| `JobProtocol.NextStep` | src/geoqc/interfaces/api/jobs.py:108-122 | an admitted job always has an enabled step of its own; only a job in the queue needs a free worker for it |
| `JobProtocol.StepAdvances` | src/geoqc/interfaces/api/jobs.py:108-122 | every step of a thread, a refusal by the pool included, ends its job or brings it strictly closer to its release, and leaves the other jobs alone |
| `JobProtocol.EndTicket` | src/geoqc/interfaces/api/jobs.py:108-122 | one job can be run to its end without any new call, leaving the others alone, when it is past the queue or a worker is free |
| `JobProtocol.EveryRunIsBounded` | src/geoqc/interfaces/api/jobs.py:62-122 | without new submissions every run, in every interleaving and with cleanups in between, takes at most as many thread steps as the jobs in flight have left |
| `JobProtocol.RestIsDrained` | src/geoqc/interfaces/api/jobs.py:104-122 | no thread can take a step exactly when nothing is in flight: all permits are free and every record is final |
| `JobProtocol.AlwaysDrains` | src/geoqc/interfaces/api/jobs.py:104-122 | from every reachable state all admitted jobs can finish; then all permits are free and every record is final |
| `JobProtocol.AcquireExactlyWhenRoom` | src/geoqc/interfaces/api/jobs.py:54-65 | a submission is admitted exactly when fewer than workers plus queue capacity jobs are in flight |
| `JobSimulation.SubmitFollowsProtocol` | src/geoqc/interfaces/api/jobs.py:62-84 | a call of submit on the object, whatever its outcome, takes it where a run of the protocol takes its state |
| `JobSimulation.RunFollowsProtocol` | src/geoqc/interfaces/api/jobs.py:108-122 | so does a job run by a worker, and it raises exactly when the thread of the protocol does |
| `JobSimulation.SubmitRun` | src/geoqc/interfaces/api/jobs.py:62-84 | the atomic steps of an undisturbed submit, for each of its four outcomes, end where the outcome says |
| `JobSimulation.JobRun` | src/geoqc/interfaces/api/jobs.py:104-148 | the atomic steps of an undisturbed job end with its final record and its permit back, or with the thread lost when no queued record is there |
| `JobStranding.RunKeepsPoolInv` | src/geoqc/interfaces/api/jobs.py:77-122 | with live worker threads counted, every run without a failed thread start keeps the invariant of the protocol, and jobs queue only while a thread lives |
| `JobStranding.PoolRestIsDrained` | src/geoqc/interfaces/api/jobs.py:77-122 | although only a live thread can take a job on, the pool comes to rest exactly when nothing is in flight |
| `JobStranding.RollbackLeavesCopy` | src/geoqc/interfaces/api/jobs.py:79-83 | when the pool has queued the job and raises all the same, the rollback deletes the record and gives the permit back while the queued copy stays |
| `JobStranding.StrandedJobFaults` | src/geoqc/interfaces/api/jobs.py:77-122 | from every state in which a hand-over can fail to start a thread, that leads to an internal exception: the next submit starts a thread, which takes on the job whose record the rollback deleted |
| `JobStranding.PermitGivenTwice` | src/geoqc/interfaces/api/jobs.py:77-122 | with a thread free, or with room for another submit that starts one, the rollback and the job both give back the one permit, unless the semaphore itself raises |
| `JobStranding.FaultFreeExactlyWhen` | src/geoqc/interfaces/api/jobs.py:77-122 | no interleaving of any number of threads ever raises an internal exception exactly when no hand-over fails after queueing its job |
| `RateLimiter.FindOldest` | src/geoqc/interfaces/api/rate_limit.py:33 | the entry with the least start, ties by key |
| `RateLimiter.OldestUnique` | src/geoqc/interfaces/api/rate_limit.py:33 | at most one key is the oldest, so the choice is determined |
| `RateLimiter.TextLeqIsLexicographic` | src/geoqc/interfaces/api/rate_limit.py:33 | the order of keys is the order of texts: by the first place where they differ, a prefix first |
| `RateLimiter.IncrementedMeans` | src/geoqc/interfaces/api/rate_limit.py:29-40 | the counting step written out over windows still open: what is counted, what is opened, and which window goes |
| `RateLimiter.DecideAnswers` | src/geoqc/interfaces/api/rate_limit.py:76-78 | the decision allows exactly counts up to the limit, never a negative rest, and its hint is the least wait of at least one second that outlasts the window |
| `RateLimiter.Storage.Cleanup` | src/geoqc/interfaces/api/rate_limit.py:52-60 | keeps exactly the unexpired windows and counts the rest |
| `RateLimiter.Storage.Increment` | src/geoqc/interfaces/api/rate_limit.py:29-40 | a check counts in the open window of its key or opens one, and exactly for a new window in a full store the window that opened first goes, by key among equals; nothing else changes |
| `RateLimiter.Check` | src/geoqc/interfaces/api/rate_limit.py:74-78 | the answer for the stored window after the increment: allowed exactly up to the limit, the rest of the limit, and the least whole number of seconds after which the window is over |
| `RateLimiter.RetryHintIsExact` | src/geoqc/interfaces/api/rate_limit.py:77 | a wait of d whole seconds outlasts the window exactly when d is at least the hint |
| `RateLimitTrace.StepOnWindow` | src/geoqc/interfaces/api/rate_limit.py:29-40 | what one call does to the window of one key, whatever the other keys do |
| `RateLimitTrace.CheckIsStep` | src/geoqc/interfaces/api/rate_limit.py:74-78 | every call of the limiter is a step of a trace, with the answer it gives |
| `RateLimitTrace.BudgetStep` | src/geoqc/interfaces/api/rate_limit.py:29-40 | each call answered as allowed is paid from the budget of the half-open interval |
| `RateLimitTrace.TraceBudget` | src/geoqc/interfaces/api/rate_limit.py:29-40 | over any trace the allowed calls of a key within one window length are bounded by its budget plus the limit per eviction |
| `RateLimitTrace.WindowBound` | src/geoqc/interfaces/api/rate_limit.py:74-78 | any half-open interval one window long holds at most 2*limit-1 calls of a key that are answered as allowed, plus the limit per eviction of that key |
| `RateLimitTrace.OpenWindowBound` | src/geoqc/interfaces/api/rate_limit.py:35-40 | a stored window allows at most what is left of the limit |
| `RateLimitTrace.KthCallOfWindow` | src/geoqc/interfaces/api/rate_limit.py:35-40 | the k-th call in one window is allowed exactly when k is at most the limit, whatever other keys do, while the key is not evicted |
| `RateLimitTrace.StorageBounded` | src/geoqc/interfaces/api/rate_limit.py:32-34 | the store never exceeds its maximum over any trace |
| `RateLimitTrace.RoomForAllKeys` | src/geoqc/interfaces/api/rate_limit.py:32-34 | with room for every key in use nothing is evicted |
| `RateLimitTrace.BoundWithRoom` | src/geoqc/interfaces/api/rate_limit.py:32-40 | with room for every key the 2*limit-1 bound holds outright |
| `RateLimitTrace.QuietWindow` | src/geoqc/interfaces/api/rate_limit.py:52-60 | while a key makes no call its window stays or goes, and it goes by expiry unless it is evicted |
| `RateLimitTrace.RetryOpensFreshWindow` | src/geoqc/interfaces/api/rate_limit.py:74-78 | the next check of a key opens a fresh window whenever it waits at least the hint, whatever other keys do in between, and only then unless the key is evicted |
| `RateLimitTrace.WindowBoundIsSharp` | src/geoqc/interfaces/api/rate_limit.py:74-78 | a trace reaching 2*limit-1 for every configuration |
| `RateLimitRoom.TurnIsStep` | src/geoqc/interfaces/api/rate_limit.py:29-40 | when one key more than the store holds take turns, each check evicts the key whose turn is next and is counted as the first of its window |
| `RateLimitRoom.BoundNeedsRoom` | src/geoqc/interfaces/api/rate_limit.py:29-40 | for a store of any size: so many keys, checked in turn within one window length, have as many allowed checks of one key as wanted |
| `RateLimitRoom.BoundExactlyWithRoom` | src/geoqc/interfaces/api/rate_limit.py:29-40 | the 2*limit-1 bound holds for all traces over a set of keys exactly when the set fits into the store |
| `Scoring.LoopStep` | src/geoqc/application/scoring_service.py:25-38 | one deduction keeps the running points equal to the order-free closed form of the findings seen |
| `Scoring.TotalAppend` | src/geoqc/application/scoring_service.py:30-38 | one more finding changes only its own entity's capped total |
| `Scoring.Raw` | src/geoqc/application/scoring_service.py:27-29 | a finding without features weighs its whole penalty, any other the share that the features it names are of the dataset, at most all of it |
| `Scoring.InCategoryPicks` | src/geoqc/application/scoring_service.py:22 | the findings of a category, each once, in their order |
| `Scoring.DeductIssue` | src/geoqc/application/scoring_service.py:26-38 | the deduction of one finding and the entity bookkeeping |
| `Scoring.DeductCategory` | src/geoqc/application/scoring_service.py:23-53 | the points of a category are the smaller of the category cap and the sum of per-entity capped penalties; each deduction is the growth of that form |
| `Scoring.MarginalsSum` | src/geoqc/application/scoring_service.py:36-44 | the unrounded explained deductions add up to the points |
| `Scoring.ScoreCategories` | src/geoqc/application/scoring_service.py:21-56 | one score per category, from its own findings |
| `Scoring.WeightedMean` | src/geoqc/application/scoring_service.py:57-65 | the weighted mean of the category scores |
| `Scoring.ScoreIssues` | src/geoqc/application/scoring_service.py:9-71 | fails exactly on a negative feature count; otherwise each category scores 100 less the points it loses, to two decimals, with its count and explained deductions, and the overall score is the weighted mean to one decimal, held at 99.9 by an error or critical finding |
| `ScoringLaws.ClosedFormAnyOrder` | src/geoqc/application/scoring_service.py:25-38 | the closed form depends only on which findings occur, and how often |
| `ScoringLaws.ScoresIgnoreOrder` | src/geoqc/application/scoring_service.py:21-71 | all category scores, counts and the overall score are the same for every order of the findings |
| `ScoringLaws.AddedFindingNeverRaises` | src/geoqc/application/scoring_service.py:31-71 | inserting any finding anywhere never raises a category score or the overall score |
| `ScoringLaws.CategoryScoreBounds` | src/geoqc/application/scoring_service.py:54-56 | a category score lies between the rounded complement of its cap and 100 |
| `ScoringLaws.OverallBounds` | src/geoqc/application/scoring_service.py:57-70 | the overall score lies in 0..100 and is 100 only without error or critical findings |
| `ScoringLaws.CapCanBeReached` | src/geoqc/application/scoring_service.py:35-36 | enough findings bring a category down to the rounded complement of its cap |
| `ScoringLaws.FloorExactlyWhen` | src/geoqc/application/scoring_service.py:55 | the floor of 100 minus the cap holds exactly when rounding to two decimals does not lower it, or nothing is ever deducted |
| `ScoringLaws.FloorFails` | src/geoqc/domain/models/scoring.py:77-78 | a permitted cap for which rounding breaks that floor |
| `RoadSnapping.SelectGroup` | src/geoqc/infrastructure/gis/road_network_repair.py:86-103 | the touched group with the least radius within tolerance, first on ties |
| `RoadSnapping.FittingGroupIsTouched` | src/geoqc/infrastructure/gis/road_network_repair.py:86-92 | asking only groups with a member near the endpoint loses no group that could take it |
| `RoadSnapping.NearMember` | src/geoqc/infrastructure/gis/road_network_repair.py:98-102 | a group that takes an endpoint has a member of another line within tolerance of it |
| `RoadSnapping.PlaceKeepsClustering` | src/geoqc/infrastructure/gis/road_network_repair.py:104-110 | placing an endpoint keeps the groups a partition, without two ends of one line, each with a member near all others |
| `RoadSnapping.Cluster` | src/geoqc/infrastructure/gis/road_network_repair.py:83-110 | the groups partition the endpoints greedily in order and never hold two ends of one line |
| `RoadSnapping.OneGreedyHistory` | src/geoqc/infrastructure/gis/road_network_repair.py:83-110 | the input determines the clusters: placing the endpoints in order by the greedy choice has one outcome |
| `RoadSnapping.PickAnchor` | src/geoqc/infrastructure/gis/road_network_repair.py:114-121 | the member with least reach, then least total distance, then least number |
| `RoadSnapping.AnchorNearAll` | src/geoqc/infrastructure/gis/road_network_repair.py:114-122 | the anchor is within tolerance of every member |
| `RoadSnapping.PickTargets` | src/geoqc/infrastructure/gis/road_network_repair.py:112-126 | exactly the endpoints away from their anchor get it as target |
| `RoadSnapping.TargetsAreNear` | src/geoqc/infrastructure/gis/road_network_repair.py:112-126 | every target is within tolerance of its endpoint |
| `RoadSnapping.ReplaceMovesWithin` | src/geoqc/infrastructure/gis/road_network_repair.py:167-182 | replacing ends keeps the vertex count and the interior and moves an end at most the bound, also when a collapsed line is put back |
| `RoadSnapping.SpreadsExactly` | src/geoqc/infrastructure/gis/road_network_repair.py:181-182 | a line is replaced exactly when, with its targets put in, two of its vertices differ |
| `RoadSnapping.AllReplacedGoTo` | src/geoqc/infrastructure/gis/road_network_repair.py:128-135 | the ends of every line go to their targets and nothing else changes, unless the line would collapse to a point; then it is unchanged |
| `RoadSnapping.GroupMembersMeet` | src/geoqc/infrastructure/gis/road_network_repair.py:128-135 | endpoints of one group end at the same point unless one of their lines, with its targets put in, has all vertices at one point |
| `RoadSnapping.NearestLine` | src/geoqc/infrastructure/gis/road_network_repair.py:149 | the nearest line, least index on ties |
| `RoadSnapping.ProjectEnd` | src/geoqc/infrastructure/gis/road_network_repair.py:140-154 | an end is projected exactly when no nearby line touches it and the nearest one is within tolerance |
| `RoadSnapping.Project` | src/geoqc/infrastructure/gis/road_network_repair.py:137-154 | the projections of all ends |
| `RoadSnapping.ProjectionIsNear` | src/geoqc/infrastructure/gis/road_network_repair.py:149-154 | a projection moves its end at most the tolerance |
| `RoadSnapping.MeetingEndsStayTogether` | src/geoqc/infrastructure/gis/road_network_repair.py:137-163 | ends of two lines that meet are not projected away from each other: the end of the other line is within the touching distance |
| `RoadSnapping.GroupsMeetInTheEnd` | src/geoqc/infrastructure/gis/road_network_repair.py:112-163 | what clustering brought together is together in the final result, after the projection too |
| `RoadSnapping.TwoMoves` | src/geoqc/infrastructure/gis/road_network_repair.py:128-163 | two bounded moves compose to twice the bound |
| `RoadSnapping.Snap` | src/geoqc/infrastructure/gis/road_network_repair.py:71-165 | the targets are the anchors of the greedy clusters; the ends go there and are then projected, a line that would collapse to a point being left alone both times; every end moves at most twice the tolerance, no interior vertex moves, the count is the number of both kinds of targets, and a non-positive tolerance changes nothing; with an index that misses no line, the ends of one cluster whose lines keep two different vertices end at the same point |
| `CoverageRepair.RepairGeometry` | src/geoqc/infrastructure/gis/shapely_topology_repairer.py:106-156 | duplicate vertices go when that leaves fewer, an invalid geometry is made valid, slivers are dropped when there are any, each only when asked for and each recorded; without recorded action the geometry is the original |
| `CoverageRepair.EveryStageRecords` | src/geoqc/infrastructure/gis/shapely_topology_repairer.py:106-156 | each of the three stages records its own finding exactly when it acted, in stage order; a mended geometry without a recognised defect counts as self-intersecting |
| `CoverageRepair.SafetyFailure` | src/geoqc/infrastructure/gis/shapely_topology_repairer.py:299-319 | a candidate passes exactly when it is valid, not emptied, still polygonal if it was, within the largest shift and within the largest relative change of area when these are set; otherwise the reason names the first of these it breaks |
| `CoverageRepair.ResolvedCells` | src/geoqc/infrastructure/gis/shapely_topology_repairer.py:191-211 | erasure leaves a feature that is not polygonal as it is; from a polygon it takes only cells of earlier polygons and leaves at most a sliver of them, and none when no region is below the epsilon |
| `CoverageRepair.ResolvedExactly` | src/geoqc/infrastructure/gis/shapely_topology_repairer.py:191-211 | a polygon that shares more than the epsilon with the polygons before it loses exactly a region covering theirs; every other feature is left as it is |
| `CoverageRepair.ResolvedOverlapsAreSlivers` | src/geoqc/infrastructure/gis/shapely_topology_repairer.py:198-201 | after erasure two polygons share no more area than the epsilon, and two features that are not polygonal share what they shared before |
| `CoverageRepair.ResolvedDisjoint` | src/geoqc/infrastructure/gis/shapely_topology_repairer.py:191-211 | when no region is smaller than the epsilon, erasure leaves the features disjoint exactly when no feature that is not polygonal shared a cell with another one |
| `CoverageRepair.ResolvedCovers` | src/geoqc/infrastructure/gis/shapely_topology_repairer.py:191-211 | erasure loses no covered cell |
| `CoverageRepair.EarliestKeeps` | src/geoqc/infrastructure/gis/shapely_topology_repairer.py:191-211 | the first polygon covering a cell keeps it, and so does every feature that is not polygonal |
| `CoverageRepair.PolygonIndices` | src/geoqc/infrastructure/gis/shapely_topology_repairer.py:219-221 | exactly the polygonal features, in ascending order of index |
| `CoverageRepair.SmallIndices` | src/geoqc/infrastructure/gis/shapely_topology_repairer.py:241-244 | the positions of the small rings, ascending and without repeats |
| `CoverageRepair.SmallHoles` | src/geoqc/infrastructure/gis/shapely_topology_repairer.py:238-245 | exactly the interior rings with area above the epsilon and below the threshold, each at its own place in the order of the rings |
| `CoverageRun.HolesTell` | src/geoqc/infrastructure/gis/shapely_topology_repairer.py:219-223 | the holes considered are the small rings of what all polygons cover together, each once, in their order |
| `CoverageRepair.FindNeighbour` | src/geoqc/infrastructure/gis/shapely_topology_repairer.py:247-259 | the first feature sharing the most boundary with the hole, or none when nothing is shared |
| `CoverageRepair.FilledCells` | src/geoqc/infrastructure/gis/shapely_topology_repairer.py:225-229 | each feature gains exactly the cells of the holes it received |
| `CoverageRun.EraseOne` | src/geoqc/infrastructure/gis/shapely_topology_repairer.py:196-211 | erases from one feature and records the action exactly when cells are erased |
| `CoverageRun.ResolveOverlaps` | src/geoqc/infrastructure/gis/shapely_topology_repairer.py:191-211 | the in-place loop computes the erasure of every feature and its action log |
| `CoverageRun.FillOne` | src/geoqc/infrastructure/gis/shapely_topology_repairer.py:229-236 | merges one hole into its target and records it there only |
| `CoverageRun.FillHoles` | src/geoqc/infrastructure/gis/shapely_topology_repairer.py:225-236 | each hole goes to the widest neighbour of the coverage as filled so far |
| `CoverageRun.FillGaps` | src/geoqc/infrastructure/gis/shapely_topology_repairer.py:213-236 | the gap stage over the polygonal features and their small holes |
| `CoverageRun.RunCrossStages` | src/geoqc/infrastructure/gis/shapely_topology_repairer.py:72-76 | both stages in order, or a raise; every changed feature has an action |
| `CoverageRun.ResolveKeepsRecorded` | src/geoqc/infrastructure/gis/shapely_topology_repairer.py:200-210 | after erasure a feature without action still is its original |
| `CoverageRun.FillKeepsRecorded` | src/geoqc/infrastructure/gis/shapely_topology_repairer.py:229-236 | after filling a feature without action still is its original |
| `CoverageRun.RepairFirst` | src/geoqc/infrastructure/gis/shapely_topology_repairer.py:55-70 | every feature is its intrinsic repair when the library can make it and it keeps the guarantees, otherwise its original, with the exception or the first broken guarantee as reason |
| `CoverageRun.Rollback` | src/geoqc/infrastructure/gis/shapely_topology_repairer.py:77-81 | all features original, no actions, every feature failed |
| `CoverageRun.RevertUnsafe` | src/geoqc/infrastructure/gis/shapely_topology_repairer.py:83-87 | a feature keeps its first failure or gets the safety verdict, and failed features get their original back; an exception inside the check goes through exactly when it meets a feature that had not failed before |
| `CoverageRun.Report` | src/geoqc/infrastructure/gis/shapely_topology_repairer.py:89-102 | the before and after texts and one result per feature |
| `CoverageRun.CoupledFeature` | src/geoqc/infrastructure/gis/shapely_topology_repairer.py:263-300 | the report of one feature agrees with the coverage, and anything but a repaired feature is exactly as it was |
| `CoverageRun.LogTells` | src/geoqc/infrastructure/gis/shapely_topology_repairer.py:191-236 | a feature reports its intrinsic findings, an overlap exactly when it encroached on earlier polygons, and a gap exactly when it received a hole |
| `CoverageRun.FinalExplained` | src/geoqc/infrastructure/gis/shapely_topology_repairer.py:55-87 | every feature fails for the reason of the first check it does not pass, first its own repair, then what the stages made of it; otherwise it ends as the stages left it, with every guarantee kept |
| `CoverageRun.RepairCoverage` | src/geoqc/infrastructure/gis/shapely_topology_repairer.py:53-102 | stages or atomic rollback, final reverts, coverage text equal to report text, every feature not repaired unchanged; a repaired one keeps all five guarantees and reports what was done to it, a failed one names the first guarantee broken; and the exact case in which the call raises |
| `CoverageLaws.FinalCells` | src/geoqc/infrastructure/gis/shapely_topology_repairer.py:72-87 | without rejected features a feature ends with what erasure left it and the holes that go to it |
| `CoverageLaws.DisjointExactlyWhen` | src/geoqc/infrastructure/gis/shapely_topology_repairer.py:191-245 | without rejected features the coverage ends pairwise disjoint exactly when erasure leaves it disjoint and no filled hole covers part of another feature or of a hole filled elsewhere, all of it read from the input; above the epsilon erasure leaves it disjoint exactly when no geometry collection or other feature that is not polygonal shares a cell with another feature |
| `CoverageLaws.DisjointWhenRingsAreClear` | src/geoqc/infrastructure/gis/shapely_topology_repairer.py:213-245 | a test before the call: when the small rings meet neither a feature of the erased coverage nor each other, the result is pairwise disjoint exactly when the features that are not polygonal share no cell with another one |
| `CoverageLaws.CoverageGrowsByFilledHoles` | src/geoqc/infrastructure/gis/shapely_topology_repairer.py:191-236 | without rejected features the covered cells grow by exactly the filled holes |
| `CoverageLaws.EarliestFeatureKeepsCell` | src/geoqc/infrastructure/gis/shapely_topology_repairer.py:191-211 | a cell ends with the earliest polygon that covers it, and with every collection that does; it ends only there when holes and collections are apart and no region is below the epsilon |
| `CoverageLaws.IslandIsSwallowed` | src/geoqc/infrastructure/gis/shapely_topology_repairer.py:238-245 | two disjoint sound features, the second standing in a small hole of the first, are repaired without a failure and end overlapping, because a ring polygon includes what stands inside it |
| `CoverageLaws.IslandInHole` | src/geoqc/infrastructure/gis/shapely_topology_repairer.py:238-245 | such an island exists, with every region of a cell above the epsilon |
| `CoverageLaws.CollectionsStay` | src/geoqc/infrastructure/gis/shapely_topology_repairer.py:193-211 | a coverage without polygons goes through both stages as it is, whatever overlaps in it |
| `CoverageLaws.OverlappingCollections` | src/geoqc/infrastructure/gis/shapely_topology_repairer.py:193-211 | the same geometry collection twice: nothing fails, nothing changes, and the result overlaps itself |
| `RepairSessions.UndoEngine.constructor` | src/geoqc/application/services/topology_repair.py:21-22 | an empty history |
| `RepairSessions.UndoEngine.Push` | src/geoqc/application/services/topology_repair.py:24-26 | appends a state |
| `RepairSessions.UndoEngine.Undo` | src/geoqc/application/services/topology_repair.py:38-42 | pops the latest state, or reports an error on an empty history |
| `RepairSessions.RepairSession.constructor` | src/geoqc/application/services/topology_repair.py:48-58 | the given working set, nothing to undo, no cached preview |
| `RepairSessions.RepairSession.ComputePreview` | src/geoqc/application/services/topology_repair.py:79-83 | answers with a fresh repair of the current working set, cached or not |
| `RepairSessions.RepairSession.PreviewResult` | src/geoqc/application/services/topology_repair.py:79-83 | a preview is a fresh repair of the current working set and changes nothing else |
| `RepairSessions.RepairSession.Apply` | src/geoqc/application/services/topology_repair.py:85-92 | commits exactly what a preview shows, remembers the old state only when it differs, and changes nothing on an error |
| `RepairSessions.RepairSession.UndoLast` | src/geoqc/application/services/topology_repair.py:94-98 | restores the latest remembered state, or fails and changes nothing |
| `RepairSessions.EveryRunIsAChain` | src/geoqc/application/services/topology_repair.py:85-98 | after any calls, history and current state form a chain from the original in which each state is the repair of the previous and differs from it |
| `RepairSessions.UndoSteps` | src/geoqc/application/services/topology_repair.py:94-98 | k undos lead to the state k links back |
| `RepairSessions.UndoingEverythingRestoresTheOriginal` | src/geoqc/application/services/topology_repair.py:70-73 | undoing as often as the depth restores the original working set |
| `RepairSessions.UndoRestoresExactlyWhen` | src/geoqc/application/services/topology_repair.py:94-95 | undo right after apply restores the previous working set exactly when that apply changed something or there is no history |
| `RepairSessions.UndoCanGoTooFar` | src/geoqc/application/services/topology_repair.py:85-98 | a session one apply away in which apply and undo do not restore the working set: the second apply changes nothing and the undo takes back the first |
| `RepairSessions.RedoByApply` | src/geoqc/application/services/topology_repair.py:85-98 | applying after an undo brings the undone state back |
| `StreamingAudit.Collector.constructor` | src/geoqc/application/streaming/geometry.py:34-39 | an empty collector |
| `StreamingAudit.Collector.Add` | src/geoqc/application/streaming/geometry.py:41-49 | adds the counts and fills the findings up to the bound |
| `StreamingAudit.Collector.Finish` | src/geoqc/application/streaming/geometry.py:51-57 | the collected totals |
| `StreamingAudit.ChunkIssues` | src/geoqc/infrastructure/gis/streaming/geometry_processor.py:40-59 | the issue counts and findings of one chunk, with dataset-wide indices |
| `StreamingAudit.Process` | src/geoqc/infrastructure/gis/streaming/geometry_processor.py:25-60 | the result of one chunk, unreadable geometries included |
| `StreamingAudit.ReportsTell` | src/geoqc/infrastructure/gis/streaming/geometry_processor.py:42-66 | a missing geometry has one empty-geometry issue, an unreadable one one invalid-geometry issue, and any other what the validator finds |
| `StreamingAudit.PrefixIsBounded` | src/geoqc/application/streaming/geometry.py:47-49 | the collector lists the first findings, as many as fit |
| `StreamingAudit.FindingsAreComplete` | src/geoqc/infrastructure/gis/streaming/geometry_processor.py:57-59 | the findings are exactly the features with issues, by ascending index |
| `StreamingAudit.Feed` | src/geoqc/application/streaming/engine.py:34-39 | all chunks collected in order on top of what the collector held; sizes and chunks counted |
| `StreamingAudit.Stream` | src/geoqc/application/streaming/engine.py:27-47 | succeeds exactly with a needed reference system, a non-zero stated count and at least one chunk; the result is what the collector holds |
| `StreamingAudit.AuditInParts` | src/geoqc/application/streaming/geometry.py:41-49 | the audit of a longer stretch is the shorter audit with the next part added |
| `StreamingAudit.EveryChunkingAgrees` | src/geoqc/application/streaming/geometry.py:41-57 | for every contiguous chunking the collected counts and bounded findings are those of the whole dataset |
| `StreamingAudit.AuditAll` | src/geoqc/infrastructure/gis/geopandas_geometry_engine.py:21-44 | the in-memory loop computes the audit of the whole dataset |
| `StreamingAudit.RunInMemory` | src/geoqc/infrastructure/gis/geopandas_geometry_engine.py:18-44 | the in-memory engine succeeds exactly when every geometry can be read |
| `StreamingAudit.Compare` | src/geoqc/application/streaming/engine.py:29-41 | both engines succeed and agree exactly when a required reference system is present, the dataset is not empty by metadata or chunks, and every geometry is readable; on an empty dataset one fails and the other reports nothing |
| `QualityProfiles.All` | src/geoqc/infrastructure/gis/profile_loading.py:250-257 | parses a whole list or fails, keeping order |
| `QualityProfileMeaning.ValidExactlyWhen` | src/geoqc/domain/models/quality_profile.py:56-70 | which profiles can be constructed, written out field by field and rule kind by rule kind |
| `QualityProfileMeaning.RuleParses` | src/geoqc/infrastructure/gis/profile_schema.py:18-61 | a topology rule is read exactly from the mappings that mean it, missing fields reading as their defaults, when it can be constructed |
| `QualityProfileMeaning.AttributeParses` | src/geoqc/infrastructure/gis/profile_schema.py:64-81 | likewise for an attribute rule |
| `QualityProfileMeaning.ScoringParses` | src/geoqc/infrastructure/gis/profile_loading.py:190-220 | likewise for the scoring section, with its default weights, penalties and caps |
| `QualityProfileMeaning.ParsesExactlyWhen` | src/geoqc/infrastructure/gis/profile_loading.py:154-272 | the parser reads a profile exactly from the mappings that mean it, when it can be constructed: what each present field is read as, what each missing one defaults to, and which keys are allowed |
| `QualityProfileMeaning.NameAloneMeansDefaults` | src/geoqc/infrastructure/gis/profile_loading.py:154-272 | a mapping with nothing but a name is the default profile of that name, stripped |
| `QualityProfileLaws.RuleComesBack` | src/geoqc/infrastructure/gis/profile_schema.py:18-61 | a valid topology rule without an empty reference layer survives printing and parsing |
| `QualityProfileLaws.AttributeRuleComesBack` | src/geoqc/infrastructure/gis/profile_schema.py:64-81 | a valid attribute rule survives printing and parsing |
| `QualityProfileLaws.ScoringComesBack` | src/geoqc/infrastructure/gis/profile_loading.py:190-220 | a valid scoring policy survives, defaulted category caps included |
| `QualityProfileLaws.GateComesBack` | src/geoqc/infrastructure/gis/profile_loading.py:265-271 | a valid gate survives |
| `QualityProfileLaws.CrsComesBack` | src/geoqc/infrastructure/gis/profile_loading.py:230-234 | the reference system section survives |
| `QualityProfileLaws.HeadComesBack` | src/geoqc/infrastructure/gis/profile_loading.py:225-249 | the plain fields survive when the name has no surrounding spaces |
| `QualityProfileLaws.OverridesComeBack` | src/geoqc/infrastructure/gis/profile_loading.py:258-263 | severity overrides survive |
| `QualityProfileLaws.PenaltiesComeBack` | src/geoqc/infrastructure/gis/profile_loading.py:201-207 | severity penalties survive their keys being printed as text |
| `QualityProfileLaws.SectionsComeBack` | src/geoqc/infrastructure/gis/profile_loading.py:176-189 | no printed section holds a field its parser rejects |
| `QualityProfileLaws.CanonicalComesBack` | src/geoqc/infrastructure/gis/profile_schema.py:84-144 | printing then parsing is the identity on every canonical profile |
| `QualityProfileLaws.ParsedRuleIsCanonical` | src/geoqc/infrastructure/gis/profile_schema.py:38-61 | a parsed rule is valid and never carries an empty reference layer |
| `QualityProfileLaws.ParsedIsCanonical` | src/geoqc/infrastructure/gis/profile_loading.py:154-272 | every profile the parser accepts is valid, has a stripped name and no empty reference layer |
| `QualityProfileLaws.RoundTripExactlyWhen` | src/geoqc/domain/models/quality_profile.py:56-70 | a constructible profile with finite numbers survives printing and parsing exactly when its name is stripped and no rule carries an empty reference layer |
| `QualityProfileLaws.SpacedNameIsLost` | src/geoqc/infrastructure/gis/profile_loading.py:225-226 | a valid profile with a space before its name does not come back |
| `QualityProfileLaws.EmptyReferenceIsLost` | src/geoqc/infrastructure/gis/profile_schema.py:38-45 | a valid profile with a rule that carries an empty reference layer does not come back |
| `QualityProfileLaws.ParsedProfilesRoundTrip` | src/geoqc/infrastructure/gis/profile_loading.py:154-272 | for every accepted mapping, parsing the printed profile gives the parsed profile again |
| `QualityProfileLaws.SomeMappingIsAccepted` | src/geoqc/infrastructure/gis/profile_loading.py:154-272 | the assumptions about texts have an instance, and some mapping is accepted and comes back |
| `ParallelExecutor.PendingCount` | src/geoqc/application/parallel/executor.py:68 | pending and finished tasks add up to the total |
| `ParallelExecutor.PendingIsLeftOver` | src/geoqc/application/parallel/executor.py:68 | the pending list names exactly the sources of the unfinished tasks, in task order |
| `ParallelExecutor.SnapshotIsValid` | src/geoqc/application/parallel/executor.py:136-157 | every progress event passes its own checks and satisfies completed plus pending equals total |
| `ParallelExecutor.CollectOne` | src/geoqc/application/parallel/executor.py:90-93 | each completion adds exactly its own outcome |
| `ParallelExecutor.SortedKeys` | src/geoqc/application/parallel/executor.py:161 | the sequence numbers in ascending order |
| `ParallelExecutor.OrderedIsExpected` | src/geoqc/application/parallel/executor.py:159-161 | sorting by sequence number undoes any completion order, repeated sources included |
| `ParallelExecutor.RunSerial` | src/geoqc/application/parallel/executor.py:57-73 | one item per source in source order, and after each completion an event with its item, the sources still pending, the elapsed time and the time to go at the mean pace |
| `ParallelExecutor.RunPool` | src/geoqc/application/parallel/executor.py:75-104 | the same items for every completion order, and the event of each completion in that order |
| `ParallelExecutor.Run` | src/geoqc/application/parallel/executor.py:32-55 | each source gives its value, or a failed item when the worker raises, in source order, whatever the worker count or completion order; the first event lists every source and shows the time between two clock readings, and each later one names the item just finished, exactly the sources still pending, the time since the start and the time to go at the mean pace |
| `RoadEndpointMerge.GradeByNearest` | src/geoqc/infrastructure/gis/dataset_audit.py:85-116 | the grade is decided by the nearest other feature within tolerance over all features, ties by index, at the position rounded to six decimals; without one the finding becomes an informational road end, and without a tolerance nothing is graded |
| `RoadEndpointMerge.GroupEndpoints` | src/geoqc/infrastructure/gis/dataset_audit.py:61-66 | one group per feature and rounded position, holding every endpoint finding about it in order |
| `RoadEndpointMerge.ShareGroupExactlyWhen` | src/geoqc/infrastructure/gis/dataset_audit.py:61-66 | two findings share a group exactly when both are endpoint findings and agree on the feature and on both coordinates rounded to six decimals |
| `RoadEndpointMerge.KeepIsMember` | src/geoqc/infrastructure/gis/dataset_audit.py:80-81 | the kept finding is the first dangle finding of the group, or its first finding when there is none |
| `RoadEndpointMerge.Largest` | src/geoqc/infrastructure/gis/dataset_audit.py:69-74 | the largest configured tolerance, zero without any |
| `RoadEndpointMerge.Apply` | src/geoqc/infrastructure/gis/dataset_audit.py:77-117 | collects the findings given up and the replacement of each group |
| `RoadEndpointMerge.MergeRoadEndpoints` | src/geoqc/infrastructure/gis/dataset_audit.py:52-118 | the output is the list without the findings its groups give up and with the merged ones in place |
| `RoadEndpointLaws.InRest` | src/geoqc/infrastructure/gis/dataset_audit.py:81-82 | a member is given up unless it is the kept one and listed once |
| `RoadEndpointLaws.EndpointFate` | src/geoqc/infrastructure/gis/dataset_audit.py:77-118 | which endpoint findings survive, and as what |
| `RoadEndpointLaws.OtherIsUntouched` | src/geoqc/infrastructure/gis/dataset_audit.py:118 | a finding about anything else is neither dropped nor replaced |
| `RoadEndpointLaws.OtherFindingsStay` | src/geoqc/infrastructure/gis/dataset_audit.py:118 | all other findings come through unchanged and in order |
| `RoadEndpointLaws.OutcomeInPlaces` | src/geoqc/infrastructure/gis/dataset_audit.py:118 | the output lists the surviving findings where they stood: other findings unchanged, and for each endpoint its merged finding in the place of the one it keeps |
| `RoadEndpointLaws.OneFindingPerEndpointExactlyWhen` | src/geoqc/infrastructure/gis/dataset_audit.py:79-118 | an endpoint ends with exactly one finding exactly when its kept object is listed once, otherwise with none; the survivor names all codes |
| `RoadEndpointLaws.RepeatedObjectVanishes` | src/geoqc/infrastructure/gis/dataset_audit.py:79-118 | a list that holds one endpoint finding twice ends without any finding about that endpoint |
| `RoadEndpointLaws.DistinctObjectsKeepOne` | src/geoqc/infrastructure/gis/dataset_audit.py:79-118 | with distinct finding objects every endpoint ends with exactly one finding |

## Left out

- Geometry operations (shortest lines, intersections, buffers, validity, Hausdorff distance, index internals): functions with the laws used, because they belong to GEOS.
- Geometry loading and the line-part extraction of the road connector, with their error branches: input and output around the modelled core.
- Floating-point rounding error, NaN and infinite numbers: arithmetic is on exact reals.
- Z coordinates when endpoints are replaced: points are opaque, so a kept height is not modelled.
- Message texts, fingerprints, tokens and WKT text: opaque values, enumerations or parameters.
- CoverageLaws.DisjointExactlyWhen: is about runs in which no feature is rejected; a rejected feature gets its original back, which may overlap its neighbours again.
- The single-geometry `repair` call, whose result may be failed and still show the changed text: it has no revert to prove anything about.
- Repair metrics and their text (area, vertex and shape differences): numbers reported beside the result.
- Job metrics counters and the inside of the thread pool: a pool is the number of its live threads and the jobs they run, which of them a hand-over finds idle is left open, and interleaving is at the granularity of the lock and the semaphore.
- JobStranding.PermitGivenTwice: needs a thread that is free or room for one more submit; that an internal exception follows from every such state is JobStranding.StrandedJobFaults.
- JobManager.Manager.Run: runs the whole job as one call, a run of the protocol by JobSimulation.RunFollowsProtocol; that the record it needs is there in every interleaving is JobProtocol.EveryRunKeepsInv.
- JobProtocol.HandOverKeepsInv: is about a pool that does not raise on a job it has queued; what happens otherwise is JobStranding.StrandedJobFaults and JobStranding.PermitGivenTwice.
- Operations that raise outside `Exception`, clocks that run backwards, and mixed limits or window lengths for one key: outside what the rate limiter and the job manager promise.
- RateLimitTrace.WindowBound: states the bound with the evictions of the key added, because an evicted key starts a new window at once; for which sets of keys the plain bound holds is RateLimitRoom.BoundExactlyWithRoom.
- The three similarity measures of the comparator, the schema and boundary parts of its report: one score function stands for them.
- StreamingAudit.Stream: chunk reading, memory errors and the Arrow column lookup are a given list of chunks; a dataset is cut contiguously.
- StreamingAudit.RunInMemory: that loading fails on an unreadable geometry is the reader's default behaviour, taken as given.
- The sorted order of the issue counts in an audit result: counts are a multiset.
- QualityProfiles.Parse: which of several faults is reported first inside the plain fields is not modelled; all of them are the same kind of error.
- QualityProfileLaws.RoundTripExactlyWhen: is about finite numbers; a profile built in code with an infinite threshold, such as `tolerance=float("inf")`, prints but is rejected by the parser, which wants finite numbers.
- QualityProfileLaws.ParsedProfilesRoundTrip: numbers are reals and keys are texts, so digits lost beyond 2^53 and non-text YAML keys are not modelled, and JSON or YAML text itself is not.
- Keyboard interrupts, broken pools and worker-count selection of the parallel executor: outcomes of workers are functions of the source.
- Command line, web routes, reports, plug-ins, file formats and settings: plumbing without the properties above.
