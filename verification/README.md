# Verified model of the connector's graph, vault, cache and accounting code

This project restates, in Dafny, the parts of the connector whose behaviour is hardest
to see from a single body, and proves what they promise for every input, every run and
every reachable state.

* **Topology.** Flat rows or paths become forests; explicit-stack queries equal recursive
  definitions; the anchoring search agrees with a plain climb; the comparison ladder
  obeys its laws.
  (`Forest`, `TopologySnapshot`, `TargetBuilder`, `SourceBuilder`, `Comparison`, `Climb`, `Anchoring`)
* **Cache.** Kahn's algorithm succeeds exactly on acyclic graphs; refresh and clear scopes
  are dual closures; a refresh is a transaction whose counters balance.
  (`Digraph`, `Kahn`, `CacheDependencyGraph`, `CacheStore`, `CacheRefresh`, `RefreshItems`,
  `MetaLookup`, `RefreshAgain`)
* **Vault.** Envelope encryption over one repository: what holds after any interleaving of
  writes and startup checks, each with its own keyring and its own storage failures.
  (`VaultCrypto`, `VaultStore`, `VaultServices`, `VaultRuns`, `VaultReads`, `VaultFailures`,
  `Locator`)
* **Text, configuration and accounting.** The line splitter behind a prompt gate, the
  layered merge with its source trace, and the apply loop whose counters decide the exit
  code. (`StreamCapture`, `ConfigMerge`, `Policies`, `ImportApply`)

`Basics` and `PyText` hold shared facts about sequences, string order, `sorted` and `strip`.
Code that works by updating state is modelled by methods and classes, each proved against a
function or relation whose own properties are the lemmas listed below.

## Assumptions

* `build_source_synthetic_id` is injective (`SourceBuilder.Injective`), and so is SHA-256 on
  locator texts; the vault modules take a locator to determine dataset, field and match key.
  `Locator.TextUniqueIff` says when the hashed text does; of `json.dumps` it takes that strings
  are closed and hold every bar and backslash (`Locator.IsJson`).
* The cipher is symbolic: a token records the key it was made with. Unwrapping inverts
  wrapping, decrypting inverts encrypting, and a wrong key fails (`VaultCrypto.EnvelopeLaws`).
* Clocks, random keys, generated versions, the network, the readers and the executors are
  parameters. A data-key version generated for a new key is not in use yet (`FreshSeeds`).
* Repository ports are maps. A secret is found by run or by match key, both modelled.

## Where the code and its description part

* The anchoring docstring calls a node valid when its climb reaches the root, a target id or an
  anchored parent. The sweep also drops the children of a target id that is itself a dropped
  source node. `Anchoring.SweepAddsNothingIff` gives the exact condition under which the
  two agree, `Anchoring.SweepDropsTargetChild` an input on which they do not.
* The read service documents "exact run, then global". The SQLite store, given a match key,
  returns the latest row of any run. `VaultStore.LookupsAgreeIff` says exactly when this is the
  same, `VaultReads.RunIgnored` gives one put after which it is not, and
  `VaultReads.SqliteReadsNewest` says what is read instead: the last value written, if the clocks
  of the secret's successful puts strictly increase. On a tied clock the run that came in last wins, not the last write:
  `VaultReads.ReadsLastPutIff`, with an input in `VaultReads.TiedClockReadsOlder`.
* A keyring names one key per version, the last one given. `VaultCrypto.UnwrapOpensIff` says for
  any keyring exactly when it opens a token, so which changes break an unwrap that worked. A
  longer ring can: by a malformed key of the hinted version (`VaultCrypto.MalformedKeyBreaks`),
  by a second key of the version that fits (`VaultCrypto.RepeatedVersionBreaks`), or by a
  malformed key in front, where the active key stands, whatever the hint
  (`VaultCrypto.FrontKeyBreaks`).
* The unique index reads no run id and an empty one alike. After a put with an empty run id, a
  put without one goes into that row and a read without one does not find it:
  `VaultReads.EmptyRunHidesGlobal`. Without empty run ids the documented precedence holds:
  `VaultRuns.RoundTripDocumented`.
* A merged section can leave the trace of the leaf it replaced: `ConfigMerge.StaleTraceEntry`.
  For keys without dots the trace is exact if and only if no source cuts off a path that only
  sources below it set (`ConfigMerge.TraceExactIff`; for any keys
  `ConfigMerge.TraceExactIffKeysSurvive`). An empty section name makes the trace name the wrong
  source: `ConfigMerge.EmptyKeyMistraces`; `ConfigMerge.LeafTracedIff` says when it names the
  right one.
* A set of codes holding OK and UNKNOWN_CODE gives exit code 0 while `ok` is false:
  `Policies.CommandResult.ExitZeroIff`. A data problem beside an infrastructure problem lowers
  the exit code from 2 to 1: `Policies.DefaultExitCode`. Inputs: `Policies.OkHidesUnknown` and
  `Policies.DataProblemLowersExit`.
* INTERNAL_ERROR is a fatal code, but a refusal that carries it is reported as SINK_HTTP_ERROR and
  comes back as INFRA_UNAVAILABLE, which is not: `ImportApply.FatalRefusals` says which refusals
  are fatal, `ImportApply.RefusalKeepsCode` which keep their code.
* A refresh counts an item twice when the identity sync raises after the upsert
  (`CacheRefresh.CountedTwice`); `CacheRefresh.Conservation` gives the exact balance.
* Reading the same pages again can change rows, because unique indexes refuse a row or take it
  depending on the table it meets: `RefreshAgain.RefusedThenInserted` inserts at the second reading
  what the first refused. For distinct ids `RefreshAgain.RefreshTwiceIff` says exactly when nothing
  changes, `RefreshAgain.RepeatsIff` for any ids when all outcomes repeat.
* When the drift policy neither fails nor rebuilds, old rows stay and the new hash is recorded:
  `RefreshAgain.StaleRowUnderNewHash`. The service's constructor takes any text for the option; its
  only caller passes a policy limited to "fail" and "rebuild"
  (connector/domain/cache_dsl/specs.py:34). `RefreshAgain.StaleRowSurvivesIff` says for every policy
  exactly when a row stays.
* A bar in a dataset or field name lets two fields share a hashed locator text, and nothing
  else does: `Locator.TextUniqueIff`.
* A dataset's facts are read with `LIKE '<dataset>.%'`, where `_` stands for any character and
  case is ignored. Datasets `a_b` and `axb` with different hashes can show drift right after a
  refresh: `RefreshAgain.LookalikeDrifts`; `RefreshAgain.DriftAfterRefreshIff` says exactly when.

## Model

| member | source | states |
|---|---|---|
| Kahn.IndexEdges | connector/domain/cache_core/cache_dependency_graph.py:95-100 | the edge index holds, with multiplicity, exactly the reversed dependencies, and each indegree is the number of dependencies |
| Kahn.InitialQueue | connector/domain/cache_core/cache_dependency_graph.py:102 | the queue starts with exactly the datasets without dependencies, once each |
| Kahn.KahnSweep | connector/domain/cache_core/cache_dependency_graph.py:103-110 | the sweep lists datasets once, each after its dependencies, and every dataset left over still depends on one left over |
| Kahn.TopologicalOrder | connector/domain/cache_core/cache_dependency_graph.py:91-114 | an order is returned exactly when the graph has no cycle, and then it lists every dataset once, dependencies first |
| Kahn.ShortResultHasCycle | connector/domain/cache_core/cache_dependency_graph.py:112-113 | a short result means a real cycle, found wholly among the datasets left over |
| Digraph.AcyclicHasOrder | connector/domain/cache_core/cache_dependency_graph.py:91-114 | every closed graph without a cycle has an order with dependencies first |
| Digraph.TopologicalAcyclic | connector/domain/cache_core/cache_dependency_graph.py:112-114 | a graph that has such an order has no cycle |
| CacheDependencyGraph.BuildDependents | connector/domain/cache_core/cache_dependency_graph.py:83-88 | the dependents index is the exact transpose of the dependency map |
| CacheDependencyGraph.Absorb | connector/domain/cache_core/cache_dependency_graph.py:120-124 | taking a node off the queue adds its successors, queues just the new ones and leaves only queued nodes with successors outside |
| CacheDependencyGraph.Expand | connector/domain/cache_core/cache_dependency_graph.py:117-134 | the worklist ends with exactly what is reachable from the seeds |
| CacheDependencyGraph.FindUnknown | connector/domain/cache_core/cache_dependency_graph.py:33-37 | the reported edges are exactly those to datasets nobody declared |
| CacheDependencyGraph.Create | connector/domain/cache_core/cache_dependency_graph.py:18-44 | construction succeeds exactly when there is a dataset, every dependency is declared and the known dependencies are acyclic; each failure is told apart |
| CacheDependencyGraph.DependencyGraph.RefreshOrder | connector/domain/cache_core/cache_dependency_graph.py:50-62 | the reflexive-transitive dependencies of the dataset, dependencies first, the dataset last |
| CacheDependencyGraph.DependencyGraph.ClearOrder | connector/domain/cache_core/cache_dependency_graph.py:64-76 | the cascade is exactly the datasets that depend on this one, dependents first, the dataset last; so it is dual to the refresh scope |
| CacheDependencyGraph.DependencyGraph.RefreshScope | connector/domain/cache_core/cache_dependency_graph.py:60-62 | filtering the order by the closure keeps dependencies first and puts the dataset last |
| CacheDependencyGraph.DependencyGraph.ClearScope | connector/domain/cache_core/cache_dependency_graph.py:74-76 | the same for the reversed order and the closure over dependents |
| Forest.ForestIffAcyclic | connector/domain/dependency_tree/target_builder.py:134-143 | parents can be ranked exactly when the parent relation has no cycle |
| Forest.DescendantsExact | connector/domain/dependency_tree/snapshot.py:99-108 | recursive preorder lists, once each, exactly the nodes that have the given node among their ancestors |
| Forest.RootsPartition | connector/domain/dependency_tree/snapshot.py:91-123 | the roots' subtrees are disjoint, cover all nodes, and their sizes add up to the node count |
| Forest.StackPush | connector/domain/dependency_tree/snapshot.py:106-107 | pushing sorted children in reverse makes the stack stand for preorder |
| Forest.ChainEndsAtRoot | connector/domain/dependency_tree/snapshot.py:122-123 | the path to the root ends at a node without parent |
| Forest.AncestorsNoDup | connector/domain/dependency_tree/snapshot.py:110-117 | no node occurs twice on the way to the root |
| TopologySnapshot.Snapshot.Climb | connector/domain/dependency_tree/snapshot.py:92-97 | the parent loop ends and appends exactly the ancestors |
| TopologySnapshot.Snapshot.Ancestors | connector/domain/dependency_tree/snapshot.py:91-97 | the ancestors bottom-up, or the unknown-node error |
| TopologySnapshot.Snapshot.PathToRoot | connector/domain/dependency_tree/snapshot.py:110-117 | the node followed by its ancestors, or the error |
| TopologySnapshot.Snapshot.Depth | connector/domain/dependency_tree/snapshot.py:119-120 | one less than the length of the canonical path |
| TopologySnapshot.Snapshot.RootId | connector/domain/dependency_tree/snapshot.py:122-123 | a root of the snapshot whose subtree holds the node |
| TopologySnapshot.Snapshot.CanonicalPath | connector/domain/dependency_tree/snapshot.py:125-129 | the labels from the root down to the node, or the error |
| TopologySnapshot.Snapshot.Descendants | connector/domain/dependency_tree/snapshot.py:99-108 | the explicit stack produces recursive preorder over sorted children |
| TopologySnapshot.PathOfLabelsFromRoot | connector/domain/dependency_tree/snapshot.py:125-129 | the path of labels has one label per node on the way up, in reverse order |
| TopologySnapshot.DescendantsInvertAncestors | connector/domain/dependency_tree/snapshot.py:91-108 | a is an ancestor of n exactly when n is listed among the descendants of a, and the list has no repeats |
| TopologySnapshot.RootsCoverSnapshot | connector/domain/dependency_tree/snapshot.py:91-123 | the snapshot's roots with their descendants partition its nodes |
| TopologySnapshot.PathsIdentifyNodes | connector/domain/dependency_tree/snapshot.py:125-129 | canonical paths are injective exactly when siblings, and roots, have distinct labels |
| TopologySnapshot.NodesDetermine | connector/domain/dependency_tree/snapshot.py:52-66 | two well-formed snapshots with the same nodes are the same snapshot |
| TopologySnapshot.FreezeChildren | connector/domain/dependency_tree/target_builder.py:114-117 | each child set becomes its sorted tuple |
| TargetBuilder.IngestRows | connector/domain/dependency_tree/target_builder.py:59-82 | the first row of each id is kept, its label as both names of the node, and every later one reported |
| TargetBuilder.LinkChildren | connector/domain/dependency_tree/target_builder.py:84-97 | children sets are exactly the inverse of the parent map, and exactly the absent parents are reported |
| TargetBuilder.HasCycle | connector/domain/dependency_tree/target_builder.py:134-143 | true exactly when the parent relation has a cycle, absent parents included |
| TargetBuilder.Build | connector/domain/dependency_tree/target_builder.py:46-131 | no errors exactly when ids are distinct, parents are listed and the parent relation is acyclic; then the snapshot holds exactly the rows, otherwise it is empty; the diagnostics are given in order; each node carries its row's parent and, as both names, its label, and its canonical path is its parent's and the label |
| TargetBuilder.DuplicatesReported | connector/domain/dependency_tree/target_builder.py:60-69 | no duplicate is reported exactly when ids are distinct |
| TargetBuilder.MissingReported | connector/domain/dependency_tree/target_builder.py:84-96 | no parent is reported exactly when every parent is a node |
| TargetBuilder.FindingsMean | connector/domain/dependency_tree/target_builder.py:99-100 | the two kinds of finding are absent exactly when ids are distinct and parents listed |
| TargetBuilder.FirstParentsMeans | connector/domain/dependency_tree/target_builder.py:59-77 | of several rows with one id the first gives the parent |
| TargetBuilder.DuplicateNamed | connector/domain/dependency_tree/target_builder.py:60-69 | a duplicate is reported exactly for the ids of two rows, once for each row too many |
| TargetBuilder.MissingNamed | connector/domain/dependency_tree/target_builder.py:84-96 | a missing parent is reported exactly for a node whose parent is no node, with both ids |
| TargetBuilder.PathsFollow | connector/domain/dependency_tree/target_builder.py:70-75 | the canonical path of a row's node is its parent's path, or nothing for a root, and the row's label |
| SourceBuilder.IngestPath | connector/domain/dependency_tree/source_builder.py:114-145 | adding a path adds exactly its missing prefixes as nodes, linked to their parents |
| SourceBuilder.Build | connector/domain/dependency_tree/source_builder.py:48-112 | the snapshot is the trie of the accepted paths' non-empty prefixes; errors and warnings are exactly the rejected and repeated paths, with their indices |
| SourceBuilder.AcceptedIff | connector/domain/dependency_tree/source_builder.py:68-89 | a path is taken exactly when it has segments and each holds a character that is no white space |
| SourceBuilder.ErrorNamed | connector/domain/dependency_tree/source_builder.py:70-78 | an error at exactly the indices of the paths without such a segment |
| SourceBuilder.MalformedNamed | connector/domain/dependency_tree/source_builder.py:79-88 | a warning at exactly the indices of the paths with both kinds of segments |
| SourceBuilder.CollisionNamed | connector/domain/dependency_tree/source_builder.py:89-102 | a warning for exactly the repeated accepted paths, naming the first place and the dropped one |
| SourceBuilder.RoundTrip | connector/domain/dependency_tree/source_builder.py:122-145 | the canonical path of a prefix's node is the prefix |
| SourceBuilder.NodesArePrefixes | connector/domain/dependency_tree/source_builder.py:123-145 | every node is the node of a prefix of an accepted path |
| SourceBuilder.TriePathsInjective | connector/domain/dependency_tree/source_builder.py:125-137 | no two nodes share a path, and siblings have distinct labels |
| SourceBuilder.TrieDetermined | connector/domain/dependency_tree/source_builder.py:148-166 | the snapshot is determined by its set of prefixes |
| SourceBuilder.OrderAndRepetitionIrrelevant | connector/domain/dependency_tree/source_builder.py:67-112 | inputs with the same accepted paths, in any order and number, build the same snapshot |
| SourceBuilder.TrieIsForest | connector/domain/dependency_tree/source_builder.py:122-145 | parents of trie nodes never form a cycle, so every upward query ends |
| Comparison.MatchCandidates | connector/domain/dependency_tree/comparison.py:140-156 | exactly the candidates whose path matches the rung, in order; an unknown candidate raises |
| Comparison.Compare | connector/domain/dependency_tree/comparison.py:57-137 | the result is decided by the first rung that selects anyone, ambiguous when it selects two or more; it raises exactly when a rung meets an unknown candidate |
| Comparison.RungSelects | connector/domain/dependency_tree/comparison.py:159-184 | read on the snapshot: the exact rung selects by the path, the parent chain by the node's label and its parent's, the root-depth rung by the node's label, its root's and its depth; no other mode selects anything |
| Comparison.WalkedRungs | connector/domain/dependency_tree/comparison.py:91-137 | the rungs on record are those walked, in order, with what each selected; all but the last selected nothing, the last decides, and without a match the whole ladder was walked |
| Comparison.ResultReads | connector/domain/dependency_tree/comparison.py:46-54 | ambiguous exactly with two or more matches, no match exactly with none, and a single match exactly when a rung of the ladder resolved it |
| Comparison.CandidateOrderIrrelevant | connector/domain/dependency_tree/comparison.py:76 | mode, reason and matched set do not depend on the candidates' order or repetition |
| Comparison.ExactNeverOverridden | connector/domain/dependency_tree/comparison.py:91-126 | with an exact candidate present no ladder resolves to another candidate |
| Comparison.FindsItself | connector/domain/dependency_tree/comparison.py:91-115 | with distinct paths a node's own path resolves to the node by the exact rung |
| Comparison.BuildThenCompare | connector/domain/dependency_tree/comparison.py:57-137 | every node is found by its own path among any known candidates containing it, under every ladder that starts exact, if and only if siblings and roots have distinct labels |
| Climb.EndlessIffCycle | connector/domain/dependency_tree/anchoring.py:79-86 | a climb never ends exactly when it runs into a cycle |
| Climb.FailingChain | connector/domain/dependency_tree/anchoring.py:101-114 | everything above a failing node fails and ends the same way |
| Climb.MoreStopsAnchor | connector/domain/dependency_tree/anchoring.py:89-91 | an anchored climb stays anchored when more target ids are given |
| Anchoring.DeduplicateFirst | connector/domain/dependency_tree/anchoring.py:138-145 | the parent map of each id's first node |
| Anchoring.FirstParentsMeans | connector/domain/dependency_tree/anchoring.py:71-72 | the map holds exactly the ids seen, each with the parent of its first occurrence |
| Anchoring.BuildChildren | connector/domain/dependency_tree/anchoring.py:148-153 | children are exactly the inverse of the parent map, sorted |
| Anchoring.AnchorWalk.Visit | connector/domain/dependency_tree/anchoring.py:76-114 | the memoised search returns what the plain climb says, keeps earlier verdicts and ends on every graph |
| Anchoring.VisitAll | connector/domain/dependency_tree/anchoring.py:116-117 | every source node ends with a sound verdict, and verdicts agree along parents |
| Anchoring.JudgeAll | connector/domain/dependency_tree/anchoring.py:116-121 | the verdicts are exactly those of the nodes whose climb fails |
| Anchoring.Descendants | connector/domain/dependency_tree/anchoring.py:156-170 | exactly the nodes below the root, once each, also on cyclic graphs |
| Anchoring.Sweep | connector/domain/dependency_tree/anchoring.py:122-132 | everything below a failing node is dropped and repeats a failure above it, in whatever order the roots are taken |
| Anchoring.AnchorSourceNodes | connector/domain/dependency_tree/anchoring.py:58-135 | anchored and dropped partition the ids; dropped means the node or a source node above it fails the climb; dropped is closed under children, and each verdict names the absent id at the top of the chain or a node on the cycle it runs into |
| Anchoring.OneBlamePerChain | connector/domain/dependency_tree/anchoring.py:122-132 | all failing nodes above a node blame the same id for the same kind of reason, so the sweep's order does not matter |
| Anchoring.VerdictsTruthful | connector/domain/dependency_tree/anchoring.py:92-132 | a missing-parent verdict is given exactly to nodes whose own parent is absent, other verdicts name the absent top or a cycle node |
| Anchoring.VerdictsPassDown | connector/domain/dependency_tree/anchoring.py:122-132 | a dropped node's source children are dropped with the same blame |
| Anchoring.MoreTargetsKeepAnchored | connector/domain/dependency_tree/anchoring.py:89-91 | enlarging the target ids drops nobody who was anchored |
| Anchoring.SweepAddsNothingIff | connector/domain/dependency_tree/anchoring.py:63-69 | the sweep adds nothing to the failed climbs exactly when no child of a target id has a failing parent |
| Anchoring.SweepDropsTargetChild | connector/domain/dependency_tree/anchoring.py:122-132 | an input whose climb succeeds and whose node is dropped |
| CacheStore.CacheRepository.Upsert | connector/infra/cache/backends/sqlite/handlers/generic_handler.py:53-79 | one row is replaced or inserted, and the result says which; without a table, without a required value, or when another row holds the row's value under a unique index, it raises and changes nothing |
| CacheStore.AcceptedKeepsClashFree | connector/infra/cache/backends/sqlite/handlers/generic_handler.py:42-46 | a row that is not refused leaves the unique indexes unique |
| CacheStore.CacheRepository.Rebuild | connector/infra/cache/backends/sqlite/handlers/generic_handler.py:91-93 | the table is emptied and the dataset's facts stay |
| CacheRefresh.CacheRefreshUseCase.ApplyDriftPolicy | connector/usecases/cache_refresh_service.py:361-398 | told by the options: fails exactly when the mode is strict or the mismatch option says fail, and some dataset of the scope shows drift through `get_meta`, naming exactly those; otherwise empties a table exactly on drift with rebuild, when the scope option says all or the dataset drifted |
| CacheRefresh.DriftedMeans | connector/usecases/cache_refresh_service.py:376-382 | a dataset drifts exactly when a hash is expected of it and `get_meta` shows another, non-empty one |
| CacheRefresh.DriftFailsOrRebuilds | connector/usecases/cache_refresh_service.py:385-398 | of the options a specification allows, soft with rebuild empties a table on drift and every other pair fails |
| CacheRefresh.CacheRefreshUseCase.ProcessItem | connector/usecases/cache_refresh_service.py:162-228 | one item moves the counters and the table as its fate says, a row the table refuses counting as failed; an item without key aborts |
| RefreshItems.FateOfItem | connector/usecases/cache_refresh_service.py:162-228 | an item is skipped exactly when it is deleted and nobody asked for deleted ones, and stored exactly when the adapter maps it and the table of the moment takes it |
| RefreshItems.DeletedAreAskedFor | connector/usecases/cache_refresh_service.py:165-171 | a caller's word about deleted items goes before the adapter's default |
| CacheRefresh.CacheRefreshUseCase.LoadDataset | connector/usecases/cache_refresh_service.py:135-228 | succeeds exactly when every page arrives and every item has a key; the page number kept is the largest |
| CacheRefresh.CacheRefreshUseCase.Stamp | connector/usecases/cache_refresh_service.py:271-294 | the facts written for each dataset, and no others |
| RefreshItems.FactsAfterRefresh | connector/usecases/cache_refresh_service.py:271-294 | after a refresh each dataset has the time, the run id, the largest page number, the number of items counted, the size of its table and, when one is expected, the hash, each under its key |
| RefreshItems.OtherFactsStay | connector/usecases/cache_refresh_service.py:271-294 | its other facts stay |
| RefreshItems.BaseAddressRecorded | connector/usecases/cache_refresh_service.py:295-296 | the base address is recorded when there is one |
| CacheRefresh.CacheRefreshUseCase.RefreshInTransaction | connector/usecases/cache_refresh_service.py:113-296 | drift, load and stamping together; the hash-mismatch error exactly on drift under mode strict or mismatch option fail |
| CacheRefresh.CacheRefreshUseCase.Refresh | connector/usecases/cache_refresh_service.py:67-348 | goes through exactly when every dataset in scope has an adapter, a table, readable pages and no drift that mode strict or mismatch option fail forbids; an unsupported dataset and a hash mismatch each have their exact condition; any failure leaves the cache unchanged; datasets out of scope are untouched; dependencies come first |
| CacheRefresh.SumStats | connector/usecases/cache_refresh_service.py:351-358 | the totals are the sums over the datasets |
| CacheRefresh.PlayAccounts | connector/usecases/cache_refresh_service.py:162-228 | after any items each id holds the row last stored under it, inserted counts exactly the new ids, inserted plus updated the stores, failed the rejections and refusals and the failed syncs, skipped the skips |
| RefreshItems.CountersOfItems | connector/usecases/cache_refresh_service.py:162-228 | skipped counts the deleted items nobody asked for, failed the rejected ones and those whose identity sync raised, inserted and updated together those stored |
| RefreshItems.DatasetIsLoop | connector/usecases/cache_refresh_service.py:112-268 | each dataset of a refresh is such a loop, from its table after the drift policy |
| CacheRefresh.PlayKeepsClashFree | connector/usecases/cache_refresh_service.py:195-228 | reading pages into a table without clashes leaves it without clashes |
| CacheRefresh.Conservation | connector/usecases/cache_refresh_service.py:195-228 | items counted exceed items read by exactly the syncs that raised, so they are equal exactly when none did; the table grew by exactly the insertions |
| CacheRefresh.CountedTwice | connector/usecases/cache_refresh_service.py:204-268 | one item whose identity sync raises is counted as inserted and as failed |
| CacheRefresh.RefreshAccounts | connector/usecases/cache_refresh_service.py:112-296 | the same for every dataset of a successful refresh, from its table after the drift policy |
| CacheRefresh.RefreshKeepsClashFree | connector/usecases/cache_refresh_service.py:112-296 | a refresh leaves every table without clashes that had none |
| CacheRefresh.TotalGrowth | connector/usecases/cache_refresh_service.py:312 | the reported total of insertions is the growth of all refreshed tables together |
| RefreshAgain.NoDriftAfterRefresh | connector/usecases/cache_refresh_service.py:274-278 | after a refresh, read through the LIKE lookup in whatever order the database answers, no dataset of the plan shows drift unless one of a like name has another hash on record, so no policy rebuilds anything |
| MetaLookup.SelectsIff | connector/infra/cache/repository/cache_repository.py:48 | the LIKE pattern of one dataset selects the facts of another exactly when the names have one length and agree but for `_` and case |
| MetaLookup.CaseIgnored | connector/infra/cache/repository/cache_repository.py:48 | names that differ in the case of an ASCII letter are alike |
| MetaLookup.LookupExactIff | connector/infra/cache/repository/cache_repository.py:44-53 | the lookup is sure to give the dataset's own facts exactly when no dataset of a like name knows anything else |
| RefreshAgain.DriftAfterRefreshIff | connector/usecases/cache_refresh_service.py:362-382 | right after a refresh a dataset can show drift exactly when a dataset of a like name has another hash on record |
| RefreshAgain.LookalikeDrifts | connector/infra/cache/repository/cache_repository.py:48 | a dataset `a_b` just refreshed can show drift when `axb` has another hash on record |
| RefreshAgain.RefreshTwice | connector/usecases/cache_refresh_service.py:162-228 | when the items come to the same again and nothing is rebuilt, a second refresh from the same pages, at another time, under another run id and another policy, changes no row and turns insertions into updates |
| RefreshAgain.RefreshTwiceIff | connector/usecases/cache_refresh_service.py:162-228 | for distinct ids and tables without clashes: reading the same pages again, with nothing rebuilt, changes no row exactly when every row refused the first time still clashes, or lacks a required value, with what the first refresh left |
| RefreshAgain.SteadyIff | connector/usecases/cache_refresh_service.py:195-228 | the same for one table and its items: all outcomes repeat exactly then, and the table stays exactly then |
| RefreshAgain.RepeatsIff | connector/usecases/cache_refresh_service.py:195-228 | for any items, repeated ids included, and any two tables: the outcomes agree exactly when each item is answered alike by both tables under what was accepted before it |
| RefreshAgain.RefusedThenInserted | connector/infra/cache/backends/sqlite/handlers/generic_handler.py:42-79 | a table of one row and two items for which the first reading refuses a row and the second inserts it |
| RefreshAgain.CanRefreshAgainIff | connector/usecases/cache_refresh_service.py:361-398 | once a refresh succeeded, reading the same pages again fails exactly when a policy that fails is shown drift; so it succeeds under every policy where no like name brings in another hash |
| RefreshAgain.StaleRowSurvivesIff | connector/usecases/cache_refresh_service.py:385-398 | a row not stored again outlives the refresh exactly when the policy did not rebuild its table |
| RefreshAgain.StaleRowUnderNewHash | connector/usecases/cache_refresh_service.py:361-398 | a drifted dataset keeps an old row while the new hash is recorded |
| VaultCrypto.EnvelopeLaws | connector/infra/secrets/fernet_envelope_cipher.py:24-111 | the right key inverts wrapping and encryption, another key fails |
| VaultCrypto.CandidateMasterKeys | connector/domain/secrets/secret_vault_write_service.py:178-187 | the hinted key first, then the other versions in ring order |
| VaultCrypto.CandidatesAreKeys | connector/domain/secrets/secret_vault_read_service.py:179-193 | with distinct versions the candidates are exactly the ring, reordered |
| VaultCrypto.UnwrapUnder | connector/domain/secrets/secret_vault_read_service.py:149-177 | the first candidate that opens the token gives the data key; a malformed key met before aborts |
| VaultCrypto.SoundRingOpens | connector/domain/secrets/secret_vault_read_service.py:149-163 | a ring of well-formed, distinct keys opens any token wrapped under one of them, whatever the hint |
| VaultCrypto.GrowthKeepsUnwrap | connector/domain/secrets/secret_vault_read_service.py:149-193 | a larger sound ring opens what the smaller one opened, to the same data key |
| VaultCrypto.FindKeyMeans | connector/usecases/management/vault/verify.py:99-100 | a version finds a key of that version exactly when the ring holds one |
| VaultCrypto.FindKeyIsLast | connector/usecases/management/vault/verify.py:91 | of several keys of a version the last one is found |
| VaultCrypto.TryKeysOpenIff | connector/domain/secrets/secret_vault_read_service.py:160-177 | a token opens exactly when some candidate fits and none before it is malformed, and then to the key inside |
| VaultCrypto.UnwrapOpensIff | connector/domain/secrets/secret_vault_read_service.py:149-193 | for any ring and hint: the token opens exactly when, without a key of the hinted version, a fitting key comes before any malformed one, or else the last such key is well-formed and fits or leaves a fitting key of another version before any malformed one |
| VaultCrypto.TryKeysFailIff | connector/domain/secrets/secret_vault_read_service.py:149-177 | the search aborts exactly at a malformed key before any that fits, and comes back empty-handed exactly when all keys are well-formed and none fits, or the token opens under no key |
| VaultCrypto.UnwrapFailsIff | connector/domain/secrets/secret_vault_read_service.py:149-195 | the same for any ring and hint |
| VaultCrypto.ChangeKeepsIff | connector/domain/secrets/secret_vault_read_service.py:149-193 | any change of the ring keeps a working unwrap exactly when the new ring meets that condition |
| VaultCrypto.AppendKeepsIff | connector/domain/secrets/secret_vault_read_service.py:184-193 | keys appended at the end keep a working unwrap exactly when none has the hinted version, or the last such key is well-formed and it, or another version before any malformed key, still fits |
| VaultCrypto.NewVersionsKeepIff | connector/domain/secrets/secret_vault_read_service.py:184-193 | new versions put in front and behind keep it exactly when a new key of the hinted version is well-formed and, unless the first key tried fits, the ones in front are all well-formed or one of them fits before a malformed one |
| VaultCrypto.AppendNewVersionsIff | connector/domain/secrets/secret_vault_read_service.py:184-193 | at the end only a malformed key of the hinted version breaks it |
| VaultCrypto.RepeatedVersionBreaks | connector/usecases/management/vault/verify.py:91-100 | a second key of the hinted version hides the first: nothing fits |
| VaultCrypto.MalformedKeyBreaks | connector/domain/secrets/secret_vault_read_service.py:184-193 | a malformed key of the hinted version stops the search |
| VaultCrypto.FrontKeyBreaks | connector/usecases/management/vault/verify.py:88-97 | a malformed key in front stops the search although no key has the hinted version |
| VaultStore.VaultRepository.UpsertSecret | connector/infra/secrets/sqlite/repository.py:72-119 | the row under the index key, in which no run id and an empty one are the same, is created or updated keeping its id and run id, or storage refuses and nothing changes |
| VaultStore.VaultRepository.UpsertDek | connector/infra/secrets/sqlite/repository.py:327-360 | storing an active key deactivates the others |
| VaultStore.VaultRepository.GetActiveDek | connector/domain/ports/secrets/repository.py:91-96 | the active key, if any |
| VaultStore.VaultRepository.GetSecret | connector/infra/secrets/sqlite/repository.py:121-275 | without a match key the exact run, then the global row; with one a latest row under the key of any run, else under the locator |
| VaultStore.DekKeepsStore | connector/infra/secrets/sqlite/repository.py:327-360 | storing a fresh active key keeps the store sound and makes it the active one |
| VaultStore.SecretKeepsStore | connector/infra/secrets/sqlite/repository.py:72-119 | storing a secret under a stored key keeps the store sound |
| VaultStore.LookupsAgreeIff | connector/infra/secrets/sqlite/repository.py:131-200 | the match-key lookup gives what the documented lookup gives, for every run, exactly when no row of the secret belongs to a run |
| VaultStore.FallbackFindsNothing | connector/infra/secrets/sqlite/repository.py:167-200 | the locator finds no row that the match key does not, when every row was written with its match key |
| VaultServices.EnsureActiveDek | connector/domain/secrets/secret_vault_write_service.py:133-155 | the active key unwrapped, or a new one wrapped and stored; on failure nothing is written |
| VaultServices.SecretVaultWriteService.PutMany | connector/domain/secrets/secret_vault_write_service.py:62-131 | all fields are stored or, on any error, the repository is as before; the error is told |
| VaultServices.NormalizeSourceRef | connector/domain/secrets/secret_vault_read_service.py:196-212 | a match key is found exactly when it is a non-blank string, and is returned stripped |
| VaultServices.SecretVaultReadService.GetSecret | connector/domain/secrets/secret_vault_read_service.py:60-147 | nothing is returned exactly without a match key or when the lookup finds no row; a found row is opened with the keyring |
| VaultServices.SecretVaultReadService.Hydrate | connector/domain/secrets/secret_vault_read_service.py:111-147 | the plaintext, or which step failed |
| VaultServices.VaultStartupGuard.EnsureReady | connector/domain/secrets/vault_startup_guard.py:94-125 | outcome and final state of the readiness check, and no write when the probe is already there |
| VaultServices.VaultStartupGuard.CreateProbe | connector/domain/secrets/vault_startup_guard.py:135-216 | a probe sealed under the active key; a data key stored on the way stays when the probe fails |
| VaultServices.VaultStartupGuard.VerifyStored | connector/domain/secrets/vault_startup_guard.py:218-299 | the first check of the stored probe that fails, in order |
| VaultFailures.RowReadsIff | connector/domain/secrets/secret_vault_read_service.py:111-147 | nothing is read exactly where no row is found; a found row ends as one of four errors or as its plaintext, each exactly on its own condition on the stored data key, the keyring and the ciphertext |
| VaultFailures.StoredRowReads | connector/domain/secrets/secret_vault_read_service.py:111-177 | a row of a store that holds a ledger reads as its entry, as a key problem or as a decryption error, each with its exact condition, and never as nothing |
| VaultFailures.AcquireEndsIff | connector/domain/secrets/secret_vault_write_service.py:133-176 | a writer gets a data key exactly when the active one opens, or there is none and a new one can be wrapped and stored; each failure has its condition |
| VaultFailures.AcquireGives | connector/domain/secrets/secret_vault_write_service.py:133-155 | the data key that comes out is the one inside the stored record; a new one is active and names the key that wraps it |
| VaultFailures.PutSucceedsIff | connector/domain/secrets/secret_vault_write_service.py:71-114 | a put succeeds exactly when there is nothing to store, or a match key, a data key, a supported cipher and room for all rows |
| VaultFailures.PutFailsIff | connector/domain/secrets/secret_vault_write_service.py:115-131 | each error of a put exactly on its own condition |
| VaultFailures.PutSealsRows | connector/domain/secrets/secret_vault_write_service.py:87-113 | the row of a field is sealed under the active data key and names both keys, the algorithm and the time |
| VaultFailures.ProbePassesIff | connector/domain/secrets/vault_startup_guard.py:218-248 | a probe passes exactly when its fields are filled, its data key is stored and opens, and it holds the payload |
| VaultFailures.UnfilledFailsAs | connector/domain/secrets/vault_startup_guard.py:301-326 | a probe that is not filled fails by the first field that is wrong |
| VaultFailures.FilledFailsAs | connector/domain/secrets/vault_startup_guard.py:218-287 | a filled one fails by its data key or by what it holds, each reason exactly on its condition |
| VaultFailures.ReadyIff | connector/domain/secrets/vault_startup_guard.py:94-125 | the check succeeds exactly when the provider names keys, the probe is there or can be written, what is stored passes, and strict read-only storage is not in the way |
| VaultFailures.ProbeWritten | connector/domain/secrets/vault_startup_guard.py:135-172 | the probe written is the payload under the active data key and names both keys |
| VaultFailures.NotCreatedAs | connector/domain/secrets/vault_startup_guard.py:135-216 | why a probe is not created, each reason exactly on its condition |
| VaultFailures.NotReadyAs | connector/domain/secrets/vault_startup_guard.py:94-125 | a locked provider fails first, a missing probe on read-only storage next, strict read-only storage last; a probe that is there means no write |
| VaultRuns.RunKeepsStore | connector/domain/secrets/vault_startup_guard.py:94-216 | over any interleaving of puts and startup checks there is never more than one active key and every secret and probe names a stored key |
| VaultRuns.RunHolds | connector/domain/secrets/secret_vault_write_service.py:82-114 | after any run the store holds exactly the ledger of what succeeded puts wrote, each row sealed under its data key |
| VaultRuns.RoundTrip | connector/domain/secrets/secret_vault_read_service.py:60-147 | after any run from any store that holds a ledger, failed attempts included, with a ring that opens the stored data keys the lookup by run returns the plaintext last written to the exact run, else to the global scope, else nothing |
| VaultRuns.FoundRowReadsIff | connector/domain/secrets/secret_vault_read_service.py:111-130 | a stored row reads as what was last written there exactly when the ring opens its data key |
| VaultRuns.SoundRingOpensIff | connector/domain/secrets/secret_vault_read_service.py:149-163 | a ring of well-formed, distinct keys opens the store exactly when it has every wrapping key of the stored data keys |
| VaultRuns.RoundTripDocumented | connector/domain/secrets/secret_vault_read_service.py:39 | when no run id is empty, the exact run comes first, then the global entry |
| VaultRuns.RunNumbered | connector/infra/secrets/sqlite/schema.py:114-136 | after any run rows are numbered in the order of the first successful puts, and each keeps the run id of its first put |
| VaultRuns.PutSucceeds | connector/domain/secrets/secret_vault_write_service.py:82-114 | with a sound ring, supported algorithms and room to write, a put succeeds |
| VaultRuns.PutWritesItsFields | connector/domain/secrets/secret_vault_write_service.py:87-114 | each field of a successful put is what its scope holds afterwards |
| VaultRuns.PutWritesNothingElse | connector/domain/secrets/secret_vault_write_service.py:87-114 | no other scope is written |
| VaultReads.SqliteReadsNewest | connector/infra/secrets/sqlite/repository.py:131-200 | from any store: when the clocks of the secret's successful puts strictly increase, with a ring that opens the stored data keys the match-key lookup returns the plaintext last put for dataset, field and key in any run, and what it found at the start if the run put none; failed attempts may have any clock |
| VaultReads.ReadsLastPutIff | connector/infra/secrets/sqlite/repository.py:149-153 | from any store and whatever the clocks, the row of the last put is found exactly when under no other run the secret was put later, or at the same time after a later first put |
| VaultReads.LastPutRecorded | connector/domain/secrets/secret_vault_write_service.py:87-114 | the last put of a secret is what the ledger and the time stamps hold for its scope |
| VaultReads.RunStamped | connector/infra/secrets/sqlite/repository.py:90-95 | after any run each row carries the time of the last put into its scope |
| VaultReads.RunIgnored | connector/domain/secrets/secret_vault_read_service.py:93-110 | after one put bound to a run, the documented lookup without a run finds nothing and the match key finds the secret |
| VaultReads.TiedClockReadsOlder | connector/infra/secrets/sqlite/repository.py:152-153 | three puts in one tick: the last one wrote one value, the lookup reads that of the run that came in second |
| VaultReads.EmptyRunHidesGlobal | connector/infra/secrets/sqlite/schema.py:131-136 | after a put with an empty run id, what a put without one wrote is not found without one |
| VaultRuns.EnsureReadyIdempotent | connector/domain/secrets/vault_startup_guard.py:94-125 | after a success the vault is ready and a second check succeeds and writes nothing |
| VaultRuns.ReadyStays | connector/domain/secrets/vault_startup_guard.py:218-248 | a ready vault stays ready through every later operation, under its keyring and under every sound one that holds its keys |
| VaultRuns.ReadyStaysIff | connector/domain/secrets/vault_startup_guard.py:218-299 | after any later operations it is ready under a keyring exactly when that keyring opens the data key of the probe |
| Locator.NormalizeMapping | connector/domain/secrets/secret_locator_service.py:55-62 | the entries that say something, in key order |
| Locator.NormalizeValue | connector/domain/secrets/secret_locator_service.py:65-71 | the canonical value with the same content |
| Locator.FixedIffCanonical | connector/domain/secrets/secret_locator_service.py:45-81 | normalising is idempotent and leaves exactly the canonical values alone |
| Locator.NormIsCanonical | connector/domain/secrets/secret_locator_service.py:55-81 | no empty entry or item at any depth below the value, and keys in order |
| Locator.ViewRender | connector/domain/secrets/secret_locator_service.py:55-71 | content and canonical value determine each other |
| Locator.SameFormIffSameFields | connector/domain/secrets/secret_locator_service.py:55-81 | two references normalise alike exactly when they say the same under the same keys at every depth |
| Locator.KeyOrderIrrelevant | connector/domain/secrets/secret_locator_service.py:57 | the order of keys does not matter |
| Locator.EmptyEntryIrrelevant | connector/domain/secrets/secret_locator_service.py:59-60 | adding an entry whose value normalises to nothing does not matter |
| Locator.EmptyItemIrrelevant | connector/domain/secrets/secret_locator_service.py:68-70 | nor does an empty item anywhere in a list |
| Locator.InnerChangeIrrelevant | connector/domain/secrets/secret_locator_service.py:65-71 | replacing the value of an entry matters only through what the new value says |
| Locator.DeepChangeIrrelevant | connector/domain/secrets/secret_locator_service.py:65-71 | so does replacing a part at any path through dicts and lists |
| Locator.NoiseIrrelevant | connector/domain/secrets/secret_locator_service.py:55-71 | key order and empty entries and items do not matter at any depth |
| Locator.BuildLocatorHash | connector/domain/secrets/secret_locator_service.py:26-39 | the hash of version, dataset, field and canonical reference; another version raises |
| Locator.PayloadInjective | connector/domain/secrets/secret_locator_service.py:38 | names without a bar share their hashed text with no other names or reference, whatever those names hold |
| Locator.PayloadCollides | connector/domain/secrets/secret_locator_service.py:38 | with a bar, different fields can share a text |
| Locator.TextUniqueIff | connector/domain/secrets/secret_locator_service.py:38 | the texts of a dataset and field are theirs alone exactly when neither name holds a bar |
| Locator.NoJsonBehindBar | connector/domain/secrets/secret_locator_service.py:47-52 | no JSON text ends in a bar followed by JSON text |
| Locator.LocatorIdentifies | connector/domain/secrets/secret_locator_service.py:26-52 | a secret whose names hold no bar shares its locator exactly with the same dataset, field and references that say the same |
| StreamCapture.InteractiveIoGate.EnterSection | connector/common/interactive_io.py:44-45 | one more open section |
| StreamCapture.InteractiveIoGate.ExitSection | connector/common/interactive_io.py:49-50 | one fewer, never below zero |
| StreamCapture.StdStreamToLogger.Write | connector/delivery/cli/stream_capture.py:50-61 | complete lines are logged and the rest kept; nothing while the gate is active |
| StreamCapture.StdStreamToLogger.FlushBuffer | connector/delivery/cli/stream_capture.py:63-69 | the tail is logged or, while the gate is active, discarded |
| StreamCapture.EmitAllMeans | connector/delivery/cli/stream_capture.py:71-80 | each line that is not blank gives one entry, in order: the line without trailing white space, redacted |
| StreamCapture.SplitSpellsText | connector/delivery/cli/stream_capture.py:58-59 | the parts hold no newline and joined with newlines spell the text |
| StreamCapture.ChunkingIrrelevant | connector/delivery/cli/stream_capture.py:57-60 | any way of cutting a text into writes logs the same lines and leaves the same buffer |
| StreamCapture.CuttingsLogTheLines | connector/delivery/cli/stream_capture.py:50-69 | with a flush, exactly the lines of the whole text are logged |
| StreamCapture.BufferNeverKeepsNewline | connector/delivery/cli/stream_capture.py:58-60 | over any run of writes, flushes and sections the buffer never holds a newline |
| StreamCapture.OnlyVisibleTextIsLogged | connector/delivery/cli/stream_capture.py:54-67 | every logged line is a piece of the text written while the gate was inactive; order and number are in GatedLogExact |
| StreamCapture.GatedLogExact | connector/delivery/cli/stream_capture.py:50-69 | the log of any gated run is exactly the non-blank lines of the visible segments, in order, each once; a segment ends at a flush, which logs its tail, or at a hidden write or flush, which drops it |
| StreamCapture.SegmentsSpellVisible | connector/delivery/cli/stream_capture.py:54-61 | the segments joined are all of the text written while the gate was inactive |
| StreamCapture.HiddenTextDoesNotInterfere | connector/delivery/cli/stream_capture.py:54-56 | runs that differ only in non-empty text written while active end the same |
| StreamCapture.DepthCountsSections | connector/common/interactive_io.py:42-50 | the depth is the number of sections opened and not closed |
| ConfigMerge.DeepMerge | connector/config/loader.py:216-239 | target and trace after merging a source, in whatever order its keys come |
| ConfigMerge.MergeKey | connector/config/loader.py:228-239 | one key: sections recurse, leaves overwrite, unset values do nothing |
| ConfigMerge.MergeLayers | connector/config/loader.py:104-109 | config, environment and command line merged in this order |
| ConfigMerge.FullPathInjective | connector/config/loader.py:229 | full keys of paths without dots or empty keys identify the paths |
| ConfigMerge.LeavesTraced | connector/config/loader.py:104-109 | without dots or empty keys the trace of every merged leaf names its supplier |
| ConfigMerge.LeafTracedIff | connector/config/loader.py:104-109 | for any keys: every merged leaf has a trace, and it names the source that supplied the value exactly when no higher source has a leaf with the same full key |
| ConfigMerge.EmptyKeyMistraces | connector/config/loader.py:229 | an empty section name makes the trace of a config value name the environment |
| ConfigMerge.TraceExactIff | connector/config/loader.py:216-239 | without dots or empty keys the trace has exactly the merged leaves if and only if no set path is cut off by a source above its highest one |
| ConfigMerge.TraceExactIffKeysSurvive | connector/config/loader.py:216-239 | for any keys: the trace is exact if and only if every set path shares its full key with one that survives |
| ConfigMerge.ExactWithoutAgreement | connector/config/loader.py:231-239 | sources that disagree on a section can still leave an exact trace |
| ConfigMerge.AgreementKeepsAll | connector/config/loader.py:231-239 | where sources agree on which paths are sections, every set path survives |
| ConfigMerge.HighestPriorityWins | connector/config/loader.py:104-109 | a path is a leaf of the merged tree exactly when some source sets it and no source above the highest one that does cuts it off; it has that source's value |
| ConfigMerge.CutsMeans | connector/config/loader.py:231-237 | a source cuts a path off exactly when it has a section there or a leaf strictly above |
| ConfigMerge.MergedLeafIff | connector/config/loader.py:228-239 | one merge: a leaf comes from the source, or from the target where the source does not cut it off |
| ConfigMerge.StaleTraceEntry | connector/config/loader.py:231-239 | a concrete input whose trace keeps an entry without its leaf |
| ConfigMerge.DottedToNested | connector/config/loader.py:194-213 | the nested tree of the overrides, keys split at their dots, applied in order |
| ConfigMerge.SplitKeyMeans | connector/config/loader.py:201 | splitting a key gives dot-free parts that joined with dots spell it |
| ConfigMerge.SplitKeyIsFullPath | connector/config/loader.py:201-229 | a key is the full key of its split path exactly when it does not begin with a dot |
| ConfigMerge.SetAtElsewhere | connector/config/loader.py:205-212 | setting a path touches only the paths above and below it |
| ConfigMerge.OverridesLand | connector/config/loader.py:194-213 | for any list of overrides: a path holds a value exactly when an override set it there and no later set override is at, above or below it |
| Policies.PrimaryCodeMeans | connector/domain/diagnostics/policies.py:163-186 | the main code is one of the set, fatal exactly when any is, else DATA_INVALID, else CONFLICT, else the smallest value |
| Policies.FatalPriority | connector/domain/diagnostics/policies.py:175-181 | among fatal codes the fixed priority decides, then the smallest value |
| Policies.PrimaryOkIff | connector/domain/diagnostics/policies.py:171-186 | under the default policy the main code is OK exactly for no codes, OK alone, or OK with UNKNOWN_CODE |
| Policies.DefaultExitCode | connector/domain/diagnostics/policies.py:105-129 | the exit code as a function of the set of codes alone |
| Policies.DataProblemLowersExit | connector/domain/diagnostics/policies.py:105-129 | a data problem beside an infrastructure problem lowers the exit code from 2 to 1 |
| Policies.OkHidesUnknown | connector/domain/diagnostics/policies.py:163-186 | OK beside UNKNOWN_CODE lowers it from 2 to 0 |
| Policies.ByValueOrdered | connector/domain/diagnostics/policies.py:179 | the order used for ties is the order of the codes' string values |
| Policies.AscendingSorted | connector/usecases/import_apply_service.py:195 | the codes of a result come once each, in the order of their values |
| Policies.CommandResult.AddDiagnostics | connector/domain/diagnostics/command_result.py:36-39 | every diagnostic is kept with its code; on an unknown code in strict mode that diagnostic is kept without one and the rest is not reached |
| Policies.CommandResult.ExitZeroIff | connector/domain/diagnostics/command_result.py:44-54 | exit code 0 and `ok` differ exactly on OK with UNKNOWN_CODE |
| ImportApply.ImportApplyService.ProcessItem | connector/usecases/import_apply_service.py:226-312 | one item's increments by the executor's answer, and what it registers, for every way it can end; unknown codes in strict mode leave the handler |
| ImportApply.VerdictByAnswer | connector/usecases/import_apply_service.py:226-312 | an item counts as applied exactly when the executor accepted it and no side effect raised, fails under the diagnostic of its answer, and is fatal only for an executor that raised or refused with a fatal code |
| ImportApply.RefusalKeepsCode | connector/domain/diagnostics/policies.py:75-138 | through the sink's diagnostic and the catalog six system codes come back as themselves and all others as INFRA_UNAVAILABLE |
| ImportApply.FatalRefusals | connector/usecases/import_apply_service.py:278-292 | a refusal is fatal exactly with AUTH_UNAUTHORIZED or AUTH_FORBIDDEN |
| ImportApply.RetainedByAnswer | connector/usecases/import_apply_service.py:357-386 | retention counters are taken from exactly the accepted items whose side effects are done |
| ImportApply.ImportApplyService.ApplyItems | connector/usecases/import_apply_service.py:172-189 | counters and register agree with exactly the processed items |
| ImportApply.ImportApplyService.ApplyPlan | connector/usecases/import_apply_service.py:114-224 | the result is told by the answers of the processed items; it raises exactly without a dataset or when the loop reaches an item whose code is unknown |
| ImportApply.ResultByAnswers | connector/usecases/import_apply_service.py:172-224 | the whole result told by the items' answers: created and updated count the accepted ones, failed all others; each diagnostic is counted as often as it is told, the codes are those of the told diagnostics, and the k-th outcome is the k-th item that failed |
| ImportApply.AbortsAtIff | connector/usecases/import_apply_service.py:172-189 | the run ends in an exception exactly at the first item whose diagnostic a strict catalog does not know, unless the loop has ended before |
| ImportApply.RefusedCreateFails | connector/usecases/import_apply_service.py:278-292 | one create refused with CONFLICT: failed 1, SINK_CONFLICT once, exit code 1 |
| ImportApply.CommandResultOf | connector/delivery/commands/import_apply.py:300-303 | the command's result holds exactly the codes of the apply result, so its main code is the reported one |
| ImportApply.ItemProcessContext.AddOutcome | connector/usecases/import_apply_service.py:152-157 | an outcome is kept while there is room, else the drop is noted |
| ImportApply.ItemProcessContext.RegisterRetention | connector/usecases/import_apply_service.py:73-77 | counters are added key by key |
| ImportApply.ProcessedEnds | connector/usecases/import_apply_service.py:172-189 | processed items are a prefix ended by the plan's end, the action limit or, when asked, the first failure |
| ImportApply.ApplyAccounting | connector/usecases/import_apply_service.py:183-206 | created, updated and failed add up to the items processed exactly when every applied item is a create or an update |
| ImportApply.OutcomesAreFirstFailures | connector/usecases/import_apply_service.py:152-157 | the outcomes are the first failures up to the limit, truncated exactly when there were more |
| ImportApply.ExitZeroIff | connector/usecases/import_apply_service.py:191-195 | exit code 0 exactly when nothing failed or the failures' codes are OK alone or OK with UNKNOWN_CODE; with a catalog that never says OK, exactly when nothing failed |
| ImportApply.FatalMeansExitTwo | connector/usecases/import_apply_service.py:186 | a fatal item makes the exit code 2 whatever else failed |
| PyText.Sorted | connector/domain/dependency_tree/snapshot.py:102-107 | `sorted` on distinct strings: the ascending sequence of the set's members |
| PyText.StripIdempotent | connector/domain/secrets/secret_vault_read_service.py:209 | a stripped match key is unchanged by stripping again |
| PyText.StripKeeps | connector/domain/secrets/secret_vault_read_service.py:209 | stripping takes white space off both ends and nothing else |

## Left out

- `structural_signature`, node evidence, display names distinct from canonical names, and all trace, telemetry, logging and report sinks; sinks are taken never to raise.
- Real cryptography, SHA-256, UUIDs, clocks and JSON text: identifiers, times and data keys are parameters, the cipher is symbolic, `json.dumps` is taken to determine the normalised value.
- `graphlib`'s own algorithm: the cycle check is this project's Kahn sweep. Which order independent datasets take is not claimed, only that dependencies come first.
- The two worklists of the dependency graph are one method, since they differ only in the map they follow.
- Python's recursion limit for the anchoring search, locator normalisation and config merge.
- The anchoring sweep and the merge take their keys in any order; the order of a Python dict is not modelled there because the results do not depend on it.
- Anchoring.AnchorSourceNodes: which node of a cycle a verdict names depends on the order of visits and is not claimed, only that it lies on that cycle.
- Aliasing between nested configuration dicts, and the local dicts a loop passes to its helpers, which are values here.
- `_collect_env_overrides`, Pydantic validation and the trace of defaults.
- VaultStore.LookupsAgreeIff: locator versions other than v1 and rows written without their match key are not in its scope.
- VaultRuns.RoundTrip: concerns the lookup by run, which the port leaves to a backend and the SQLite store performs only without a match key; what the store does with one is VaultReads.SqliteReadsNewest.
- Key rotation, rewrap, unseal metadata and secret deletion.
- Threads and the gate's lock, `TeeStream`, and the log level dispatch.
- CacheRefresh.CacheRefreshUseCase.Refresh: the identity index written by the sync, the retry counters and the report context are not part of the state; the answers of `get_meta` are a parameter, tied to the LIKE pattern by `MetaLookup.IsLookup` where a lemma needs it; adapters are given per dataset, so the duplicate-name check is not modelled.
- CacheStore.CacheRepository.Upsert: a row is its text, its values under the unique indexes and whether its required values are there; column types are not modelled.
- MetaLookup.LookupExactIff: dataset names are taken to hold no dot and no percent sign and fact keys no dot; the order of the rows a query returns is left open.
- ImportApply.ImportApplyService.ApplyPlan: identity sync and retention hooks appear through their answers and counters, not through what they write; `skipped` is copied from the plan.
- Policies.ExitCodePolicy and RetryPolicy beyond the default mapping.
- Command wiring, prompts, presenters, containers, and the YAML, CSV, SQLite and HTTP layers.
