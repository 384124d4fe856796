# Habitat Builder: package graph, event server and identifiers

A Dafny model of the state-keeping core of Habitat's Builder services, with proofs about it.

- **The package graph.** The job server keeps a directed multigraph over short package names
  (`origin/name`), an edge from each dependency to the package that uses it. `extend` replaces
  the edges of a package when a newer identifier arrives and takes back every edge that closes a
  cycle; `check_extend` tries an extension out and undoes it; `rdeps` and `top` answer what has to
  be rebuilt, in which order, and which packages matter most. `PackageGraphs` and `TargetGraphs`
  hold the mutable classes. They work on node numbers, as the original does, and are proved
  against `GraphModel`, which works on names; `GraphTheorems`, `GraphHistory`,
  `GraphPermutations`, `GraphChecks` and `GraphQueries` prove what holds over whole histories.
  `JobPackages`, `Trials` and `TopEntries` hold the parts of the classes; `Digraph`, `EdgeLists`,
  `Petgraph` and `Rdeps` hold the graph theory and the graph algorithms, `Targets` the targets
  as they are written.
- **The order on identifiers.** `PackageIdents` models the comparison that decides which
  identifier is the latest. `IdentOrder` and `DigitStrings` say what it means in terms of the
  characters of both, and `VersionOrder` exactly when it is an order.
- **The event server.** `AsyncServer` is a state machine with one step per lock acquisition and
  one per critical section, for one dispatcher, a pool with any positive number of threads that
  serves its queue in order, and any number of callers. Events may finish, ask for a retry, fail
  or panic.
  `AsyncSafety`, `AsyncTheorems`, `AsyncLocks`, `AsyncGuards`, `AsyncCalls`, `AsyncEvents`,
  `AsyncOutcomes`, `AsyncStops` and `Backoff` prove properties of all of its runs; `AsyncRuns`,
  `AsyncInsertions`, `AsyncProgress` and `AsyncFailures` say which continuations there are.
- **Identifiers and tracking.** `PackedIds` models the 64-bit identifiers, `Migrations` the
  tracking of migrations per shard, `OriginIdents` the printed and listed identifiers.
  `IdentSearches` models the search for stored identifiers and `LikePatterns` the SQL patterns
  it goes through.

## Where the code and its promises differ

- `check_extend` leaves the names, the latest identifiers and the multiset of edges as they were,
  but it moves the edges into the package to the end, in reverse order. `CheckExtend` states the
  exact sequence; `ChecksInvisible` proves that no later extension can tell.
- For a brand new package `check_extend` always answers yes, and the extension then still takes
  back a dependency of the package on itself (`CheckPredictsExtend`).
- Versions are compared by their numbers where these can be read, and as strings otherwise. So
  `alpha10 < beta < beta9 < alpha10` (`VersionCircle`), and the latest identifier need not be a
  greatest one (`LatestOlderThanFirst`). `LatestGreatestIff` and `LatestGreatestByVersion` give the
  exact condition.
- The order of arrival can decide which dependencies survive (`FirstOfCycleWins`).
  `OrderIrrelevantIff` says for which packages it cannot, where the identifiers of every name can
  be ranked: if and only if the newest packages of a name, which may be several, agree in their
  identifiers and in their dependencies other than on themselves, and none of these is reachable
  from the name along declared dependencies.
- `FAILURE_COUNT_UPPER_BOUND` is a lower bound for the exponent of the backoff. The delay is what
  was drawn exactly up to 56 failures (`DelayExactIff`). Drawing panics if and only if there were
  64 failures in a row (`PanicsIff`), which every key can reach and none can exceed
  (`FailuresReachableIff`).
- A run can panic when it draws its delay, when it connects its client, and in its event. Its key
  then stays marked as running and never runs again (`PanickedForever`). A registered key is unable
  to run exactly when a run of it has panicked or is bound to by its count of failures
  (`CanStartIff`).
- A `schedule` that lands while a run of the key may still finish can be erased by that run
  (`ScheduleLost` has a whole run). An insertion is erased on no continuation before the next run
  of the key is taken up, if and only if there is no such run (`InsertKeptIff`). That alone does
  not promise a run: after a panic the entry stays for ever and in vain (`InsertedInVain`). An
  insertion stays, and a run can be reached all along, if and only if no run of the key may still
  finish, has panicked or is bound to (`InsertAssuredIff`).
- A run calls the callback that was last written for its key before the dispatcher picked it
  (`RunsLastWritten`); one that is registered later is not called by that run.
- The order on packed identifiers ignores the shard (`PartialCompareIgnoresShard`); on generated
  identifiers that makes no difference (`GeneratedOrder`).
- The search string of a fully qualified identifier has no closing slash, so longer releases start
  with it too (`SearchMatchesIff`, `SearchFindsLongerRelease`). The search string is also used as
  an SQL pattern without being escaped, although origins may have underscores: a search in `a_b`
  finds packages of `axb` (`SearchFindsOtherOrigin`). `FindsSelectedIff` and `FindsMatchesIff` give
  the exact conditions.
- Two migrations whose prefixes and content hashes agree count as one: the second is not executed
  (`AllExecutedIff`). Inserting a migration into the middle of a list leaves old and new shards
  different (`InsertionDiffers`).

## Model

| member | source | states |
|---|---|---|
| `Rdeps.ReverseDependencies` | components/builder-core/src/rdeps.rs:29-67 | fails exactly on cyclic graphs; otherwise lists everything reachable from the node except itself, each once, nothing before something it is reachable from; no index leaves the topological order |
| `Rdeps.CollectInOrder` | components/builder-core/src/rdeps.rs:50-64 | the loop without a bounds check ends inside the topological order and collects exactly the reached nodes in its order |
| `Rdeps.ReachableComesLater` | components/builder-core/src/rdeps.rs:52-64 | everything reachable from a node stands at or after it in every topological order |
| `Rdeps.Positions` | components/builder-core/src/rdeps.rs:44-48 | the map sends every node to its position in the order and holds nothing else |
| `Digraph.AcyclicIffNoClosedWalk` | components/builder-core/src/rdeps.rs:30-33 | that no edge closes a cycle, which is what the cycle test decides, is that no walk of one or more edges returns to its start |
| `Petgraph.TopoSort` | components/builder-core/src/rdeps.rs:36-40 | succeeds exactly on acyclic graphs, with an order of all nodes in which every edge points forward |
| `Petgraph.IsCyclic` | components/builder-core/src/rdeps.rs:30-33 | answers whether some edge closes a cycle |
| `Petgraph.Bfs` | components/builder-core/src/rdeps.rs:42 | visits exactly the reachable nodes, each once |
| `Petgraph.TopoReach` | components/builder-core/src/rdeps.rs:50-64 | reachability never points backward in a topological order |
| `Petgraph.TopoAcyclic` | components/builder-core/src/rdeps.rs:35-40 | a graph that has a topological order is acyclic |
| `EdgeLists.FindEdge` | components/builder-core/src/package_graph.rs:137 | finds the newest of parallel edges, and fails only when there is none |
| `EdgeLists.RemoveEdge` | components/builder-core/src/package_graph.rs:139 | removes one copy of the edge and no other |
| `EdgeLists.RemoveNewest` | components/builder-core/src/package_graph.rs:136-140 | looking up the first incoming neighbour finds its newest edge; removing it drops that neighbour and leaves the edges into other nodes alone |
| `EdgeLists.Detach` | components/builder-core/src/package_graph.rs:131-140 | removing the edges one by one never fails, removes exactly those into the node, parallel ones included, and saves their sources newest first |
| `EdgeLists.Undo` | components/builder-core/src/package_graph.rs:170-174 | taking back the tried edges by lookup restores the graph as it was before them, parallel edges included |
| `EdgeLists.Attach` | components/builder-core/src/package_graph.rs:176-178 | puts the saved edges back, in the order they were saved |
| `EdgeLists.SplitMultiset` | components/builder-core/src/package_graph.rs:131-178 | taking out the edges into a node and attaching them again keeps every edge with its multiplicity |
| `Trials.AddUnlessCyclic` | components/builder-core/src/package_graph.rs:221-231 | the new edge stays exactly when the graph is acyclic with it; a rollback restores the graph, even next to a parallel edge |
| `Trials.TryDependencies` | components/builder-core/src/package_graph.rs:142-168 | the trial adds an edge per known dependency and breaks off exactly at the first that the package reaches |
| `Trials.Trial` | components/builder-core/src/package_graph.rs:131-178 | after trial and undo the edges are the old ones with those into the package at the end; it broke off at the first known dependency that depends on the package |
| `Trials.TrialAnswer` | components/builder-core/src/package_graph.rs:119-181 | what the trial left and where it stopped mean, over names, the checked state and the answer of the check |
| `TopEntries.Drain` | components/builder-core/src/package_graph.rs:331-336 | popping a heap of all packages up to `max` times gives a top list |
| `TopEntries.DrainedIsTop` | components/builder-core/src/package_graph.rs:331-339 | what greatest-first popping yields is distinct, sorted, as long as possible, and beaten by nothing left in the heap |
| `PackageGraphs.PackageGraph.constructor` | components/builder-core/src/package_graph.rs:73-81 | a new graph is empty and satisfies the invariant |
| `PackageGraphs.PackageGraph.GenerateId` | components/builder-core/src/package_graph.rs:83-104 | the name gets a node if it had none, id and node agree and carry the name, edges and latest identifiers stay, and the maps remain inverse to each other |
| `PackageGraphs.PackageGraph.Build` | components/builder-core/src/package_graph.rs:106-117 | building is folding the extensions over the packages in order; the counts are those of the result; dependencies of outdated packages need not be readable |
| `PackageGraphs.PackageGraph.CheckExtend` | components/builder-core/src/package_graph.rs:119-181 | answers yes exactly when no known dependency already depends on the package, leaves exactly the checked state, keeps the invariant, and on a no names the first offending dependency |
| `PackageGraphs.PackageGraph.Prepare` | components/builder-core/src/package_graph.rs:192-214 | an identifier older than the latest changes nothing; any other becomes the latest and all edges of its predecessor are removed |
| `PackageGraphs.PackageGraph.AddDependency` | components/builder-core/src/package_graph.rs:218-232 | one dependency is interned and its edge added unless that makes the graph cyclic |
| `PackageGraphs.PackageGraph.AddDependencies` | components/builder-core/src/package_graph.rs:216-234 | the loop adds the dependencies one after the other, each judged on the graph with the ones before it |
| `PackageGraphs.PackageGraph.Extend` | components/builder-core/src/package_graph.rs:183-237 | an extension over node numbers is the extension over names, keeps the graph acyclic and the maps inverse, and returns the counts |
| `PackageGraphs.PackageGraph.Rdeps` | components/builder-core/src/package_graph.rs:239-259 | none exactly for unknown names; otherwise all dependents in rebuild order, each with its latest identifier, which always exists; the panic is unreachable |
| `PackageGraphs.ResolvesToGiven` | components/builder-core/src/package_graph.rs:294-301 | after any stream of packages a name resolves exactly if a package of that name came, and then to the identifier of its winning package, letter by letter as it was given |
| `PackageGraphs.PackageGraph.Top` | components/builder-core/src/package_graph.rs:312-339 | the `min(max, nodes)` packages with the most dependents, distinct, in non-increasing order, with their exact numbers of dependents; the panic is unreachable |
| `GraphTheorems.AddDepEdges` | components/builder-core/src/package_graph.rs:218-232 | whether a dependency is kept depends only on the edges that do not come from this extension |
| `GraphTheorems.AddDepsEdges` | components/builder-core/src/package_graph.rs:216-234 | an extension keeps exactly the dependencies the package does not reach, in order, and stays acyclic |
| `GraphTheorems.AddDepsNames` | components/builder-core/src/package_graph.rs:216-234 | all dependencies become nodes, rolled back or not; no name gets two nodes, and no latest identifier changes |
| `GraphTheorems.PreparedEdges` | components/builder-core/src/package_graph.rs:192-214 | before its dependencies are added no edge into the package is left, whichever branch was taken |
| `GraphTheorems.ExtendEdges` | components/builder-core/src/package_graph.rs:192-234 | closed form of all edges after an extension |
| `GraphTheorems.ExtendInv` | components/builder-core/src/package_graph.rs:183-237 | an extension keeps the graph acyclic, names distinct, and every node with incoming edges in the latest map |
| `GraphTheorems.CheckedPure` | components/builder-core/src/package_graph.rs:131-178 | a check keeps the multiset of edges, the names and the latest identifiers |
| `GraphTheorems.CheckedInv` | components/builder-core/src/package_graph.rs:119-181 | a check keeps the invariant |
| `GraphTheorems.RunInv` | components/builder-core/src/package_graph.rs:119-237 | after every sequence of extensions and checks from the empty graph the invariant holds, so the graph is acyclic |
| `GraphTheorems.BuildInv` | components/builder-core/src/package_graph.rs:106-117 | every built graph satisfies the invariant |
| `GraphHistory.RolledBackIff` | components/builder-core/src/package_graph.rs:221-231 | a dependency is taken back exactly when it already depends on the package |
| `GraphHistory.CheckPredictsExtend` | components/builder-core/src/package_graph.rs:119-234 | the extension takes back exactly the dependencies that close a cycle; for a known package the check says yes exactly when nothing is taken back; for a new one it says yes and only self-dependencies are taken back |
| `GraphHistory.FirstRollback` | components/builder-core/src/package_graph.rs:146-168 | the first dependency an extension takes back is the one where the check broke off |
| `GraphHistory.ExtendSources` | components/builder-core/src/package_graph.rs:192-234 | an extension replaces the dependencies of its own package and of no other |
| `GraphHistory.ExtendLatest` | components/builder-core/src/package_graph.rs:192-214 | an extension sets the latest identifier of its own package unless skipped, and no other |
| `GraphHistory.LatestFromWinner` | components/builder-core/src/package_graph.rs:192-214 | the latest identifier of a name is that of the last package for it that was not skipped |
| `GraphHistory.EdgesFromWinner` | components/builder-core/src/package_graph.rs:192-234 | the dependencies of a name are those of that same package less the ones taken back then; nothing is left of superseded identifiers |
| `GraphHistory.WinnerExists` | components/builder-core/src/package_graph.rs:192-214 | a name that was ever extended has such a package |
| `GraphHistory.WinnerIsGreatest` | components/builder-core/src/package_graph.rs:192-207 | when the identifiers can be ranked it is a greatest one, and the last among equals |
| `GraphHistory.LatestGreatestIff` | components/builder-core/src/package_graph.rs:192-207 | in every history over a set of identifiers the latest one is a greatest one, if and only if the comparison ranks the set |
| `GraphHistory.LatestGreatestByVersion` | components/builder-core/src/package_graph.rs:192-207 | for identifiers of one name, whatever their versions and releases, the same if and only if identifiers with a version between theirs, comparable to both only as strings, are in that order |
| `GraphHistory.LatestRelease` | components/builder-core/src/package_graph.rs:192-207 | of packages with one version the latest has a release that no other one follows, character by character |
| `GraphHistory.LatestVersion` | components/builder-core/src/package_graph.rs:192-207 | of packages whose versions consist of readable numbers none has a version that comes after that of the latest, number by number and then by extension |
| `GraphHistory.LastOfThree` | components/builder-core/src/package_graph.rs:192-207 | three identifiers on a circle end with the last one, however it compares with the first |
| `GraphHistory.LatestOnCircle` | components/builder-core/src/package_graph.rs:192-207 | for versions on a circle, three packages whose latest identifier is older than the first |
| `GraphHistory.LatestOlderThanFirst` | components/builder-core/src/package_graph.rs:192-207 | beta, then beta9, then alpha10 leave alpha10 as the latest, which is older than beta |
| `GraphPermutations.KeepAll` | components/builder-core/src/package_graph.rs:221-231 | nothing is taken back when all declared dependencies together are acyclic |
| `GraphPermutations.UsesDeclared` | components/builder-core/src/package_graph.rs:216-234 | every edge was declared by some package |
| `GraphPermutations.SourcesOfWinner` | components/builder-core/src/package_graph.rs:183-237 | with acyclic declarations the dependencies of a name are exactly the declared ones of its winning package |
| `GraphPermutations.SameWinner` | components/builder-core/src/package_graph.rs:192-207 | the winning package does not depend on the order of arrival when identifiers are strictly ranked |
| `GraphPermutations.OrderIrrelevantIff` | components/builder-core/src/package_graph.rs:106-117 | for packages whose identifiers can be ranked name by name, ties and repetitions included, every permutation builds the same latest map, dependencies and multiset of edges, if and only if the newest packages of a name agree in identifier and dependencies, itself left out, and none of these dependencies is reachable from the name along declared dependencies |
| `GraphPermutations.SettledSources` | components/builder-core/src/package_graph.rs:183-237 | under that condition every name has exactly the dependencies of its winning package, itself left out |
| `GraphPermutations.LastWins` | components/builder-core/src/package_graph.rs:192-207 | a newest package wins when it is given after all others of its name |
| `GraphPermutations.LastDecides` | components/builder-core/src/package_graph.rs:192-234 | each of several newest packages has an order in which the graph gets its identifier and its dependencies, if none of these is reachable from it |
| `GraphPermutations.EarlyKeeps` | components/builder-core/src/package_graph.rs:216-234 | there is always an order in which a newest package keeps a dependency other than on itself |
| `GraphPermutations.LateLoses` | components/builder-core/src/package_graph.rs:221-231 | if the dependency is reachable from it, there is an order in which it loses it |
| `GraphPermutations.BuildPermutation` | components/builder-core/src/package_graph.rs:106-117 | in particular, for packages told apart by their identifiers and with acyclic declarations every permutation builds the same graph |
| `GraphPermutations.FirstOfCycleWins` | components/builder-core/src/package_graph.rs:216-234 | of two packages that depend on each other the first to arrive keeps its dependency and the second loses it |
| `GraphChecks.ExtendSame` | components/builder-core/src/package_graph.rs:183-237 | extensions do not depend on the order in which edges are stored |
| `GraphChecks.ChecksInvisible` | components/builder-core/src/package_graph.rs:119-237 | dropping all checks from any sequence of calls leaves names, latest identifiers and the multiset of edges the same |
| `GraphQueries.ReachedIsLatest` | components/builder-core/src/package_graph.rs:246-250 | everything `rdeps` can return has a latest identifier |
| `GraphQueries.DependentsCount` | components/builder-core/src/package_graph.rs:319-325 | the length of the answer of `rdeps` is the number of dependents |
| `GraphQueries.NameReverseDeps` | components/builder-core/src/package_graph.rs:242-251 | an answer over node numbers is an answer over names |
| `GraphQueries.DependentsFall` | components/builder-core/src/package_graph.rs:319-325 | numbers of dependents fall strictly along dependencies |
| `GraphQueries.TopListClosed` | components/builder-core/src/package_graph.rs:312-339 | a top list is dependency-closed: everything a listed package depends on stands before it |
| `TargetGraphs.TargetGraph.constructor` | components/builder-core/src/target_graph.rs:33-45 | an empty graph each for 64-bit Linux and Windows |
| `TargetGraphs.TargetGraph.GraphMut` | components/builder-core/src/target_graph.rs:61-73 | the Linux graph exactly for texts that are `x86_64`, a dash and `linux`, in any case and with white space around either, the Windows graph likewise for `windows`, and none for any other text |
| `TargetGraphs.TargetGraph.Add` | components/builder-core/src/target_graph.rs:79-86 | a package extends the Linux graph exactly if its target is written `x86_64-linux` in that sense, the Windows graph if it is written `x86_64-windows`, and changes nothing otherwise |
| `TargetGraphs.TargetGraph.Build` | components/builder-core/src/target_graph.rs:75-101 | each graph ends as if only the packages of its target had been given, in order; the counts are reported per target |
| `TargetGraphs.TargetGraph.Stats` | components/builder-core/src/target_graph.rs:88-100 | one pair of counts per supported target |
| `TargetGraphs.ForTargetNames` | components/builder-core/src/target_graph.rs:79-86 | the packages sorted into a graph are those on which its target is written |
| `Targets.TargetIff` | components/core/src/package/target.rs:109-121 | which texts read as which target: two pieces around one dash, `x86_64` and the name of the platform, up to case and surrounding white space |
| `Targets.UsualTargets` | components/core/src/os/system/mod.rs:79-90 | the three targets are read as they are usually written |
| `TargetGraphs.StepsOfTarget` | components/builder-core/src/target_graph.rs:79-86 | an interleaved stream acts on a target like its own packages alone |
| `PackageIdents.SortVersions` | components/core/src/package/ident.rs:296-354 | the loop over two iterators computes the comparison by zero-padded numbers, then by extension, and fails exactly on an unreadable number reached before a difference |
| `PackageIdents.PrintParsed` | components/core/src/package/ident.rs:141-185 | what parses as an identifier prints as it was |
| `PackageIdents.ParsesIff` | components/core/src/package/ident.rs:171-185 | a text parses as an identifier exactly if it is its two, three or four slash-free components with slashes between them |
| `IdentOrder.OlderIff` | components/core/src/package/ident.rs:187-249 | what it takes to be older: equal names; a missing version before a given one, then a missing release; an earlier version by numbers and extension, or as strings where a needed number cannot be read; with versions of the same rank the release that is smaller at the first character that differs |
| `IdentOrder.OlderRelease` | components/core/src/package/ident.rs:225 | with one version the releases decide, at the first character that differs |
| `IdentOrder.SplitIff` | components/core/src/package/ident.rs:356-375 | the parts of a version are what stands between the dots of its first run of digits and dots, the extension is the rest of the line less a leading dash |
| `IdentOrder.NumbersIff` | components/core/src/package/ident.rs:296-330 | the first position at which the numbers differ decides, missing ones being zero, if all up to there can be read |
| `DigitStrings.DecimalOrder` | components/core/src/package/ident.rs:303-325 | numbers compare by their highest differing digit, however many zeros come first |
| `DigitStrings.ReadableIff` | components/core/src/package/ident.rs:303-313 | a part can be read exactly if it is digits that stand for less than 2^64 |
| `DigitStrings.BeforeIff` | components/core/src/package/ident.rs:225-246 | strings compare by the first character that differs, a beginning coming first |
| `PackageIdents.CompareVersionsSwap` | components/core/src/package/ident.rs:219-247 | comparing versions the other way round gives the opposite answer |
| `PackageIdents.OlderAsymmetric` | components/core/src/package/ident.rs:187-249 | no two identifiers are older than each other |
| `VersionOrder.VersionsRankIff` | components/core/src/package/ident.rs:296-354 | any versions can be ranked if and only if, where a version stands as a string between two without being comparable to them by numbers, these two are in that order |
| `VersionOrder.SortedChain` | components/core/src/package/ident.rs:296-354 | versions in order by numbers, one after the other, can be compared by numbers and are in order, even next to unreadable numbers |
| `VersionOrder.BetweenNumbered` | components/core/src/package/ident.rs:356-375 | where all numbers can be read, what stands so between two versions is a digit-less one between two numbered ones |
| `VersionOrder.IdentsRank` | components/core/src/package/ident.rs:187-249 | identifiers of one name, partial ones included, are ranked when their versions are |
| `VersionOrder.IdentsRankIff` | components/core/src/package/ident.rs:187-249 | identifiers of one name, with any versions and releases and partial ones included, can be ranked if and only if their versions agree in that sense |
| `VersionOrder.VersionCircle` | components/core/src/package/ident.rs:226-246 | three versions each less than the next, in a circle |
| `Backoff.DelayExactIff` | components/builder-db/src/async.rs:157-169 | every draw from the `2^max(n, 10)` slots gives a delay of 100 ms per slot without overflow or sign change, if and only if there were at most 56 failures |
| `AsyncSafety.ExclusiveStep` | components/builder-db/src/async.rs:123-224 | every step keeps at most one run per key and the running set in line with runs and dispatcher |
| `AsyncSafety.RegisteredStep` | components/builder-db/src/async.rs:72-108 | every step keeps scheduled, picked and submitted keys registered, so the lookup in `schedule` never fails |
| `AsyncSafety.KeptStep` | components/builder-db/src/async.rs:129-148 | every step keeps pending keys in the retry map or in the running set |
| `AsyncSafety.HonouredStep` | components/builder-db/src/async.rs:72-224 | every step keeps a key that is owed a run in the retry map, with the dispatcher or queued, and out of reach of a finishing run |
| `AsyncSafety.CountedStep` | components/builder-db/src/async.rs:130-164 | every step keeps the failure counts equal to the failures since the last finish |
| `AsyncTheorems.RunInv` | components/builder-db/src/async.rs:59-225 | all five invariants hold in every state of every run |
| `AsyncTheorems.ReachableInv` | components/builder-db/src/async.rs:59-225 | all five invariants hold in every reachable state |
| `AsyncTheorems.OneRunPerKey` | components/builder-db/src/async.rs:197-219 | in every reachable state a key has at most one run queued or executing, is marked running exactly when it has one or one is about to be submitted, and runs never outnumber registered keys |
| `AsyncTheorems.WithinPool` | components/builder-db/src/async.rs:183-191 | in every state of every run the pool works on no more runs than it has threads |
| `AsyncTheorems.ServedInOrder` | components/builder-db/src/async.rs:183-219 | runs are taken up in the order in which they were submitted |
| `AsyncTheorems.KeptUntilErased` | components/builder-db/src/async.rs:72-149 | from any state in which a key is in the retry map until a run of it takes its erasing step, it is in the retry map or running |
| `AsyncOutcomes.NoEventDropped` | components/builder-db/src/async.rs:72-149 | a key that was in the retry map and is now neither there nor running was erased in between by a run whose event returned `Finished` |
| `AsyncOutcomes.ErasedByFinish` | components/builder-db/src/async.rs:129-138 | whichever run erases a key, its event returned `Finished` before, in the same run |
| `AsyncOutcomes.NotErased` | components/builder-db/src/async.rs:139-146 | a run whose event returned `Retry` or failed never erases its key |
| `AsyncOutcomes.PutBackAfter` | components/builder-db/src/async.rs:139-173 | whatever others do, after fewer than 63 failures in a row it puts its own event back with the fifth step it takes, with its failure counted |
| `AsyncOutcomes.PutBackAlone` | components/builder-db/src/async.rs:139-173 | where nobody else holds the two locks, it does so by its own steps alone, for the time of any possible draw |
| `AsyncTheorems.InsertLeadsToRun` | components/builder-db/src/async.rs:72-108 | an insertion while no run may finish stays in the retry map, with the dispatcher or queued until a new run starts |
| `AsyncInsertions.InsertKeptIff` | components/builder-db/src/async.rs:72-138 | from every reachable state, an insertion is on every continuation on its way until a new run of the key is taken up, if and only if no run of the key was under way that might still finish |
| `AsyncInsertions.InsertAssuredIff` | components/builder-db/src/async.rs:72-224 | it is so, and a prompt continuation that calls the event of the key exists all along, short of a stop, if and only if besides no run of the key has panicked or is bound to |
| `AsyncInsertions.InsertionErased` | components/builder-db/src/async.rs:130-138 | from every reachable insertion beside such a run, a continuation without a new run in which the key is gone |
| `AsyncInsertions.ScheduleLost` | components/builder-db/src/async.rs:72-149 | for every key, a whole run from the start in which a `schedule` takes effect and is lost: register, hand out, start, schedule, finish |
| `AsyncRuns.EraseRun` | components/builder-db/src/async.rs:130-138 | a run that may still finish can erase its key by its own steps whenever nobody else holds the retry map or the failure counts |
| `AsyncTheorems.PanickedForever` | components/builder-db/src/async.rs:123-173 | the key of a run that panicked, at the draw, connecting or in its event, stays in the running set and no run of it is ever taken up again; one that panicked at the draw had 64 failures in a row |
| `AsyncProgress.CanStartIff` | components/builder-db/src/async.rs:123-224 | in every reachable state with a dispatcher that was not stopped, whatever the number of threads and the queue before them, some prompt continuation calls the event of a registered key if and only if no run of it has panicked or is bound to by its count of failures |
| `AsyncProgress.ScheduledCanStart` | components/builder-db/src/async.rs:110-224 | a scheduled event is never stuck, short of such a run |
| `AsyncProgress.HopelessForever` | components/builder-db/src/async.rs:123-219 | once a run of a key has panicked or is bound to, no continuation takes up a run of it |
| `AsyncProgress.FreeThreads` | components/builder-db/src/async.rs:123-148 | from every quiet reachable state all threads of the pool can be given back |
| `AsyncProgress.ServeQueue` | components/builder-db/src/async.rs:183-219 | with its threads free the pool can get to a queued run through all the runs queued before it |
| `AsyncProgress.CalmDown` | components/builder-db/src/async.rs:72-219 | from every reachable state all threads can leave their critical sections |
| `AsyncFailures.FailsInARow` | components/builder-db/src/async.rs:139-173 | from the start, any key can fail any number of times in a row up to 64 |
| `AsyncFailures.PanicReached` | components/builder-db/src/async.rs:165-167 | the 64th failure in a row can be reached, and panics |
| `AsyncFailures.InsertedInVain` | components/builder-db/src/async.rs:98-173 | for every key, a run from the start after which an insertion of it is never erased and never followed by a call of its event |
| `AsyncFailures.FailuresReachableIff` | components/builder-db/src/async.rs:151-173 | a key can have n failures in a row, in some reachable state, if and only if n is at most 64 |
| `AsyncLocks.StepStands` | components/builder-db/src/async.rs:72-219 | a step changes the locks of the acting thread only, and gains only what that thread waited for |
| `AsyncGuards.WritesGuarded` | components/builder-db/src/async.rs:72-219 | a shared collection is changed only by a thread that holds its lock for writing |
| `AsyncGuards.NoDataRace` | components/builder-db/src/async.rs:47-50 | in every reachable state, while a thread holds a lock nobody else changes what it guards |
| `AsyncGuards.ReadsGuarded` | components/builder-db/src/async.rs:72-219 | what a thread does, and whether it can, does not depend on collections whose locks it does not hold |
| `AsyncCalls.RegisterWrites` | components/builder-db/src/async.rs:95-108 | whatever happens in between, a call of `register` makes its callback the registered one with its second step and puts it up for running at once with its fourth |
| `AsyncCalls.ScheduleDecides` | components/builder-db/src/async.rs:72-84 | a call of `schedule` goes on to insert exactly if the key was registered when it looked and is not in the retry map when it looks there |
| `AsyncCalls.ScheduleInserts` | components/builder-db/src/async.rs:84-92 | it then inserts, for the current time, the callback it finds in its second look, which is there |
| `AsyncStops.StopEnds` | components/builder-db/src/async.rs:184-195 | after a stop the dispatcher takes a bounded number of steps more, at most eight per event it holds or thread it may count, and one to leave |
| `AsyncStops.ExitedForever` | components/builder-db/src/async.rs:186-189 | once it has left, no run is submitted any more |
| `AsyncStops.PicksFit` | components/builder-db/src/async.rs:110-121 | the dispatcher picks no more events than there were free threads when it counted them before |
| `AsyncLocks.LocksExclude` | components/builder-db/src/async.rs:47-50 | in every state of every run no two threads hold clashing accesses to a lock |
| `AsyncLocks.NestedWait` | components/builder-db/src/async.rs:132-135 | a thread that waits while holding a lock waits for the failure counts, and who holds those waits for nothing |
| `AsyncLocks.NoDeadlock` | components/builder-db/src/async.rs:72-219 | in every reachable state, for every unfinished thread, it or a thread that holds a lock can take a step |
| `AsyncLocks.NoDeadlockPreferringWriters` | components/builder-db/src/async.rs:72-219 | the same for locks that hold readers back behind a waiting writer |
| `AsyncLocks.QueueMoves` | components/builder-db/src/async.rs:183-219 | in every reachable state with a queued run, a queued run can be taken up, or the pool is busy and an unfinished thread can take a step |
| `AsyncEvents.RunsLastWritten` | components/builder-db/src/async.rs:72-219 | a run that is taken up calls the callback last written for its key, by a call or a failed run, before the dispatcher picked it; nothing erased or overwrote it in between |
| `AsyncEvents.PickedBefore` | components/builder-db/src/async.rs:110-219 | every event that is with the dispatcher or in the pool was picked by the dispatcher before |
| `AsyncEvents.CallbacksRegistered` | components/builder-db/src/async.rs:72-149 | only callbacks registered for a key are ever scheduled, handed out or run for it |
| `AsyncEvents.DrawInWindow` | components/builder-db/src/async.rs:165-169 | after n failures, at most 56, a draw can give exactly the slots below `2^max(n, 10)`, and the next try is due 100 ms per slot from now |
| `AsyncEvents.DrawsExactly` | components/builder-db/src/async.rs:157-169 | the same in every run, for the failures since the last finish |
| `AsyncEvents.DrawWraps` | components/builder-db/src/async.rs:165-169 | from 57 to 63 failures any slot below `2^n` can be drawn, and the delay is the product wrapped around to a signed 64-bit number |
| `AsyncEvents.PanicsIff` | components/builder-db/src/async.rs:157-167 | drawing after a counted failure panics if and only if there were at least 64 failures since the last finish |
| `AsyncEvents.FailedEventHeld` | components/builder-db/src/async.rs:165-172 | up to 63 failures the run keeps its event and the drawn time until it puts them back |
| `AsyncEvents.FailedEventPutBack` | components/builder-db/src/async.rs:165-172 | what it puts back is that event with that time |
| `AsyncEvents.FailedEventDelayed` | components/builder-db/src/async.rs:151-173 | whatever runs in between, the failed event is put back with its own callback and the time of the draw plus 100 ms for each of fewer than `2^max(n, 10)` slots, n being the failures since its last finish |
| `AsyncEvents.NotBeforeItsTime` | components/builder-db/src/async.rs:110-121 | an event is not picked before the time it was scheduled for, unless it was put up again |
| `PackedIds.PackSum` | components/builder-protocol/src/sharding.rs:39-47 | the fields do not overlap; a time beyond 41 bits loses its upper bits |
| `PackedIds.UnpackPack` | components/builder-protocol/src/sharding.rs:56-66 | counter, shard and time modulo 2^41 are read back from what was packed |
| `PackedIds.DecodeGenerate` | components/builder-protocol/src/sharding.rs:39-66 | counter and shard always decode from a generated identifier, the time if and only if it fits 41 bits |
| `PackedIds.PartialCompareIgnoresShard` | components/builder-protocol/src/sharding.rs:95-107 | less, greater and unordered exactly as the numbers above the shard bits are less, greater and equal |
| `PackedIds.GeneratedOrder` | components/builder-protocol/src/sharding.rs:95-107 | on generated identifiers less and greater are those of the numbers, without an answer exactly for equal ones |
| `PackedIds.NextIdNonNegative` | components/builder-db/src/migration.rs:107-120 | the signed identifier is non-negative exactly in the first 2^40 of every 2^41 milliseconds |
| `PackedIds.NextIdCollides` | components/builder-db/src/migration.rs:107-120 | two identifiers are equal exactly when shard, time modulo 2^41 and sequence value modulo 1024 are |
| `PackedIds.SequenceCollides` | components/builder-db/src/migration.rs:107-120 | whatever the clock does, two identifiers of a sequence are equal exactly when the calls are a multiple of 1024 apart and the clock shows the same time modulo 2^41 |
| `PackedIds.SequenceDistinctIff` | components/builder-db/src/migration.rs:107-120 | the identifiers of a sequence are pairwise distinct if and only if no millisecond saw more than 1024 calls |
| `PackedIds.ShardsDistinct` | components/builder-db/src/migration.rs:107-120 | identifiers of different shards never collide |
| `Migrations.Start` | components/builder-originsrv/src/data_store.rs:72-91 | starting a service is all or nothing: a refusal leaves the database as it was; otherwise each shard it is configured with, new or as it was before, has run the list, and all others are as they were |
| `Migrations.Migrator.Migrate` | components/builder-db/src/migration.rs:173-199 | the shards before the first refusal execute the statement, and track its prefix and the hash of the statement, unless that row is there already; no others change; a refusal comes from a shard that had not run the migration |
| `Migrations.MigrateAllAt` | components/builder-db/src/migration.rs:176-196 | every listed shard is migrated once however often it is listed, and no other is touched |
| `Migrations.MigrateListAt` | components/builder-db/src/migration.rs:173-199 | a list of migrations acts on every shard by itself |
| `Migrations.FreshShard` | components/builder-db/src/migration.rs:185-195 | a new shard executes a list without repetitions, in order, and tracks just that, for every hash function |
| `Migrations.AllExecutedIff` | components/builder-db/src/migration.rs:202-210 | a new shard executes everything in a list if and only if no two different migrations of it have the same prefix and statements of the same hash |
| `Migrations.SkipsIff` | components/builder-db/src/migration.rs:173-210 | a shard that ran a list skips a migration exactly if one in the list had the same prefix and a statement of the same hash, and executes it after all others otherwise |
| `Migrations.RunListsIsHistory` | components/builder-db/src/migration.rs:173-199 | running lists one after the other is running their concatenation |
| `Migrations.LateShardMatchesIff` | components/builder-db/src/migration.rs:173-199 | an old shard ends like a new one if and only if what it had executed is a beginning of what the list executes |
| `Migrations.MigrationsConverge` | components/builder-db/src/migration.rs:173-199 | while the list only grows every shard holds it without repetitions, in order, whenever it joined, and running it again changes nothing |
| `Migrations.EditedListIff` | components/builder-db/src/migration.rs:173-199 | with lists free of repetitions old and new shards agree if and only if the list was only appended to |
| `Migrations.InsertionDiffers` | components/builder-db/src/migration.rs:173-199 | inserting before the last migration always makes old and new shards differ |
| `Migrations.ShardsConverge` | components/builder-db/src/migration.rs:58-80 | over any history of releases with growing lists and any shards coming, going and returning, every shard is like one created for the release that last touched it |
| `OriginIdents.Parse` | components/builder-protocol/src/originsrv.rs:715-743 | setting the fields one by one gives the first four slash-separated components, missing and empty ones unset |
| `OriginIdents.ParseDisplayIff` | components/builder-protocol/src/originsrv.rs:675-743 | printing and parsing give an identifier back if and only if no component has a slash and a release comes with a version |
| `OriginIdents.DisplayParseDisplay` | components/builder-originsrv/src/data_store.rs:1693-1694 | a printed identifier prints the same after parsing, even if its release was not printed |
| `OriginIdents.IntoDelimited` | components/builder-originsrv/src/data_store.rs:1297-1303 | the buffer holds the printed identifiers in order, each closed by a colon |
| `OriginIdents.IntoIdents` | components/builder-originsrv/src/data_store.rs:1313-1324 | the identifiers of the non-empty pieces in order |
| `OriginIdents.ListRoundTripIff` | components/builder-originsrv/src/data_store.rs:1297-1324 | a list is read back as it was written if and only if no component has a slash or a colon and releases come with versions |
| `OriginIdents.DependencyStrings` | components/builder-originsrv/src/data_store.rs:1690-1697 | the strings sent to the job server are the printed forms of the parsed non-empty pieces |
| `OriginIdents.SyncSendsDependencies` | components/builder-originsrv/src/data_store.rs:1690-1697 | for a column written from identifiers without slashes and colons these are the identifiers as printed, in order |
| `JobPackages.ShortNameIs` | components/builder-core/src/package_graph.rs:58-62 | the short name is what comes before the second slash |
| `JobPackages.HasShortNameIff` | components/builder-core/src/package_graph.rs:58-62 | the assertion on short names holds exactly for texts with a slash |
| `OriginIdents.PrintedShortName` | components/builder-core/src/package_graph.rs:58-62 | a printed identifier with slash-free components meets the assertion on short names and is filed under its origin and name |
| `IdentSearches.SearchableIdent` | components/builder-originsrv/src/data_store.rs:1167-1177 | among full identifiers, exactly those whose first components are the given ones start with the string, a given release only being a beginning of theirs |
| `IdentSearches.SearchFindsIff` | components/builder-originsrv/src/data_store.rs:1167-1177 | a full identifier starts with the search string if and only if the given components are the first ones of it, a given release only being a beginning of its release |
| `IdentSearches.SearchMatchesIff` | components/builder-originsrv/src/data_store.rs:1167-1177 | what starts with the search string are exactly the component-wise matches, if and only if it does not give a proper beginning of the release found |
| `IdentSearches.SearchFindsLongerRelease` | components/builder-originsrv/src/data_store.rs:1167-1177 | a full identifier with release 20171014 starts with the search string for release 2017 |
| `LikePatterns.LikeIff` | components/builder-originsrv/src/migrations/origin_packages.rs:542 | a text matches exactly if it falls into pieces, one per token of the pattern in order: any text for a percent sign, one character for an underscore, the character itself for all others and for what follows a backslash |
| `LikePatterns.PlainLike` | components/builder-originsrv/src/migrations/origin_packages.rs:542 | a pattern that is a string without wild characters and a percent sign is met by exactly what starts with the string |
| `IdentSearches.FindsSelectedIff` | components/builder-originsrv/src/migrations/origin_packages.rs:542 | the pattern finds, among all full identifiers, exactly those that start with the search string, if and only if the search string has no underscore, percent sign or backslash, or lacks a component before one that is given |
| `IdentSearches.FindsMatchesIff` | components/builder-originsrv/src/migrations/origin_packages.rs:597 | it finds exactly the component-wise matches if and only if the search string has none of these characters and gives no release with a version, or lacks a component in that way |
| `IdentSearches.GappedFindsNothing` | components/builder-originsrv/src/migrations/origin_packages.rs:542 | a search that lacks a component before one that is given finds no full identifier, whatever wild characters it has |
| `IdentSearches.SearchFindsOtherOrigin` | components/builder-originsrv/src/migrations/origin_packages.rs:542 | a search in an origin with an underscore finds the packages of every origin with another character in its place |

## Left out

- ReverseDependencies: which of several topological orders is used, because the order inside petgraph is not part of the repository; the contract holds for all of them.
- TopoSort: petgraph's own algorithms; cycle test, topological sort and breadth-first search are written anew and proved, on edges kept in insertion order with the newest found first.
- Top: the order among packages with equally many dependents, which the hash map and the heap leave open.
- SortVersions: a digit is one of 0 to 9, although the regular expression also takes other decimal digits.
- Extend: an identifier that does not parse, or a dependency without a short name that is read, on which the original panics.
- Migrate: failures to switch the schema or to write the tracking row; a refusal of the statement is a parameter. The roll-back is in `Start`.
- SequenceDistinctIff: is for a clock that does not go back and has not used up its 41 bits; `SequenceCollides` is for any clock.
- Delay: the product wraps around as in a build without overflow checks; with them a draw can panic from 58 failures on.
- SearchFindsIff: is about stored identifiers whose four components are all given.
- FindsSelectedIff: is about the listings that compare with a beginning; the distinct listing, which looks for the string anywhere, and the encoding of the database are not modelled.
- AsyncServer: is a state machine on values instead of a class, so that every interleaving is a run of it; the clock, outcomes of events and random draws are parameters of the steps.
- AsyncServer: one pick reads the clock once, although the original reads it per entry; which due events are picked when there are more than free threads is left open, as the hash map leaves it.
- AsyncServer: a pool without threads, which the thread pool library refuses to create.
- Poisoned locks, a second `start`, and calls of `run_event` from outside.
- That an unfair lock lets every waiting thread through, and that due events are picked at some time.
- `connected_components` in the statistics, which is computed inside petgraph; `is_cyclic` there, which is always false by `RunInv`; `search`, `latest` and the debugging dump, which only list stored values.
- `TargetGraph::graph`, which differs from `graph_mut` only in mutability.
- Clocks and epochs: elapsed times are parameters.
- Trimming and lower-casing of targets beyond ASCII.
- The stored procedures, the set-up statements of `Migrator::setup` except the creation of missing shards, and all other SQL.
- The HTTP services, routing, the workers and heartbeats, the supervisor and its gossip, the studio, cryptography, configuration and the web interface.
