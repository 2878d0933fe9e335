# backend-doctor, modelled in Dafny

backend-doctor scans Node backends. This project models the parts of it whose answers are hardest to get right and
proves what they promise:

- **Provider cycles** (`Tarjan`, `ProviderComponents`, `ProviderGraph`, `ProviderCycles`, `ForwardReferences`): the
  iterative component search over the injection graph of a Nest application, on arrays and an explicit frame stack, the
  cycle reported for every component, and what its forwardRef flag is worth.
- **Import cycles** (`Imports`, `ModuleSpecifiers`, `ImportCycles`): the import graph with its resolution cache, what
  specifiers resolve to, the recursive component search, the canonical chains and reachability. Both searches share one
  invariant (`Tarjan`), and both backtracking searches share one argument that they miss nothing (`SimpleCycles`,
  `CycleReports`).
- **Injection resolvability** (`InjectionResolution`, `ResolutionRule`): the module walk that fails open, stated on the
  whole model.
- **Probe** (`ProbeHook`, `PrismaWrapping`, `ProbeAnalysis`, `ProbeFindings`): the collectors as steps that interleave
  in any way (`ProbeSteps`, `PrismaSteps`), the findings derived from their log (`FindingsTotals`, `FindingsRows`), and
  conservation across both halves (`ProbeConservation`, `FindingsProperties`).
- **Engine** (`RuleOutcomes`, `Runner`, `GraphRules`, `CircularImports`, `ProjectRules`, `Hunks`, `Scan`,
  `ScanProperties`, `ScanReports`): rule isolation although contexts can leak, the global order, suppression on
  incomplete graphs, and the lines scope from the text of a diff to the sorted report.

The code that works by changing things step by step is modelled by classes, arrays and loops with invariants, each
against a functional or declarative specification; `Graphs`, `Orders`, `Grouping`, `Tallies`, `Tables`, `Percentiles`,
`Sublists`, `HunkHeaders` and `Texts` hold the vocabulary.

Functions that a method is proved against are pinned by laws that do not mention them: on the fields of what they
produce, on the input, or on the steps that led there.

How to read the main results: `Reach` is following zero or more edges, `Mutual` is reaching each other, `Canonical` is
the first simple cycle, in edge order, through the smallest node of a component, and `IsReport` is one canonical cycle
for every cyclic component in the order of their first nodes.

Where the repository's own descriptions say more than its code does, the model follows the code:

- `circular-dependency` is described as flagging every file that takes part in an import cycle. It flags the files on
  the canonical chain of each component (`GraphRules.FlaggedExactly`); `GraphRules.NotEveryMemberIsFlagged` shows a file
  on a cycle that is not flagged, `GraphRules.AllMembersFlagged` when all are.
- `missing-forward-ref` is described as reporting injection cycles in which no edge uses forwardRef. `hasForwardRef`
  speaks about the reported path only: `ForwardReferences.PlainCycleIsHidden` and `ForwardReferences.ForwardRefIsMissed`
  show it wrong about its component in either way, `ForwardReferences.FlagTellsCycles` and
  `ForwardReferences.FlagTellsInjections` say exactly when it is right.
- `isInjectionResolvable` is described as failing open on everything unknown. A global module whose metadata is
  unresolved stops counting as an exporter, so losing knowledge can make an injection unresolvable:
  `InjectionResolution.MarkingUnresolves` says exactly when.
- The call and model comparators are described as full tie-break chains. They read a missing position as -1 and a
  missing name as empty, so different rows can tie: `FindingsProperties.CallsOrderFreeExactly` and
  `FindingsProperties.ModelsOrderFreeExactly` say exactly when the order of events shows.
- The sum of the queries of all endpoints is not always the number of attributed queries: late queries and requests
  that never report are missing from it (`ProbeConservation.LateQueryIsMissed`);
  `ProbeConservation.ConservedInTime` and `ProbeConservation.ConservedExactly` say exactly when the two agree.

## Model

| member | source | states |
|---|---|---|
| ProviderGraph.BuildAdjacency | src/rules/nest/di-graph.ts:84-114 | The adjacency lists are, for every provider, the stable sort by (injected name, target position) of one edge per constructor parameter and provider of that name |
| ProviderGraph.CollectEdges | src/rules/nest/di-graph.ts:97-103 | The edges of one provider before sorting: one per constructor parameter and provider of that name, in order |
| ProviderGraph.AdjacencyExact | src/rules/nest/di-graph.ts:97-103 | An edge is in the list of a provider exactly when one of its injections names the class of the target provider |
| ProviderGraph.GraphIsInjects | src/rules/nest/di-graph.ts:97-114 | The searched graph has an edge from one provider to another exactly when the first injects the second; several providers may share a class name |
| ProviderGraph.FindInjection | src/rules/nest/di-graph.ts:261-270 | The first injection of that name and nothing exactly when there is none |
| ProviderGraph.FindEdge | src/rules/nest/di-graph.ts:228-233 | The first adjacency entry that leads to the target, and nothing exactly when there is none |
| ProviderGraph.ChosenInjection | src/rules/nest/di-graph.ts:228-233 | Under the stable edge sort the adjacency entry found for an edge carries the very injection that the search by class name finds, so both look-ups of an edge agree |
| ProviderGraph.EdgesFollowNodes | src/rules/nest/di-graph.ts:104-112 | Edges of a provider are walked in the order of (class name, model position) of the injected providers, so "first in edge order" is an order of providers |
| ProviderComponents.ComponentSearch.Run | src/rules/nest/di-graph.ts:116-182 | After the outer loop every provider has a component number; two providers share it exactly when each reaches the other, although back edges take over `low` instead of `index` of their target; every provider was pushed and popped exactly once |
| ProviderComponents.ComponentSearch.StrongConnect | src/rules/nest/di-graph.ts:125-178 | One start: keeps the whole search invariant, numbers the start and empties the frame stack; terminates by undiscovered nodes, then unconsumed edges of live frames, then frames |
| ProviderComponents.ComponentSearch.FollowEdge | src/rules/nest/di-graph.ts:138-157 | Consuming one edge (new node, node on the stack, closed node) keeps the invariant and moves the termination measure |
| ProviderComponents.ComponentSearch.Open | src/rules/nest/di-graph.ts:143-148 | Numbering a node changes exactly its entries and pushes it on both stacks |
| ProviderComponents.ComponentSearch.FinishFrame | src/rules/nest/di-graph.ts:158-177 | Popping a frame, handing `low` down and closing a component if the node is its root keeps the invariant |
| ProviderComponents.ComponentSearch.PassLow | src/rules/nest/di-graph.ts:159-166 | The parent frame takes over the smaller `low` and nothing else changes |
| ProviderComponents.ComponentSearch.MinLow | src/rules/nest/di-graph.ts:149-155 | `low` of one node becomes the minimum of the two, and nothing else changes |
| ProviderComponents.ComponentSearch.PopComponent | src/rules/nest/di-graph.ts:167-176 | Exactly the nodes from the root upward leave the stack and get the next component number |
| ProviderComponents.ComponentSearch.PopMember | src/rules/nest/di-graph.ts:169-172 | One node leaves the stack, loses its flag and gets the component number |
| Tarjan.DiscoverInv | src/rules/nest/di-graph.ts:143-148 | Discovering a node keeps the search invariant: stack order, live frames reach everything above them, `low` names a reachable on-stack node, walked edges are accounted for, closed components are exact |
| Tarjan.LowerInv | src/rules/nest/di-graph.ts:149-155 | Lowering `low` of a live frame to the number of an on-stack node it reaches keeps the invariant |
| Tarjan.WalkBack | src/rules/nest/di-graph.ts:149-155 | A back edge may lower `low` to the number of any on-stack node that the target reaches and that is not after it: both the textbook update and the one used here |
| Tarjan.HandDown | src/rules/nest/di-graph.ts:159-166 | Handing `low` to the parent frame keeps the invariant and accounts for the finished child |
| Tarjan.RetireInv | src/rules/nest/di-graph.ts:158-166 | A finished node that is not a root may stay on the stack without a frame |
| Tarjan.CloseInv | src/rules/nest/di-graph.ts:167-176 | When `low` equals the number of the finished node, the stack from that node on is one class of mutual reachability, no edge leaves it into open nodes, and closing it keeps the invariant |
| Tarjan.NothingLeftOnStack | src/rules/nest/di-graph.ts:180-182 | Once no frame is live every discovered node is closed |
| Tarjan.OutermostIsRoot | src/rules/nest/di-graph.ts:167-177 | The outermost frame is always the root of its component |
| ProviderCycles.CyclePathSearch.Dfs | src/rules/nest/di-graph.ts:245-257 | The depth-first search returns the first simple path back to the canonical member in edge order, and nothing only if no simple cycle extends the current path; terminates because the path stays inside the members |
| ProviderCycles.CyclePath | src/rules/nest/di-graph.ts:239-259 | From the bare canonical member: the first simple cycle in edge order, or none exists |
| ProviderCycles.DescribePath | src/rules/nest/di-graph.ts:211-234 | The skips for a missing consumer or closing edge cannot be taken: the path of a cycle is always described |
| ProviderCycles.DescribeComponent | src/rules/nest/di-graph.ts:202-234 | A component yields a cycle exactly when it has two members or a self-loop, that is when it is cyclic; the skip for a missing path cannot be taken, and the cycle is the canonical one |
| ProviderCycles.FindComponents | src/rules/nest/di-graph.ts:116-201 | The groups of provider positions are the classes of mutual reachability, ordered by smallest member |
| ProviderCycles.SortedComponents | src/rules/nest/di-graph.ts:184-201 | Grouping positions by component number and sorting by first member gives every class once, ascending |
| ProviderCycles.FindProviderCycles | src/rules/nest/di-graph.ts:84-237 | Exactly one cycle per cyclic component, ordered by smallest member; each is the first simple cycle through the smallest member in edge order, with the path, its text, the last member as closing consumer, the first injection of the canonical name as closing edge, and forwardRef true exactly if some edge of that path carries it |
| ProviderCycles.ForwardAgrees | src/rules/nest/di-graph.ts:228-233 | Looking for forwardRef in the adjacency entries of the path and in the constructor parameters gives the same answer |
| ProviderCycles.ClosingExists | src/rules/nest/di-graph.ts:212-220 | The last member of a simple cycle injects the canonical class, so the closing edge exists |
| ProviderCycles.ReportDetermined | src/rules/nest/di-graph.ts:78-83 | Two reports of one model are equal: components, paths and closing edges depend on the model alone |
| ProviderCycles.ReportReads | src/rules/nest/di-graph.ts:202-234 | Every reported cycle read on its own fields: the path goes through providers of the model, each injecting the next by class name, and returns to its start; its text is the class names joined by arrows; the closing consumer, the closing injection and the forwardRef flag are those of its edges, first constructor parameter first |
| ForwardReferences.FlagTellsInjections | src/rules/nest/di-graph.ts:228-233 | For every reported cycle: hasForwardRef equals "some edge inside the component carries forwardRef" exactly when no such edge does or a step of the canonical cycle does |
| ForwardReferences.FlagTellsCycles | src/rules/nest/missing-forward-ref.ts:4-22 | For every reported cycle: hasForwardRef equals "every simple cycle of the component has a forwardRef" exactly when the canonical cycle has none or no cycle is left without the forwardRef edges |
| ForwardReferences.NoPlainCycle | src/rules/nest/missing-forward-ref.ts:4-10 | A component has no simple cycle free of forwardRef exactly when removing the forwardRef edges leaves no cycle in it |
| ForwardReferences.PlainCycleIsHidden | src/rules/nest/missing-forward-ref.ts:21-23 | Three providers: the cycle of the second and the third has no forwardRef, yet the one reported cycle carries the flag, on any report |
| ForwardReferences.ForwardRefIsMissed | src/rules/nest/missing-forward-ref.ts:21-23 | Three providers: the component holds a forwardRef, yet the one reported cycle does not carry the flag, on any report |
| SimpleCycles.TakeFound | src/rules/nest/di-graph.ts:247-255 | When the branch over the current edge finds a cycle, it is the first of all simple cycles that extend the path |
| SimpleCycles.SkipEdge | src/engine/imports.ts:220-226 | An edge that leaves the component or returns to the path starts no simple cycle |
| SimpleCycles.NothingFound | src/engine/imports.ts:220-227 | When all edges are exhausted no simple cycle extends the path: backtracking over simple paths misses nothing |
| SimpleCycles.CycleExists | src/engine/imports.ts:212-231 | In a component with two members or a self-edge a simple cycle runs through every member |
| SimpleCycles.LeastCycleUnique | src/engine/imports.ts:212-232 | The first simple cycle in edge order is unique |
| CycleReports.SearchSucceeds | src/rules/nest/di-graph.ts:209-210 | In a cyclic component the search cannot come back empty-handed |
| CycleReports.ReportUnique | src/engine/imports.ts:202-209 | A list with exactly one canonical cycle per cyclic component, ordered by first node, is determined by the graph |
| CycleReports.EmptyReport | src/engine/imports.ts:195-202 | Such a list is empty exactly when the graph has no cycle |
| InjectionResolution.IsInjectionResolvable | src/rules/nest/di-graph.ts:280-303 | False exactly when the name is a provider, the consumer has owners, no resolved global module exports it, and every owner is blocked |
| ResolutionRule.ResolvableSpelled | src/rules/nest/di-graph.ts:280-335 | The rule spelled on the lists of the model: no such provider, or no module lists the consumer as provider or controller, or a resolved global module exports it, or an owner is unresolved, provides it, or starts a chain of imports by class name to a module that is unresolved, exports it, or imports an unknown name |
| InjectionResolution.ReachableFrom | src/rules/nest/di-graph.ts:305-335 | The module walk returns false exactly when the owner is resolved, does not provide the name, and every module reached by import edges imports only known modules that are resolved and do not export it |
| InjectionResolution.MoreEntriesKeepResolvable | src/rules/nest/di-graph.ts:293-302 | Adding import or export entries to existing modules never turns resolvable into unresolvable |
| InjectionResolution.MarkingUnresolves | src/rules/nest/di-graph.ts:293-301 | Marking a module as unresolved turns resolvable into unresolvable exactly when, before the marking, it is the only resolved global exporter, every owner is blocked, and no owner is the module or meets it along its imports |
| InjectionResolution.MarkedBlocked | src/rules/nest/di-graph.ts:305-335 | An owner is blocked after the marking exactly when it was blocked before and its walk never meets the module |
| InjectionResolution.MarkingCanUnresolve | src/rules/nest/di-graph.ts:293-301 | The exception occurs: two modules and one provider show it |
| Imports.ResolutionIsAnalyzed | src/engine/imports.ts:99-115 | Whatever a specifier resolves to is an analyzed file |
| ModuleSpecifiers.SpecifierResolvesTo | src/engine/imports.ts:47-154 | By text alone: a package resolves to nothing; .js, .mjs and .cjs to the file itself if analyzed, else to the stem with .ts, .mts or .cts; a supported extension to the file itself only; any other ending to the first analyzed of the four suffixes, then of the four index files |
| ModuleSpecifiers.ResolveFollowsEvidence | src/engine/imports.ts:128-137 | `resolve` of a built graph: evidence of an internal module decides, inside or outside the analyzed set; every other specifier is resolved by its text |
| ModuleSpecifiers.FailuresExactly | src/engine/imports.ts:97-119 | A failure is recorded exactly for a mentioned specifier whose evidence is an internal module outside the analyzed set, or an unresolved one that its text does not resolve either, with that reason |
| ModuleSpecifiers.FailuresOncePerSpecifier | src/engine/imports.ts:97-119 | Each failing specifier of a file is recorded once, however often it is mentioned |
| ModuleSpecifiers.GraphIsSorted | src/engine/imports.ts:82-127 | Files and the edges of a file come in lexicographic order of their characters, edges without repetition |
| Imports.ScanSource | src/engine/imports.ts:97-119 | Scanning one file yields the increasing edge list, the failures of first occurrences in order, and a cache of exactly its specifiers with their resolutions |
| Imports.BuildImportGraph | src/engine/imports.ts:82-141 | The graph has the sorted files, for each file the increasing list of resolved targets without itself and the cache of exactly its specifiers, all failures in order, and the canonical chains; what a specifier resolves to is `ModuleSpecifiers.SpecifierResolvesTo` |
| Imports.EdgesClosed | src/engine/imports.ts:116-119 | Edges stay inside the analyzed set and never lead from a file to itself |
| Imports.ResolveAgrees | src/engine/imports.ts:128-137 | `resolve` equals the uncached resolution for every file and specifier, cached or not, and its result is analyzed |
| Imports.EdgesAreResolutions | src/engine/imports.ts:97-127 | `edgesOf(f)` is the strictly increasing list of exactly those non-empty paths other than `f` that `resolve` gives for the specifiers of `f` |
| Imports.OrderIsIrrelevant | src/engine/imports.ts:82-141 | Permuting sources with distinct paths, or the specifiers inside a file, changes neither files nor edges nor chains, hence not what is reachable either |
| Imports.ReachableFrom | src/engine/imports.ts:234-247 | The worklist returns exactly the files reachable from the entries, entries included; terminates by unvisited nodes, then queue length, although duplicates wait in the queue |
| ImportCycles.CycleFinder.StrongConnect | src/engine/imports.ts:172-196 | The recursive search from an undiscovered node ends with its component closed or its frame waiting on the stack, and keeps the invariant shared with the iterative search |
| ImportCycles.CycleFinder.WalkEdge | src/engine/imports.ts:178-185 | One out-edge: recursion and minimum with `low`, or minimum with the number of an on-stack target |
| ImportCycles.CycleFinder.Leave | src/engine/imports.ts:186-196 | A root closes exactly its component, which is listed if it has two or more members |
| ImportCycles.CycleFinder.PopComponent | src/engine/imports.ts:187-194 | The popped list is the stack from the root on, each member once |
| ImportCycles.CycleFinder.Run | src/engine/imports.ts:198-200 | The listed components are exactly the classes of mutual reachability with at least two members, each once |
| ImportCycles.ChainSearch.Visit | src/engine/imports.ts:217-228 | Extending and undoing the path in place: on success the path is the first simple cycle extending it, otherwise it is unchanged and none exists |
| ImportCycles.CanonicalChain | src/engine/imports.ts:212-232 | The chain always closes: it starts and ends at the member before which, character by character, no other member comes, and is the first simple cycle of the component in edge order |
| ImportCycles.FindCycleChains | src/engine/imports.ts:161-210 | One canonical chain per component of two or more files, strictly ordered by first member in the order of `Orders.Precedes` |
| ImportCycles.ChainIsSimpleCycle | src/engine/imports.ts:32-37 | A chain has at least two distinct members, consecutive members are edges, all members are in one component, and the first precedes every other member of the component lexicographically |
| ImportCycles.ChainsInOrder | src/engine/imports.ts:202-209 | Of two chains the earlier one starts at the lexicographically smaller file |
| Orders.StringLessIsLexicographic | src/engine/imports.ts:85 | The order of strings: the first differing character decides, and a proper prefix comes first |
| ImportCycles.ChainsDetermined | src/engine/imports.ts:202-209 | The chains depend on the graph alone |
| ImportCycles.NoChainsIffAcyclic | src/engine/imports.ts:161-210 | `cycles()` is empty exactly when the import graph is acyclic |
| GraphRules.ChainIsLexicographicallyLeast | src/engine/imports.ts:156-160 | With sorted edges the chain is lexicographically least among all simple cycles of its component through its start |
| GraphRules.UnusedFile | src/rules/graph/unused-file.ts:16-29 | Silent without entries, otherwise one finding per unreachable file in file order |
| GraphRules.UnreachedIsComplement | src/rules/graph/unused-file.ts:18-28 | A file is reported exactly when it is analyzed and not reachable |
| GraphRules.UnreachedAppend | src/rules/graph/unused-file.ts:18-28 | File by file in order: nothing for a reached file, for any other one finding at the first column of its first line |
| CircularImports.CircularDependency | src/rules/graph/circular-dependency.ts:19-37 | For every chain and every member with a source one finding, at the position of its cycle edge, with the text of the chain |
| CircularImports.ChainFindingsSpelled | src/rules/graph/circular-dependency.ts:19-52 | A chain gives one finding for each of its members in order: on the first source with the path, at the first specifier whose target lies in the cycle and which has a node, else at 1:1, with the relative paths of the chain joined by arrows in its message |
| CircularImports.AllFindingsAppend | src/rules/graph/circular-dependency.ts:19-37 | The findings come chain by chain |
| CircularImports.FirstCycleEdgePosition | src/rules/graph/circular-dependency.ts:40-52 | The position of the first specifier that leads into the cycle and has a node, else the first column of the first line |
| CircularImports.FlaggedFilesExactly | src/rules/graph/circular-dependency.ts:19-37 | The reported files are the members of the chains, chain by chain, each member once |
| CircularImports.FindingsSitOnTheCycle | src/rules/graph/circular-dependency.ts:40-52 | Every reported file mentions a specifier that leads into its cycle; the position is that of the first such specifier with a node, and missing only when none of them has one |
| GraphRules.FlaggedExactly | src/rules/graph/circular-dependency.ts:19-37 | A file is flagged exactly when it lies on the canonical cycle of its component; flagged files are on import cycles; none is flagged exactly when there is no cycle |
| GraphRules.AllMembersFlagged | src/rules/graph/circular-dependency.ts:6-12 | Every file on an import cycle is flagged exactly when the canonical cycle of each component of the graph runs through the whole component |
| GraphRules.NotEveryMemberIsFlagged | src/rules/graph/circular-dependency.ts:6-12 | The rule's own description promises every file that participates in a cycle; three files show a member of a cycle that is never flagged |
| ProbeHook.Collectors.WriteEvent | src/probe/hook.ts:57-74 | The line is appended unless recording stopped or no path is set; a failing append stops recording for good |
| ProbeHook.Collectors.EmitRequest | src/probe/hook.ts:531-573 | Every observable dispatch gets a fresh store with counter zero unless the collector is disabled |
| ProbeHook.Collectors.OnFinish | src/probe/hook.ts:555-572 | The finish listener records the request with its counter of that moment, once; a throw disables the collector, a disabled collector records nothing |
| ProbeHook.Collectors.ObserveStart | src/probe/hook.ts:798-805 | Starting a query counts it in the store of its context, if there is one and the collector is enabled |
| ProbeHook.Collectors.ObserveEnd | src/probe/hook.ts:765-811 | Settling a query records it with the attribution taken at its start; a throw disables the collector |
| ProbeHook.Collectors.PerformAll | src/probe/hook.ts:513-811 | Fresh collectors taken through any steps end in the state those steps lead to |
| ProbeSteps.OneMoreStep | src/probe/hook.ts:57-74 | In every interleaving one more step appends exactly its own event, and only while recording goes on, the step hands an event over and the append succeeds: a request with the queries started in it, a query with what its start said and whether it runs in a request |
| ProbeSteps.FlagsExactly | src/probe/hook.ts:57-74 | Recording goes on exactly until an append fails that was handed over; the HTTP collector is off exactly after its own event could not be put together, the query collector also when it is told to |
| ProbeSteps.NothingAfterFailure | src/probe/hook.ts:67-72 | After a failing append the log never grows again, whatever happens |
| ProbeSteps.QueryHasStart | src/probe/hook.ts:798-805 | Every followed query has one start, which fixes its operation and its request |
| ProbeSteps.RunsUntilSettled | src/probe/hook.ts:806-811 | A query runs exactly until the first step that settles it, whatever comes of its event |
| ProbeSteps.OneMoreStart | src/probe/hook.ts:531-573 | A store exists exactly for each observable dispatch while the collector is on; a query is followed exactly while the collector is on and its request exists |
| ProbeConservation.Observe | src/probe/hook.ts:513-811 | The mutable collectors have balanced books after any steps |
| ProbeConservation.RunBalanced | src/probe/hook.ts:553-811 | In every interleaving and with any failures: counters sum to the attributed queries, reported counters sum to what the request events carry, each request has at most one event and each query at most one event |
| ProbeConservation.StepKeeps | src/probe/hook.ts:553-811 | Every single step keeps these sums in balance |
| ProbeConservation.EventsCarryStarted | src/probe/hook.ts:553-573 | Each request event was written at the first finish of a request and carries exactly the number of queries started in its context before |
| ProbeConservation.CounterIsStarted | src/probe/hook.ts:803-804 | A store's counter is the number of queries started in that context so far |
| ProbeConservation.QueriesConserve | src/probe/hook.ts:553-811 | Sum of endpoint query totals before the cap + queries no request event accounts for = `db.queries - db.unattributed` + attributed queries without an event |
| ProbeConservation.ConservedExactly | src/probe/hook.ts:553-811 | Once every attributed query left an event, the endpoint totals equal `db.queries - db.unattributed` exactly when each request that ran queries finishes after the last of them has started, and its event is written |
| ProbeConservation.ConservedInTime | src/probe/hook.ts:553-811 | When nothing fails and all attributed queries have settled, the totals are equal exactly when each request that ran queries finishes, the first time, after the last of them has started |
| ProbeConservation.RequestIsAfter | src/probe/hook.ts:553-573 | The counter of a request, whether it finished and what it reported follow from the steps alone |
| ProbeConservation.OrderlyConserves | src/probe/hook.ts:553-811 | If no write fails, no query starts after its request finished, none runs on when it finishes, and every request that ran queries finishes, the totals are equal |
| ProbeConservation.LateQueryIsMissed | src/probe/hook.ts:798-811 | A query started after its request finished is attributed, yet no request event accounts for it |
| PrismaWrapping.DbCollector.WrapClientOnce | src/probe/hook.ts:786-863 | Disabled, no class, marked class (also by inheritance), known class, new class: the new records, classes and wrapper map in each case, also when extending or assigning throws |
| PrismaWrapping.DbCollector.HasMarker | src/probe/hook.ts:790-792 | The marker is seen through any number of superclasses |
| PrismaWrapping.DbCollector.OnLoad | src/probe/hook.ts:881-893 | An intercepted load wraps after the original load; a throw only disables the collector |
| PrismaWrapping.DbCollector.OnConstruct | src/probe/hook.ts:815-858 | A new client gets one observer per wrapper among its classes, or disables the collector when it offers no way to observe |
| PrismaWrapping.DbCollector.PerformAll | src/probe/hook.ts:786-893 | The mutable collector taken through any steps is in the state they lead to, and consistent |
| PrismaSteps.WrapExactly | src/probe/hook.ts:786-863 | A load touches its own exports object only and only if the collector is on and the class has no marker on its chain; it adds at most the one wrapper it needs, and when extending or assigning fails the object stays as it is and the collector is off |
| PrismaSteps.MarkedExactly | src/probe/hook.ts:790-792 | A class is marked exactly if a chain of superclasses leads from it to the marker |
| PrismaSteps.DisabledExactly | src/probe/hook.ts:815-893 | The collector is off exactly after a target load that failed to wrap or after a client of a marked class that offered no way to observe |
| PrismaSteps.EventsExactly | src/probe/hook.ts:798-848 | A query causes one event exactly if its client was created, while the collector was on, from a marked class and could be observed, and the collector is still on; nothing else causes events |
| PrismaWrapping.StepKeeps | src/probe/hook.ts:786-863 | Over any steps every class runs through at most one wrapper, the wrapper map is exact, and every client has at most one observer |
| PrismaWrapping.OneWrapperPerClass | src/probe/hook.ts:793-797 | A base class has at most one wrapper and no wrapper extends a wrapper, directly or through other classes |
| PrismaWrapping.InterceptedRecordIsMarked | src/probe/hook.ts:786-863 | An intercepted exports object ends at a marked class unless the collector is disabled |
| PrismaWrapping.LoadTwice | src/probe/hook.ts:751-752 | Loading again changes nothing |
| PrismaWrapping.SharedClassSharedWrapper | src/probe/hook.ts:793-797 | Exports objects that share or copy a class end at the same wrapper |
| PrismaWrapping.AtMostOneEventPerQuery | src/probe/hook.ts:798-863 | No query causes two events |
| PrismaWrapping.ObservedExactlyOnce | src/probe/hook.ts:798-848 | Through a marked class whose instances can be observed every query causes exactly one event |
| ProbeFindings.Classify | src/probe/analysis.ts:137-172 | Every parsed line goes to exactly its list, in order; malformed lines and attached processes are counted |
| FindingsTotals.LineByLine | src/probe/analysis.ts:137-172 | One more line enters exactly the list of its kind, at the end |
| ProbeAnalysis.GroupCalls | src/probe/analysis.ts:174-206 | The in-place aggregation and sort yield the sorted table of rows per call site |
| ProbeAnalysis.GroupEndpoints | src/probe/analysis.ts:240-297 | Likewise per method and route, with durations, statuses, query totals and percentiles |
| ProbeAnalysis.GroupModels | src/probe/analysis.ts:309-331 | Likewise per model and action |
| ProbeAnalysis.BumpTable | src/probe/analysis.ts:255-256 | Counting one more status keeps the running status list the table of the requests seen |
| ProbeFindings.MergeLag | src/probe/analysis.ts:209-227 | The loops yield the merge of the last totals; what that merge is, `FindingsTotals.LagIsMerged` says |
| ProbeFindings.CollectWarnings | src/probe/analysis.ts:298-307 | The warnings in their order, no-attach first |
| ProbeFindings.BuildFindings | src/probe/analysis.ts:134-404 | The loops yield the document; its fields are pinned line by line by `FindingsTotals` and row by row by `FindingsRows` |
| ProbeFindings.SummarizeMemory | src/probe/analysis.ts:344-368 | Peaks of the samples, and number, sum and maximum of the pauses |
| FindingsTotals.EmptyLog | src/probe/analysis.ts:134-404 | The document of an empty log: zero everywhere and no rows |
| FindingsTotals.OneMoreEvent | src/probe/analysis.ts:209-404 | How one more line changes the counts and sums of calls, requests, queries, unattributed queries and lag windows; version and session are copied |
| FindingsTotals.OneMoreLine | src/probe/analysis.ts:344-404 | How one more line changes the numbers of lines, malformed lines and distinct attached processes, and the peaks, counts and sums of the memory section |
| FindingsTotals.LagIsMerged | src/probe/analysis.ts:209-227 | The lag of the document in terms of the log: take every process once with the total of its last lag line; counts are summed, each percentile is the average weighted by count and rounded to the nearest, the maximum is the largest and at least 0 |
| FindingsTotals.LagBetween | src/probe/analysis.ts:377-383 | Each merged percentile lies between the least and the greatest of the totals that have samples |
| FindingsTotals.LagInOrder | src/probe/analysis.ts:377-383 | p50 <= p99 <= max whenever every total reports them in that order |
| FindingsTotals.SingleTotal | src/probe/analysis.ts:377-383 | The total of a single process is reported as it is |
| FindingsTotals.RoundedIsNearest | src/probe/analysis.ts:42-44 | Rounding gives the nearest integer, the larger of two |
| FindingsRows.CallRows | src/probe/analysis.ts:174-206 | A row is among the call rows exactly if it counts the calls of its site, sums their durations and keeps the longest |
| FindingsRows.EndpointRows | src/probe/analysis.ts:240-291 | Every endpoint row describes exactly the requests to its route: count, exact percentiles, maximum, status codes ascending with their counts, sum, maximum and rounded average of the queries; every route of the log has one |
| FindingsRows.ModelRows | src/probe/analysis.ts:309-323 | A row is among the model rows exactly if it counts the queries of its operation |
| FindingsRows.CallsShown | src/probe/analysis.ts:110-132 | Calls come by total descending, then site fields ascending; at most fifty are shown, and none behind them has a larger total |
| FindingsRows.EndpointsShown | src/probe/analysis.ts:292-298 | Endpoints come by p99 descending, then method and route; at most fifty are shown, and none behind them has a larger p99 |
| FindingsRows.ModelsShown | src/probe/analysis.ts:324-341 | Models come by count descending, then model and action; at most fifty are shown, and none behind them has a larger count |
| FindingsRows.WarningsInOrder | src/probe/analysis.ts:298-371 | The warnings in order: no process attached, endpoints capped, possible N+1 of every endpoint at or over the threshold, models capped, calls capped |
| FindingsProperties.CallOrderTies | src/probe/analysis.ts:110-132 | The call comparator is a weak order whose ties are exactly equal totals and equal site fields, with missing values read as -1 and the empty string |
| FindingsProperties.EndpointOrderTies | src/probe/analysis.ts:292-297 | The endpoint comparator ties only on equal percentile, method and route |
| FindingsProperties.ModelOrderTies | src/probe/analysis.ts:324-331 | The model comparator ties exactly on equal count, model (missing read as empty) and action |
| FindingsProperties.CallsConserve | src/probe/analysis.ts:174-206 | Before the cap the rows account for every blocking call and all of its time |
| FindingsProperties.EndpointsConserve | src/probe/analysis.ts:240-291 | Before the cap the rows account for every request and every query counted in one |
| FindingsProperties.StatusesConserve | src/probe/analysis.ts:271-290 | The status counts of an endpoint sum to its count |
| FindingsProperties.ModelsConserve | src/probe/analysis.ts:309-331 | Before the cap the rows account for every query |
| FindingsProperties.CallsOrderFree | src/probe/analysis.ts:115-206 | On well-formed sites the sorted rows do not depend on the order of the events |
| FindingsProperties.CallsOrderFreeExactly | src/probe/analysis.ts:115-206 | They are independent of the order exactly when no two different sites with equal totals look alike to the comparator |
| FindingsProperties.MalformedSitesCanTie | src/probe/analysis.ts:118-125 | A missing line and line -1 tie, and the two orders of two such events give different rows |
| FindingsProperties.EndpointsOrderFree | src/probe/analysis.ts:240-297 | The sorted endpoints do not depend on the order of requests |
| FindingsProperties.ModelsOrderFree | src/probe/analysis.ts:309-331 | The sorted models do not depend on the order of well-formed queries |
| FindingsProperties.ModelsOrderFreeExactly | src/probe/analysis.ts:309-331 | They are independent of the order exactly when operations that read the same occur differently often |
| FindingsProperties.UnnamedModelsCanTie | src/probe/analysis.ts:324-331 | A missing model and the empty name tie, and the two orders of two such queries give different rows |
| FindingsProperties.MemoryOrderFree | src/probe/analysis.ts:344-368 | Peaks and pause totals do not depend on the order of the events |
| Percentiles.NearestRankIsLeast | src/probe/analysis.ts:262-266 | The nearest rank of an ascending list is the least sample such that at least p per cent of the samples are at most it |
| Percentiles.NearestRankMonotone | src/probe/analysis.ts:262-266 | A higher percentile is not smaller |
| FindingsProperties.EndpointPercentiles | src/probe/analysis.ts:268-291 | For every endpoint p50 and p99 are the percentiles of its own durations, p50 <= p99 <= max, and max is the largest duration |
| FindingsProperties.WarningsExact | src/probe/analysis.ts:298-307 | A possible-N+1 warning is there exactly for the endpoints before the cap whose maximum reaches the threshold |
| FindingsProperties.LagInterleaving | src/probe/analysis.ts:209-227 | The merged lag depends only on the sequence of each process, not on how the processes interleave |
| FindingsProperties.DocumentOrderFree | src/probe/analysis.ts:1-7 | Reordering the lines of the log, with lag lines of a process kept in order, leaves the whole document unchanged |
| Tables.OrderFreeExactly | src/probe/analysis.ts:206 | A sorted table forgets the order of events exactly when rows of different keys never tie |
| Tallies.GroupsConserve | src/probe/analysis.ts:176-205 | What is summed per group and then over the groups is the sum over all events |
| HunkHeaders.MatchIsHeader | src/scope/diff.ts:3 | The pattern matches a line exactly when it has the header format |
| HunkHeaders.HeaderMatches | src/scope/diff.ts:3-18 | A header is matched with the start and the optional count its new side spells, whatever follows |
| HunkHeaders.HeaderSpelled | src/scope/diff.ts:3-18 | The header text spelled with and without counts on either side, and the numbers read from it |
| HunkHeaders.ValueIsPositional | src/scope/diff.ts:17-18 | Numbers are read in base ten |
| Hunks.LinesExactly | src/scope/diff.ts:14 | The pieces of a text hold no newline and give the text back when joined by newlines |
| HunkHeaders.DecimalRoundTrip | src/scope/diff.ts:17-18 | Reading a printed number gives the number back |
| Hunks.ParseHunks | src/scope/diff.ts:12-22 | The loop yields the ranges of the matching lines in order, none for a zero count |
| Hunks.GroupsExact | src/scope/diff.ts:5-11 | The new sides of the maximal runs of changes cover exactly the added lines of any edit script |
| Hunks.ParseBack | src/scope/diff.ts:12-22 | Parsing any zero-context unified diff of a script (POSIX.1-2017 `diff`, "Diff -u or -U Output Format"), with any preamble, section text and body, gives the non-empty new sides in order |
| Hunks.RangesAreAddedLines | src/scope/diff.ts:5-22 | A line number lies in a parsed range exactly when it is the new-side number of an added line |
| Hunks.PrintedRoundTrip | src/scope/diff.ts:12-22 | Printing a script the way git does and parsing it back finds its added lines |
| RuleOutcomes.CallRule | src/engine/runner.ts:68-79 | Calling a rule pushes its findings one by one, into its own buffer or, through leaked contexts, into those of earlier rules |
| RuleOutcomes.EnabledExactly | src/engine/runner.ts:48-66 | A rule runs with a severity exactly if all its frameworks are detected, it is not ignored, and that severity is set for the rule, else for its category, else is its own |
| RuleOutcomes.OwnFindingsAppend | src/engine/runner.ts:68-76 | Call by call, a finding of the rule itself is kept in its place and one through a leaked context is not |
| RuleOutcomes.OwnBuffer | src/engine/runner.ts:68-76 | Whatever reaches the other buffers, the last one collects exactly what its own rule reports |
| RuleOutcomes.RunIsConcatenation | src/engine/runner.ts:48-116 | The run with its shared buffers gives the concatenation of what every rule gives alone |
| RuleOutcomes.CrashLeavesNoFindings | src/engine/runner.ts:77-103 | In any run a throwing rule leaves its crash report between what the rules before and after it leave, although its findings were pushed and later rules may push more through its context |
| RuleOutcomes.LostFindings | src/engine/runner.ts:66-113 | Findings of throwing rules and findings pushed through leaked contexts reach neither list: without them the outcome is the same |
| RuleOutcomes.RunIsIsolated | src/engine/runner.ts:33-40 | However one rule behaves, and whatever contexts it reports through, everything about all other rules comes out the same |
| RuleOutcomes.JoinedMembers | src/engine/runner.ts:48-116 | A diagnostic of the whole run is a diagnostic of one of the rules run alone, and vice versa |
| RuleOutcomes.JoinedAppend | src/engine/runner.ts:48-116 | Running two lists of rules one after the other is running their concatenation |
| Runner.RunRules | src/engine/runner.ts:41-117 | The loop with its buffers equals the run, and the run the concatenation of the outcome of each rule alone |
| Runner.FileRuleLeaves | src/engine/runner.ts:48-153 | Field by field what one file rule leaves: nothing when disabled, one diagnostic per own finding in order with node position or defaulted line and column, or the crash report |
| Runner.FileCrashLeavesNoFindings | src/engine/runner.ts:77-103 | A crashing rule leaves exactly one internal warning and one skipped check between what the rules before and after it leave, whatever it had pushed before |
| Runner.FileRulesAreIsolated | src/engine/runner.ts:33-40 | However one rule behaves on a file, the others report the same |
| Runner.OutcomeIsOwn | src/engine/runner.ts:105-113 | Every diagnostic carries the rule and the file it was found by |
| Runner.ReportOrderTies | src/engine/runner.ts:164-172 | The comparator is a weak order that ties exactly on equal relative file, line, column and rule |
| Runner.ReportOrderOnFields | src/engine/runner.ts:164-172 | The comparator is: relative file, then line, then column, then rule |
| Runner.ReportFollowsFields | src/engine/runner.ts:160-173 | No diagnostic of a report stands behind one that comes before it |
| Runner.ReportIsStable | src/engine/runner.ts:155-173 | The report is an ordered permutation in which equal keys keep insertion order, and the only such list |
| Runner.MergeThenSort | src/engine/runner.ts:160-173 | Sorting a sorted report with more diagnostics appended equals one global sort |
| Runner.OrderIgnoresLocation | src/engine/runner.ts:155-159 | Moving the whole tree changes the paths of the report and not its order |
| Orders.SortTwice | src/engine/runner.ts:160-173 | Stable sorting in two rounds is stable sorting once |
| Orders.StableSortUnique | src/engine/runner.ts:164 | A sorted list that keeps the order of ties is unique, so the result does not depend on the sorting algorithm |
| ProjectRules.RunProjectRules | src/engine/project-rules.ts:75-202 | Graph, preliminary skips, then the concatenation of the outcome of each rule alone; which rules are suppressed is `ProjectRules.SuppressedExactly` |
| ProjectRules.RunEach | src/engine/project-rules.ts:104-199 | The loop with its gates, suppression and buffers equals the run, and the run the concatenation of the outcome of each rule alone, which `ProjectRules.ProjectRuleLeaves` spells out |
| ProjectRules.RunOne | src/engine/project-rules.ts:135-198 | One rule in the middle of a run: its findings are stamped if it returns and replaced by the crash report if it throws |
| ProjectRules.RecordFailures | src/engine/project-rules.ts:87-95 | The package failure and every resolution failure are recorded as skipped checks |
| ProjectRules.SuppressedExactly | src/engine/project-rules.ts:96-133 | An enabled rule is suppressed exactly if it is one of the three unused-* rules and incompleteness reasons were given or the graph has failures |
| ProjectRules.ReasonsExact | src/engine/project-rules.ts:96-102 | The reasons are the given ones, then path and cause of every failure of the graph in order, with a dot for the scan root |
| ProjectRules.FailuresRecorded | src/engine/project-rules.ts:87-95 | The skipped checks recorded first: the package failure, then every failed resolution with path and cause, in order |
| ProjectRules.ProjectRuleLeaves | src/engine/project-rules.ts:104-199 | Field by field what one project rule leaves: nothing, the suppression with all reasons, one diagnostic per own finding in order, or the crash report at the scan root |
| ProjectRules.IncompleteGraphSilences | src/engine/project-rules.ts:120-133 | With any unread or unresolved file given or any failure of the graph each of the three unused-* rules reports nothing and is skipped once per enabled rule |
| ProjectRules.ProjectCrashLeavesNoFindings | src/engine/project-rules.ts:148-175 | A crashing project rule leaves exactly one internal warning at the scan root and one skipped check between what the rules before and after it leave, whatever it had pushed before |
| ProjectRules.ProjectRulesAreIsolated | src/engine/project-rules.ts:20-26 | However one project rule behaves, everything about the others stays as it is |
| ProjectRules.UnusedFilesReported | src/engine/project-rules.ts:104-199 | Without given reasons and without failures of the graph an enabled unused-file rule leaves a diagnostic for a file exactly if there is an entry and none reaches it |
| Scan.RunScan | src/core/scan.ts:51-200 | The stages in order: files in scope, early skips, file rules, lines filter, project rules or their visible skip, global sort; what the resulting report holds is pinned by `ScanProperties` and `ScanReports` |
| Scan.KeepChanged | src/core/scan.ts:138-152 | The filter keeps, in order, the diagnostics of files without ranges and those inside a range |
| ScanProperties.LinesScopeReportsAddedLines | src/core/scan.ts:135-152 | From diff text to report: the lines scope reports exactly what the file rules find in the collected files of the scope, on untracked files and on added lines |
| ScanProperties.GivenIsAnalyzed | src/core/scan.ts:71-77 | The parsed files are the collected ones that the scope holds, each in its place; without a scope all of them |
| ScanProperties.PartialReportExactly | src/core/scan.ts:135-152 | A partial scan reports exactly what the file rules find in the collected files of its scope; the lines mode drops what is on no changed line, the other modes drop nothing |
| ScanProperties.PartialScanStaysInScope | src/core/scan.ts:71-77 | If the parser returns only files it was given, every diagnostic of a partial scan lies on a collected file of the scope |
| ScanReports.FullReportExactly | src/core/scan.ts:122-178 | A full scan reports exactly what the file rules find on the collected files and what the project rules find on the import graph of those files |
| ScanReports.UnreadFilesSilence | src/core/scan.ts:154-172 | After any failure to read or resolve a full scan reports nothing of the unused-* kind |
| ScanReports.SkipsInOrder | src/core/scan.ts:88-178 | Everything a scan skips is listed: unread and unresolved files with path and cause, framework detection, application model, file rules, then the project stage or the text that names the scope |
| ScanReports.ReportFrame | src/core/scan.ts:180-200 | A report is complete exactly without a scope, lists the parsed files in lexicographic order, and is ordered by file, line, column and rule |
| ScanProperties.LinesReportIsFilteredReport | src/core/scan.ts:135-152 | The lines report is the changed-files report, filtered: nothing moves and nothing is added |
| ScanProperties.FilterCommutesWithSort | src/core/scan.ts:138-152 | Filtering before or after the global sort gives the same list |
| ScanReports.PartialScopesSkipProjectRules | src/core/scan.ts:154-179 | A scan is complete exactly without a scope; a partial scan holds file-rule diagnostics only and says that project rules were skipped |

## Left out

- Strings are sequences of characters ordered by code point; JavaScript compares UTF-16 code units, which differs only between supplementary characters and those from U+E000 to U+FFFF.
- Path arithmetic: `path.resolve`, `path.dirname`, `path.extname` and `path.relative` are functions of which only determinism is used (`PathOps`, `Reporting`).
- Module specifiers and resolution evidence are inputs: evidence is a finite map per source, so a resolver that answers differently when asked twice is not covered.
- Duplicate source paths: `OrderIsIrrelevant` is stated for distinct paths, as the analyzed set has them; the graph itself is built for any list.
- Durations are integers in thousandths of a millisecond: floating-point rounding inside sums and in the rank `p / 100 * n` is not modelled; averages are rounded halves up in exact arithmetic.
- The JSON text of the event log: a line is already classified when the model reads it.
- Status codes and collection keys are values instead of JSON texts; statuses are a list sorted by code instead of an object.
- One process: the logs of several processes are interleaved in the findings (`FindingsProperties.DocumentOrderFree`), while the collector steps are those of one process.
- The other collectors of the hook (blocking calls, loop lag, memory) appear only as steps that write lines of other kinds.
- The JavaScript mechanics of the hook: property descriptors, proxies, asynchronous context propagation. The context of a query is part of the step, and a failure to extend or to assign is a choice of the step.
- Numbers in hunk headers are unbounded; beyond 2^53 the original loses precision.
- The `edge === undefined`, `frame` and `member === undefined` guards of the component search are unreachable and have no counterpart.
- The wording of findings, and the search for import nodes in a syntax tree: positions of nodes are inputs.
- What a rule reports is a function of the rule and of what it is given; state that rules share outside their contexts is not modelled.
- Severity values, exit codes, option parsing, registry uniqueness, diagnostic ids and entry-file discovery: single steps, taken as inputs or functions.
- Parsing of sources, framework detection, the extraction of the Nest model, file collection and git: inputs of the scan (`Scan.Engine`).
- Consumers per file and the rules that read provider cycles add position look-ups only.
