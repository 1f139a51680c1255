# Verified model of the dead-code engine

A model, in Dafny, of how the system decides which code is dead. Three connected
pieces carry most of the work:

* **The dead-tests query and reachability.** A graph of declarations, modules and
  tests is walked to find the tests that exercise nothing production uses, and
  what only those tests keep alive. One worklist interleaves a backward and a
  forward walk over two visited sets; it is proved to compute a mutually
  recursive least fixpoint, in linear work. Every other traversal (the builder's
  walk, the loaded graph's walk, the forward closure) is proved equal to one
  declarative closure: what all closed sets around the seeds have in common.
* **The dead-region analyser.** A three-valued folder, a per-scope table of
  known truth values built by chaotic iteration, and a walker that marks
  statements that can never run. Statements have a big-step, trace-producing
  semantics driven by a stream of choices (Python Language Reference, sections
  6.11, 7.3 and 8.1 to 8.5; PEP 572). No run in which the expected facts hold
  starts anything inside a marked range. The expected facts are named one by one
  in the trace: reads of tabled names agree with the table, displays with entries
  are not empty, context managers do not swallow exceptions, asserts are enabled.
  For each of them a run that breaks it is exhibited. The converse holds
  too: an expression left unfolded has runs of both truths, and in suites without
  the listed obstacles whatever is not reported is started by some faithful run
  (`FoldingExactness`, `DeadExactness`, `DeadReach`). Agreement with the table is
  then derived: when each read of a tabled name sees a value some collected
  binding of it had put there, it sees the tabled truth (`BoundTruth`), because
  each binding's value folds, under what its evaluation read, to the entry the
  chaotic iteration settled on. A condition on the source (`BindingDiscipline`)
  makes sure that the bindings a run makes are the collected ones.
* **The graph builder.** Deduplicated edges (sorted prefix plus overflow set),
  two adjacency tables filled by two different partitioned scatters, stable
  indices under tombstoning, and a batch applier that reorders flag writes. The
  fast paths are proved to leave exactly what one-at-a-time insertion leaves,
  for every worker count and every order of the workers.

Around them: wiring of click command groups, following names through star
re-exports with the recorded read set, the memoised walk that finds which
modules a name can denote, and saving and loading with compaction.

Files that change state in the program are classes and loops here (`Builder`,
`LoadedGraph`, `Walker`, `ModuleValueWalk`, and the methods of `DeadTests`,
`Scatter`, `ReverseScatter`, `ScopeTable`, `ClickGroups`, `ExportsChain`,
`GraphFile`), each proved against a specification about which the properties are
lemmas. `dafny verify dfyconfig.toml` checks the whole project.

Where the code and its comments disagree, the model follows the code:

* A dead test is not always in the answer of the dead-tests query
  (python/dead_cst/analyze.py:155-157): `DeadTestProperties.DeadTestMayGoUnreported`
  gives one, `DeadTestProperties.DeadTestReportedIff` names the ways out, and
  `DeadTestPromise.PromiseHoldsIff` says for which nodes and flags no edges open one.
* What a live test reaches does not always stay out, nor is taking the answer out
  always unnoticed (python/dead_cst/analyze.py:143-145, 158-159), when a test is no
  seed: `DeadTestShadows.LiveTestMayBeReported`, `DeadTestShadows.LiveReachStaysOutIff`,
  `DeadTestRemoval.RemovalIsSafeIff`.
* Dropping "every seed whose flags carry any bit"
  (python/dead_cst/analyze.py:845-848) is not what masking the seed bits does to
  a node seeded twice: `KeptAlive.MaskingIsDroppingIff`.
* "Earlier ops in the batch still land" (runtime/src/builder.rs:697-699) holds
  of edges, not of flags: `GraphBuilder.EarlierFlagsLandIff`.
* The poison set is not a convergence guarantee (runtime/src/helpers.rs:1809-1812):
  `ScopeTableTermination.RingNeverEnds`.
* `[*xs]` is folded to true, and is false when `xs` is empty
  (runtime/src/helpers.rs:1742-1745): `FoldingLimits.DisplayFoldingExact`.
* A value that reaches its own definition again can denote modules through that
  path (runtime/src/helpers.rs:537-540), and then without end:
  `ModuleCycles.FiniteAnswerIffNone`.
* `match` is listed among the terminators (runtime/src/helpers.rs:1670-1673) but
  is never one; which ones would qualify is `FoldingLimits.MatchTerminatesIff`.

## Model

| member | source | states |
|---|---|---|
| DeadTests.DeadTestIndices | python/dead_cst/analyze.py:122-211 | the answer is what all seeds reach minus what the seeds other than dead tests reach, a test being dead when nothing it exercises is in the least set of live code; at most 3·nodes + 2·edges pops |
| DeadTests.MarkLive | python/dead_cst/analyze.py:170-200 | the interleaved worklist ends with exactly the nodes whose module-stopping closure meets live code, in linear work although both walks share one stack and `exercised` is never reset |
| DeadTests.LiveCodeIsLeast | python/dead_cst/analyze.py:177-184 | live code contains production-reachable code, is closed under "a test that meets it adds what it exercises", and is contained in every such set |
| DeadTests.WorkEnds | python/dead_cst/analyze.py:185-200 | when both walks run dry their invariant forces `live` to be that fixpoint's nodes |
| DeadTests.ForwardClosure | python/dead_cst/analyze.py:101-119 | the closure of the roots under the arcs of expanded nodes |
| DeadTestProperties.ReportedIffOnlyDeadTestsReach | python/dead_cst/analyze.py:202-211 | a node is reported exactly when a seeded dead test reaches it and no surviving seed does |
| DeadTestProperties.NothingSurvivingIsReported | python/dead_cst/analyze.py:165-211 | with the testcase bit among the test seed bits, nothing reached from a production seed, a fixture seed or a seeded live test is reported |
| DeadTestProperties.ProductionMissesDeadTests | python/dead_cst/analyze.py:139-154 | production never reaches the code of a dead test |
| DeadTestProperties.LiveTestsMissDeadTests | python/dead_cst/analyze.py:139-154 | no live test's own walk reaches the code of a dead test |
| DeadTestProperties.ReachIsExerciseAndModules | python/dead_cst/analyze.py:147-153 | what a node reaches is what it exercises together with what the modules among that reach |
| DeadTestProperties.DeadTestMayGoUnreported | python/dead_cst/analyze.py:155-157 | a graph in which a seeded dead test is left out of the answer |
| DeadTestProperties.DeadTestReportedIff | python/dead_cst/analyze.py:155-159 | a dead test, seeded or not, is reported exactly when some seeded dead test reaches it, no fixture seed does, and no module exercised by a seeded live test does (for one that is no code: nor production or a live test directly) |
| DeadTestProperties.EveryDeadTestReported | python/dead_cst/analyze.py:155-159 | when no module leads to another node and every seed is production code or a test, every seeded dead test that is code is reported |
| DeadTestProperties.LinkedTestIsLive | python/dead_cst/analyze.py:188-200 | in any graph, a test joined through a node that is no module to a function, class, variable or type alias that production reaches is not dead |
| DeadTestProperties.LinkedTestIsDeadIff | python/dead_cst/analyze.py:170-200 | over all pairs of kinds: a test joined through a link to what production reaches is dead exactly when the link is a module or the other end is none of the four code kinds |
| DeadTestPromise.PromiseHoldsIff | python/dead_cst/analyze.py:155-159 | with the testcase bit among the test seed bits, the docstring's promise, that the answer includes each dead test, holds for all edges between given nodes exactly when every test is a seed, no seed is beside a test that is no code, no fixture seed is beside a code test, and no second seeded test, module, production seed and further code could hide one |
| DeadTestShadows.LiveTestMayBeReported | python/dead_cst/analyze.py:158-159 | a graph in which a live test that is no seed is itself reported |
| DeadTestShadows.SeededTestsKeepTheirReach | python/dead_cst/analyze.py:158-159 | when every test is a seed, nothing any live test reaches is reported |
| DeadTestShadows.LiveReachStaysOutIff | python/dead_cst/analyze.py:158-159 | what live tests reach stays out, for all edges between given nodes, exactly when their kinds and flags leave no room for an unseeded live test and a seeded dead one that lead to a common unseeded node which is no code |
| DeadTestRemoval.LiveTestsStayLive | python/dead_cst/analyze.py:143-145 | unless a live test exercises something reported, taking the reported nodes out leaves live code the same, leaves live tests live and exercising what they did, and leaves as dead the dead tests not reported |
| DeadTestRemoval.SurvivorsAreNotDisturbed | python/dead_cst/analyze.py:143-145 | in every graph each surviving seed still reaches exactly what it did |
| DeadTestRemoval.SecondQueryReportsNothing | python/dead_cst/analyze.py:143-145 | unless a live test exercises something reported, a second query reports nothing |
| DeadTestRemoval.UndisturbedIff | python/dead_cst/analyze.py:143-145 | for one graph: survivors and live tests are undisturbed and a second query reports nothing exactly when no live test exercises anything reported |
| DeadTestRemoval.RemovalIsSafeIff | python/dead_cst/analyze.py:143-145 | for all edges between given nodes: the same exactly when the nodes leave no room for such a live test, and so whenever every test is a seed |
| Closures.ForwardBackward | python/dead_cst/analyze.py:817-831 | walking forward from s finds d exactly when walking backward from d finds s |
| Closures.ClosureIsPaths | runtime/src/builder.rs:610-639 | membership in a closure is the existence of a path of arcs from a root |
| Reachability.Bfs | runtime/src/builder.rs:613-639 | the builder's walk, in either direction, returns the closure of the seeds over the unskipped arcs |
| Reachability.LoadedGraph.constructor | python/dead_cst/graph.py:73-89 | the adjacency lists are the edge list seen from each node, in order, and the default mask is the registry's |
| Reachability.LoadedGraph.Reachable | python/dead_cst/graph.py:122-149 | the walk that filters at the pop returns the same closure, from every node carrying a seed bit |
| Reachability.SeedMaskFromRegistry | python/dead_cst/graph.py:41-49 | a bit is in the mask exactly when an entry that seeds by default carries it |
| Reachability.EntryCounts | python/dead_cst/graph.py:41-49 | an entry adds its bit to the mask exactly when it seeds and is on by default |
| KeptAlive.KeptAliveByFlagsOnly | python/dead_cst/analyze.py:844-856 | reached with all seed bits, not reached with the given bits masked away |
| KeptAlive.KeptAliveByDeadBranches | python/dead_cst/analyze.py:833-842 | reached over all edges, not reached over those outside dead branches |
| KeptAlive.MaskingIsDroppingIff | python/dead_cst/analyze.py:844-850 | masking seed bits equals dropping every carrying seed, for all edge lists, exactly when no node carries one of the bits and another seed bit |
| KeptAlive.OnlyByDeadBranchesMeans | python/dead_cst/analyze.py:833-842 | kept alive only by dead branches: some path leads there and every path uses an arc found only in dead branches |
| KeptAlive.SkippingMoreReachesLess | runtime/src/builder.rs:629-632 | enlarging the skip mask never adds a node |
| Graph.SkippedIffABitIsShared | runtime/src/builder.rs:629-632 | an edge is skipped exactly when one of its eight bits is a bit to skip |
| KeptAlive.DescendantIffAncestor | runtime/src/builder.rs:602-639 | d is a descendant of s exactly when s is an ancestor of d, under the same skip mask |
| Folding.FoldingIsSound | runtime/src/helpers.rs:1722-1796 | whatever an expression folds to is what every faithful run of it that yields a value yields |
| FoldingExactness.FoldingIsExact | runtime/src/helpers.rs:1730-1796 | an expression whose integers fit 64 bits folds to a truth value exactly when all its faithful runs that yield a value yield that one: nothing that could be known is left unknown |
| FoldingExactness.IntegersFold | runtime/src/helpers.rs:1735-1738 | an integer literal is folded exactly when it lies in the signed 64-bit range |
| DeadRegionSafety.SuiteIsGood | runtime/src/helpers.rs:1492-1721 | by mutual induction over all statement forms: a faithful run of a suite stays off its dead ranges, and does not complete normally if the suite terminates |
| DeadRegionSafety.TerminatorNeverCompletes | runtime/src/helpers.rs:1667-1721 | a suite with a terminator never completes normally |
| DeadRegionSafety.DeadNeverRuns | runtime/src/helpers.rs:1492-1596 | no faithful run starts a statement, or tries a clause, inside a dead range |
| DeadRegionSafety.TryIsGood | runtime/src/helpers.rs:1705-1714 | the same for try/except/else/finally, a terminating `finally` or a terminating body with terminating handlers included |
| DeadRegionSafety.WhileIsGood | runtime/src/helpers.rs:1549-1566 | the same for every number of turns of a loop, with break, continue and else |
| DeadExactness.TerminatorIffNeverCompletes | runtime/src/helpers.rs:1667-1721 | for every statement form without the obstacles listed in `Open` (a known `elif` test, a `while` known true, an `else` that cannot complete, a catch-all case or one that is not last among handlers): a terminator exactly when no faithful run completes normally |
| DeadExactness.SuiteTerminatesIffNeverCompletes | runtime/src/helpers.rs:1667-1721 | the same of suites |
| DeadExactness.BrokenLoopCompletes | runtime/src/helpers.rs:1670-1720 | a loop whose body breaks has a faithful run that completes, whatever its test folds to unless false, so no loop of this form is a terminator |
| DeadCoverage.AfterJumpIsDead | runtime/src/helpers.rs:1492-1507 | each statement after a return, raise, break or continue in its suite is reported |
| DeadCoverage.AfterJumpIsCovered | runtime/src/helpers.rs:1492-1596 | in every suite of a module, nested scopes included, such a statement lies in a range reported for the module |
| DeadCoverage.SuiteCovers | runtime/src/helpers.rs:1509-1596 | whatever is dead in some nested suite, under its own scope's table, is covered by what is reported for the suite around it |
| DeadReach.ReportedIffNeverRuns | runtime/src/helpers.rs:1492-1596 | in suites where whatever precedes a statement is a terminator or can complete (`Fair`), a statement or clause at any depth is covered by what is reported exactly when no faithful run starts it |
| DeadOrder.SuiteInOrder | runtime/src/helpers.rs:1492-1596 | the reported ranges come in source order and do not overlap, so none is reported twice |
| RegionWalker.DetectDeadRanges | runtime/src/helpers.rs:1484-1490 | the ranges collected scope by scope are the specified ones, nothing in them is started by a faithful run of the module, and an answer is given whenever every scope's table settles within the rounds allowed; what must be reported is `DeadReach.ReportedIffNeverRuns` and `DeadCoverage.AfterJumpIsCovered` |
| ScopeSettling.TameModuleIsAnswered | runtime/src/helpers.rs:1484-1596 | every table settles, so the module is answered, when each scope rebinds no name of the scopes around it or has no chain of bindings too long for the rounds allowed |
| ScopeSettling.AcyclicIsTame | runtime/src/helpers.rs:1818-1857 | a scope whose bindings form no cycle meets that condition with one round more than it has names |
| ScopeSettling.RingModuleIsNeverAnswered | runtime/src/helpers.rs:1484-1490 | the module `B = True; def f(): A = B; B = C; C = A` gets no answer, with the map order A, B, C, for any number of rounds |
| ScopeSettling.MoreRoundsSameAnswer | runtime/src/helpers.rs:1818-1857 | a module answered within some number of rounds has that same answer for every larger number, hence for the unlimited loop |
| ScopeSettling.ConstantInScope | runtime/src/helpers.rs:1839-1854 | in every scope of a module, shadowing a tabled constant by its opposite leaves the name untabled, and a constant that repeats it or is new is tabled |
| ScopeSettling.UnboundInScope | runtime/src/helpers.rs:1813-1821 | a name a scope does not bind keeps what the scope around it has for it |
| BoundTruth.SuiteWrites | runtime/src/helpers.rs:1730-1796 | in every run, a value whose evaluation went as expected is bound with the truth its expression folds to |
| BoundTruth.EntriesComeFromBindings | runtime/src/helpers.rs:1798-1858 | a tabled entry, inherited or not, is what every collected binding of the name in its home scope folds to there |
| BoundTruth.OrderlyRunsAreFaithful | runtime/src/helpers.rs:1798-1858 | the tables are right: if each read of a tabled name sees what some collected binding had put there, in any timing in which values are evaluated before they are bound, every read sees the tabled truth |
| BoundTruth.ReportedNeverRuns | runtime/src/helpers.rs:1484-1596 | nothing reported for a module is started by a run whose tabled names are bound only by collected bindings, without any assumption on the tables' values |
| BindingDiscipline.ExecSuiteKeeps | runtime/src/helpers.rs:1865-1945 | every binding a run makes is one that stands in the source, in nested blocks, clauses, handlers or expressions |
| BindingDiscipline.PlainRunsAreOrderly | runtime/src/helpers.rs:1798-1858 | in a module that binds collected names by collected bindings only, a run whose reads of tabled names see earlier writes sees collected bindings |
| BindingDiscipline.DisciplinedReportedNeverRuns | runtime/src/helpers.rs:1484-1596 | nothing reported for such a module is started by such a run: a condition on the source, with nothing said of the tables' values or of what is bound |
| BindingLimits.NestedBindingRevives | runtime/src/helpers.rs:1865-1906 | `x = False; if c: x = True; if x: pass` reports the `pass` and has a run that starts it, because nested bindings are not collected, for every sufficient number of rounds |
| OrderlyRuns.OrderlyRunReads | runtime/src/helpers.rs:1865-1906 | an orderly run that reads a tabled name, so the previous results are not empty |
| OrderlyRuns.OnlyThePlainBindingIsDisciplined | runtime/src/helpers.rs:1865-1906 | the condition on the source accepts `x = False; if x: pass` and refuses the nested binding above |
| RegionWalker.Walker.WalkSuite | runtime/src/helpers.rs:1492-1507 | appends exactly the suite's dead ranges, in order |
| RegionWalker.Walker.WalkCompound | runtime/src/helpers.rs:1509-1596 | appends exactly the statement's dead ranges, nested scopes under their own tables |
| RegionWalker.Walker.WalkClauses | runtime/src/helpers.rs:1527-1547 | clauses after one known to be taken are dead as wholes |
| FoldingLimits.DisplayFoldingExact | runtime/src/helpers.rs:1742-1745 | folding a display is right for all runs exactly when it is empty or has an entry that is not an unpacking |
| FoldingLimits.PlanYields | runtime/src/helpers.rs:1730-1796 | every expression has a faithful run that yields a value, so soundness is not empty |
| FoldingLimits.SwallowedExceptionRevives | runtime/src/helpers.rs:1704-1704 | a run in which a swallowed exception reaches code reported dead, all other expected facts holding |
| FoldingLimits.DisabledAssertRevives | runtime/src/helpers.rs:1677-1677 | a run in which a disabled assert lets code reported dead run |
| FoldingLimits.MatchTerminatesIff | runtime/src/helpers.rs:1670-1716 | a `match` is never a terminator; one whose arms all terminate never completes exactly when some arm catches everything |
| ScopeTable.CollectScopeBindings | runtime/src/helpers.rs:1865-1945 | the loop over a suite collects each name's bindings in order |
| ScopeTable.ScopeCollected | runtime/src/helpers.rs:1859-1945 | an expression is collected for a name exactly when a top-level statement assigns it or holds such a walrus under operators and comparisons |
| ScopeTable.ScopeExtends | runtime/src/helpers.rs:1865-1945 | statements are collected in order: what a later one adds to a name comes after what earlier ones added |
| ScopeTable.BuildScopeTable | runtime/src/helpers.rs:1813-1858 | the nested loops compute the rounds of the specification, for every visit order; what those leave is `ScopeTable.ConstantName`, `ScopeTable.DisputedName` and `ScopeTable.ExitIsSettled` |
| ScopeTable.MoreRounds | runtime/src/helpers.rs:1818-1857 | a result reached is the result however many more rounds are allowed |
| ScopeTable.ExitIsSettled | runtime/src/helpers.rs:1818-1857 | at any exit each bound, unpoisoned entry is what all its bindings fold to under the final table, poisoned names are absent, unbound names keep their entry |
| ScopeTable.SettledEntries | runtime/src/helpers.rs:1824-1838 | a settled, unpoisoned name is tabled with a value exactly when it has bindings and each of them folds to it |
| ScopeTable.ConstantName | runtime/src/helpers.rs:1839-1854 | for every visit order and budget with an answer, a name whose bindings are one constant is tabled with it, unless the opposite is inherited: then it is poisoned and untabled |
| ScopeTable.DisputedName | runtime/src/helpers.rs:1839-1854 | a name whose bindings never agree loses an inherited entry, without being poisoned |
| ScopeTable.FoldingIsMonotone | runtime/src/helpers.rs:1730-1796 | knowing more names never changes or loses a folded value |
| ScopeTable.FreshScopeGetsLeastTable | runtime/src/helpers.rs:1813-1858 | a scope that rebinds no inherited name ends for any budget above its number of names, in the result of that many rounds plus one; no visit removes or poisons an entry, and the table is the least its bindings call for |
| ScopeTable.FreshScopeOrderIsIrrelevant | runtime/src/helpers.rs:1822-1823 | its table depends neither on the order in which the map yields names nor on the budget |
| ScopeTableTermination.AcyclicScopeEnds | runtime/src/helpers.rs:1818-1857 | when no chain of dependent bindings has more than `top` steps the loop ends within `top + 2` rounds, for any enclosing table and any larger budget |
| ScopeTableTermination.ScopeWithoutCyclesEnds | runtime/src/helpers.rs:1818-1857 | without a cycle among its bindings a scope settles within its number of names plus one rounds |
| Ranking.ChainsGiveRanks | runtime/src/helpers.rs:1794-1797 | the nodes of a finite relation from which all chains are short can be ranked, each by its longest chain; used for bindings and for definitions |
| ScopeTableTermination.RankSettlesByItsRound | runtime/src/helpers.rs:1818-1857 | names of rank k never change after round k + 1 |
| ScopeTableTermination.RingNeverEnds | runtime/src/helpers.rs:1839-1854 | `A = B; B = C; C = A` under an inherited `B` never settles, however many rounds are allowed |
| EdgeStore.BinarySearch | runtime/src/builder.rs:356-362 | finds a triple exactly when the sorted prefix holds it |
| EdgeStore.OrderIsLexicographic | runtime/src/builder.rs:356-362 | the order searched by is total: source, then destination, then flags |
| EdgeStore.OneByOneGivesTheList | runtime/src/builder.rs:387-401 | inserting a duplicate-free list one by one gives the list |
| GraphBuilder.Builder.HasEdge | runtime/src/builder.rs:356-362 | true exactly when the triple is in the edge list |
| GraphBuilder.Builder.AddEdge | runtime/src/builder.rs:364-376 | appends an absent triple and keeps prefix, overflow set and both tables in step with the list |
| GraphBuilder.Builder.ExtendEdges | runtime/src/builder.rs:387-401 | inserts the triples in order, skipping those present |
| GraphBuilder.Builder.InitEdgesBulk | runtime/src/builder.rs:424-449 | for every worker count, the list is the triples and each adjacency row is the list seen from its node, in order |
| GraphBuilder.Builder.ResetDerivedEdges | runtime/src/builder.rs:264-277 | leaves an edge-less builder with empty rows for all nodes |
| Scatter.ScatterAdjacency | runtime/src/builder.rs:541-593 | whatever order the windows are worked in, each slot gets its node's run; the log of writes holds each slot with a run once and no other, and slots without a run are left alone |
| Scatter.CutChunks | runtime/src/builder.rs:550-564 | the chunks partition the rows and no node's run straddles two of them |
| Scatter.CarveWindows | runtime/src/builder.rs:565-578 | the windows partition the table and each window's rows include all edges of its slots |
| ReverseScatter.ScatterReverse | runtime/src/builder.rs:466-528 | whatever order the windows are worked in, each slot gets its incoming edges in list order |
| ReverseScatter.Histogram | runtime/src/builder.rs:473-494 | the per-chunk counts add up to each node's number of incoming edges |
| EdgeRuns.Replay | runtime/src/builder.rs:264-277 | over every allowed run of bulk, add, extend and reset: no duplicates, and both tables are the in-order projections of the list |
| EdgeRuns.BulkEqualsOneByOne | runtime/src/builder.rs:422-424 | a bulk load and one-at-a-time insertion lead to the same list, now and after every later run |
| EdgeRuns.ExtendIsRepeatedAdd | runtime/src/builder.rs:378-401 | extending is adding one after another |
| GraphBuilder.Builder.TombstoneBlock | runtime/src/builder.rs:279-296 | blanks its block, leaves every other slot and the node count alone, and keeps the anchors consistent |
| GraphBuilder.Builder.InternNode | runtime/src/builder.rs:298-310 | the key is the name, kind, file and all four positions; returns the index of an equal key, tombstoned or not, or appends; a slot returned that is not tombstoned holds a node that agrees with the argument on all of these; interning a node that is not external keeps the anchors consistent |
| GraphBuilder.KeysIdentify | runtime/src/builder.rs:73-83 | two nodes share a key exactly when file, name, kind and the four positions agree |
| AnchorRuns.InternPair | runtime/src/builder.rs:298-310 | two nodes interned in a row get one index exactly when file, name, kind and positions agree, whatever their flags, paths and imports |
| GraphBuilder.Builder.InternExternal | runtime/src/builder.rs:329-354 | one index per external name, revived in place when tombstoned |
| AnchorRuns.Replay | runtime/src/builder.rs:287-354 | over every run of interning externals, interning other nodes and tombstoning, a name keeps its first index, every request returns it, and no node is removed |
| AnchorRuns.LiveAnchorsHaveDistinctNames | runtime/src/builder.rs:329-354 | two live external nodes never share a name |
| GraphBuilder.Builder.ApplyPreparedBatch | runtime/src/builder.rs:700-767 | success is every op in range; then an edge is in the list exactly when it was or the batch adds it, old edges come first and new ones in order of first request, and each node has gained exactly the bits flagged for it, the entrypoint bit included, with nothing else changed; on failure the edges before the first bad op have landed, no flag has changed, and the answer is an index of that op that is out of range, the source's first |
| GraphBuilder.PermutedOrsAgree | runtime/src/builder.rs:725-766 | flag ORs in any permutation leave the same nodes |
| GraphBuilder.InOrderSplits | runtime/src/builder.rs:725-766 | edges first and flags afterwards is the same as the ops in order |
| GraphBuilder.InOrderLands | runtime/src/builder.rs:725-766 | the ops applied one at a time leave those edges and bits |
| GraphBuilder.EarlierFlagsLandIff | runtime/src/builder.rs:697-699 | on failure the nodes are as if the earlier ops had landed exactly when none of them asked for a new bit |
| ClickGroups.RunOnFile | runtime/src/native_plugins.rs:3723-3750 | the loop ends, emits each edge once, and the edges are the least set closed under wiring handlers and promoting wired subgroups |
| ClickGroups.LeastIsUnique | runtime/src/native_plugins.rs:3730-3735 | neither the order of handlers nor that of groups matters |
| ClickGroups.WiredIffNested | runtime/src/native_plugins.rs:3723-3750 | an edge is wired exactly when its source is a declared group, or a subgroup of a subgroup down from one, and its target is decorated by that name |
| ExportsChain.WalkExportsChain | runtime/src/file_payload.rs:919-961 | ends on every star-import graph; the answer is every local exported under the name at the end of the chain, in order, or nothing when that file does not export it or the chain is a cycle; records exactly the files of the chain |
| ExportsChain.World.HopsLeadOn | runtime/src/file_payload.rs:941-954 | the chain goes on exactly from files that re-export the name by a star import that resolves, and to where it resolves |
| ExportsChain.World.ExportsAtIsExports | runtime/src/file_payload.rs:955-960 | every local exported under the name, entry by entry, and nothing for a name not exported |
| ExportsChain.RecordedFilesDetermineTheAnswer | runtime/src/file_payload.rs:932-935 | a snapshot whose recorded files say the same about the name and resolve its star imports alike, other names and other modules aside, gives the same answer and the same record |
| ModuleValues.ModuleValuesForDef | runtime/src/helpers.rs:468-501 | the walk ends; all it finds has a finite derivation; when no chain of reads that starts at the definition is longer than the cap, and so none is a cycle, it finds everything that has one |
| ModuleValues.AcyclicFileIsShallow | runtime/src/helpers.rs:510-518 | a file of at most cap plus one definitions without a cycle of reads meets that condition |
| ModuleValues.ModuleValueWalk.ClassifyModuleValueDef | runtime/src/helpers.rs:633-718 | restores the active set, answers from the memo, expands no (definition, steps) pair twice, and decreases the definitions off the path |
| ModuleValues.ModuleValueWalk.ClassifyModuleValue | runtime/src/helpers.rs:578-624 | emits what the root's visible definitions, or a literal dynamic import, denote after the peeled and trailing steps |
| ModuleValues.ModuleValueWalk.ClassifyFunctionReturns | runtime/src/helpers.rs:548-575 | emits what the returned values denote, read from the body's scope |
| ModuleValues.PeelingLosesNothing | runtime/src/ingest.rs:611-632 | putting the peeled steps back on the root gives the expression, and the root is not an access |
| ModuleValues.DefUnfolds | runtime/src/helpers.rs:633-718 | the derivations of a definition's values, hop by hop |
| ModuleCycles.DenotedIffTrail | runtime/src/helpers.rs:633-718 | a definition denotes a module exactly when a trail of hops, each adding and consuming steps as assignments and calls do, leads to an import or dynamic import of it |
| ModuleCycles.FiniteAnswerIffNone | runtime/src/helpers.rs:537-540 | in any file, when a trail of hops through assignments and calls comes back to a definition with more steps, that definition has a finite answer exactly when it denotes no module at all |
| ModuleCycles.MutualRebindingGoesRound | runtime/src/helpers.rs:537-540 | two definitions that read each other with a step in between are such a trail |
| ModuleCycles.NoListIsTheWholeAnswerOnACycle | runtime/src/helpers.rs:537-540 | in any file, a name that may be an import and is rebound through itself denotes more values than any list holds |
| ModuleCycles.RebindingMissesAValue | runtime/src/helpers.rs:519-531 | the instance `import pkg as x; x = x.sub`: every list of values misses one |
| GraphFile.WriteGraph | runtime/src/io.rs:201-270 | packed edges, one record per live node against a duplicate-free path table holding exactly the live nodes' paths, and the file and line totals |
| GraphFile.ReadGraph | runtime/src/io.rs:362-407 | every record decoded, or the fault of the first one with an unknown kind or a path index out of range |
| GraphFile.LoadAfterSave | runtime/src/io.rs:201-262 | loading what was saved never fails and gives the graph without its tombstoned slots |
| GraphFile.PackingAFreshGraphIsIdentity | runtime/src/io.rs:201-206 | with nothing tombstoned the graph comes back unchanged, edge order included |
| GraphFile.RemapIsOrderedBijection | runtime/src/io.rs:207-217 | the remapping is an order-preserving bijection from the live slots onto the packed ones, node by node |
| GraphFile.PackedEdgeMembers | runtime/src/io.rs:218-222 | the saved edges are exactly the moved surviving ones |
| GraphFile.PackedEdgesInOrder | runtime/src/io.rs:213-222 | edges keep their order, one by one |
| GraphFile.ReachabilityCommutesWithPacking | runtime/src/io.rs:201-222 | when tombstoned slots have no flags and no edges, reachability from any mask commutes with packing |
| GraphFile.PackingReachesNoMore | runtime/src/io.rs:201-222 | packing never makes anything reachable, whatever tombstoned slots hold |
| GraphFile.LastLineIsTheMaximum | runtime/src/io.rs:254-261 | a file's line count is the greatest end line among its live nodes |
| GraphFile.LinesAreTheTotal | runtime/src/io.rs:254-266 | the total adds each distinct file's line count once, nodes without a file left out |
| GraphFile.InternKind | runtime/src/graph.rs:98-115 | the blank kind and unknown names are refused, and every written kind reads back |
| GraphFile.KindNames | runtime/src/graph.rs:98-115 | the seven names that are read, each of its kind, and no other |

## Left out

- project.rs, refspec.rs and string_fold.rs are not part of this model: the refold driver and the resolve cache that call the modelled operations are absent.
- Semantic index, parser, module resolver: given as total functions over files, names, scopes and definitions; a definition is taken to be found only under its own name.
- Threads, locks and the interpreter lock: parallel tasks are sequential work over disjoint windows, in an arbitrary order and for an arbitrary worker count; tables are sequences that windows are spliced into, so aliasing of slices is not captured, nor is capacity reservation.
- Hash map order is a parameter: `order` in the scope table, and an arbitrary choice in sets.
- ScopeTable.BuildScopeTable: takes a budget of rounds because the loop need not end; a result, once reached, is the same for every larger budget.
- RegionWalker.DetectDeadRanges: gives no answer when some table does not settle within the budget, where the program would go on, possibly for ever.
- BindingDiscipline.DisciplinedReportedNeverRuns: where a read of a tabled name can see a value no assignment or walrus in its scope put there (imports, parameters, `for` and tuple targets, class names seen from methods, `global`, containers mutated after being bound) nothing is claimed.
- Values of names: a read yields some truth value, constrained only through the bindings in the trace; there is no heap. Generators and `async` are absent; the patterns of `match` and the types of handlers are over-approximated (any case and any handler may be chosen, and one that catches everything is).
- Function calls stand at the `def`, any number of times; when they happened is the separate `time` of the trace. What a caller sees of a call's value is any value.
- Numbers: float literals are reals, integers of a literal are folded only when they fit 64 bits, as in the code; the narrowing of indices to 32 bits and of counts in files is not modelled, nor is flag width (a flag word is the set of its one bits).
- GraphBuilder.Builder.AddEdge: the debug assertion about tombstoned endpoints is not a precondition; edges to tombstoned slots are handled as the release build handles them.
- GraphBuilder.Builder.InternNode: the bulk pre-fill of node slots and the per-file blocks are left out, as are parts and base-flag refolding.
- ModuleValues.ModuleValueWalk.ClassifyModuleValueDef: under a cycle or the depth cap only soundness is claimed, because memo entries made there may be incomplete; collecting `return` values from a body and classifying bases and members (which share the depth cap) are left out.
- GraphFile.WriteGraph: bytes, the magic header, format versions, time stamps, user metadata and flag registries are left out; strings stand for themselves.
- DeadReach.ReportedIffNeverRuns: asks for `Fair` suites; `FoldingExactness.FoldingIsExact` for integers of 64 bits. Elsewhere only safety is claimed, and that what follows a jump is covered.
- ModuleValues.ModuleValuesForDef: says which values are found, not in what order nor how often each.
- ClickGroups.RunOnFile: says which edges are emitted, each once, not in what order; how decorators and constructors are recognised is left out; handlers, groups and links are given.
- Command line, progress reporting, packaging, codemods, per-framework plugin configuration, prefilters and `# noqa` parsing: plumbing, or easy next to the above.
