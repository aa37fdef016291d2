# Verified models of mariadb-shell's tooling and extension registry

This project models, in Dafny 4.11, the parts of mariadb-shell whose results rest on an algorithm, a protocol
or a shared data structure, and proves what they promise for all inputs.

- `LinearPartition`, `PartitionOrder`, `ChunkBalancer`, `ReachingDefinitions`, `ChunkIds`, `ChunkHeaders` and `ScriptBalancing` model
  `scripts/balance_chunk_groups.py`, which splits a test script into groups of chunks that run in parallel. The dynamic
  program is optimal, solving it over uncuttable blocks solves it over chunks, a group's run computes what the whole
  script computes, and balancing a balanced script changes nothing.
- `LptScheduler`, `LptTightness`, `SandboxRun`, `ExecutionPlan` and `TimingFile` model `scripts/run_unit_tests.py` and the plan reader
  of `scripts/plot_execution_plan.py`. The distribution of tasks over workers loses nothing and is within Graham's factor
  4/3 - 1/(3m) of any other, a factor that is attained for every m; both files read back as written exactly for the specs that are
  characterised.
- `ExtensionRegistry`, `RegistryNames`, `RegistryRuns`, `ParameterParsing` and `Reports` model the extension objects, the parser of
  parameter definitions and the options of reports (`modules/`). The registry is a heap of linked objects. Each call does to the values
  of the heap what a relation between states says. For all sequences of calls the heap keeps its invariant, and it is said exactly when
  they return and when the names of registered objects are distinct.
- `SummaryTree` models `docs-ref/sidebars.js`, which builds a tree by pushing onto aliased lists.
- `Text` and `Options` hold the string operations and the option type shared by the others.

Loops and in-place updates of the source are methods over arrays, classes and local variables; each is proved against a
function or a predicate, and the lemmas say what that function or predicate means. Durations and costs are real numbers.
I/O, clocks, the network and calls into code outside the repository are inputs: whether a sandbox deploys, which ports
are taken, whether a name is an identifier, which names a chunk defines and uses.

Some promises do not hold of the code on all inputs. Each has a member at a concrete input, and a member that says when
the promise is kept:

- The partition is documented as minimising the slowest group (`scripts/balance_chunk_groups.py:485-487`), but the code accepts anything
  within 1e-6 (line 503). `ToleranceCanMissTheOptimum` gives costs for which the result is not minimal. `StartsAreExactIff` says that it is
  minimal exactly when no split above the minimum, but within the tolerance, precedes all the best ones by squares and then by
  its starts; `HundredthsAreBalancedExactly` shows that the two decimals of timing files are enough.
- A chunk that runs in every group may use a name that a grouped chunk defines; no dependency is added for it.
  `UngroupedUseCanBeLost` shows a definition that the balancer's own result loses, `UngroupedUseIsPreservedIff` says exactly when it
  survives. For a grouped chunk `GroupedUseIsPreservedIff` does, and for whole executions `ExecutionIsPreservedIff`.
- A plan, or a timing file, gives back what was written exactly when every spec is readable: `PlanRoundTripIff` with
  `LookalikeIsConfused`, and `TimingRoundTripIff` with `CommentIsLost`.
- Two objects under one root can get the same qualified name for two reasons. A refused call replaces the definition of the object it
  refuses (`RefusedCallCanDuplicateAName`), and the name of a member object may hold a dot (`DottedNameCanDuplicateAName`). With dot-free
  names, the qualified names are distinct exactly when siblings have different names (`NamesAreDistinctIff`), and after a call names
  follow the keys, and so differ, exactly when the call did not give an attached, unregistered object another name than its key
  (`CallKeepsKeyedIff`). `Run` says both for whole runs.
- Two objects can be made each other's member (`TwoObjectsCanFormACycle`). They are never registered, and enabling the command
  line interface on them does not return (`CliOnACycleDiverges`), which the model reports as the verdict `Diverges`. `AddObject` and
  `AddFunction` say exactly when that happens, in terms of the state before the call. A run from rooted objects returns, and keeps them
  rooted, exactly when no call attaches an object beneath its own descendant (`RunReturnsIff`).
- A worker tears its sandbox down as often as it deploys it, unless deploying raises something other than the caught error, such as
  for a missing shell binary (`RaisingDeploymentIsNotTornDown`). `WorkerLoop` says that this is the only case.
- Parsing alone lets a required parameter follow an optional one with an empty name (`UnnamedOptionalIsAccepted`, `RequiredComeFirstIff`). The
  parameters of a function are also validated, and then the required ones always come first (`FunctionParametersAreOrdered`).
- Rewriting an empty group suffix can change the chunk's id (`EmptySuffixChangesId`). `IdIsKeptIff` says exactly when it does not: when a
  context or a USE part cuts the suffix off and no space in front hides a stream mark or a sign.

## Model

| member | source | states |
|---|---|---|
| `LinearPartition.BestMaxIsLowerBound` | scripts/balance_chunk_groups.py:496-502 | no split of the first i costs into k non-empty ranges has a smaller largest sum than cell (k, i) of the first table |
| `LinearPartition.BestMaxIsAttained` | scripts/balance_chunk_groups.py:496-502 | every finite cell is the largest sum of an actual split |
| `LinearPartition.BestSquaresIsLowerBound` | scripts/balance_chunk_groups.py:503-515 | no split within the bound has a smaller sum of squares than the second table's cell |
| `LinearPartition.ChoiceAttainsCell` | scripts/balance_chunk_groups.py:506-515 | the recorded choice of a finite cell points to a finite cell that it extends within the bound |
| `LinearPartition.WalkAttainsCell` | scripts/balance_chunk_groups.py:517-521 | walking the choices back from a finite cell gives a split that attains its squares within the bound |
| `LinearPartition.WalkVisitsReachedCells` | scripts/balance_chunk_groups.py:517-521 | the walk visits finite cells only |
| `LinearPartition.WalkFromUnreachedCell` | scripts/balance_chunk_groups.py:507-521 | with more ranges than costs the walk returns zeros only, as the tables were initialised |
| `LinearPartition.StartsAreBalanced` | scripts/balance_chunk_groups.py:484-521 | for 1 <= parts <= n the starts are a split whose largest sum is at most 0.000001 above the least possible and whose squares are least among all splits within that bound |
| `LinearPartition.ToleranceCanMissTheOptimum` | scripts/balance_chunk_groups.py:503-503 | five concrete costs for which 10 is the least largest sum and the returned split exceeds it |
| `PartitionOrder.NarrowerBoundSameWalk` | scripts/balance_chunk_groups.py:509-521 | if the walk under a wider bound stays within a narrower one, the second pass under the narrower bound gives the same starts, ties included |
| `PartitionOrder.StrictStartsAreExact` | scripts/balance_chunk_groups.py:503-521 | without the tolerance the starts have the least largest sum, and the least squares among those |
| `PartitionOrder.StartsAreStrictIff` | scripts/balance_chunk_groups.py:503-521 | the starts have the least largest sum, and the least squares among those, exactly when the second pass gives the same ones without the tolerance |
| `PartitionOrder.WalkIsFirst` | scripts/balance_chunk_groups.py:509-521 | among all splits within the bound the returned one is first by sum of squares and, for equal sums, by its starts compared from last to first |
| `PartitionOrder.StartsAreExactIff` | scripts/balance_chunk_groups.py:503-521 | the starts have the least largest sum m, and the least squares among those, exactly when no split with a largest sum above m, but within the tolerance, precedes in that order every split with largest sum m |
| `LinearPartition.StartsAreExactOnAGrid` | scripts/balance_chunk_groups.py:115-116 | costs that are multiples of a unit above 0.000001 are partitioned exactly |
| `LinearPartition.HundredthsAreBalancedExactly` | scripts/balance_chunk_groups.py:115-116 | two-decimal times, as timing files record them, are always partitioned exactly |
| `LinearPartition.PrefixSums` | scripts/balance_chunk_groups.py:488-491 | entry i of the array is the sum of the first i costs |
| `LinearPartition.FillBestMax` | scripts/balance_chunk_groups.py:496-502 | the nested loops fill the first table with the least largest sums |
| `LinearPartition.FillBestSquares` | scripts/balance_chunk_groups.py:505-515 | the nested loops fill the second table and its choices with the least squares within the bound |
| `LinearPartition.Compute` | scripts/balance_chunk_groups.py:484-521 | the whole computation gives, for 1 <= parts <= n, a split within 0.000001 of the least largest sum and with the least squares among those, and a split at all exactly when that many non-empty ranges exist |
| `ChunkBalancer.DependenciesOf` | scripts/balance_chunk_groups.py:430-436 | the dependencies found for a chunk are exactly those on the last earlier definers of the names it uses |
| `ChunkBalancer.Define` | scripts/balance_chunk_groups.py:437-438 | the updated table maps every name to its last definer so far |
| `ChunkBalancer.FindNameDependencies` | scripts/balance_chunk_groups.py:423-438 | the loop finds a dependency exactly where a grouped chunk uses a name last defined by an earlier grouped chunk |
| `ChunkBalancer.SpannedCuts` | scripts/balance_chunk_groups.py:633-639 | a cut is recorded exactly when some dependency spans it |
| `ChunkBalancer.ForbiddenCuts` | scripts/balance_chunk_groups.py:633-643 | a cut is forbidden exactly when a dependency spans it and the chunk after it carries no allow-cut marker |
| `ChunkBalancer.BlockRangeSum` | scripts/balance_chunk_groups.py:645-654 | a range of blocks costs what the chunks in it cost |
| `ChunkBalancer.BlockSplitIsAllowed` | scripts/balance_chunk_groups.py:645-656 | a split of the blocks is a split of the chunks that cuts at allowed positions only, with the same range sums |
| `ChunkBalancer.AllowedSplitIsBlockSplit` | scripts/balance_chunk_groups.py:645-656 | every split of the chunks that cuts at allowed positions only is a split of the blocks with the same range sums |
| `ChunkBalancer.BlocksRefineChunks` | scripts/balance_chunk_groups.py:645-656 | a balanced split of the blocks is, over the chunks, within 1e-6 of the best among all allowed splits and has the least squares among those |
| `ChunkBalancer.AllowedSplitFitsBlocks` | scripts/balance_chunk_groups.py:646-650 | no allowed split has more groups than there are blocks |
| `ChunkBalancer.BlocksAllowSplit` | scripts/balance_chunk_groups.py:646-650 | any number of groups up to the number of blocks is possible |
| `ChunkBalancer.GroupAtIsRange` | scripts/balance_chunk_groups.py:678-681 | every position is in one of the groups 1..N, inside that group's range |
| `ChunkBalancer.RangeIsGroupAt` | scripts/balance_chunk_groups.py:678-681 | every position of range k is in group k + 1 |
| `ChunkBalancer.GroupChangesAtStarts` | scripts/balance_chunk_groups.py:678-681 | groups are in file order and change exactly at the range starts |
| `ChunkBalancer.AssignGroups` | scripts/balance_chunk_groups.py:678-681 | the loops assign every grouped chunk, and no other, the group of its position |
| `ChunkBalancer.TimesOfGrouping` | scripts/balance_chunk_groups.py:621-681 | the times of the chunks of each group, 0 for a chunk without one, add up to the sums of the split the groups come from |
| `ChunkBalancer.BestSplitIsBestGrouping` | scripts/balance_chunk_groups.py:621-681 | the slowest group takes at most 0.000001 more than that of any assignment of the chunks to as many groups along allowed cuts, and no such assignment within that bound has less summed squares |
| `ChunkBalancer.Balance` | scripts/balance_chunk_groups.py:607-681 | each error is raised exactly under its condition, a block shortage exactly when no allowed split exists; otherwise every grouped chunk gets a group, and in terms of the chunks and their times alone the groups are best among all assignments along allowed cuts, up to 0.000001 for the slowest; the outcome is a function of the chunks, the dependencies, the times and the count |
| `ReachingDefinitions.DependencyStaysTogether` | scripts/balance_chunk_groups.py:633-656 | all grouped chunks of a dependency interval without markers are in one group |
| `ReachingDefinitions.SplittingPreservesDefinitions` | scripts/balance_chunk_groups.py:427-438 | without markers, each use of a grouped chunk has the same last definer in its group's run as in the full run |
| `ReachingDefinitions.UngroupedUseIsPreservedIff` | scripts/balance_chunk_groups.py:430-438 | a use of an ungrouped chunk has the same last definer in all groups exactly when that definer is not a grouped chunk |
| `ReachingDefinitions.EnvironmentHoldsLastDefinition` | scripts/balance_chunk_groups.py:19-31 | when a run executes, a name holds what its last definer computed from its own inputs |
| `ReachingDefinitions.GroupedUseIsPreservedIff` | scripts/balance_chunk_groups.py:427-438 | for any split, markers or not, a use of a grouped chunk keeps its last definer exactly when there is none, it is ungrouped, or no group starts between the two |
| `ReachingDefinitions.UnmarkedUsesAreNotCut` | scripts/balance_chunk_groups.py:633-656 | without markers no group starts between a use and its grouped definer |
| `ReachingDefinitions.SplittingPreservesExecution` | scripts/balance_chunk_groups.py:19-31 | for any split that cuts no use of a grouped chunk, and either a single group or ungrouped chunks that use ungrouped definitions, every chunk of a group's run reads the values it reads in the full run, whatever the chunks compute |
| `ReachingDefinitions.ExecutionIsPreservedIff` | scripts/balance_chunk_groups.py:19-31 | all chunks of all groups' runs read what they read in the full run, for every meaning of the chunks, exactly when the split cuts no use of a grouped chunk and, with two or more groups, ungrouped chunks use ungrouped definitions only |
| `ReachingDefinitions.UngroupedUseCanBeLost` | scripts/balance_chunk_groups.py:430-438 | three chunks for which the balancer's own result for two groups loses the definition that an ungrouped chunk uses, whatever the times |
| `ChunkHeaders.OneParenthesis` | scripts/balance_chunk_groups.py:96-96 | a text matched by the suffix pattern has no parenthesis but its first, so the suffix of a header is unique |
| `ChunkHeaders.SuffixReads` | scripts/balance_chunk_groups.py:96-96 | a parenthesis, spaces, digits, spaces, a parenthesis and spaces are a suffix with those digits |
| `ChunkHeaders.SuffixSplits` | scripts/balance_chunk_groups.py:96-96 | and every suffix has that form |
| `ChunkHeaders.SuffixIsGroup` | scripts/balance_chunk_groups.py:198-234 | a header that ends in a suffix, with a "#" or a "#" and a space before it or not, has its number as the group and the text before it as the id, or group 0 and the whole text if there is no number |
| `ChunkHeaders.NoSuffixNoGroup` | scripts/balance_chunk_groups.py:198-234 | a header without a suffix has no group, and its text is its id |
| `ChunkHeaders.RewrittenHeaderIs` | scripts/balance_chunk_groups.py:198-234 | a rewritten header has the new group and the id of the text before its suffix |
| `ChunkHeaders.RewrittenHeaderReads` | scripts/balance_chunk_groups.py:198-234 | rewriting a numbered suffix keeps the id and sets the group |
| `ChunkIds.SpaceHidesMark` | scripts/balance_chunk_groups.py:222-234 | spaces in front of a text change what is left of it exactly when the text begins with a stream mark or a sign |
| `ChunkIds.EmptySuffixKeepsIdIff` | scripts/balance_chunk_groups.py:214-234 | a text with an empty suffix and the stripped text before it have the same id exactly when a context or a USE part cuts the suffix off and no space in front hides a mark |
| `ChunkIds.ChunkIdReads` | scripts/balance_chunk_groups.py:214-234 | the id in a header made of a stream mark, spaces, a sign, a text, a USE part and a context is the text without spaces around it |
| `ChunkIds.PartsOf` | scripts/balance_chunk_groups.py:214-234 | every header text is made of such parts |
| `ChunkHeaders.EmptySuffixIds` | scripts/balance_chunk_groups.py:208-234 | with an empty suffix the id is that of the whole text before rewriting, and that of the text before the suffix afterwards |
| `ChunkHeaders.IdIsKeptIff` | scripts/balance_chunk_groups.py:198-234 | rewriting any header keeps its id exactly when it has no suffix, a numbered one, or an empty one that is cut off by a context or a USE part with no mark hidden |
| `ChunkHeaders.EmptySuffixChangesId` | scripts/balance_chunk_groups.py:208-234 | a header whose id rewriting an empty suffix changes |
| `ChunkHeaders.FindChunks` | scripts/balance_chunk_groups.py:237-245 | the loop over the lines cuts the script at the lines that begin with the token: these are the headers, in order, and the lines from one to the next are the code of its chunk |
| `ChunkHeaders.ChunksTile` | scripts/balance_chunk_groups.py:237-245 | the same of the chunks as a function of the lines |
| `ChunkHeaders.HeadersIncrease` | scripts/balance_chunk_groups.py:237-245 | the headers of the chunks are different lines in order |
| `ChunkHeaders.ChunksAreParsed` | scripts/balance_chunk_groups.py:237-245 | every chunk's id and group are those of the line it names as its header |
| `ChunkHeaders.RewriteHeaders` | scripts/balance_chunk_groups.py:696-699 | the loop rewrites exactly the header lines of the chunks with a new group |
| `ChunkHeaders.BalancedHasGroups` | scripts/balance_chunk_groups.py:696-699 | read back, a rewritten script has the new groups, and the ids, the code and the other chunks as before |
| `ChunkHeaders.BalancingIsStable` | scripts/balance_chunk_groups.py:696-702 | balancing a rewritten script again changes no line, for any balancer that judges chunks by id, code and being grouped |
| `ScriptBalancing.BalanceScript` | scripts/balance_chunk_groups.py:607-702 | the headers of the chunks with a new group have it and all other lines are as before; read back, ids and code are the same and the groups are the new ones if the grouped headers were numbered; the new groups are the best of the chunks that were read; a refusal leaves the script as it is |
| `ScriptBalancing.BalancedIsRegrouped` | scripts/balance_chunk_groups.py:696-699 | read back, a balanced script has exactly the new groups of the balancer's result |
| `ScriptBalancing.BalancedScriptIsStable` | scripts/balance_chunk_groups.py:607-702 | with the same times and heuristics, balancing a balanced script changes nothing if the headers of its grouped chunks were all numbered |
| `LptScheduler.LptKeepsTasks` | scripts/run_unit_tests.py:797-808 | the greedy phase places every timed task once |
| `LptScheduler.FiltersKeepOrder` | scripts/run_unit_tests.py:800-801 | the timed and the untimed tasks are the tasks of the input with a positive duration and with none, each at the position that counts those before it |
| `LptScheduler.SortIsStable` | scripts/run_unit_tests.py:804-804 | sorted by falling duration, equally long tasks stay in input order |
| `LptScheduler.TimedTaskIsAt` | scripts/run_unit_tests.py:804-808 | each task of the sorted list stands behind what the first least loaded queue held before it |
| `LptScheduler.LastPlacement` | scripts/run_unit_tests.py:805-808 | when the last task of a queue was placed, no queue was less loaded |
| `LptScheduler.AverageBound` | scripts/run_unit_tests.py:805-808 | m times the load a task is placed on, plus the task, is at most m times the slowest queue of any other distribution |
| `LptScheduler.CountingBound` | scripts/run_unit_tests.py:797-808 | if three tasks as long as the one placed exceed the slowest queue of another distribution, the queue stays within it |
| `LptScheduler.GrahamBound` | scripts/run_unit_tests.py:797-808 | no queue of the greedy phase takes more than 4/3 - 1/(3m) of the slowest queue of any other distribution |
| `LptTightness.LoadsOfGreedyRun` | scripts/run_unit_tests.py:797-808 | the load of every queue after every step of the greedy phase on 2m + 1 particular tasks |
| `LptTightness.EvenDistributes` | scripts/run_unit_tests.py:797-808 | another distribution of the same tasks, in queues that take 3m each |
| `LptTightness.GrahamBoundIsAttained` | scripts/run_unit_tests.py:797-808 | so for every number of workers there are tasks for which the bound is an equality |
| `LptScheduler.LptFillsInOrder` | scripts/run_unit_tests.py:803-808 | after n positive tasks exactly the first n queues are in use |
| `LptScheduler.RoundRobinKeepsTasks` | scripts/run_unit_tests.py:810-818 | the round-robin phase adds every untimed task once |
| `LptScheduler.RoundRobinIsEven` | scripts/run_unit_tests.py:810-818 | every queue gets the same number of untimed tasks, and one more from the start index up to the next queue |
| `LptScheduler.TargetIsModulo` | scripts/run_unit_tests.py:814-818 | the k-th untimed task goes to queue (start + k) modulo the number of queues |
| `LptScheduler.UntimedTaskIsAt` | scripts/run_unit_tests.py:814-818 | the k-th untimed task of the input is in queue (start + k) modulo the number of queues, behind the timed tasks and the untimed ones dealt there before |
| `LptScheduler.GreedyPhase` | scripts/run_unit_tests.py:803-808 | the loop over the timed tasks leaves the queues and their totals as the greedy specification says |
| `LptScheduler.RoundRobinPhase` | scripts/run_unit_tests.py:810-818 | the loop over the untimed tasks leaves the queues as the round-robin specification says |
| `LptScheduler.PartitionTasks` | scripts/run_unit_tests.py:790-820 | the queues hold exactly the given tasks if and only if no duration is negative; every untimed task stands where dealing in input order puts it; with at least as many tasks as workers no queue is empty |
| `LptScheduler.DistributionIsComplete` | scripts/run_unit_tests.py:790-820 | the distribution is a permutation of the tasks exactly when no duration is negative |
| `LptScheduler.DistributionIsNearOptimal` | scripts/run_unit_tests.py:790-820 | the slowest queue is within Graham's factor of that of any distribution of all the tasks |
| `LptScheduler.DistributionLeavesNoWorkerIdle` | scripts/run_unit_tests.py:846-846 | with the number of workers capped by the number of tasks, every queue gets a task |
| `LptScheduler.UntimedAreSpreadEvenly` | scripts/run_unit_tests.py:810-818 | the numbers of untimed tasks of two queues differ by at most one |
| `SandboxRun.HeldSocketsDoNotBlock` | scripts/run_unit_tests.py:87-97 | the sockets held for earlier ports are neither the next base port nor its X port |
| `SandboxRun.ReservePorts` | scripts/run_unit_tests.py:428-445 | the loop holds exactly the free ports up to where it stops, and their X ports |
| `SandboxRun.FindFreePorts` | scripts/run_unit_tests.py:410-453 | the ports returned are the first ones from 1100 to 4900 that are free and have ten times the port free, failure means that all of them are too few, and every socket is closed |
| `SandboxRun.WorkersShareNoPort` | scripts/run_unit_tests.py:1017-1026 | worker w has ports 7w to 7w + 6, no base or X port of one worker is one of another, and all are above the privileged and their X ports below the ephemeral ports |
| `SandboxRun.WorkerLoop` | scripts/run_unit_tests.py:889-1004 | tasks run in order up to the first one that raises or whose sandbox cannot be brought back; teardowns equal deployments exactly when the queue is empty or deploying does not raise; an exception of the teardown replaces the outcome |
| `SandboxRun.RaisingDeploymentIsNotTornDown` | scripts/run_unit_tests.py:909-912 | a deployment that raises something other than the caught error leaves the worker without a teardown |
| `SandboxRun.Sandbox.TearDown` | scripts/run_unit_tests.py:547-562 | the files are deleted although stopping the server fails, but not if it raises something other than the caught error |
| `SandboxRun.RunTasks` | scripts/run_unit_tests.py:925-996 | the loop over the tasks ends with the exception of the first task or restart that raises, or with exactly the failures of the queue |
| `SandboxRun.EveryTaskIsAccountedFor` | scripts/run_unit_tests.py:912-1004 | passed tasks and reported failures add up to the queue |
| `SandboxRun.FailuresAreExact` | scripts/run_unit_tests.py:912-1004 | the failures are exactly the tasks that ran without passing or never ran, each once, in order, with its queue position and spec |
| `ExecutionPlan.SuffixIsUnique` | scripts/plot_execution_plan.py:49-52 | no entry ends in two group suffixes |
| `ExecutionPlan.GroupSuffixReads` | scripts/plot_execution_plan.py:49-52 | a space, "[group", spaces, digits and a bracket name that group |
| `ExecutionPlan.GroupSuffixSplits` | scripts/plot_execution_plan.py:49-52 | and every group suffix has that form |
| `ExecutionPlan.LabelReadsBackIff` | scripts/run_unit_tests.py:123-128 | a clean task's label reads back as the task exactly when it has a group, or its spec ends in neither a space nor a group suffix |
| `ExecutionPlan.LabelsReadBackIff` | scripts/plot_execution_plan.py:99-106 | the labels of a queue read back as the queue exactly when all its tasks are readable |
| `ExecutionPlan.PlanLineParses` | scripts/plot_execution_plan.py:48-48 | a written line parses as its worker and its labels, also when it has none |
| `ExecutionPlan.PlanLineReads` | scripts/plot_execution_plan.py:48-48 | "worker", digits, a colon and a text parse as that worker and the stripped text |
| `ExecutionPlan.PlanLineSplits` | scripts/plot_execution_plan.py:48-48 | and every line that parses has that form |
| `ExecutionPlan.WritePlan` | scripts/run_unit_tests.py:777-788 | the loop writes one line per worker |
| `ExecutionPlan.LoadEntries` | scripts/plot_execution_plan.py:97-106 | the loop over the tokens collects the entries of a line and skips empty tokens |
| `ExecutionPlan.LoadPlan` | scripts/plot_execution_plan.py:84-108 | the loop over the lines gives the plan, or the number of the first line that does not parse |
| `ExecutionPlan.LoadsIff` | scripts/plot_execution_plan.py:84-108 | a file loads exactly if each line is blank or of that form, and otherwise the number of the first other line is reported |
| `ExecutionPlan.LastLineDecides` | scripts/plot_execution_plan.py:84-108 | a loaded plan has exactly the workers that some line names, each with the entries of its last line |
| `ExecutionPlan.CleanPlanLoads` | scripts/plot_execution_plan.py:84-108 | a plan of clean tasks loads without error, with every worker's labels as they read |
| `ExecutionPlan.LoadedIsClean` | scripts/plot_execution_plan.py:84-108 | whatever the file, every task read from it is non-empty, starts with no space and has no comma or line end |
| `ExecutionPlan.PlanRoundTripIff` | scripts/run_unit_tests.py:777-788 | loading the written plan gives back every worker's tasks, empty queues included, exactly when all tasks are readable |
| `ExecutionPlan.PlanLooksLike` | scripts/run_unit_tests.py:777-788 | the text of a plan for two workers, written out |
| `ExecutionPlan.LookalikeIsConfused` | scripts/run_unit_tests.py:123-128 | the spec "a [group 1]" without a group is read back as spec "a" with group 1 |
| `TimingFile.PrintedReadsBack` | scripts/run_unit_tests.py:221-223 | a duration printed with two decimals, negative or not, reads back rounded to hundredths |
| `TimingFile.PrintedIsNearest` | scripts/run_unit_tests.py:221-223 | it reads back as the nearest number of hundredths, the even one of two |
| `TimingFile.DecimalReads` | scripts/run_unit_tests.py:193-193 | digits with a decimal point are read as the number of all digits divided by a power of ten |
| `TimingFile.ExponentReads` | scripts/run_unit_tests.py:193-193 | a mark, a sign and digits after it multiply or divide by that power of ten |
| `TimingFile.SignReads` | scripts/run_unit_tests.py:193-193 | a sign in front negates the number or does not |
| `TimingFile.DurationIff` | scripts/run_unit_tests.py:193-193 | a duration is malformed exactly if it is not a sign or none, digits with a decimal point or none, and a power of ten or none |
| `TimingFile.RoundedIsStable` | scripts/run_unit_tests.py:221-223 | rounding a rounded duration changes nothing |
| `TimingFile.LoadExecutionTimes` | scripts/run_unit_tests.py:159-194 | the loop over the lines gives the entries in order, or the first malformed duration |
| `Text.LinesAre` | scripts/run_unit_tests.py:173-174 | the lines of a file are the texts between its line ends: newlines, carriage returns, or one followed by the other |
| `TimingFile.GroupedLineReads` | scripts/run_unit_tests.py:175-193 | a spec, a number and a duration, with any spaces between and around them, store the duration under that spec and group, or are malformed exactly if the duration is |
| `TimingFile.UngroupedLineReads` | scripts/run_unit_tests.py:181-193 | a spec that ends in no such number and a duration store it under group 0 |
| `TimingFile.OtherLineSaysNothing` | scripts/run_unit_tests.py:175-192 | a blank line, a comment and a single word change nothing |
| `TimingFile.MergeTimes` | scripts/run_unit_tests.py:211-218 | the two loops merge the tasks into the entries |
| `TimingFile.SaveExecutionTimes` | scripts/run_unit_tests.py:197-223 | the new file holds the merged entries; a file that cannot be loaded is left as it was |
| `TimingFile.MergeOverlays` | scripts/run_unit_tests.py:211-218 | a key holds the last duration of its task, nothing if only other groups of its spec were run, and its old duration otherwise |
| `TimingFile.MergeIsReadableIff` | scripts/run_unit_tests.py:211-218 | merged keys are distinct, and all can be read again exactly when the tasks' can |
| `TimingFile.EntryLineReads` | scripts/run_unit_tests.py:169-194 | a written line of a readable spec reads back as its key and its rounded duration |
| `TimingFile.FileLooksLike` | scripts/run_unit_tests.py:221-223 | the text of a file with one entry, written out |
| `TimingFile.LoadedIsReadable` | scripts/run_unit_tests.py:159-194 | whatever the file, the loaded keys are distinct and readable |
| `TimingFile.TimingRoundTripIff` | scripts/run_unit_tests.py:159-223 | loading after saving gives the merged entries in order with rounded durations exactly when the specs that were run are readable |
| `TimingFile.CommentIsLost` | scripts/run_unit_tests.py:174-177 | the spec "#a" does not read back from any saved file |
| `ExtensionRegistry.ExtensionObject.SetRegistered` | modules/mod_extensible_object.cc:364-400 | the recursion over the children ends; it registers the object and whatever is newly registered along with its parent, names all but the first by their definitions, and changes no other object |
| `ExtensionRegistry.ExtensionObject.MarkRegistered` | modules/mod_extensible_object.cc:370-380 | the object takes the given or its definition's name, and its qualified name is its parent's with its own appended |
| `ExtensionRegistry.ExtensionObject.RegisterChildren` | modules/mod_extensible_object.cc:396-398 | all children become registered, and nothing that is not below the object does |
| `ExtensionRegistry.ExtensionObject.RegisterTree` | modules/mod_extensible_object.cc:364-400 | exactly the objects below are registered along with the object, under the names of their definitions, qualified by their parents', and all others keep their names |
| `ExtensionRegistry.RegisteredDownFrom` | modules/mod_extensible_object.cc:364-400 | if only one object was registered and what was registered along with its parent, then exactly the objects below it were |
| `ExtensionRegistry.ExtensionObject.EnableCli` | modules/mod_extensible_object.h:385-389 | the upward recursion ends at the root and enables exactly the object and its ancestors |
| `ExtensionRegistry.ExtensionObject.FindsRoot` | modules/mod_extensible_object.h:385-389 | decides whether the upward recursion ends: it does exactly when some ancestor has no parent |
| `ExtensionRegistry.ExtensionObject.OfferCli` | modules/mod_extensible_object.h:385-389 | enabling the command line interface returns exactly when some ancestor has no parent, and then enables the object and its ancestors |
| `ExtensionRegistry.ExtensionObject.TakeIn` | modules/mod_extensible_object.cc:442-444 | adopting a child and passing its command line interface on does not return exactly when the child is enabled and, before, no parentless object was above this one or the child was; otherwise exactly the ancestors become enabled |
| `ExtensionRegistry.AdoptionStrandsIff` | modules/mod_extensible_object.cc:442-444 | giving a parentless object a parent strands that parent exactly when it was stranded or the object is one of its ancestors |
| `ExtensionRegistry.ExtensionObject.RegisterObject` | modules/mod_extensible_object.cc:412-451 | refused exactly for the object itself, an attached or a registered object, and then nothing changes; does not return exactly when the object is enabled for the command line and has this one below it, or this one had no root before; otherwise the registry stays consistent and the object is held under the name of its definition and registered with everything below it if this one is |
| `ExtensionRegistry.ExtensionObject.AddObject` | modules/mod_extensible_object.cc:317-346 | refused exactly for a taken name, a bad definition, the object itself, an attached or a registered object; a refusal for the object leaves its new definition behind; diverges exactly as the call it makes |
| `ExtensionRegistry.ExtensionObject.AddFunction` | modules/mod_extensible_object.cc:532-548 | refused exactly for a taken name or an invalid definition, and does not return exactly when the command line interface is offered on an object without a root |
| `ExtensionRegistry.ExtensionObject.AddProperty` | modules/mod_extensible_object.cc:517-530 | refused exactly for a taken name or an invalid definition; the registry stays consistent |
| `ExtensionRegistry.ExtensionObject.RegisterAsRoot` | modules/mod_shell.cc:2229-2244 | a parentless unregistered object becomes a registered root under the given name, with everything below it named by definition |
| `ExtensionRegistry.AncestorsOfEnabledAreEnabled` | modules/mod_extensible_object.h:385-389 | in a consistent registry every ancestor of an object enabled for the command line is enabled |
| `ExtensionRegistry.RegisteredReachesRoot` | modules/mod_extensible_object.cc:364-400 | following parents from a registered object stays among registered objects and ends at a parentless one |
| `ExtensionRegistry.CycleStaysUnregistered` | modules/mod_extensible_object.cc:412-451 | an object that was on a cycle of parents is never registered later |
| `ExtensionRegistry.Shell.CreateObject` | modules/mod_shell.cc:1990-1992 | a new object without links keeps the registry consistent, and is all that is new |
| `ExtensionRegistry.Shell.AddNewObject` | modules/mod_extensible_object.cc:453-478 | an object created as a member is refused exactly for a bad or a taken name; otherwise it is attached under that name and the registry stays consistent, its preset qualified name included |
| `ExtensionRegistry.Shell.AddObject` | modules/mod_shell.cc:2128-2137 | refusal, divergence and the whole state after the call are functions of the state before it, up to the names of newly registered objects, which follow their definitions and parents |
| `ExtensionRegistry.Shell.AddFunction` | modules/mod_extensible_object.cc:532-548 | the same for adding a function: exact refusal, divergence and new state |
| `ExtensionRegistry.Shell.RegisterGlobal` | modules/mod_shell.cc:2184-2244 | refused exactly for a bad, existing or reserved name, an attached or registered object or a bad definition, and then nothing changes |
| `RegistryNames.QualifiedNameExtendsRoot` | modules/mod_extensible_object.cc:371-380 | a qualified name is longer than the root's by at least the object's depth |
| `RegistryNames.QualifiedNamesAreDistinct` | modules/mod_extensible_object.cc:371-380 | with dot-free names and siblings that differ, two objects under a root with the same qualified name are the same |
| `RegistryNames.NamesAreDistinctIff` | modules/mod_extensible_object.cc:371-380 | with dot-free names, no two registered objects under one root share a qualified name exactly when no two registered siblings share a name |
| `RegistryNames.KeyedSiblingsDiffer` | modules/mod_extensible_object.cc:446-446 | if names follow the keys under which parents hold their children, siblings have different names |
| `RegistryRuns.AdoptionKeepsRootsIff` | modules/mod_extensible_object.cc:442-442 | giving a parentless object a parent keeps every object rooted exactly when the object is not an ancestor of that parent |
| `RegistryRuns.CallKeepsRootsIff` | modules/mod_extensible_object.cc:412-451 | after any call every object is rooted exactly when it was before and the call did not attach an object beneath its own descendant |
| `RegistryRuns.EndlessCallClosesCycle` | modules/mod_extensible_object.h:385-389 | on rooted objects, only a call that attaches an object beneath its own descendant does not return |
| `RegistryRuns.RunReturnsIff` | modules/mod_extensible_object.cc:412-451 | a run from rooted objects returns, with rooted objects, exactly when none of its calls attaches an object beneath its own descendant |
| `RegistryRuns.CallsKeepLinks` | modules/mod_extensible_object.cc:412-451 | no call takes back a parent or a registration |
| `RegistryRuns.CallsKeepNames` | modules/mod_extensible_object.cc:364-400 | no call takes back a registered name |
| `RegistryRuns.CallKeepsKeyedIff` | modules/mod_extensible_object.cc:317-346 | if names follow the keys before a call, they do after it exactly when the call does not give an attached, unregistered object another name than its key |
| `RegistryRuns.CallKeepsDotFree` | modules/mod_extensible_object.cc:334-343 | calls that give dot-free names keep all names dot-free, refused or not |
| `RegistryRuns.NamesStayKeyed` | modules/mod_extensible_object.cc:317-346 | so names follow the keys for as long as no call of a run misnames an object |
| `RegistryRuns.Script.Step` | modules/mod_shell.cc:2128-2244 | every call is refused, does not return, or leads to the next state, exactly as the relation between states says, and keeps the heap consistent |
| `RegistryRuns.Script.RunCalls` | modules/mod_shell.cc:2128-2244 | the states of a run of calls are a history of that relation, up to the first call that does not return |
| `RegistryRuns.Script.Run` | modules/mod_shell.cc:2128-2244 | after a run nothing was taken back and objects once on a cycle are unregistered; from rooted objects it returns with rooted objects exactly when no call attaches an object beneath its own descendant; with dot-free names of member objects all qualified names under a root are distinct exactly when siblings differ, and they differ if no call misnamed an object |
| `RegistryRuns.TwoObjectsCanFormACycle` | modules/mod_extensible_object.cc:412-451 | two unattached objects can be made each other's member |
| `RegistryRuns.CliOnACycleDiverges` | modules/mod_extensible_object.h:385-389 | adding a function for the command line to an object on a cycle does not return |
| `RegistryRuns.RefusedCallCanDuplicateAName` | modules/mod_extensible_object.cc:317-346 | a refused call can lead to two registered siblings with the same qualified name |
| `RegistryRuns.DottedNameCanDuplicateAName` | modules/mod_extensible_object.cc:334-343 | without any refusal, a member object named with a dot can get the qualified name of another object |
| `ParameterParsing.ParseParameter` | modules/mod_extensible_object.cc:623-779 | the result and the level shown in any error are those of the parser on values; after success every level of the shared stack is as before |
| `ParameterParsing.ParseParameters` | modules/mod_extensible_object.cc:558-615 | as above for a list; after success the stack has the same depth and names, and the last level has no position |
| `ParameterParsing.AdmitsIff` | modules/mod_extensible_object.cc:575-606 | one more parameter is accepted exactly when the names stay distinct but for case and no required one follows a named optional one |
| `ParameterParsing.ParseOneIff` | modules/mod_extensible_object.cc:623-779 | a definition is accepted exactly when it unpacks, its type is supported, its classes exist and its options are acceptable; the result has its name, type, requiredness and options |
| `ParameterParsing.ParseFirstIff` | modules/mod_extensible_object.cc:558-615 | a list is accepted exactly when all its definitions are acceptable, their names distinct but for case, and no required parameter follows a named optional one |
| `ParameterParsing.ParsedNamesAreDistinct` | modules/mod_extensible_object.cc:575-591 | in an accepted result no two names of one level, at any depth, are equal or differ only in letters from A to Z against the same letters 32 code points up |
| `ParameterParsing.CaseEqualIff` | modules/mod_extensible_object.cc:575-580 | names are compared character by character, each equal or a letter from A to Z and the one 32 code points up |
| `ParameterParsing.OtherCaseIsRejected` | modules/mod_extensible_object.cc:575-591 | the list of the names "x" and "X" is rejected |
| `ParameterParsing.ErrorShowsLevel` | modules/mod_extensible_object.cc:739-761 | the first definition that does not unpack or has an unsupported type is named on the last level of the error, with its type in the first case, and with its position if its name is no identifier |
| `ParameterParsing.RequiredComeFirstIff` | modules/mod_extensible_object.cc:593-606 | the required parameters of an accepted list form a prefix exactly when no required one comes after an optional one with an empty name |
| `ParameterParsing.UnnamedOptionalIsAccepted` | modules/mod_extensible_object.cc:593-606 | a list that is accepted although a required parameter follows an optional one |
| `ParameterParsing.ValidateParameter` | modules/mod_extensible_object.cc:1072-1105 | gives the first name, parents before options, that is not an identifier, with the levels at that point; after success the shared stack has the same depth and the name on its last level |
| `ParameterParsing.ValidateFunction` | modules/mod_extensible_object.cc:1061-1070 | gives the first such name among the parameters of a function |
| `ParameterParsing.ValidationIff` | modules/mod_extensible_object.cc:1061-1105 | validation accepts exactly the parameters whose names, at any depth, are identifiers |
| `ParameterParsing.InvalidNameShowsLevel` | modules/mod_extensible_object.cc:1061-1105 | the error for a parameter shows its position, the error for an option the parameter's name and the option's position |
| `ParameterParsing.FunctionParametersAreOrdered` | modules/mod_extensible_object.cc:532-548 | the parameters of every function that passes parsing and validation start with all the required ones |
| `Reports.MandatoryComeFirst` | modules/mod_shell_reports.cc:1188-1229 | the signature of a report's function has no mandatory parameter after an optional one |
| `Reports.MatchesIff` | modules/mod_shell_reports.cc:1188-1229 | calls with the session alone, with plain arguments, and with options too match the signature exactly if they leave out nothing that the report needs and give nothing that it does not take |
| `Reports.ConvertsIff` | modules/mod_shell_reports.cc:495-540 | a flag is set, a number is what its conversion gives, a text is itself if the option allows it, and no text is the empty text |
| `Reports.MissingOneLess` | modules/mod_shell_reports.cc:546-552 | removing a given option's name leaves exactly the required names that no option so far has given |
| `Reports.ReportOptions.Reset` | modules/mod_shell_reports.cc:660-676 | all results of an earlier command line are gone, and all required options are missing |
| `Reports.ReportOptions.HandleOption` | modules/mod_shell_reports.cc:495-553 | fails exactly if the text gives no value; otherwise stores the value for the first text given for a name and takes a required one off the missing list |
| `Reports.ReportOptions.HandleEvents` | modules/mod_shell_reports.cc:579-596 | options are handled up to the first bad value |
| `Reports.ReportOptions.ParseArgs` | modules/mod_shell_reports.cc:566-630 | the verdict and the parsed options and arguments depend on this command line alone: the first bad value, then missing options, then the number of arguments, the last two only without help |
| `Reports.ReportOptions.CallReport` | modules/mod_shell_reports.cc:1263-1302 | the report's function is called exactly for an accepted command line without help and with an open session, and only with arguments that match its signature: the session, the plain arguments if it takes any or has options, and the options if it has any |
| `Reports.ParsedOptionsFit` | modules/mod_shell_reports.cc:488-553 | the options of a command line with none missing have known names, values of the declared types and allowed values, and include all required ones |
| `Reports.AcceptedMatches` | modules/mod_shell_reports.cc:1286-1299 | the arguments built for an accepted command line match the registered signature: arity, number of plain arguments and options |
| `SummaryTree.PreorderIsInputOrder` | docs-ref/sidebars.js:45-65 | the forest in preorder is exactly the list of items in input order |
| `SummaryTree.PopLeavesNearest` | docs-ref/sidebars.js:60-60 | after closing the deeper entries, the last open one is the nearest earlier entry of the part that is less deep |
| `SummaryTree.PushKeepsNested` | docs-ref/sidebars.js:60-62 | each open entry stays the nearest shallower one of the next, and the first the shallowest since its part opened |
| `SummaryTree.NestedDepthsIncrease` | docs-ref/sidebars.js:47-62 | on such a stack the depths strictly increase from above -1 |
| `SummaryTree.StackDepthsIncrease` | docs-ref/sidebars.js:45-65 | after any items the positions and the depths on the stack strictly increase |
| `SummaryTree.ReadNext` | docs-ref/sidebars.js:49-63 | every line keeps what holds of the lists, the stack and the items read, with the depths of the frames strictly increasing from -1 |
| `SummaryTree.InsertAddsChild` | docs-ref/sidebars.js:61-61 | one list of children grows, that of the last open entry |
| `SummaryTree.ParentIsNearestShallower` | docs-ref/sidebars.js:45-65 | every entry is a child of the nearest earlier entry of its part that is less deep, and a root if there is none |
| `SummaryTree.WidthIs` | docs-ref/sidebars.js:58-58 | the width of an indentation is its length plus the number of its tabs |
| `SummaryTree.ChildrenOfLine` | docs-ref/sidebars.js:45-65 | the children of an entry line are exactly the entry lines for which it is the nearest earlier one of the part with less than their columns halved |
| `SummaryTree.RootsOfLines` | docs-ref/sidebars.js:45-65 | the roots are exactly the headings and the entry lines without such a parent |
| `SummaryTree.PopFrames` | docs-ref/sidebars.js:60-60 | the loop closes the frames of the deeper entries and keeps those of the others |
| `SummaryTree.Append` | docs-ref/sidebars.js:61-61 | pushing onto an aliased list changes that list only |
| `SummaryTree.ReadHeading` | docs-ref/sidebars.js:50-55 | a part heading becomes a root and closes all entries |
| `SummaryTree.ReadEntry` | docs-ref/sidebars.js:56-62 | an entry is pushed onto the list of its parent and becomes the last open entry |
| `SummaryTree.ParseSummary` | docs-ref/sidebars.js:45-65 | the loop over the lines builds, through the aliased lists, exactly the forest of the items, each built once and no list shared: in terms of the lines, every list holds in order what was built from the lines whose parent it belongs to |
| `SummaryTree.ConvertItem` | docs-ref/sidebars.js:67-80 | converting a built node gives the sidebar item of its tree |
| `SummaryTree.ConvertItems` | docs-ref/sidebars.js:78-78 | converting a list of built nodes gives the sidebar items of their trees |
| `SummaryTree.BuildSidebar` | docs-ref/sidebars.js:45-86 | read top to bottom, the sidebar shows exactly the headings and entries of the file in order, headings and parentless entries at level 0 and the others one below their parent line; a category has items and is collapsed |
| `SummaryTree.ConversionKeepsOutline` | docs-ref/sidebars.js:67-80 | the sidebar items of a forest show every item's label at its level, in order |
| `SummaryTree.HeadingsStayLeaves` | docs-ref/sidebars.js:50-62 | part headings never get children |
| `SummaryTree.SidebarFollowsInput` | docs-ref/sidebars.js:45-80 | the converted sidebar, read top to bottom, lists exactly the items of the file in input order |
| `SummaryTree.SidebarFollowsLines` | docs-ref/sidebars.js:45-80 | the same of the forest as a function of the lines |
| `SummaryTree.ConversionIsPresented` | docs-ref/sidebars.js:67-80 | an entry becomes a category exactly if it has children |
| `SummaryTree.LinesDetermineSidebar` | docs-ref/sidebars.js:45-86 | what is said of the sidebar in terms of the lines holds of one sidebar only |

## Left out

- `_NameCollector`, `_chunk_names` and the JavaScript fallback of the balancer: heuristics; the names a chunk defines and uses are inputs.
- Setup, cleanup, bug-tag and marker detection: it only produces intervals, which are the input `extra`.
- Chunk timing files and `--estimate`: the time of a chunk is an input; their line format is simpler than the timing file's.
- Splitting a rewritten script into lines again: stability is stated on the list of lines.
- Floating-point rounding and not-a-number: costs and durations are real numbers, except that saved durations are rounded to hundredths.
- Digits other than 0-9, which the patterns also match, and text that cannot be encoded.
- LoadExecutionTimes: takes `inf`, `nan` and digits grouped by underscores for malformed, because a duration is a real number written in plain digits.
- TimingRoundTripIff: is about files that load in that sense, with signs, decimal points and exponents.
- FindsRoot: has no counterpart in the source; it decides whether the upward recursion returns, where the source would recurse forever.
- Destruction of extension objects and expired parents: an object, once created, stays.
- The help registry, and what makes a definition, an identifier or a class name valid: truth values given with each call.
- The text of error messages: an error carries the values its text is built from.
- Command line syntax of reports: a command line is the sequence of options it gives followed by its arguments; conversions of numbers are inputs.
- Formatting, examples and help of reports, and the table of registered reports.
- WorkerLoop: has no exceptions from making folders before the deployment, or from probing the sandbox, which catches them.
- Subprocesses, log folders, HTML reports and argument parsing of the test runner; threads, since workers share no queue and no port.
- Line patterns, link targets and escapes of the summary file: a line is given as a heading, an entry or neither.
- Connections, sessions, results, the other shell modules and the release scripts: thin layers over code that is not part of this model.
