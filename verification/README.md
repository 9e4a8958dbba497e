# Verification of the route-graph compiler and the Operator Console's asynchronous core

This project models two parts of the repository in Dafny and proves what they are meant to keep.

**Route-graph compilation.** The route probe rewrites a candidate graph before a solver sees it.
`SuffixCompression` shares identical successor suffixes through hubs, `IntervalCompression` covers
successor runs with a shared balanced tree, `OffsetArrays` lays the arcs out as offset arrays,
`FlowModel` states the solver's constraints over those arrays, and `Envelope` replaces the table
lookup of information rewards by linear constraints. `HubErasure` proves, from one description of
what either compression establishes, that leaving out helper nodes is a bijection on paths;
`RouteFlow` proves by cuts that a fractional flow with 0/1 selection is one route; `RouteWorth`
prices a route by itself, and `RouteProgram` puts the steps together. `Conditioning` is the diagnostic that compares choosing a route before and
after an observation.

**The console's asynchronous core.** `Workers` is the three worker lanes with coalescing and the
mutation backlog; `Pipeline` counts commands on their way through them. `RunPolls` keeps the books
of one run's polls; `SectionRequests` and `Preflight` are the two request protocols on top of it,
`Paging` is the cursor and backfill reducer against the Host's journal, `PagedRequests` puts section
requests and paging together, and `ReusedIds` says what a page does that was not called for.
`ImagePipeline` is the latest-wins image thread, `History` the parked current run, `ProgressForest`
the progress tree, `LogTail` the service log tail, `WordWrap` the intent editor and `Calendar` the
timestamp parser.

Each object of the source whose methods change fields is a class whose methods are proved equal, in
the whole new state, to a step function on values. Threads are interleaved by composing those step
functions in any order; the statements over whole runs quantify over every finite sequence of steps.
One dispatch is one step: between its lookup and its send only the sending thread adds keys, so
other threads cannot come between in a way that matters.

What the proofs say about the source beyond its own comments:

- The envelope encoding is exact for a table exactly when the table is nonnegative and concave. The
  model asserts concavity, and the information curve of the planner is nonnegative.
- A backfill boundary is inclusive: the retained items start at the boundary, not after it.
- A published check whose altered likelihood is not positive has no immediate reward: the lookup of
  the altered branch then fails (`Conditioning.InspectAcquisition`).
- Request ids restart with every run view. A view that is opened again while the answer to an earlier
  view's first poll is unread gives its own first poll the same id, and two answers are on their way
  (`SectionRequests.EqualIdsAnswerTwice`). A pending section has exactly one answer to come if and
  only if no poll was given an id that was still on its way, and no awaited poll was coalesced onto an
  id that was on its way twice (`SectionRequests.ExactlyOneAnswer`).
- Taking in both answers can lose items until they change again, whatever the page size
  (`ReusedIds.EqualIdLosesItems`). It takes more changes than a page holds, 100 in the console, and the
  second answer before the section asks anew, so within one poll interval. What is retained is faithful
  if and only if every page taken in uncalled for is harmless (`ReusedIds.UncalledPagesDecide`).
- A historical run is documented never to poll `/current`, but one opened with a status that is not
  terminal does. When that poll is dropped, the claim released is the parked run's
  (`History.DroppedPollInterferes`); other reads of a historical run do not reach the parked one.
- Two polls of the run history, of the current run or of an intent share a key although their page
  size or credential differ (`HostCommands.SameKeySamePoll`); the comment on the key says they would
  have the same parameters.
- With Launch parked over a run, opening that run from history starves the view on display
  (`History.SameRunIsStarved`). A late `/current` answer leads there (`History.LateAnswerStarves`).
  The guard on opening a row excludes this for a parked Run screen.
- The cursor is not always shown at the character it precedes: past a full last row of a line it is
  shown at the start of the next line (`WordWrap.PositionsShare`).
- A node with the root's own id can make a match occur twice in a search. Jumping then goes back to the
  first occurrence and never gets past the second (`ProgressForest.JumpsReachAll`).
- Interval compression needs at most `max(1, 2h-2)` nodes for a run in a tree of height `h`, less
  than twice the height.

## Model

| member | source | states |
|---|---|---|
| `SuccessorLists.GroupBySource` | scripts/benchmark_mission1_route_information.py:206-208 | every source is listed once, in order of first appearance, with its targets in order of arrival |
| `SuccessorLists.ListsHoldArcs` | scripts/benchmark_mission1_route_information.py:206-208 | the successor lists together hold every arc, each as often as it is given, and nothing else |
| `SuccessorLists.SortIncreases` | scripts/benchmark_mission1_route_information.py:213 | sorting a duplicate-free successor list makes it strictly increasing and keeps its members |
| `Sorting.SortOrders` | scripts/benchmark_mission1_route_information.py:223 | sorting under any total order gives an ordered list of the same elements, none lost, added or repeated |
| `ArcOrder.SortArcsCorrect` | scripts/benchmark_mission1_route_information.py:223 | the returned arcs are in lexicographic order and are the same arcs, none lost, added or repeated |
| `SuffixCompression.HubStep` | scripts/benchmark_mission1_route_information.py:215-221 | one pass of the inner loop, whether its hub is new or shared, leaves a node that stands for exactly the longer suffix |
| `SuffixCompression.TableExpands` | scripts/benchmark_mission1_route_information.py:209-222 | when all sources are done, hubs and sources fan out disjointly and completely to the original successors |
| `SuffixCompression.CompressArcSuffixes` | scripts/benchmark_mission1_route_information.py:199-223 | for every duplicate-free arc set: each source reaches its successors through hubs; no two hubs have the same expansion; two arcs per hub and one per source, at most 2*arcs - sources |
| `IntervalCompression.CeilLog2IsLeast` | scripts/benchmark_mission1_route_information.py:228-241 | the height used in the size bound is the least k with n <= 2^k |
| `IntervalCompression.SplitBounds` | scripts/benchmark_mission1_route_information.py:243-252 | splitting a run over two subtrees stays within the bound of the taller tree |
| `IntervalCompression.IntervalTree.Tree` | scripts/benchmark_mission1_route_information.py:231-241 | builds a tree over the interval with one new node per inner node, numbered consecutively, and exactly two arcs for each, leaving older nodes and arcs alone |
| `IntervalCompression.IntervalTree.Cover` | scripts/benchmark_mission1_route_information.py:243-252 | covers exactly the part of the run below the node by disjoint subtrees, never descends into a leaf, and takes at most the bound of that tree |
| `IntervalCompression.IntervalTree.CoverRuns` | scripts/benchmark_mission1_route_information.py:256-265 | the arcs added for a source cover exactly its successors, disjointly, with at most the bound for every maximal run |
| `IntervalCompression.TreeExpands` | scripts/benchmark_mission1_route_information.py:226-266 | tree nodes and sources fan out disjointly and completely to the original successors |
| `IntervalCompression.CompressArcIntervals` | scripts/benchmark_mission1_route_information.py:226-266 | for every duplicate-free arc set: exactly 2C+2 nodes and 2C tree arcs; at most max(1, 2*ceil(log2(C+1))-2) further arcs per maximal successor run; the same reachability as the original arcs |
| `HubErasure.EraseKeepsExactlyOriginals` | scripts/benchmark_mission1_route_information.py:199-266 | leaving out helpers from a path keeps exactly its original nodes |
| `HubErasure.ErasureIsWalk` | scripts/benchmark_mission1_route_information.py:202-204 | a compressed path with its helpers left out is a path of the original graph with the same ends |
| `HubErasure.WalkLifts` | scripts/benchmark_mission1_route_information.py:202-204 | every original path is the erasure of some compressed path |
| `HubErasure.ErasureInjective` | scripts/benchmark_mission1_route_information.py:202-204 | two compressed paths with the same start and the same erasure are the same path |
| `HubErasure.OneRoutePerArc` | scripts/benchmark_mission1_route_information.py:202-204 | original node s reaches original node t through helpers by exactly one path if (s,t) was an arc and by none otherwise |
| `HubErasure.WalksCorrespond` | scripts/benchmark_mission1_route_information.py:199-266 | between any two original nodes, erasing helpers maps compressed paths one-to-one onto original paths |
| `HubErasure.AcyclicityKept` | scripts/benchmark_mission1_route_information.py:199-266 | a topological rank of the original graph gives one of the compressed graph, so no cycle is introduced |
| `OffsetArrays.Counter` | scripts/benchmark_mission1_route_information.py:338 | the counter holds for every node how many arcs leave (enter) it, and nothing for the others |
| `OffsetArrays.Offsets` | scripts/benchmark_mission1_route_information.py:339-343 | entry n is one more than the number of arcs with a smaller node |
| `OffsetArrays.BelowComeFirst` | scripts/benchmark_mission1_route_information.py:339-343 | in a sorted list the positions below the count are exactly those holding smaller nodes |
| `OffsetArrays.OrderByHeadPermutes` | scripts/benchmark_mission1_route_information.py:348 | the head-sorted index list holds every arc position exactly once, by head and then by tail |
| `OffsetArrays.OrderKeepsCounts` | scripts/benchmark_mission1_route_information.py:339-348 | reordering the arcs by head does not change how many enter the nodes below any node |
| `OffsetArrays.LayOut` | scripts/benchmark_mission1_route_information.py:336-348 | positions os[n]..os[n+1]-1 are exactly the arcs leaving n; ie over ins[n]..ins[n+1]-1 lists exactly the arcs entering n, each once |
| `FlowModel.SumsRangeOverIncidentArcs` | scripts/benchmark_mission1_route_information.py:38-45 | the model's two sums over the offset arrays are the flow out of and into the node |
| `FlowModel.ModelIsRouteFlow` | scripts/benchmark_mission1_route_information.py:36-45 | the constraints as written over the data file hold exactly when they hold over the arcs |
| `RouteFlow.CutBalance` | scripts/benchmark_mission1_route_information.py:38-42 | flow out of minus flow into any set of nodes is the supply of that set |
| `RouteFlow.CutFlow` | scripts/benchmark_mission1_route_information.py:38-45 | when one unit enters a node, all flow that leaves the set of earlier nodes goes into that node |
| `RouteFlow.PositiveWalkVisitsSelected` | scripts/benchmark_mission1_route_information.py:36-45 | every source-to-sink path along positive flow visits all selected candidates and no other candidate |
| `RouteFlow.FlowSelectsOneWalk` | scripts/benchmark_mission1_route_information.py:36-45 | any real flow meeting the constraints selects exactly the candidates of one source-to-sink path, on every graph without cycles |
| `RouteFlow.WalkIsSelectable` | scripts/benchmark_mission1_route_information.py:36-45 | the candidates of every source-to-sink path are selected by some flow meeting the constraints |
| `RouteProgram.CompressionKeepsSelections` | scripts/benchmark_mission1_route_information.py:335-337 | the candidate sets of routes are the same before and after compression |
| `RouteWorth.ObjectiveIsWorth` | scripts/benchmark_mission1_route_information.py:46-48 | for the selection of a walk, the objective is the base rewards of the candidates on it, each once, and for every ship the gain at the number of its references on the walk; the domain of the check counts admits exactly the walks within the tables |
| `RouteProgram.ModelAdmitsRoutes` | scripts/benchmark_mission1_route_information.py:36-45 | on any graph without cycles, helper nodes included, the selections of the model are exactly those of routes |
| `RouteProgram.BestSelectionsAreBestRoutes` | scripts/benchmark_mission1_route_information.py:46-48 | the optimal selections over the routes are the selections of the routes worth most, where a route's worth is read off the route itself |
| `RouteProgram.OptimaAreBestRoutes` | scripts/benchmark_mission1_route_information.py:46-49 | whenever the model admits exactly the route selections, its optima are those of the routes worth most and the objective is that worth, with the lookup and with the envelope encoding |
| `RouteProgram.Compile` | scripts/benchmark_mission1_route_information.py:335-356 | for every acyclic candidate graph and each compression, the compiled data admits exactly the route selections; for all rewards its optima are the selections of the routes worth most |
| `Envelope.EntryIsUpperBound` | scripts/benchmark_mission1_route_information.py:192-194 | with at least one check in the table, the constraints never allow more than the table's entry |
| `Envelope.EntryIsAllowed` | scripts/benchmark_mission1_route_information.py:188-194 | in a nonnegative concave table the entry itself is allowed at every check count |
| `Envelope.EnvelopeIsExact` | scripts/benchmark_mission1_route_information.py:188-194 | for K at least 1 the largest allowed information is gain[n] at every n exactly when the table is nonnegative and discretely concave |
| `Envelope.NoChecksUnbounded` | scripts/benchmark_mission1_route_information.py:191-194 | for K = 0 no line bounds the information and the ceiling is allowed instead |
| `Envelope.SelectionKeepsValue` | scripts/benchmark_mission1_route_information.py:46-48 | for one selection the best envelope objective is the lookup objective |
| `Envelope.TableMaxIsEntry` | scripts/benchmark_mission1_route_information.py:112 | the ceiling of the information variables is an entry of the table, or zero |
| `Envelope.EncodingsAgree` | scripts/benchmark_mission1_route_information.py:183-196 | the lookup and envelope programs have the same best selections and the same best value |
| `Conditioning.KeptMass` | scripts/inspect_mission1_downstream_value.py:60-73 | the kept likelihoods add up to one exactly when none of them was negative, published or not |
| `Conditioning.OutcomeBranches` | scripts/inspect_mission1_downstream_value.py:57-79 | fails exactly when a published report has omission probability one; otherwise returns the outcomes of positive likelihood in order; they add up to one, and give each outcome its chance, exactly when no likelihood is negative |
| `Conditioning.BranchesHaveChances` | scripts/inspect_mission1_downstream_value.py:57-80 | unpublished, an omitted report has its omission probability, altered and omitted together the mean risk and clean the rest; a published one cannot be omitted, and each chance times the presence is that of an unpublished one; all this exactly when no likelihood is negative |
| `Conditioning.RisksAdd` | scripts/inspect_mission1_downstream_value.py:46-54 | a candidate's risk is that of its reports added up |
| `Conditioning.UnitsAreHalfRisk` | scripts/inspect_mission1_downstream_value.py:46-54 | its reward in score units is a half million times its risk, rounded |
| `Conditioning.RoundIsNearest` | scripts/inspect_mission1_downstream_value.py:95 | rounding keeps integers, finds the nearest integer and sends ties to the even one |
| `Conditioning.CommittedAtMostAdaptive` | scripts/inspect_mission1_downstream_value.py:88-105 | a route committed to in advance scores no more than choosing anew in each branch, with equality when it is best in every branch |
| `Conditioning.CommittedIsByBranch` | scripts/inspect_mission1_downstream_value.py:88-105 | weighting the candidates over the branches and adding up a route is scoring the route in every branch and weighting |
| `Conditioning.ScoresAdd` | scripts/inspect_mission1_downstream_value.py:88-105 | the score of a route is that of its candidates added up |
| `Conditioning.RoundingError` | scripts/inspect_mission1_downstream_value.py:101-106 | rounding each candidate's reward moves a route's score by at most half a unit per candidate |
| `Conditioning.FixedIsBestCommitted` | scripts/inspect_mission1_downstream_value.py:99-105 | the fixed choice is worth the best committed route up to half a unit per candidate |
| `Conditioning.ConditioningNeverLoses` | scripts/inspect_mission1_downstream_value.py:99-108 | adaptive plus half the tolerance is at least fixed; when one route is best in every branch they differ by at most that |
| `Conditioning.InspectEntity` | scripts/inspect_mission1_downstream_value.py:82-115 | fails only without a route; the accumulated scores are the branch-weighted optima and the assertion that conditioning cannot lose never fails |
| `Conditioning.ImmediateIsAltered` | scripts/inspect_mission1_downstream_value.py:153-154 | the immediate reward is missing exactly when the altered outcome was dropped |
| `Conditioning.InspectAcquisition` | scripts/inspect_mission1_downstream_value.py:145-161 | a row exists exactly when a report can be present, a route is left and an altered report is possible; its totals are the immediate reward plus the adaptive and the fixed optimum over the outcomes, and conditioning never loses |
| `HostCommands.SameKeySamePoll` | operator-console/src/host/workers.rs:221-291 | polls share a key exactly when they are the same request up to request id, validator, credential and page size, and then they share a lane |
| `HostCommands.LanesApart` | operator-console/src/host/workers.rs:221-237 | frames have the media lane, a run's other reads the evidence lane; mutations and all other polls the control lane |
| `Workers.WorkerPool.TrySend` | operator-console/src/host/workers.rs:498-499 | the command joins its own lane's queue exactly when that queue has room, and nothing else changes |
| `Workers.WorkerPool.DispatchCommand` | operator-console/src/host/workers.rs:479-513 | the new pool and the report of one dispatch, including that a refused poll leaves no key behind |
| `Workers.WorkerPool.FlushBacklog` | operator-console/src/host/workers.rs:516-526 | moves the longest prefix of the backlog that fits, in order, and puts the first refused command back in front |
| `Workers.DispatchReports` | operator-console/src/host/workers.rs:479-513 | coalesced exactly when a live command has the same key, whose id is reported; dropped exactly when the key is new and the queue full; deferred exactly when a mutation cannot go straight to its queue |
| `Workers.PollQueued` | operator-console/src/host/workers.rs:481-499 | a queued poll and its key come in together, so keys in flight keep matching the live commands |
| `Workers.ExecuteKeepsPool` | operator-console/src/host/workers.rs:430-435 | a worker that finishes a command frees the key of that command and of no other |
| `Workers.FlushKeepsOrder` | operator-console/src/host/workers.rs:516-526 | flushing keeps the order of the mutations waiting in queue and backlog |
| `Workers.NextKeeps` | operator-console/src/host/workers.rs:429-526 | every step of every thread keeps the whole invariant |
| `Workers.MutationsConserved` | operator-console/src/host/workers.rs:36-526 | over every run the dispatched mutations are, in order, those answered, the one in hand, those queued and the backlog; queues stay within 16, 32 and 4 |
| `Workers.MutationsGetAnswered` | operator-console/src/host/workers.rs:429-526 | from every reachable state the workers and flushes, without a further dispatch, can get every dispatched mutation answered, in order |
| `Workers.AllGetsDone` | operator-console/src/host/workers.rs:429-526 | and they empty every queue and the backlog in a bounded number of steps |
| `Workers.PollsAccountedFor` | operator-console/src/host/workers.rs:421-513 | over every run each key in flight has exactly one queued or executing command, with its request id, and every command taken is answered exactly once |
| `Pipeline.DispatchCount` | operator-console/src/host/workers.rs:479-513 | dispatch adds a command to the lanes or the backlog exactly when it reports it queued or deferred |
| `Pipeline.FlushCount` | operator-console/src/host/workers.rs:516-526 | flushing the backlog neither loses nor repeats a command |
| `Pipeline.LiveWithKey` | operator-console/src/host/workers.rs:481-488 | a key in flight belongs to a live command, whose request id is the recorded one |
| `Pipeline.SendCount` | operator-console/src/host/workers.rs:479-513 | dispatching takes a command off the way to its answer exactly when it is coalesced or dropped |
| `Pipeline.TwinOf` | operator-console/src/host/workers.rs:479-488 | a coalesced poll has a live twin with the same key, and the reported id is the twin's |
| `RunPolls.RunPoller.ClaimRefresh` | operator-console/src/app/mod.rs:765-770 | with no run ended every poll is granted; afterwards each key once |
| `RunPolls.RunPoller.ReleaseRefresh` | operator-console/src/app/mod.rs:773-777 | exactly the given claim is given up |
| `RunPolls.ClaimedOnce` | operator-console/src/app/mod.rs:765-777 | a claim is granted once until released, without touching other claims; before the run has ended every claim is granted |
| `RunPolls.RunPoller.RequestSection` | operator-console/src/app/run.rs:740-774 | without a run, or for a section that is pending or already claimed, nothing is asked; otherwise one command with a new id, for the page the cursors call for, is pushed and awaited |
| `RunPolls.AskedOnceOnly` | operator-console/src/app/run.rs:740-774 | a section that asks takes a new id and is pending; it may not ask again until its answer is settled and, after the end of the run, its claim released |
| `RunPolls.OthersUntouched` | operator-console/src/app/run.rs:740-774 | asking for a section and settling its answer leave the other sections as they were |
| `RunPolls.RunPoller.ApplyDispatch` | operator-console/src/app/mod.rs:791-863 | the drop of the awaited poll clears it and releases its claim, that of another read releases its claim, a query is retried, anything else goes back to the outbox; coalescing hands over the older id |
| `RunPolls.DroppedMayAskAgain` | operator-console/src/app/mod.rs:791-863 | a dropped section poll may be asked for again at once if it was the awaited one, and changes nothing otherwise |
| `RunPolls.CoalescedWaitsForOlder` | operator-console/src/app/mod.rs:791-863 | a coalesced section poll that is awaited waits for the older answer; any other changes nothing |
| `RunPolls.DroppedReadsRelease` | operator-console/src/app/mod.rs:791-863 | other dropped polls of a run only give back their claim, preflight queries are left to Launch, and every other command returns to the outbox |
| `RunPolls.RunPoller.ReduceOperatorView` | operator-console/src/app/run.rs:1191-1202 | only an answer with the awaited id for this run is accepted, and it clears the pending flag |
| `SectionRequests.NoOrphanedRequest` | operator-console/src/app/mod.rs:791-863 | over every run, whatever earlier views left in the pipeline, a pending section has a command on its way whose answer carries the awaited id |
| `SectionRequests.AskIsExact` | operator-console/src/app/run.rs:740-774 | a new poll of a section has exactly one answer to come if and only if its id is not on its way already |
| `SectionRequests.ClaimedIsNotAsked` | operator-console/src/app/run.rs:740-774 | a claimed section is not asked for, and other commands wait behind those before them in the same outbox |
| `SectionRequests.CoalescedIsExact` | operator-console/src/app/mod.rs:840-855 | coalescing the awaited poll leaves exactly one answer to come if and only if the older poll's id is on its way once |
| `SectionRequests.StepIsExact` | operator-console/src/app/mod.rs:791-863 | any step from a state with exact answers leads to another if and only if what can be looked up before it allows it |
| `SectionRequests.ExactlyOneAnswer` | operator-console/src/app/run.rs:740-774 | over every run a pending section has exactly one answer to come, for the page last asked for, and an idle one none, if and only if every step was allowed |
| `SectionRequests.ReusedIdsDecide` | operator-console/src/app/run.rs:740-774 | in a new view over distinct leftovers that holds if and only if no poll was given an id that was still on its way |
| `SectionRequests.NothingLeftBehind` | operator-console/src/app/run.rs:740-774 | in a new view over no leftover of the section it holds over every run |
| `SectionRequests.EqualIdsAnswerTwice` | operator-console/src/app/run.rs:740-774 | it fails when a view is opened again while the answer to its first poll is unread: then two answers are on their way |
| `Preflight.LaunchState.SchedulePreflight` | operator-console/src/app/launch.rs:535-539 | a query is due after the delay exactly when presets are loaded |
| `Preflight.LaunchState.SelectPreset` | operator-console/src/app/launch.rs:509-532 | selecting a preset takes its toggles and simulation limit, keeps an edited intent and schedules a query |
| `Preflight.ChosenIsAsked` | operator-console/src/app/launch.rs:509-555 | a chosen preset is asked about with its own toggles after 300 milliseconds and not before; its text replaces a blank intent or the former preset's |
| `Preflight.ToggledIsAsked` | operator-console/src/app/launch.rs:535-555 | changed toggles are asked about after a debounce of their own |
| `Preflight.ArrivedIsAsked` | operator-console/src/app/launch.rs:731-747 | when presets arrive the default one, or the first if it is missing, is chosen and asked about at once |
| `Preflight.LaunchState.TakeDuePreflight` | operator-console/src/app/launch.rs:542-555 | the due query is issued once, with a new id, for the selection of that moment |
| `Preflight.AskedOnlyOnce` | operator-console/src/app/launch.rs:542-555 | a due query is sent exactly when its time has come and a preset is chosen, and only once |
| `Preflight.LaunchState.RetryDroppedPreflight` | operator-console/src/app/launch.rs:557-562 | only the drop of the awaited query forgets it and schedules it again |
| `Preflight.LaunchState.AdoptPreflightRequest` | operator-console/src/app/launch.rs:564-568 | only the awaited query takes over an older id |
| `Preflight.LaunchState.ApplyPreflight` | operator-console/src/app/launch.rs:570-601 | only the awaited answer is stored, replacing both answer and error; a selected check it does not list loses its selection and detail |
| `Preflight.AnswerIsShown` | operator-console/src/app/launch.rs:570-601 | an awaited answer replaces the former one, an error empties the panel, and a selected check stays selected exactly while it is listed |
| `Preflight.DispatchCoalesced` | operator-console/src/app/mod.rs:856-858 | coalescing the awaited query leaves a twin for the same selection on its way, whose id is then awaited |
| `Preflight.SelectionKeeps` | operator-console/src/app/launch.rs:509-532 | whatever changes the selection schedules a query for it |
| `Preflight.AcceptedIsLatest` | operator-console/src/app/launch.rs:570-588 | over every run an accepted answer was issued for the query issued last |
| `Preflight.InFlightIsAnswered` | operator-console/src/app/launch.rs:542-588 | over every run a recorded query was issued last and has exactly one answer or drop to come |
| `Preflight.FailedTitlesEmpty` | operator-console/src/app/launch.rs:627-632 | the list of failed checks is empty exactly when no check failed |
| `Preflight.FailedTitlesAppend` | operator-console/src/app/launch.rs:627-632 | the titles listed are those of the failed checks in order |
| `Preflight.BlockerSaysWhy` | operator-console/src/app/launch.rs:603-638 | an empty intent is reported first, then missing presets, a failed preflight, one that is running, and the failed checks of its answer |
| `Preflight.LaunchIsClear` | operator-console/src/app/launch.rs:603-638 | over every run, launching is possible exactly when the intent is not blank, nothing is pending, and the stored answer is the one accepted for the current preset and toggles, names them, is launchable and has no failed check |
| `Preflight.LaunchIsReached` | operator-console/src/app/launch.rs:509-638 | any preset with any toggles and any intent that is not blank becomes launchable once its query was dispatched, served and answered by a launchable stack |
| `Preflight.FailuresAndRefreshes` | operator-console/src/app/launch.rs:535-612 | presets that could not be fetched are reported, and a refresh asks for the current selection again |
| `Paging.Merge` | operator-console/src/app/run.rs:384-396 | merging replaces items by stable id, adds new ones, keeps ids distinct and the list in order |
| `Paging.Unknown` | operator-console/src/app/run.rs:1278-1287 | of a backfill page only ids that are not retained yet are taken, the page's last entry for each |
| `Paging.SectionView.Reduce` | operator-console/src/app/run.rs:1202-1374 | the new cursor, backfill boundary and items of one accepted page, and whether paging goes on |
| `Paging.CurrentFold` | src/onr/runtime_host/operator_projection.py:236-254 | the current items that changed at or after a position are what the journal folds to from there on |
| `Paging.LatestPage` | src/onr/runtime_host/operator_projection.py:236-254 | the first page holds exactly the current items from its boundary on, or all of them without one |
| `Paging.AfterKeeps` | operator-console/src/app/run.rs:1243-1253 | a forward page extends the retained items to its high-water mark without a gap |
| `Paging.BackfillKeeps` | operator-console/src/app/run.rs:1241-1253 | a backfill page extends the retained items downwards without overwriting newer values |
| `Paging.AlwaysFaithful` | operator-console/src/app/run.rs:1241-1346 | over every interleaving of appends and replies of any age, the retained items are the journal's latest per id from the pending boundary up to the forward cursor |
| `Paging.NothingMissing` | operator-console/src/app/run.rs:1241-1346 | with no backfill pending, they are those of the whole journal up to the cursor |
| `Paging.PollAdvances` | src/onr/runtime_host/operator_projection.py:194-254 | every answered poll makes progress until nothing is left to fetch |
| `Paging.PagingConverges` | operator-console/src/app/run.rs:1241-1374 | once the journal stops growing, one poll more than it has entries brings the section to the Host's current items |
| `Paging.ShownListIsDetermined` | operator-console/src/app/run.rs:339-431 | the sorted list depends on the retained items alone, not on the order the pages came in |
| `Paging.OrderedByKeys` | operator-console/src/app/run.rs:339-431 | the shown list goes up by its two sort keys and then by id |
| `PagedRequests.AcceptedIsAsked` | operator-console/src/app/run.rs:1191-1202 | with exact answers an accepted answer is the one a pending section waits for, and it is for the page the section asked for |
| `PagedRequests.FaithfulWhileExact` | operator-console/src/app/run.rs:740-1374 | requests and paging together: while the answers are exact every page taken in is the one the cursors call for, and what is retained stays faithful to the journal |
| `PagedRequests.RetainedIsFaithful` | operator-console/src/app/run.rs:740-1374 | in a new view over no leftover of the section, what it retains is faithful to the journal over every run of requests, dispatches, lanes and answers |
| `ReusedIds.AnyPage` | operator-console/src/app/run.rs:1241-1255 | whatever page a section takes in, of the journal as it was at any time, what it retains stays faithful if and only if the page is harmless: nothing on it has changed up to the cursor it hands out, and what it passes over, takes back or leaves between the boundaries is on it or the same |
| `ReusedIds.NewestOnceMore` | operator-console/src/app/run.rs:1241-1255 | the newest page, taken in once more, keeps it faithful if and only if every item that changed between the cursor and the page has changed again since or changed to what it was |
| `ReusedIds.UncalledPagesDecide` | operator-console/src/app/run.rs:740-1374 | over every run of requests, dispatches, lanes, answers and appends, what is retained is faithful at all times if and only if every page taken in that the cursors do not call for is harmless |
| `ReusedIds.LostForGood` | operator-console/src/app/run.rs:1241-1255 | an item behind the cursor that is not retained is not shown again by any growth and polling until it changes once more |
| `ReusedIds.EqualIdLosesItems` | operator-console/src/app/run.rs:740-1255 | for every page size: a reopened view asks, takes in the answer its predecessor left, and then the answer to its own poll with the same id; if one item more than a page holds changed in between, an item is skipped and not shown until it changes once more |
| `ImagePipeline.WorldMedia.Configure` | operator-console/src/app/world.rs:220-225 | a new image thread starts with empty slots, nothing displayed, no frame asked for and a new generation |
| `ImagePipeline.WorldMedia.SetSource` | operator-console/src/app/world.rs:234-252 | another source clears every slot and image and the frame timer and starts a new generation; the same source changes nothing |
| `ImagePipeline.WorldMedia.Due` | operator-console/src/app/world.rs:256-269 | a visible frame is asked for at most every 500 milliseconds, never while paused or disabled, and asking selects its source |
| `ImagePipeline.DueExactly` | operator-console/src/app/world.rs:256-269 | a frame is asked for exactly when it is visible, enabled and not paused and its source was just selected, not asked for yet, or asked for 500 milliseconds ago; only asking restarts the interval |
| `ImagePipeline.AsksAreSpaced` | operator-console/src/app/world.rs:234-269 | over every run, two frames asked for while one source stays selected are at least 500 milliseconds apart |
| `ImagePipeline.PauseStopsAsking` | operator-console/src/app/world.rs:256-259 | while paused nothing is asked for, and resuming keeps the interval |
| `ImagePipeline.WorldMedia.Submit` | operator-console/src/app/world.rs:271-284 | a frame of the selected source replaces the waiting one under a new generation and wakes the thread; any other is ignored |
| `ImagePipeline.WorldMedia.Poll` | operator-console/src/app/world.rs:288-319 | finished work is taken out; only the requested picture and the latest frame are taken over, and completion is reported |
| `ImagePipeline.CompletionIsSeen` | operator-console/src/app/world.rs:288-319 | a poll reports something exactly when it finished the latest frame's decoding or the requested picture, and what succeeded is taken over |
| `ImagePipeline.WorldMedia.Render` | operator-console/src/app/world.rs:331-357 | a picture is requested when the current image, size or scaling differs from the last request; the last finished one is shown meanwhile |
| `ImagePipeline.NextKeepsAwake` | operator-console/src/app/world.rs:142-166 | no step of either thread leaves a filled slot that nobody will look at |
| `ImagePipeline.DisplayedIsSelected` | operator-console/src/app/world.rs:116-357 | in every interleaving the displayed picture shows the selected source, and between UI calls a filled slot has a token or the thread has yet to come to it |
| `ImagePipeline.DisplayedNeverGoesBack` | operator-console/src/app/world.rs:288-319 | a step replaces the displayed picture only by the requested one, of the same source and no earlier generation |
| `ImagePipeline.DrainedShowsLatest` | operator-console/src/app/world.rs:116-357 | when nothing is left to do, the last submitted frame is displayed at the rendered size unless the codec refused it |
| `ImagePipeline.QuietRunsEnd` | operator-console/src/app/world.rs:116-357 | however the steps of a quiet UI, among them filling a slot and sending the token, interleave with the image thread, at most 49 change anything |
| `ImagePipeline.QuietUiShowsLatest` | operator-console/src/app/world.rs:116-357 | from every reachable state 50 rounds of poll, render, wake and thread step display the latest frame |
| `LogTail.SplitAppend` | operator-console/src/app/stack.rs:114-137 | splitting into lines does not depend on where the text was cut |
| `LogTail.ServiceLogTail.JumpToWindow` | operator-console/src/app/stack.rs:67-73 | jumping counts the skipped bytes, forgets the unfinished line and waits for the next line start |
| `LogTail.ServiceLogTail.PushText` | operator-console/src/app/stack.rs:114-137 | the pushed text's lines follow those before, the unfinished line is carried over, and a cut first line is dropped |
| `LogTail.ServiceLogTail.Trim` | operator-console/src/app/stack.rs:139-143 | exactly the last 500 lines are kept |
| `LogTail.ServiceLogTail.Apply` | operator-console/src/app/stack.rs:76-112 | stale pages and transport errors keep the lines, a shrunk log starts over, and a page is pushed, skipped or followed by a jump |
| `LogTail.ErrorsAreShown` | operator-console/src/app/stack.rs:76-112 | a reply to an older request changes nothing, a refused offset starts over, a failure is shown and a page ends it |
| `LogTail.WindowShowsWholeLines` | operator-console/src/app/stack.rs:114-137 | the lines of a window are a contiguous block of the log's lines, the last ones before its end |
| `LogTail.AlwaysFollows` | operator-console/src/app/stack.rs:76-143 | over every growth and every sequence of replies the tail is what the windows read so far say |
| `LogTail.BytesAccountedFor` | operator-console/src/app/stack.rs:67-143 | bytes pushed plus skipped equals the next offset, and at most 500 lines are kept |
| `LogTail.ShowsWholeLogLines` | operator-console/src/app/stack.rs:114-137 | every window shows whole lines of the log in order, and the unfinished line is the log's unless its start was skipped |
| `LogTail.CompleteLinesAreLines` | operator-console/src/app/stack.rs:126-136 | each split line lies between two breaks of the text, in order and adjacent, has no break inside, and is what stands there without the carriage returns at its end |
| `LogTail.RestFollowsLines` | operator-console/src/app/stack.rs:126-136 | what follows the last split line is the unfinished one, and it has no break |
| `LogTail.ChunkingDoesNotMatter` | operator-console/src/app/stack.rs:76-143 | without a jump the lines and the unfinished line depend on the bytes read alone |
| `LogTail.NoJumpNoSkip` | operator-console/src/app/stack.rs:67-112 | nothing was skipped exactly when everything was read from the start without a jump |
| `ProgressForest.PathUnique` | operator-console/src/app/progress.rs:306-326 | a node has at most one path from the root |
| `ProgressForest.PathDistinct` | operator-console/src/app/progress.rs:404-420 | paths never repeat a node, whatever cycles the parents form |
| `ProgressForest.PathBounded` | operator-console/src/app/progress.rs:404-420 | so no path is longer than there are nodes, which bounds the recursion |
| `ProgressForest.BuildKeeps` | operator-console/src/app/progress.rs:404-433 | a subtree is built exactly when its node or a descendant is important enough, with exactly the paths of such nodes |
| `ProgressForest.ProgressView.GroupByParent` | operator-console/src/app/progress.rs:307-326 | the children lists of all nodes in order: each node below the parent it names if that is known, and below the root otherwise |
| `ProgressForest.ProgressView.BuildItem` | operator-console/src/app/progress.rs:404-433 | builds and records the subtree of a node and ends for every node map |
| `ProgressForest.PathsAreShown` | operator-console/src/app/progress.rs:299-343 | a node has a recorded path exactly when its parent chain reaches the root and it or a descendant meets the minimum importance; the path is that chain |
| `ProgressForest.PathsFollowParents` | operator-console/src/app/progress.rs:314-326 | every step of a recorded path goes from the parent a node names, or from the root if it names none that is known, to the node; the live container is below the root |
| `ProgressForest.BelowParent` | operator-console/src/app/progress.rs:314-343 | a node that has a path is right below its parent, which has one too |
| `ProgressForest.EligibleIs` | operator-console/src/app/progress.rs:421-426 | a node is important enough if its importance does not come after the limit; one without a known importance is taken for routine |
| `ProgressForest.AncestorsShown` | operator-console/src/app/progress.rs:404-433 | every prefix of a recorded path is the recorded path of its last node |
| `ProgressForest.ShownOnce` | operator-console/src/app/progress.rs:333-343 | every node with a path is in the tree once, and no other node is |
| `ProgressForest.ProgressView.Rebuild` | operator-console/src/app/progress.rs:299-402 | a selected node that still has a path stays selected, otherwise the root is; open are exactly the new paths of the nodes that were open and are still shown, and the selection's ancestors; the search is repeated and keeps its place by id |
| `ProgressForest.ProgressView.SelectNode` | operator-console/src/app/progress.rs:138-148 | succeeds exactly for nodes with a path, selects it, opens its ancestors and takes its place in the matches |
| `ProgressForest.AncestorsAre` | operator-console/src/app/progress.rs:141-143 | the paths opened for a node are the proper beginnings of its own |
| `ProgressForest.NewestIsNewest` | operator-console/src/app/progress.rs:271-296 | no shown record is later than the followed one by log sequence and then start time, and of equally late ones it is the last listed |
| `ProgressForest.FollowsLatestLog` | operator-console/src/app/progress.rs:271-296 | the followed record has the highest log number of all shown records and, among those with it, the latest start time |
| `ProgressForest.ProgressView.FollowLatest` | operator-console/src/app/progress.rs:271-297 | selects the latest shown record and opens its ancestors, or leaves the selection when there is none |
| `ProgressForest.ProgressView.constructor` | operator-console/src/app/progress.rs:41-70 | an empty view shows and selects the root and follows the newest record |
| `ProgressForest.ProgressView.TakeNodes` | operator-console/src/app/progress.rs:76-107 | the nodes of a page are merged by id, and whether anything changed or was added is reported |
| `ProgressForest.ProgressView.Ingest` | operator-console/src/app/progress.rs:76-122 | pages are merged by id; if the narrative or a node is new the nodes are put in order and the view is rebuilt, and the newest shown record is selected if it is followed, else the node selected before if it is still shown; otherwise nothing changes |
| `ProgressForest.ProgressView.SetMinimum` | operator-console/src/app/progress.rs:190-202 | another importance limit rebuilds the view and selects the newest shown record if it is followed, else the node selected before if it is still shown |
| `ProgressForest.ChildrenInOrder` | operator-console/src/app/progress.rs:306-326 | the children of a node are listed in the order of the nodes |
| `ProgressForest.LogChildrenInOrder` | operator-console/src/app/progress.rs:306-326 | children that are records of the log are listed in its order |
| `ProgressOrder.NodesInOrder` | operator-console/src/app/progress.rs:602-605 | comparing node ids by kind, sequence and id is a total order |
| `ProgressOrder.NodesByKind` | operator-console/src/app/progress.rs:602-605 | nodes are listed by kind, within a kind by number, with those without a number last |
| `ProgressOrder.KindAndNumber` | operator-console/src/app/progress.rs:602-605 | an id made of a kind and a printed number is taken apart into them |
| `ProgressOrder.TextByFirstDifference` | operator-console/src/app/progress.rs:602-605 | texts compare by the first character in which they differ, and a text comes after its beginnings |
| `ProgressOrder.LogIsChronological` | operator-console/src/app/progress.rs:74-112 | log records are listed in the order of the log, however pages arrive |
| `ProgressOrder.LogNumber` | operator-console/src/app/progress.rs:284-288 | the printed log number of a record is read back from its id |
| `ProgressOrder.PrintedParses` | operator-console/src/app/progress.rs:602-605 | a printed number is read back, with or without a plus sign, unless it does not fit 64 bits |
| `ProgressOrder.LaterRecords` | operator-console/src/app/progress.rs:282-294 | a higher log number is later, and one is later than none; for equal ones a greater start time is later, and one is later than none |
| `ProgressForest.ProgressView.RefreshMatches` | operator-console/src/app/progress.rs:477-506 | the matches are what the search finds, none for an empty term; the place in them is carried over by id |
| `ProgressForest.MatchesAreShown` | operator-console/src/app/progress.rs:477-503 | search finds exactly the shown matching nodes and the matching narrative, so every jump has a path to select |
| `ProgressForest.FoundAreShown` | operator-console/src/app/progress.rs:477-503 | a nonempty term finds exactly the root if the narrative's text contains it and the shown nodes whose text does; the empty term finds nothing |
| `ProgressForest.MatchesInOrder` | operator-console/src/app/progress.rs:484-503 | the matches are in the order of the nodes, the root's first |
| `ProgressForest.MatchesDistinct` | operator-console/src/app/progress.rs:484-503 | a match is listed twice if and only if a node has the root's id and both it and the narrative match |
| `ProgressForest.ProgressView.EditSearch` | operator-console/src/app/progress.rs:157-175 | erasing searches again and keeps the selection; a typed character also selects the match after the place carried over |
| `ProgressForest.ProgressView.JumpMatch` | operator-console/src/app/progress.rs:508-524 | a jump stops following and selects the next or previous match, going round, and its place is that of the match's first occurrence |
| `ProgressForest.JumpsReachAll` | operator-console/src/app/progress.rs:508-534 | every jump forward ends on the match after the current one if and only if no match is listed twice |
| `ProgressForest.JumpsGoRound` | operator-console/src/app/progress.rs:508-519 | jumping forward goes round through every match, from none to the first, and back to the last; jumping back undoes one jump |
| `WordWrap.WrapSegments` | operator-console/src/app/launch.rs:258-282 | ends for every text and width, although some passes do not advance, with the rows of the greedy rule |
| `WordWrap.WrapIsGreedy` | operator-console/src/app/launch.rs:258-282 | the rows partition the line; each fits or is one character; each break was forced by a character that did not fit and is at the last space if there is one |
| `WordWrap.CursorIsInLine` | operator-console/src/app/launch.rs:102-108 | the cursor's line exists, its column is within it, and together they give the position |
| `WordWrap.LinesMakeText` | operator-console/src/app/launch.rs:102-137 | the lines joined by breaks are the text, and no line has a break |
| `WordWrap.LineColRoundTrip` | operator-console/src/app/launch.rs:128-137 | line_col_to_cursor undoes cursor_line_col for every text and cursor |
| `WordWrap.CursorRoundTrip` | operator-console/src/app/launch.rs:102-137 | on existing lines cursor_line_col undoes line_col_to_cursor, clamped to the line |
| `WordWrap.OneRowHolds` | operator-console/src/app/launch.rs:212-221 | exactly one row of a line holds a given column |
| `WordWrap.LayLine` | operator-console/src/app/launch.rs:206-223 | adds the rows of one line and places the cursor in the one row that holds it, at the width of the text before it, or at the next row when the last row is full |
| `WordWrap.Wrap` | operator-console/src/app/launch.rs:201-234 | the rows of all lines, and the cursor on an existing row, adding an empty row only when the cursor needs it |
| `WordWrap.PositionsShare` | operator-console/src/app/launch.rs:198-234 | two positions are shown at one place if and only if only zero-width characters of one row are between them, or the first is past a full last row of its line and the second at the start of the next line |
| `WordWrap.IntentEditor.SetText` | operator-console/src/app/launch.rs:96-99 | the text is replaced and the cursor put at its end |
| `WordWrap.IntentEditor.HandleKey` | operator-console/src/app/launch.rs:161-196 | a key is consumed exactly when it edits and only Shift, with a character, or nothing is held; each key's effect on text and cursor, which stays within the text |
| `WordWrap.ModifiedKeys` | operator-console/src/app/launch.rs:161-170 | an unmodified editing key is always consumed, Shift matters for characters only, and with anything else held no key is |
| `WordWrap.VerticalMoves` | operator-console/src/app/launch.rs:171-192 | line moves land on the neighbouring line at the same column or its end; Home and End on the line's ends |
| `WordWrap.TypingIsUndone` | operator-console/src/app/launch.rs:139-151 | backspace undoes typing, and typing a removed character puts it back |
| `WordWrap.KeysCompose` | operator-console/src/app/launch.rs:139-171 | typing puts a character before the cursor; Left undoes Right, Delete is Right and Backspace, Enter types a break, and keys at the ends of the text do nothing |
| `Calendar.EpochIsDayZero` | operator-console/src/app/run.rs:457-465 | the day formula is zero at 1970-01-01 |
| `Calendar.DayAfterDay` | operator-console/src/app/run.rs:457-465 | for every integer year the formula grows by exactly one from each valid date to its successor |
| `Calendar.FormulaCountsDays` | operator-console/src/app/run.rs:457-465 | it equals the count of days from the epoch, forwards and backwards |
| `Calendar.FormulaFindsDate` | operator-console/src/app/run.rs:457-465 | it tells all valid dates apart: counting that many days finds the date again |
| `Calendar.ZoneParses` | operator-console/src/app/run.rs:447-455 | every zone suffix parses to its offset in seconds |
| `Calendar.FractionSkipped` | operator-console/src/app/run.rs:442-446 | a fraction of any number of digits, or none, is skipped up to the zone |
| `Calendar.SignedParses` | operator-console/src/app/run.rs:435-455 | a number is a nonempty run of digits, perhaps after one sign |
| `Calendar.PrintParses` | operator-console/src/app/run.rs:435-467 | parsing the timestamp of an instant, printed in any zone with any fraction as section 5.6 of RFC 3339 allows, returns that instant |
| `History.ConsoleApp.SwapContext` | operator-console/src/app/history.rs:300-313 | the displayed and the given context change places, completely |
| `History.ConsoleApp.OnCurrent` | operator-console/src/app/mod.rs:1047-1104 | the effect of a /current answer: recovered owner mismatch, run change, final refresh, cancellation and attention |
| `History.SameRunKeepsView` | operator-console/src/app/mod.rs:1067-1084 | an answer about the run on display keeps its view, its requests and what is complete; if it has ended its final refresh is claimed once |
| `History.OtherRunStartsAnew` | operator-console/src/app/mod.rs:1067-1084 | an answer about another run starts a new view that has asked for nothing |
| `History.LostOwnerLaunches` | operator-console/src/app/mod.rs:1047-1066 | when the owned run is not the current one the ownership is given up and Launch entered |
| `History.CurrentIsObserved` | operator-console/src/app/mod.rs:1081-1104 | the record is shown to attention with the phase of its view, and a recovered run is displayed |
| `History.CancelledRunSettles` | operator-console/src/app/mod.rs:1085-1103 | a cancelled run completes a clean exit, or ends a cancellation to go on; any other leaves the cancellation alone |
| `History.FailedCurrentReleases` | operator-console/src/app/mod.rs:912-916 | a failed `/current` poll releases its claim, so the next poll asks again |
| `History.ConsoleApp.OnCancelled` | operator-console/src/app/mod.rs:1113-1149 | the effect of a cancellation answer: accepted, mismatched or refused |
| `History.CancelReplies` | operator-console/src/app/mod.rs:1113-1149 | the reply to the outstanding request marks it as requested; any other reply ends the request with a notice; none outstanding changes nothing |
| `History.ConsoleApp.ReduceRun` | operator-console/src/app/run.rs:1191-1263 | only the displayed run takes an answer, a section only the awaited one, which settles its request; a historical view's loading state follows it, and attention sees the current run only |
| `History.AnswersAreReduced` | operator-console/src/app/run.rs:1191-1263 | an answer of another run, or of another request than the section's last, changes nothing; any other is reduced once and an overview page observed |
| `History.HistoricalAnswersAreReduced` | operator-console/src/app/run.rs:1191-1263 | the displayed historical run takes its answers too; its loading state follows and the shared state stays |
| `History.AnsweredSettles` | operator-console/src/app/run.rs:1191-1202 | an answer ends the wait of its own section only |
| `History.LoadingEnds` | operator-console/src/app/run.rs:1203-1240 | a historical view stops loading with an overview answer or a missing Run Root, and counts timeouts until then |
| `History.ConsoleApp.SyncDisplayedCurrent` | operator-console/src/app/history.rs:385-412 | a /current answer refreshes the displayed record and goes no further with Launch parked |
| `History.DisplayedRecordRefreshes` | operator-console/src/app/history.rs:385-412 | a `/current` answer about the displayed run refreshes its record and leaves everything else of an unfinished run |
| `History.DisplayedHearsFailures` | operator-console/src/app/history.rs:385-412 | an answer without a run leaves the displayed one; a failure with Launch parked releases its claim, so the next poll asks again |
| `History.ConsoleApp.HandleHostMessage` | operator-console/src/app/mod.rs:868-880 | each message is reduced into the context it is about, with the parked one swapped in and out |
| `History.RecoveredIntent` | operator-console/src/app/mod.rs:918-934 | the intent of the recovered run becomes the text of Launch, a failure to read it ends the session, and any other is ignored |
| `History.ReceiptIsReduced` | operator-console/src/app/mod.rs:936 | a receipt is reduced into the run's context |
| `History.ConsoleApp.PollRun` | operator-console/src/app/run.rs:657-681 | a run is polled on its screen, within the cancellation limit, and after its end only every two seconds until it is complete; `/current` is polled in every scope unless its refresh is claimed |
| `History.PollsWhenDue` | operator-console/src/app/run.rs:657-681 | nothing is polled off the Run screen, past the cancellation deadline, of a finished run or within two seconds of its last poll; otherwise `/current` comes first unless claimed |
| `History.EndedRunRests` | operator-console/src/app/run.rs:657-681 | after a poll of an ended run the next is two seconds away, and `/current` is not asked for again until its claim is released |
| `History.ConsoleApp.RequestPoll` | operator-console/src/app/run.rs:648-655 | a historical run on display is polled and behind it the lifecycle of the parked run |
| `History.ConsoleApp.HandleDispatch` | operator-console/src/app/mod.rs:783-789 | backpressure is applied to the context it is routed to, with the parked one swapped in and out |
| `History.PreflightReachesLaunch` | operator-console/src/app/mod.rs:791-863 | the outcome of a preflight query reaches Launch whatever is displayed: a dropped one is asked again after the debounce, a coalesced one waits for the older answer |
| `History.ConsoleApp.StartNewIntent` | operator-console/src/app/mod.rs:712-735 | leaving a finished run forgets it, its view, the owner and the cancellation, and enters Launch |
| `History.NewIntentForgets` | operator-console/src/app/mod.rs:712-735 | a new intent starts without run, owner or cancellation, unless the session file cannot be removed |
| `History.ConsoleApp.OpenHistorical` | operator-console/src/app/history.rs:576-617 | the run is displayed in a fresh context and polled; the current context is parked, or stays parked |
| `History.DisplayedIsFresh` | operator-console/src/app/history.rs:576-617 | a historical run is displayed on a Run screen with a fresh view that loads, and the same context stays parked |
| `History.ConsoleApp.CloseHistoricalView` | operator-console/src/app/history.rs:620-628 | the parked context is back on display, polled on a Run screen |
| `History.RoutedActsUnparked` | operator-console/src/app/history.rs:320-329 | running a step against the parked context is running it with history closed, and leaves the displayed context alone |
| `History.HistoryDoesNotInterfere` | operator-console/src/app/history.rs:345-359 | with a Run screen parked, every message about a run changes the current run, attention and cancellation exactly as if history had never been opened |
| `History.MessagesStayApart` | operator-console/src/app/history.rs:333-359 | a message about another run than the parked one changes neither the parked context nor attention nor cancellation; one about the parked run does not change the displayed context |
| `History.DisplayedIsServed` | operator-console/src/app/history.rs:333-359 | the displayed run's messages reach it exactly when the parked run is another one |
| `History.SameRunIsStarved` | operator-console/src/app/history.rs:537-573 | with Launch parked over a run, opening that same run sends its pages to the parked context and none to the one on display |
| `History.LateAnswerStarves` | operator-console/src/app/mod.rs:1047-1081 | that state is reached when a `/current` answer arrives after the operator returned to Launch |
| `History.OpenAndCloseRestore` | operator-console/src/app/history.rs:576-628 | opening any historical run leaves the current run as one lifecycle poll does, and closing brings it back and polls it in full |
| `History.RowsKeepRunsApart` | operator-console/src/app/history.rs:537-573 | over a parked Run screen, opening a row never displays the parked run itself, and the current run is at most polled |
| `History.RowsDisplay` | operator-console/src/app/history.rs:537-573 | Enter on a row shows the current run live if it is that on a Run screen, leaves a run already displayed and one that is not available, and displays any other |
| `History.TouchesExactly` | operator-console/src/app/mod.rs:791-863 | a dispatch outcome changes a context exactly when it ends its awaited request, releases a claim it holds or hands over another id |
| `History.ParkedChangesWhenTouched` | operator-console/src/app/history.rs:363-378 | the parked context changes exactly when an outcome is routed to it and touches it; then it changes as with history closed |
| `History.DroppedReachesItsRun` | operator-console/src/app/history.rs:363-378 | a dropped section poll that the parked or the displayed run awaits may be asked for again by that run, and the other context stays |
| `History.DroppedCurrentReleases` | operator-console/src/app/history.rs:363-378 | a dropped `/current` poll frees the claim of the parked run over a parked Run screen and of the displayed one otherwise |
| `History.DroppedPollInterferes` | operator-console/src/app/history.rs:363-378 | a dropped `/current` poll of a historical run with a status that is not terminal releases the claim of the parked run |
| `History.BackpressureIsHarmless` | operator-console/src/app/history.rs:363-378 | an outcome leaves the current run as without history if and only if it is routed to the run that issued it or touches nothing |
| `History.HistoryIsInvisible` | operator-console/src/app/history.rs:300-413 | over every run of messages, polls, dispatch outcomes and history navigation, the current run, attention and cancellation are at all times those of a console without history, which polls only the lifecycle where this one has history open, if and only if every outcome is harmless |

## Left out

- Rendering, key hints, themes, terminal setup, clipboard, desktop notifications and image protocols: presentation only.
- HTTP, JSON and the validation of headers and validators. The Host appears as its page contract; an answer of "not modified" changes nothing.
- Threads, clocks and channels themselves: time is an integer, a thread is a program counter, and a worker never panics or loses its channel.
- Worker threads and the image thread run as step functions on values rather than as loops in a class, since their interleaving is what is proved.
- Floating point: probabilities, scores and flow are real numbers; the rounding to score units is modelled.
- 64-bit wrap-around of generations, request ids and offsets: they are unbounded numbers.
- The planner: candidate generation, arc reduction, the route search (an exact maximiser over given routes) and the information curve (any table).
- The epoch and lifted representations, the solver's own run, the route check after it and argument handling of both scripts.
- `acquisition_suffix` and the choice among acquisition rows: one row is modelled, for any remaining candidates and routes.
- A ship without a believed risk, which the script cannot score: every ship has one here.
- Page fields other than stable id, sort keys and content; the selection and follow state of the agents list; sections that are replaced as a whole.
- Conversations, artifact inspector, world frames and cancellation deadlines of a run view: `History` leaves them to the rules of a context.
- The resize overlay around a screen and the liveness clock in `History`; both are the same for either context.
- Which commands a page makes a run push: `History` leaves them to the rules of a context; who issued a command that was dropped or coalesced is part of the event.
- Log bytes outside ASCII: one character is one byte, so a window that splits a character, whose replacement changes the page's length, is not modelled.
- Timestamps with characters outside ASCII, on which the parser's slicing can fail.
- Case folding of searches and how a node's searchable text is put together: whether a text contains a term is any test. Keys other than search and importance, details, tree rows' titles and styles, and the preview summaries of the progress view.
- History.ConsoleApp.PollRun: which sections and reads a poll of a run asks for is left to the rules of a context; `SectionRequests` and `PagedRequests` have one section's.
- `wrap_line`, list scrolling, demo prompts, the order of toggle options and the activation review.
- Session files, child-process ownership, receipts, failure cards and notifications.
- Calendar.PrintParses: states the round trip for years 0 to 9999, the years a four-digit timestamp can hold.
- History.ConsoleApp.ReduceRun: what a page does to a view is left to rules that by their type change the run's body and push commands, as the page reducers of the source do.
- History.ConsoleApp.HandleHostMessage: only messages about a run; those about the connection, presets, preflight, activation and the history list are reduced on display whatever is parked.
- Cursors are journal positions; the Host's encoding of them into opaque text is not modelled.
