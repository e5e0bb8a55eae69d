# ton-indexer, modelled and verified in Dafny

This project models the stateful cores of ton-indexer and proves what they promise, for every input and every run:

* **Event detector** (`indexer/event_detector.py`). Transactions arrive one by one, the two ends of each message are
  matched, event graphs grow and merge, and a graph is written out when its counter of open ends reaches zero.
  `Detector.dfy` is the detector on values; `DetectorMessages` says which messages link transactions; `DetectorGraphs`, `DetectorInvariant`, `DetectorRuns` and `DetectorCounters`
  build the invariant over a whole stream; `DetectorTheorems` and `DetectorOthers` state the results, `DetectorMerges` what
  merging does; `EventDetector.dfy` is the detector on heap objects with shared graphs, each method proved equal to the
  value-level step.
* **Traces as trees.** `Forest.dfy` holds the graph theory that the cores share (listing by a queue without a visited set,
  by recursive descent, parents before children), `Cycles.dfy` walks and cycles, and `QueueLoops.dfy` when a queue loop
  without a visited set ends, fails or runs dry. `TraceFlatten.dfy` is the queue loop over a stored trace and the saving of
  its nodes, `TraceAssembly.dfy` and `TraceNodes.dfy` the reassembly on values and on heap nodes, `TraceSearch.dfy` and
  `TraceTree.dfy` the closure loop, the parent walk, the tree building and the recursive query over the message table.
* **Block scheduler** (`IndexScheduler.cpp`). `Scheduler.dfy` is the actor with its queue and sets, `SchedulerRuns.dfy` the
  actor together with all its outstanding requests, over every interleaving of reports, wake-ups, successes and failures.
* **TTL tracker** (`ton-trace-ttl-tracker/main.go`). `ExpiryHeap.dfy` is the min-heap with lazy deletion against a plain map,
  `TtlTracker.dfy` the trackers and the expiry pass, `TtlRuns.dfy` every run of messages and passes.
* **Balance accounting** (`ton-index-go/index/balances.go`). `Balances.dfy` is the arithmetic of balance changes,
  `BalanceTrace.dfy` the child-first construction and the two traversals, `BalanceBuild`, `BalanceConservation`,
  `BalanceFees`, `BalanceFeeTotals` and `BalanceReads` the proofs, `BalanceActions` the changes of one action.
* **Address and hash types** (`pgton.c`) in `PgTon.dfy`, and their texts character by character in `PgTonText.dfy`.

Hashes are opaque values with equality. Times and amounts are unbounded integers unless a row says otherwise. The network, the
database, the clock, message decoding and logging are parameters: what a query returns, what a body decodes to, which store
operation fails and what the time is are all arbitrary.

A method that changes state is proved equal to a function on values, and the theorems are about that function, so they hold of
the method. A stream for the detector is *good* if every transaction arrives once, every message has at most one sender and
one receiver, which agree on its source and destination, the sender arrives before the receiver, and a transaction receives at
most one message. A message is *ordinary* if it has a source and a destination and not both are among the three system accounts.

A trace for the balances is *complete* if every transaction consumes one message, addressed to its account, every message
emitted with a destination is consumed by a later transaction of the trace, no message is emitted or consumed twice, and only
one transaction consumes a message from outside. It may lack fees, senders and opcodes, and it may have messages without a
destination. The parser never sets the forward fee of a message without a destination
(`ton-index-worker/tondb-scanner/src/DataParser.cpp`, lines 279-289), and the calculation reads it unchecked, so on a complete
trace that this repository has stored there is a result only if there is no such message, and then every fee is counted once.
The double count shows on traces from elsewhere, in which the forward fee of such a message is set.

Where a promise does not hold, the model keeps the code, shows an input on which it fails, and states exactly when it does hold:

| promise | fails at | holds exactly when |
|---|---|---|
| the counter of an event is what it has open | `DetectorMerges.MergeLosesTheEvent` | `DetectorMerges.MergeKeepsCounterExactly` |
| the queue loop over a stored trace ends | `TraceFlatten.OwnMessageNeverStops` | `TraceFlatten.LoopEndsExactly` |
| reassembly gives a tree | `TraceAssembly.SelfConsumptionLosesTheTrace` | `TraceAssembly.ForestExactly`, `TraceAssembly.TreeExactly` |
| a number is in one place | `SchedulerRuns.ReportedTwice` | `SchedulerRuns.LowerReport` |
| an expired trace is tracked nowhere | `TtlRuns.SecondRootIsKept`, `TtlRuns.TwoRootsRun` | `TtlTracker.PassForgetsExactly` |
| collected addresses are cleaned up | `TtlRuns.StrayStays` | `TtlRuns.CollectedExactly` |
| a complete trace has balance changes | `BalanceFeeTotals.LogWithoutFeeFails` | `BalanceFeeTotals.MissingExactly` |
| every fee is counted once | `BalanceFeeTotals.LogFeeIsChargedTwice` | `BalanceFeeTotals.FeesOnceExactly` |
| a hash is what its text says | `PgTon.LastByteLeft` | `PgTon.ShortTextKeepsFill` |

## Model

| member | source | states |
|---|---|---|
| DetectorTheorems.EmittedIsClosedComponent | indexer/event_detector.py:251-332 | for every good stream, every event written out consists of delivered transactions, is exactly one connected component of the links by ordinary messages, all of whose ordinary messages have both ends delivered, and its edges are that component's links, each once |
| DetectorTheorems.NoTransactionTwice | indexer/event_detector.py:313-322 | for every good stream, a transaction is in at most one event written out |
| DetectorTheorems.ClosedComponentIsEmitted | indexer/event_detector.py:251-332 | for every good stream, every component with a link and no open end has been written out |
| DetectorTheorems.EmittedOnLastArrival | indexer/event_detector.py:313-322 | such a component is written out at the step that delivers its last transaction, and not before |
| DetectorTheorems.CountersExact | indexer/event_detector.py:264-326 | between calls no merge has happened; the number of active events is the number of distinct graphs; the counter of an active graph is positive and equals both the sum of its transactions' remaining counts and the number of waiting ends that its transactions own |
| DetectorOthers.OthersExactly | indexer/event_detector.py:247-332 | for every good stream the queue of the others holds exactly the tick-tocks, if they are wanted, and the transactions without an ordinary message, in stream order |
| DetectorOthers.EndsConserved | indexer/event_detector.py:259-330 | for every good stream twice the matched messages plus the waiting ends are the ordinary message ends delivered, and the ignored transactions are those without an ordinary message |
| DetectorRuns.RunKeepsInvariant | indexer/event_detector.py:251-332 | over every good stream the waiting ends are the unmatched ones of the history, every active graph means exactly its part of the history, and every matched transaction is active or written out |
| DetectorMessages.OrdinaryExactly | indexer/event_detector.py:76-88 | the type of a message is ordinary if and only if it has a source and a destination and not both are the elector, the configuration contract or the zero account |
| DetectorMessages.TwoAreAnEvent | indexer/event_detector.py:251-332 | a transaction that sends one ordinary message and one that receives it are written out as one event, whatever their accounts |
| DetectorMessages.OneSystemEndIsAnEvent | indexer/event_detector.py:81-88 | a message from the elector to a wallet makes its two transactions an event, and neither goes to the queue of the others |
| DetectorInvariant.CompletingEnd | indexer/event_detector.py:264-322 | a message end whose other end waits keeps the invariant, whether the graph is finished by it or not |
| DetectorInvariant.WaitingEnd | indexer/event_detector.py:323-326 | an end whose other end has not come keeps the invariant |
| DetectorGraphs.Grow | indexer/event_detector.py:123-133 | adding an edge to a newcomer keeps the meaning of a graph: slots, counter, edges and connectedness |
| DetectorCounters.AddEdgeBalanced | indexer/event_detector.py:123-133 | adding any edge to any graph keeps the counter equal to the sum of the remaining counts |
| DetectorCounters.StepBalanced | indexer/event_detector.py:259-326 | on any stream, a message that causes no merge keeps every counter equal to its sum |
| DetectorMerges.MergeShortfall | indexer/event_detector.py:153-157 | on any stream, merging two graphs adds the right one's whole counter to what the counter is short of; merging a graph with itself keeps its counter and doubles its edges |
| DetectorMerges.MergeKeepsCounterExactly | indexer/event_detector.py:153-157 | on any stream, a merge of active graphs whose counters are right keeps the counter right if and only if the two are one graph |
| DetectorMerges.RunConsistent | indexer/event_detector.py:271-322 | on any stream, in any order and with repetitions, every member of an active graph points to that graph, so two active graphs are the same or have nothing in common, and the counter of an active graph is never zero |
| DetectorMerges.MergeLosesTheEvent | indexer/event_detector.py:290-322 | four transactions, delivered in an order that merges: every end is matched, nothing is open, the counter is -1, and the event is never written out |
| DetectorMerges.SameInGoodOrder | indexer/event_detector.py:251-332 | the same four with senders before receivers are a good stream |
| EventDetector.EventGraph.AddTx | indexer/event_detector.py:111-121 | the graph object gains the transaction with its number of ordinary messages, once |
| EventDetector.EventGraph.AddEdge | indexer/event_detector.py:123-133 | the graph object becomes the value-level graph with that edge, for any two transactions, even the same one twice |
| EventDetector.EventGraph.MergeWith | indexer/event_detector.py:153-157 | the graph object takes over the other's transactions and edges, whatever order they come in, and keeps its own counter |
| EventDetector.EdgeDetector.Create | indexer/event_detector.py:271-277 | both transactions point to one new graph object holding the edge, and no other graph changes |
| EventDetector.EdgeDetector.Grow | indexer/event_detector.py:278-289 | the shared graph object gains the edge and the newcomer points to it, and no other graph changes |
| EventDetector.EdgeDetector.Merge | indexer/event_detector.py:290-302 | every member of either graph points to the left object, which holds both and the edge |
| EventDetector.EdgeDetector.Settle | indexer/event_detector.py:313-322 | a finished event is written out and all its members are forgotten, any other stays |
| EventDetector.EdgeDetector.OnEdge | indexer/event_detector.py:271-322 | the whole detector, seen through its objects, becomes the value-level state after the edge |
| EventDetector.EdgeDetector.OnMessage | indexer/event_detector.py:259-326 | the same for one message, and whether it counts |
| EventDetector.EdgeDetector.ProcessTx | indexer/event_detector.py:251-332 | the same for one transaction, so every theorem about streams holds of the object |
| TraceFlatten.Traverse | ton-index-go/index/emulated/models.go:487-525 | on every map on which the queue loop ends, with cycles or not, it fails at the first node taken that does not decode, and otherwise lists the nodes in the order in which they are taken, with their trace id |
| TraceFlatten.ConvertHSet | ton-index-go/index/emulated/models.go:472-547 | which of the four failures happens when; on success the nodes in the order taken, each with the id of the trace, which is the root's transaction or none if the root is emulated; and every action in order, stamped with the root, that id, and the greatest times and block number that the nodes carry, or no action if there are none |
| TraceFlatten.EndsAreMaxima | ton-index-go/index/emulated/models.go:516-524 | the running ends are the greatest values that the nodes carry |
| TraceFlatten.PresentAt | ton-index-go/index/emulated/models.go:508-515 | the next keys of a node are its out-messages that are keys, in the order and as often as they are listed |
| TraceFlatten.LoopEndsExactly | ton-index-go/index/emulated/models.go:487-525 | the loop fails if and only if a node that does not decode can be reached from the root, and runs dry if and only if every node that can be reached decodes and none is on a cycle, a cycle being a walk over out-messages from a key back to itself |
| TraceFlatten.OwnMessageNeverStops | ton-index-go/index/emulated/models.go:487-525 | a node that decodes and whose only out-message is its own key keeps the queue from ever running dry, and the loop never fails |
| TraceFlatten.BadNodeEndsLoop | ton-index-go/index/emulated/models.go:487-525 | a cycle does not keep the loop from ending if a node that does not decode is taken: the root with children 2 and 3, 2 not decoding and 3 its own child, fails at the second turn |
| QueueLoops.FailsExactly | ton-index-go/index/emulated/models.go:487-525 | a queue loop without a visited set that fails at bad nodes fails if and only if a bad node can be reached, whatever cycles there are: the queue is fair |
| QueueLoops.DryExactly | ton-index-go/index/emulated/models.go:487-525 | such a loop runs dry if and only if neither a cycle nor a bad node can be reached |
| QueueLoops.OrderByRank | ton-index-go/index/emulated/models.go:487-525 | where it runs dry it takes the nodes in the queue order of the ranked graph, on which the results about trees rest |
| Cycles.RankedExactly | ton-index-go/index/emulated/models.go:487-525 | a measure that decreases from every node to its children exists below a node if and only if no cycle can be reached from it |
| TraceFlatten.FillFromRawData | ton-index-go/index/pending.go:182-209 | exactly the nodes, or exactly the emulated ones, are saved, in their order, the ends are the maxima over all nodes, saved or not, and the node count wraps at 16 bits |
| TraceFlatten.RoundTrip | ton-index-go/index/emulated/models.go:487-525 | for every stored tree, flattening visits each node once, and reassembling that list gives no warning, the same root, and as the children of every node exactly its out-messages that are keys, in their order |
| TraceFlatten.ListingReassembles | ton-index-go/index/crud.go:2128-2158 | any parents-first list of distinct nodes of the tree reassembles with each child list in listed order; there is no warning if and only if every node after the first has its parent listed |
| TraceFlatten.EmulatedOnlyRoundTrip | ton-index-go/index/pending.go:186-209 | the same for what is left when only emulated nodes are saved |
| TraceAssembly.KidsFromParents | ton-index-go/index/crud.go:2145-2147 | every child list is the list of the nodes that found that parent, in list order |
| TraceAssembly.RootFromParents | ton-index-go/index/crud.go:2148-2152 | the root is the first node that found no parent, and a second one raises the warning |
| TraceAssembly.ParentsDescribed | ton-index-go/index/crud.go:2142-2147 | on any list, a transaction that consumes its own message finds itself; any other finds the last earlier transaction that emitted the message and was not consumed since, whenever there is one |
| TraceAssembly.AssemblyIsForest | ton-index-go/index/crud.go:2128-2158 | on any list in which nobody consumes its own message, an attached node's parent is earlier and the result has no cycle and one parent per node |
| TraceAssembly.ForestExactly | ton-index-go/index/crud.go:2128-2158 | on any list the result has no cycle and one parent per node if and only if nobody consumes its own message |
| TraceAssembly.OwnChild | ton-index-go/index/crud.go:2142-2147 | on any list a node is its own child if and only if it consumes its own message |
| TraceAssembly.RootAndWarning | ton-index-go/index/crud.go:2148-2157 | on any list the root is the first transaction that consumes neither its own message nor an open one of an earlier transaction, there is none if there is no such, and the warning says that there are two |
| TraceAssembly.WarningExactly | ton-index-go/index/crud.go:2148-2157 | on any list the first transaction is the root if and only if it does not consume its own message, and then there is no warning if and only if every later one consumes its own message or one emitted earlier and not yet consumed |
| TraceAssembly.ReachedExactlyOnce | ton-index-go/index/crud.go:2128-2158 | where nobody consumes its own message and there is no warning, every transaction is reached from the root exactly once |
| TraceAssembly.TreeExactly | ton-index-go/index/crud.go:2128-2158 | on any list the result is a tree if and only if the list is not empty, nobody consumes its own message and every transaction but the first consumes one emitted earlier and not yet consumed |
| TraceAssembly.SelfConsumptionLosesTheTrace | ton-index-go/index/crud.go:2142-2147 | the smallest such list: one transaction that is its own child, with neither a root nor a warning |
| TraceNodes.AttachNode | ton-index-go/index/crud.go:2133-2152 | one turn of the loop on heap nodes is one step of the value-level assembly |
| TraceNodes.AssembleTraceTxsFromMap | ton-index-go/index/crud.go:2128-2158 | the heap nodes, root and warning are those of the value-level assembly, for any order and any map |
| TraceSearch.JoinedIsTouching | indexer/indexer/core/crud.py:442-449 | the query returns exactly the links that touch the new transactions, in both roles, rightly oriented |
| TraceSearch.CloseTrace | indexer/indexer/core/crud.py:438-451 | the closure loop ends with exactly the connected component of the start transaction and exactly the links inside it |
| TraceSearch.SingleRoot | indexer/indexer/core/crud.py:471-473 | the transactions that are no link's target are exactly one, the root that the parents lead to |
| TraceSearch.OneLinkFewer | indexer/indexer/core/crud.py:438-451 | a component has one link fewer than transactions |
| TraceSearch.TraceGetRoot | utils/fix-broken-traces/main.go:33-52 | the parent walk ends, at the root of the start transaction |
| TraceSearch.OneRootPerComponent | utils/fix-broken-traces/main.go:33-52 | all transactions of a component have the same root, which is in the component |
| TraceTree.EdgesMakeTree | indexer/indexer/core/crud.py:463-469 | in whatever order the edges are taken, they make a tree over the component with that root |
| TraceTree.TreeReachesOnce | indexer/indexer/core/crud.py:463-474 | the tree reaches every transaction of the component exactly once |
| TraceTree.BuildTree | indexer/indexer/core/crud.py:463-469 | the heap nodes hold, for each sender, its receivers in the order in which the edges were taken |
| TraceTree.RootInNodes | indexer/indexer/core/crud.py:464-474 | the root has a node if and only if the component is more than the start transaction |
| TraceTree.GetTransactionTrace | indexer/indexer/core/crud.py:434-474 | the whole search returns the node of the start transaction's root, on top of the tree of its component, and none if and only if no link touches the start transaction |
| TraceTree.Receivers | utils/fix-broken-traces/main.go:63-67 | the join of one transaction gives each of its receivers once |
| TraceTree.TraceGetTransactions | utils/fix-broken-traces/main.go:54-70 | from any transaction the recursive query, which keeps duplicates, ends and lists it and everything below it, each once |
| TraceTree.WholeFromRoot | utils/fix-broken-traces/main.go:54-70 | the query lists exactly the component if and only if it starts at the root |
| TraceTree.ThreeWaysAgree | utils/fix-broken-traces/main.go:33-70 | the parent walk from any two transactions, the root left by the closure loop and the descent from it agree |
| Scheduler.IndexScheduler.GotExistingSeqnos | ton-index-worker/ton-index-clickhouse/src/IndexScheduler.cpp:71-82 | the numbers read are added to the existing ones, and nothing on an error |
| Scheduler.IndexScheduler.GotLastKnownSeqno | ton-index-worker/ton-index-clickhouse/src/IndexScheduler.cpp:84-100 | the loop queues exactly the wanted numbers between the last report and this one, in order, and nothing once reports have passed the upper bound |
| Scheduler.IndexScheduler.ScheduleNextSeqnos | ton-index-worker/ton-index-clickhouse/src/IndexScheduler.cpp:219-231 | the loop takes the front of the queue while there is room, asks for each to be fetched, and stops past the upper bound on an empty queue |
| Scheduler.IndexScheduler.Receive | ton-index-worker/ton-index-clickhouse/src/IndexScheduler.cpp:84-231 | every message changes the actor and sends requests as the state machine of the theorems does |
| SchedulerRuns.RunKeepsInvariant | ton-index-worker/ton-index-clickhouse/src/IndexScheduler.cpp:84-231 | over every run of nondecreasing reports, wake-ups and answers the invariant behind the rows below holds |
| SchedulerRuns.ReportQueues | ton-index-worker/ton-index-clickhouse/src/IndexScheduler.cpp:84-100 | a report queues, behind what is queued and in ascending order, exactly the numbers above the last known one and up to itself that are within the bounds, both included, and not existing unless indexing is forced; and nothing once reports have passed the upper bound |
| SchedulerRuns.LastKnownIsReported | ton-index-worker/ton-index-clickhouse/src/IndexScheduler.cpp:84-100 | over every run the last known number covers exactly what was reported, until it passes the upper bound |
| SchedulerRuns.AnswerIs | ton-index-worker/ton-index-clickhouse/src/IndexScheduler.cpp:102-217 | a success moves a number to the next stage, from fetching over parsing, detecting and inserting to the insert queue and then to the indexed ones, and a failure puts it at the end of the queue |
| SchedulerRuns.ExactlyOnePlace | ton-index-worker/ton-index-clickhouse/src/IndexScheduler.cpp:84-217 | over every run a number from 1 that was reported, is within the bounds, both included, and is not skipped as existing is in exactly one place, queued or with one stage or indexed, and any other number in none; it is in the set in work if and only if it is with a stage before the insert queue |
| SchedulerRuns.WorkBound | ton-index-worker/ton-index-clickhouse/src/IndexScheduler.cpp:102-231 | over every run at most the allowed number is in work, schedulings plus queue length equal targets plus failures, and successes are at most five times targets plus failures |
| SchedulerRuns.StoppedHasScanned | ton-index-worker/ton-index-clickhouse/src/IndexScheduler.cpp:227-230 | once stopped, nothing is queued and every number within the bounds that is not skipped has been scheduled |
| SchedulerRuns.StopsExactly | ton-index-worker/ton-index-clickhouse/src/IndexScheduler.cpp:219-231 | the loop stops the actor if and only if reports have passed the upper bound and the whole queue fits into the free places |
| SchedulerRuns.TakesRoom | ton-index-worker/ton-index-clickhouse/src/IndexScheduler.cpp:219-225 | the loop schedules as many as are queued or as there is room for, whichever is less |
| SchedulerRuns.DrainedIsIndexed | ton-index-worker/ton-index-clickhouse/src/IndexScheduler.cpp:84-217 | when nothing is queued or outstanding, exactly the numbers reported, within the bounds and not skipped are indexed, and the existing numbers have grown by them |
| SchedulerRuns.WakeTakesFront | ton-index-worker/ton-index-clickhouse/src/IndexScheduler.cpp:219-225 | the loop takes numbers from the front of the queue, in order, exactly as many as there is room for |
| SchedulerRuns.ExistingExactly | ton-index-worker/ton-index-clickhouse/src/IndexScheduler.cpp:212-217 | over every run the existing numbers are those read at the start and those indexed since, and the last indexed one is the greatest of the latter |
| SchedulerRuns.LowerReport | ton-index-worker/ton-index-clickhouse/src/IndexScheduler.cpp:84-100 | after a report below the last one and any other report, some number is in two places if and only if reports had not passed the upper bound and a number above the first of the two, and up to both the second and the last one before, is in range and either not existing or indexing is forced |
| SchedulerRuns.ReportCatchesUp | ton-index-worker/ton-index-clickhouse/src/IndexScheduler.cpp:84-100 | if the second report is not below the last one before, every number is again in exactly one place if and only if none is in two |
| SchedulerRuns.LowerReportMovesNothing | ton-index-worker/ton-index-clickhouse/src/IndexScheduler.cpp:84-100 | the lower report alone leaves every number where it was |
| SchedulerRuns.ReportedTwice | ton-index-worker/ton-index-clickhouse/src/IndexScheduler.cpp:84-100 | the reports 1, 0 and 1 queue number 1 twice |
| ExpiryHeap.ExpiryTracker.Push | ton-trace-ttl-tracker/main.go:180-190 | the heap order is restored and exactly the new entry is added |
| ExpiryHeap.ExpiryTracker.Pop | ton-trace-ttl-tracker/main.go:180-197 | the earliest entry is returned, exactly it is removed, and the heap order is restored |
| ExpiryHeap.ExpiryTracker.Add | ton-trace-ttl-tracker/main.go:215-224 | the plain map gets the new expiry, earlier or later than the last, and the latest expiry of every key stays in the heap |
| ExpiryHeap.ExpiryTracker.GetExpired | ton-trace-ttl-tracker/main.go:227-259 | returns exactly the keys whose last added expiry has come, each once, earliest first, and leaves exactly the others |
| ExpiryHeap.StillIn | ton-trace-ttl-tracker/main.go:233-252 | popping loses no other entry, and none left is before the popped one |
| ExpiryHeap.NoneLeft | ton-trace-ttl-tracker/main.go:233-238 | when the top has not come, no key has expired |
| TtlTracker.SyntheticTracesTracker.AddSyntheticTrace | ton-trace-ttl-tracker/main.go:65-75 | exactly that trace is added, for that account |
| TtlTracker.SyntheticTracesTracker.ClearSyntheticTraces | ton-trace-ttl-tracker/main.go:93-106 | the account is forgotten and all its traces are returned, each once |
| TtlTracker.SyntheticTracesTracker.RemoveTrace | ton-trace-ttl-tracker/main.go:109-125 | whatever order the accounts come in, the trace is taken out of one account that has it, if any has |
| TtlTracker.DroppedExactly | ton-trace-ttl-tracker/main.go:109-125 | after that no account has the trace if and only if at most one had it |
| TtlTracker.DroppedAllExactly | ton-trace-ttl-tracker/main.go:502-505 | taking out several traces in turn, whatever the accounts hold: each is gone from all accounts if and only if at most one had it, and every other trace stays where it was |
| TtlTracker.DroppedIsWithout | ton-trace-ttl-tracker/main.go:109-125 | where every trace is in one account only, that takes it out of all and leaves no empty set |
| TtlTracker.AddressCollector.MergeAddresses | ton-trace-ttl-tracker/main.go:140-153 | the key's addresses grow by exactly the given ones |
| TtlTracker.AddressCollector.GetAddresses | ton-trace-ttl-tracker/main.go:156-164 | lists the key's addresses, each once, none for an unknown key |
| TtlTracker.IndexStore.RemoveKeysFromSortedSet | ton-trace-ttl-tracker/main.go:605-645 | the named set loses exactly the members that contain any of the keys; nothing changes on a failure |
| TtlTracker.RedisTTLTracker.SetupTraceTtl | ton-trace-ttl-tracker/main.go:376-403 | the expiry is that of a synthetic, completed or other trace, as the nodes say |
| TtlTracker.RedisTTLTracker.HandleTraceEmulationStatus | ton-trace-ttl-tracker/main.go:433-469 | an emulated root is tracked for its account; a real root clears the account and expires all its traces but the new one |
| TtlTracker.RedisTTLTracker.OnTraceMessage | ton-trace-ttl-tracker/main.go:334-357 | the whole message, with and without readable data |
| TtlTracker.RedisTTLTracker.OnReferenceMessage | ton-trace-ttl-tracker/main.go:358-371 | the account named is collected for the trace, and nothing else changes |
| TtlTracker.RedisTTLTracker.HandleExpiredKeys | ton-trace-ttl-tracker/main.go:490-539 | the expiries and the collector lose exactly the expired keys; each expired key in turn is taken out of one account that tracks it, if any does; every set of the store loses exactly the members hit, whatever order the addresses come in and whichever store operations fail |
| TtlTracker.PassForgetsExactly | ton-trace-ttl-tracker/main.go:490-539 | an expired trace is tracked for no account after a pass if and only if at most one tracked it before, and what has not expired is tracked as before |
| TtlTracker.IndexesCleaned | ton-trace-ttl-tracker/main.go:519-538 | both rounds together take out of every set exactly the members that contain a deleted key of its address, or of the address that it is the action set of |
| TtlRuns.RunAgrees | ton-trace-ttl-tracker/main.go:65-125 | in every reachable state, with a fixed root account per trace, every synthetic trace has an expiry and is tracked for its root account only, and no account has an empty set |
| TtlRuns.MessageTracks | ton-trace-ttl-tracker/main.go:433-469 | after a message an account tracks what it did before and also the trace if the message announces it with an emulated root there, and nothing if the message brings a real root there |
| TtlRuns.MessageExpiry | ton-trace-ttl-tracker/main.go:376-403 | the lifetime is the default without data, the synthetic one if the root is emulated, the completed one if no node is, the default otherwise; what a real root supersedes expires at once, and no other expiry changes |
| TtlRuns.TrackedExactly | ton-trace-ttl-tracker/main.go:65-125 | in every state of every run an account tracks a trace if and only if a message announced the trace with an emulated root there, and since then no real root came there and no pass took it |
| TtlRuns.AddressesExactly | ton-trace-ttl-tracker/main.go:541-554 | in every state of every run the addresses collected for a trace are the accounts of all its nodes and those named for it, since it last expired in a pass |
| TtlRuns.SupersededExpires | ton-trace-ttl-tracker/main.go:446-466 | a trace announced with an emulated root on an account, which has not expired when a real root comes there, is among those returned by the first pass at a later time, whatever messages and earlier passes follow, unless a newer message for it comes first |
| TtlRuns.SecondRootIsKept | ton-trace-ttl-tracker/main.go:65-125 | in every run of a trace announced under two root accounts and a pass at its expiry, the trace has no expiry left and is still tracked |
| TtlRuns.TwoRootsRun | ton-trace-ttl-tracker/main.go:65-125 | there is such a run, for any trace and any two accounts |
| TtlRuns.CollectedExactly | ton-trace-ttl-tracker/main.go:358-371 | in every state of every run, a trace with collected addresses has no expiry if and only if some message that named an account for it came while it had none, and no message has announced or superseded it since |
| TtlRuns.NoneStray | ton-trace-ttl-tracker/main.go:358-371 | so over a whole run no such trace is without an expiry if and only if no message that names an account comes for a trace without one |
| TtlRuns.StrayStays | ton-trace-ttl-tracker/main.go:358-371 | with a fixed root account per trace such addresses stay through every pass until a message announces the trace |
| TtlRuns.PassCleansExactly | ton-trace-ttl-tracker/main.go:519-538 | after a pass a set has lost exactly the members that have in them the key of a deleted trace, if the set is that of an address collected for the trace, or `_aai:` and that address, unless the store failed on that set |
| TtlRuns.PassForgetsKeys | ton-trace-ttl-tracker/main.go:490-517 | after a pass the expiries and the collector have exactly what had not expired |
| Balances.BalanceChanges.AddJetton | ton-index-go/index/balances.go:108-120 | exactly the owner's change in that jetton grows or shrinks by the amount |
| Balances.BalanceChanges.MergeWith | ton-index-go/index/balances.go:81-106 | the pointwise sum of all three maps, whatever order the entries come in |
| Balances.BalanceChanges.GetSummarizedBalanceChanges | ton-index-go/index/balances.go:122-134 | value minus fees for every account in either map |
| Balances.SummarizedSum | ton-index-go/index/balances.go:122-134 | the summarized balances sum to the values less the fees |
| Balances.MergeBalanced | ton-index-go/index/balances.go:81-106 | merging balanced changes gives balanced changes |
| Balances.MergeAnyOrder | ton-index-go/index/balances.go:81-106 | merging any permutation of a list of changes gives the same |
| Balances.MergeTotals | ton-index-go/index/balances.go:81-106 | every fee, value and jetton amount of a merge is the sum of the amounts |
| BalanceActions.ActionBalance | ton-index-go/index/balances.go:334-347 | whatever order the nodes come in, the action fails if and only if a selected node has no changes, and otherwise each of its amounts is the sum over the selected positions, and the result the merge of the selected changes in any order |
| BalanceTrace.Build | ton-index-go/index/balances.go:174-195 | the nested loops link the nodes as the child-first construction says, and fail where a message leads to no node |
| BalanceTrace.VisitNode | ton-index-go/index/balances.go:209-246 | fails if and only if a field that it reads is not set; otherwise adds the forward fee of the message that led here, the fees of the transaction, the value moved, and the forward fees of messages without a destination |
| BalanceTrace.FirstTraversal | ton-index-go/index/balances.go:198-252 | wherever the first queue loop ends, it fails if it takes a node with a field missing, and otherwise visits the nodes in the order in which they are taken |
| BalanceTrace.SecondTraversal | ton-index-go/index/balances.go:266-318 | wherever the second queue loop ends, it fails if it takes a readable transfer without a sender, and otherwise moves the jettons, merges every node it takes, and goes no further at a transfer that cannot be read |
| BalanceBuild.BuildRanked | ton-index-go/index/balances.go:174-195 | if no message with a destination leads back to its emitter, the place in the list ranks the nodes, so the links have no cycle |
| BalanceBuild.CycleExactly | ton-index-go/index/balances.go:174-195 | whenever the construction succeeds, the node of a transaction is on a cycle if and only if a message with a destination of that transaction has the hash of the message that it consumes or of an earlier message of its own without a destination |
| BalanceBuild.AcyclicExactly | ton-index-go/index/balances.go:174-195 | no cycle can be reached from a node if and only if no such transaction can |
| BalanceConservation.VisitBalanced | ton-index-go/index/balances.go:209-239 | a visit keeps changes balanced |
| BalanceConservation.MovedBalanced | ton-index-go/index/balances.go:271-304 | a transfer keeps the changes of every jetton summing to zero, even if the owners or the jetton are unknown |
| BalanceConservation.ReadHasNoCycle | ton-index-go/index/balances.go:266-318 | the second traversal meets no cycle that the first does not, so it ends whenever the first runs dry |
| BalanceConservation.CalculateBalanceChanges | ton-index-go/index/balances.go:146-318 | on every trace on which the first traversal ends, with cycles or not, the calculation fails if and only if there is no transaction, a child lookup finds no node, or a node on which a traversal fails can be reached; otherwise the value changes sum to zero, so do the changes of every jetton, in total and node by node, and the summarized balances sum to minus the fees |
| BalanceFees.LastIsRoot | ton-index-go/index/balances.go:136-196 | on a complete trace sorted by descending logical time the last transaction is the only one that consumes a message from outside, and the only earliest one |
| BalanceFees.BuildLinks | ton-index-go/index/balances.go:174-195 | on a complete trace every child lookup finds a node, the nodes are linked exactly as the messages say, in both directions, and every message without a destination has a leaf of its own |
| BalanceFees.BuiltTree | ton-index-go/index/balances.go:174-196 | on a complete trace the nodes are a tree below the last transaction |
| BalanceFeeTotals.MissingExactly | ton-index-go/index/balances.go:206-252 | on a complete trace the calculation fails if and only if a transaction has no total fees, an emitted message no forward fee, a message without a destination the opcode of a jetton transfer, or the message from outside no sender while it carries a value or is a jetton transfer |
| BalanceFeeTotals.LogWithoutFeeFails | ton-index-go/index/balances.go:217-224 | one transaction with one message without a destination, as the parser leaves it, has no result |
| BalanceFeeTotals.FeesExactly | ton-index-go/index/balances.go:198-318 | on a complete trace with readable transfers, whenever there is a result, every account's fees are the total fees of its transactions, plus the forward fees of the messages it sent, plus once more the forward fees of those without a destination |
| BalanceFeeTotals.ParsedFeesOnce | ton-index-worker/tondb-scanner/src/DataParser.cpp:279-289 | on such a trace in which no message without a destination has a forward fee, as the parser leaves them, a result means that there is no such message, and every fee is counted once |
| BalanceFeeTotals.FeesOnceExactly | ton-index-go/index/balances.go:198-318 | on such a trace, with no negative forward fee, every fee is counted once if and only if every message without a destination is free |
| BalanceFeeTotals.LogFeeIsChargedTwice | ton-index-go/index/balances.go:217-238 | a transaction with one message without a destination whose forward fee is set is charged it twice |
| BalanceFeeTotals.MovesOnce | ton-index-go/index/balances.go:198-318 | on such a trace every account's value change is what its messages bring less what it sends; a transfer moves its amount of the jetton of the wallet that it is addressed to, from its sender to the receiver that it names, each of whom is replaced by the empty address if no wallet of the jetton is known to be theirs |
| BalanceReads.CountedExactly | ton-index-go/index/balances.go:266-318 | on every complete trace, with transfers that cannot be read or without, each amount of a result is the sum over the transactions that neither receive such a transfer nor are below one that does: fees, forward fee of the message consumed, twice the forward fees of messages without a destination, values and jettons |
| BalanceReads.CalculateCompleteTrace | ton-index-go/index/balances.go:146-318 | on a complete trace the calculation fails exactly as above and otherwise is balanced and has exactly those amounts |
| PgTon.CompareIsPreorder | ton-index-worker/pgton/pgton.c:232-243 | the comparison is reflexive, flips when its sides are swapped, and is transitive |
| PgTon.CompareExactly | ton-index-worker/pgton/pgton.c:232-243 | lower means a smaller workchain, or the same one that is no marker and a smaller first differing byte; equal means the same marker, or the same workchain and bytes |
| PgTon.EqualIffSameText | ton-index-worker/pgton/pgton.c:178-243 | two addresses compare equal if and only if they print to the same text |
| PgTon.AddressRoundTrip | ton-index-worker/pgton/pgton.c:142-211 | for every 32-bit workchain and 32 bytes, the markers included, reading back a printed address gives one that compares equal, whatever the allocated memory held |
| PgTon.PrintedParses | ton-index-worker/pgton/pgton.c:142-211 | an address that is not a marker is read back exactly |
| PgTon.TonAddrOut | ton-index-worker/pgton/pgton.c:178-211 | the text, upper-cased in place, is the one that the rows above are about |
| PgTonText.AddressText | ton-index-worker/pgton/pgton.c:178-211 | an address that is no marker prints as its workchain in decimal without leading zeros, a colon, and two upper-case hexadecimal digits for each byte, the higher half first |
| PgTonText.ParsedExactly | ton-index-worker/pgton/pgton.c:142-176 | a text that does not begin as a marker is read as an address if and only if it is white space, a sign or none, a decimal number of 32 bits, a colon and the 64 hexadecimal digits of the bytes, in either case |
| PgTonText.MarkerText | ton-index-worker/pgton/pgton.c:142-190 | the two markers print as `addr_none` and `addr_extern`, every text that begins so is read as that marker, and only the empty text as null |
| PgTon.HashRoundTrip | ton-index-worker/pgton/pgton.c:28-58 | every 32 bytes print to 44 characters that read back as the same 32 bytes |
| PgTonText.HashText | ton-index-worker/pgton/pgton.c:48-58 | each group of three bytes prints as the four characters of the base64 alphabet that give the same number, the last group padded |
| PgTon.HashEqualIffSameText | ton-index-worker/pgton/pgton.c:48-79 | two hashes compare equal if and only if they print to the same text |
| PgTon.ShortTextKeepsFill | ton-index-worker/pgton/pgton.c:28-46 | of the texts of 44 characters that decode, those that end in `=` are taken, and the hash depends on what the allocated memory held if and only if the text ends in `==` |
| PgTon.DecodedLength | ton-index-worker/pgton/pgton.c:28-46 | a text that decodes gives three bytes for four characters, less one for each padding character at its end |
| PgTon.LastByteLeft | ton-index-worker/pgton/pgton.c:28-46 | the text of any 31 bytes is taken, and the last byte of the hash is what the allocated memory held |

## Left out

- Streams that reach the detector's merge branch, in the theorems about whole streams: the merge does not carry over the right graph's counter, and the counter rows say exactly what is lost. Redelivery of a transaction by the polling loop is excluded in the same way.
- The event id, database writes, statistics and the fork-bomb branch of the detector, which does nothing.
- EventDetector.EdgeDetector.ProcessTx: writing out an event appends it to a list; what the database does with it is not modelled.
- TraceFlatten.FillFromRawData: does not model the rows of messages, contents and states that the loop also collects, the errors of their conversion, the message counts and the start fields of the trace row.
- TraceSearch.CloseTrace: the SQL query is its relational meaning over the message table, in which every message has at most one sender and one receiver and logical time grows from sender to receiver.
- SchedulerRuns.ExactlyOnePlace: sequence numbers are below 2^31, so the signed and unsigned comparisons of the source agree; the existing numbers are read once before the first report, and an insert is acknowledged as queued before its result, as the insert manager does (`ton-index-worker/tondb-scanner/src/InsertManagerBase.cpp`, lines 37-42). A wake-up may come at any time, which covers every state of the insert queue.
- That everything is indexed when the scheduler stops: it stops with work possibly outstanding.
- The statistics, timers and alarms of the scheduler, and the Postgres variant of it.
- ExpiryHeap.ExpiryTracker.Push: Go's container/heap is modelled by its documented sift-up and sift-down on the slice.
- TtlRuns.RunAgrees: each message and each expiry pass is one step; interleavings of the two goroutines inside a pass are not modelled.
- TtlTracker.RedisTTLTracker.OnTraceMessage: the clock is read once for the new expiry and once for every cleared trace, with any values; reading and decoding the stored trace is not modelled, and neither is splitting the payload of a reference message.
- TtlTracker.IndexStore.RemoveKeysFromSortedSet: scores and the order of a sorted set are not modelled.
- BalanceTrace.Build: nodes and their pointers are values in a map by node, so updating a shared node is an update of the map; the sort is any order by descending logical time.
- BalanceTrace.VisitNode: amounts are unbounded.
- The jetton wallet candidates and the wallet query: the wallets are an arbitrary table.
- The selection of an action's transactions.
- PgTon.AddressRoundTrip: the hexadecimal and base64 codecs are those of sections 8 and 4 of RFC 4648; that the database's own decoders also skip white space is not modelled. A workchain that does not fit 32 bits, or a missing colon, is an unspecified outcome.
- The binary send and receive functions and the operator wrappers of the address and hash types.
- The SQL builders, HTTP handlers, event classifier, metadata fetcher, emulator clients and database migration.
