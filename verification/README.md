# TaskQueueX: a verified model

TaskQueueX is an in-memory task queue: tasks are kept in groups under one of four disciplines
(FIFO, LIFO, round robin, priority), may depend on each other, live through a retry-bounded
lifecycle, and are persisted with a write-ahead log in an ordered key-value store. This project
models the core of that system in Dafny and proves what it keeps. `dafny verify dfyconfig.toml`
checks all files together.

## What the modules are

| module | models |
|---|---|
| `Basics`, `Sequences`, `Graphs` | shared types and limits; repeat-free sequences, traversal orders of hash tables; paths, reachability and cycles |
| `CycleDetection` | the three-colour depth-first search |
| `TaskGraphs` | the mirrored dependency maps and the reachability search over them |
| `Kahn`, `Relaxation`, `CriticalPath`, `Steering`, `Levels`, `LevelDepth` | the topological sort, edge relaxation, the walk back, which paths can come out, the memoised levels, and when their recursion ends |
| `PriorityOrder`, `SkipList` | the order a priority queue keeps, and the skip list that keeps it |
| `LinkedQueues` | the intrusive list, the FIFO queue on it and the linked stack |
| `TreiberStack`, `StackCalls`, `StackProgress` | the lock-free stack as interleaved load, compare-exchange and counter steps, what its callers see, and who gets through |
| `Tasks` | the task lifecycle |
| `QueueModel`, `QueueManager` | the manager as a state machine, and its methods updating fields in place |
| `Serving`, `Disciplines`, `Chronicle`, `Runs`, `RoundRobin`, `Rotation`, `Migration`, `Conservation`, `Ledger`, `Shortfalls`, `Registry` | what a dequeue takes, the order in which tasks leave a group, what each operation leaves alone, states that runs reach, fairness, whose turn comes next, changes of discipline, what happens to every task, the counters, runs in which a queued task does not come out, and the task map that decides which cancellations succeed |
| `Numerals`, `OrderedStore`, `WriteLog`, `Recovery`, `Replay`, `Journal`, `Storage` | decimal keys, prefix scans, the log over whole runs with failing writes, restarts, replay order, the log told from the operations alone, and the storage object |

The order in which a hash table is traversed is an input (`Kahn.Iteration`, `QueueModel.Family`):
results hold for every order, and an order changes only when a key is added. The manager keeps each
queue as a sequence in removal order; `LinkedQueues` and `SkipList` prove that the linked structures
behave as the sequence operations used there (append, prepend, `PriorityOrder.Insert`). Random
levels, the success of each database write and the keys an iterator visits are inputs too.

## Main results

- The cycle test is exact on every finite graph (`CycleDetection.HasCycle`), and on a closed graph
  the size guard after the sort repeats its verdict (`Kahn.KahnAgreesWithCycleTest`).
- The critical path is meant to be the longest chain. The code reverses the sort's output before
  relaxing, so edges are relaxed against their direction. What comes out is characterised exactly:
  every result on the graph below a root is a chain of edges without shortcuts from the root to a
  task with no dependencies (`CriticalPath.OutcomeIsCoveringChain`), every such chain comes out for
  some traversal order (`Steering.EveryCoveringChainOccurs`), and therefore the result is a longest
  chain for every traversal order if and only if all such chains have the same length
  (`Steering.LongestExactlyWhen`); `Steering.ShortResult` is a four-task graph where it is not.
  Relaxing in the un-reversed order is proved to find the longest chains
  (`Relaxation.ForwardIsLongest`, `Relaxation.ForwardWalkIsLongest`).
- The level recursion comes to an end if and only if the graph is acyclic
  (`LevelDepth.EndsExactlyWhenAcyclic`), and then with the length of the longest chain below each id.
- The skip list refines one sorted sequence for every operation and every choice of levels. The
  lock-free stack is linearizable under every interleaving: the exchanges in order of effect are a
  correct sequential history, every effect belongs to a call of its own, and every reply is that of
  exactly one effect between call and reply (`StackCalls.Linearizable`). It is lock-free: an exchange
  fails only because another thread's succeeded (`StackProgress.FailureMeansProgress`).
- In every stretch of a run in one mode, each task that leaves a group is, of those put in and still
  waiting, the oldest in FIFO and round robin, the newest in LIFO, and the newest of highest priority in
  priority mode (`Disciplines.LeavesInOrder`, told from what is put in and handed out alone).
- Whole-run theorems about the manager: `QueueModel.InvRun`, `Ledger.LedgerRun` (the counters since the
  last clear), `Conservation.ConservedRun` (what was put into a group since the last clear is what was
  handed out of it and what is queued there), mode, groups, cursor and counts told from the operations
  (`Chronicle.ModeRun`, `Chronicle.GroupsRun`, `Chronicle.CursorRun`, `Chronicle.CountsRun`), the rotation
  through the groups in the order of their first names (`RoundRobin.TurnByIndex`, `Rotation.NextInTurn`),
  `RoundRobin.Fairness`, the reordering law of a change of discipline (`Migration.SetModeReorders`), and,
  for each mode, exactly when a dequeue returns a task (`Shortfalls.RunServesExactlyWhen`).
- Whole-run theorems about the log, whatever writes fail: what is on disk (`WriteLog.InvExec`); a replay
  returns as many entries as were written since the truncation if and only if no number was written
  twice (`Replay.ReplayCompleteExactlyWhen`); it is the log in append order if and only if each live
  number precedes the next one alphabetically (`Replay.AppendOrderExactlyWhen`), which for a log
  without gaps means that the first and the last number have equally many digits
  (`Replay.GaplessOrder`).
- A restart is careful if it finds the counter's record written with the last entry. After a restart
  some continuation whose own restarts are careful overwrites a live entry if and only if a live number
  is above the recovered counter (`Recovery.RestartSafeExactlyWhen`). In runs whose restarts are all
  careful nothing is overwritten, and every entry is replayed once (`Recovery.CarefulRun`,
  `Replay.LogRun`), so that a replay reports exactly the items that the operations logged since the
  last truncation (`Journal.CarefulReplayReports`).
- Each status of a task's life is reached exactly by the calls meant to reach it, in every run
  (`Tasks.CompletedExactlyWhen` and its companions).

## Where the code departs from its documentation or intent

- The skip-list search at `include/utils/DataStructures.hpp:268-275` uses `i` without a loop header;
  the model is the evident search from the top level down to level 0.
- `Task::markCancelled`, called at `src/core/QueueManager.cpp:268`, is read as `Task::cancel`.
- `cancelTask` uncounts a task but leaves it queued, and a later dequeue hands it out and counts it
  again, so the total can reach zero with tasks queued, and then nothing comes out
  (`Registry.CancelledTotalHidesTask`). This is so exactly when, modulo 2^64, as many tasks are queued
  as were cancelled since the last clear (`Shortfalls.ZeroTotalExactlyWhen`).
- `dequeue` leaves a task in the task map, so a task that was handed out can still be cancelled; the
  total then wraps to 2^64 - 1 (`Registry.CancelAfterTakeWraps`). `Registry.TotalWrapsExactlyWhen` says
  exactly when.
- A group with the empty name is never served in priority mode, though peek names its task
  (`Shortfalls.EmptyNameNotServed`); `Serving.PriorityServes` and `Serving.PeekForetellsDequeue` give
  the exact conditions.
- In round robin peek looks in traversal order while dequeue goes by the cursor, so they can name
  different tasks (`Shortfalls.PeekMisleads`); `RoundRobin.PeekForetellsTurn` says exactly when not.
- When the round-robin cursor wraps, one round can miss a group and a dequeue returns nothing although
  a task is queued. In the states that runs reach, a dequeue always finds a task if and only if the
  round does not wrap or the number of groups divides 2^64 (`RoundRobin.RoundServesExactlyWhen`).
- The entry of an append and the counter's record are two writes. If only the first succeeds, a restart
  recovers a smaller counter and later appends overwrite entries, at once
  (`Recovery.LostCounterOverwrites`) or, after a truncation, with a delay
  (`Recovery.TruncationDelaysOverwrite`).
- `removeTask` leaves stale reverse entries; `TaskGraphs.RemovalMirror` says exactly when not.
- Log keys are unpadded decimals, so a replay is not in append order across a change of length.
- `findCriticalPath` reads the first element of its order even for an empty graph, which is
  undefined, so the model asks for a non-empty graph. `calculateTaskLevels` recurses forever on a
  cyclic graph and only there (`LevelDepth.EndsExactlyWhenAcyclic`), so `Levels.CalcLevel` asks for
  an acyclic one.

## Model

| member | source | states |
|---|---|---|
| CycleDetection.Dfs | src/utils/DataStructures.cpp:90-112 | From an unvisited id the search either exhibits a cycle or finishes the id, leaving every finished id with finished dependencies and on no cycle, and the pending calls unchanged; it terminates on every graph |
| CycleDetection.HasCycle | src/utils/DataStructures.cpp:74-123 | True exactly when some path returns to its start, self-loops and dangling dependencies included |
| TaskGraphs.WithEdge | include/utils/DataStructures.hpp:376-393 | The edges afterwards are the old ones and the new one, nothing else |
| TaskGraphs.WithoutEdge | include/utils/DataStructures.hpp:395-410 | The edges afterwards are the old ones without the given one |
| TaskGraphs.WithoutNode | include/utils/DataStructures.hpp:470-495 | The edges afterwards are the old ones that do not touch the removed task |
| TaskGraphs.RemovalMirror | include/utils/DataStructures.hpp:470-495 | After removing a task every edge is still mirrored, and the mirror stays exact if and only if the task depended on nothing but itself |
| TaskGraphs.TaskGraph.AddDependency | include/utils/DataStructures.hpp:376-393 | Adds one edge to both maps, keeping every edge mirrored and an exact mirror exact |
| TaskGraphs.TaskGraph.RemoveDependency | include/utils/DataStructures.hpp:395-410 | Removes one edge from both maps, keeping every edge mirrored and an exact mirror exact |
| TaskGraphs.TaskGraph.RemoveTask | include/utils/DataStructures.hpp:470-495 | Removes the task's edges in both directions and its reverse entry, keeping every edge mirrored |
| TaskGraphs.BuildSubgraph | include/utils/DataStructures.hpp:505-524 | The recursive search adds only ids reachable from its argument, closes the new ones under dependencies, maps each to its full dependency set, and terminates on cyclic graphs |
| TaskGraphs.TaskGraph.GetSubgraph | include/utils/DataStructures.hpp:497-528 | The keys are exactly the ids reachable from the root, each with all its dependencies; the result is closed, rooted, and cyclic exactly when the root can reach a cycle |
| TaskGraphs.SubgraphIsRooted | include/utils/DataStructures.hpp:497-528 | Every id of the subgraph is a key and reachable from the root within the subgraph |
| TaskGraphs.SubgraphCycle | include/utils/DataStructures.hpp:497-528 | The subgraph has a cycle exactly when the root can reach one in the whole graph |
| Kahn.CountIncoming | src/utils/DataStructures.cpp:134-147 | Every key and every dependency gets the number of its dependents |
| Kahn.CountKey | src/utils/DataStructures.cpp:136-147 | Counting one more key keeps the table equal to the number of dependents among the counted keys |
| Kahn.InitialStack | src/utils/DataStructures.cpp:149-156 | The stack starts with the ids nothing depends on, in traversal order |
| Kahn.Release | src/utils/DataStructures.cpp:164-174 | Every dependency's counter drops by one and those whose dependents are all done are pushed, in traversal order |
| Kahn.KahnStep | src/utils/DataStructures.cpp:158-175 | After one round the stack and the output together hold each ready id exactly once and the output is topological, on any graph |
| Kahn.KahnSort | src/utils/DataStructures.cpp:133-175 | The loop with its counters computes the order defined without them |
| Kahn.KahnCompletes | src/utils/DataStructures.cpp:158-180 | When the loop ends, every node has been emitted exactly when the graph is acyclic, in terms of members and of size |
| Kahn.KahnAgreesWithCycleTest | src/utils/DataStructures.cpp:125-182 | On a closed graph the size guard fires exactly when the cycle test does; otherwise each task is emitted once, dependents first |
| Relaxation.Relax | src/utils/DataStructures.cpp:184-206 | The relaxation loop computes the fold over the visiting order whatever the order of each dependency set |
| Relaxation.RelaxEdges | src/utils/DataStructures.cpp:194-205 | Relaxing the edges that leave one id raises exactly the improved neighbours and records the id as their parent |
| Relaxation.ForwardIsLongest | src/utils/DataStructures.cpp:184-206 | Visiting in topological order, each distance is the number of edges of the longest chain that ends there |
| Relaxation.ForwardWalkIsLongest | src/utils/DataStructures.cpp:208-227 | Then the walk back from an id of greatest distance is a chain at least as long as any chain of the graph |
| Relaxation.BackwardTables | src/utils/DataStructures.cpp:182-206 | Visiting in the reversed order of the code, a distance is 1 exactly when something depends on the id and 0 otherwise, and the parent is the last dependent in the sort's output |
| Relaxation.WalkBack | src/utils/DataStructures.cpp:217-226 | The walk ends at the given id and starts at an id without a parent |
| Relaxation.WalkBackUnique | src/utils/DataStructures.cpp:217-226 | It is the only parent-linked sequence from a parentless id to its end |
| Relaxation.WalkBackPath | src/utils/DataStructures.cpp:217-226 | It is a chain of dependency edges |
| Relaxation.BuildPath | src/utils/DataStructures.cpp:217-227 | The loop that pushes, follows parents and reverses yields the walk, and terminates |
| CriticalPath.PickEnd | src/utils/DataStructures.cpp:208-215 | The chosen end has the greatest distance, and is the start unless strictly beaten |
| CriticalPath.ChooseEnd | src/utils/DataStructures.cpp:208-215 | The loop over the distance table makes that choice |
| CriticalPath.FindCriticalPath | src/utils/DataStructures.cpp:125-228 | The whole computation equals its specification for every traversal of the hash tables |
| CriticalPath.CriticalPathShape | src/utils/DataStructures.cpp:125-228 | The result is empty exactly on a cycle or a dangling dependency; otherwise a repeat-free chain without shortcuts from a task nothing depends on, with no more edges than that task's level |
| CriticalPath.OutcomeIsCoveringChain | src/utils/DataStructures.cpp:182-228 | Below a root, the result is a shortcut-free chain from the root to a task with no dependencies |
| CriticalPath.GetCriticalPath | src/core/QueueManager.cpp:342-349 | Empty exactly when the root can reach a cycle; otherwise a repeat-free chain of dependencies from the root to a task with no dependencies |
| Steering.Steered | src/utils/DataStructures.cpp:158-175 | With the chain's next task traversed first at each step, the sort ends at the chain's end and each task of the chain is preceded last by its chain predecessor |
| Steering.EveryCoveringChainOccurs | src/utils/DataStructures.cpp:125-228 | Every shortcut-free chain from the root to a task with no dependencies is the result for some traversal |
| Steering.LongestExactlyWhen | src/utils/DataStructures.cpp:182-228 | The result is a longest chain for every traversal if and only if all shortcut-free chains from the root to a task with no dependencies are equally long |
| Steering.ShortResult | src/utils/DataStructures.cpp:182-228 | On the graph 1 to 2 and 4, 2 to 3, the result can be 1, 4 although the level of 1 is at least 2 |
| Levels.CalcLevel | src/utils/DataStructures.cpp:235-258 | The memoised recursion returns the plain recursion's level, keeps the memo correct and closed, and terminates on acyclic graphs |
| Levels.CalculateTaskLevels | src/utils/DataStructures.cpp:230-266 | Exactly the nodes of the graph get a level, and it is that of the plain recursion |
| Levels.LevelBoundsPaths | src/utils/DataStructures.cpp:230-266 | No chain of dependencies below an id has more edges than its level |
| Levels.LevelIsAttained | src/utils/DataStructures.cpp:230-266 | Some chain below an id has exactly as many edges as its level |
| LevelDepth.CallEndsExactlyWhen | src/utils/DataStructures.cpp:235-258 | The memoised recursion, for every traversal of the dependency sets, answers within some depth if and only if no cycle can be reached from its id |
| LevelDepth.EndsExactlyWhenAcyclic | src/utils/DataStructures.cpp:230-266 | The whole computation comes to an end if and only if the graph is acyclic |
| LevelDepth.EndsWithLevels | src/utils/DataStructures.cpp:230-266 | Where it comes to an end, exactly the nodes have an entry and it is their level |
| PriorityOrder.InsertOfPriority | include/utils/DataStructures.hpp:260-290 | A new entry comes before the older ones of its priority and leaves the others of every priority in order |
| PriorityOrder.InsertAllIsStableSort | include/utils/DataStructures.hpp:260-290 | Filling an empty queue yields the stable descending sort of the newest-first sequence |
| PriorityOrder.StableSortUnique | include/utils/DataStructures.hpp:260-290 | Two sorted sequences that agree on every priority are equal, so the stable sort is determined |
| PriorityOrder.RunDrainsInOrder | include/utils/DataStructures.hpp:260-322 | In every run of enqueues and dequeues the contents drain by descending priority, newest first among equals |
| SkipList.PriorityQueue.Search | include/utils/DataStructures.hpp:265-275 | At each of the 16 levels the search finds the last node of strictly higher priority that reaches the level |
| SkipList.PriorityQueue.Advance | include/utils/DataStructures.hpp:268-274 | The inner loop stops at the last node of strictly higher priority that reaches the level |
| SkipList.SplicedLinks | include/utils/DataStructures.hpp:277-287 | Splicing the new node in behind the nodes found leaves every link of every level leading to the next node that reaches the level |
| SkipList.PriorityQueue.Splice | include/utils/DataStructures.hpp:277-287 | The linking loop does that in place |
| SkipList.PriorityQueue.Enqueue | include/utils/DataStructures.hpp:260-290 | For every level drawn the entry is inserted behind all strictly higher priorities and before everything else; order, links and size stay valid |
| SkipList.PriorityQueue.Dequeue | include/utils/DataStructures.hpp:292-322 | Null on an empty queue; otherwise the first entry comes out and the rest stays, order, links and size valid |
| SkipList.PriorityQueue.Unlink | include/utils/DataStructures.hpp:301-315 | At every level of the first node the exchange finds it behind the head, and afterwards all links skip it |
| SkipList.PriorityQueue.Peek | include/utils/DataStructures.hpp:324-328 | The first entry, or null exactly when empty |
| SkipList.PriorityQueue.Empty | include/utils/DataStructures.hpp:330-333 | True exactly when nothing is queued |
| SkipList.PriorityQueue.Clear | include/utils/DataStructures.hpp:340-356 | The queue is empty again and valid |
| SkipList.PriorityQueue.LevelIsSublist | include/utils/DataStructures.hpp:229-243 | Following the links of a level from the head visits exactly the nodes that reach it, in order |
| LinkedQueues.IntrusiveList.PushFront | include/utils/DataStructures.hpp:51-65 | The node becomes the first, links, tail and size staying valid |
| LinkedQueues.IntrusiveList.PushBack | include/utils/DataStructures.hpp:67-82 | The node becomes the last, links, head and size staying valid |
| LinkedQueues.IntrusiveList.PopFront | include/utils/DataStructures.hpp:84-106 | Null on an empty list; otherwise the first node comes out and the rest stays, tail and size valid |
| LinkedQueues.Queue.Enqueue | include/utils/DataStructures.hpp:134-137 | The item goes to the end of the contents |
| LinkedQueues.Queue.Dequeue | include/utils/DataStructures.hpp:139-142 | The first item comes out; null exactly when empty |
| LinkedQueues.Stack.Push | include/utils/DataStructures.hpp:173-182 | The item goes on top of the contents |
| LinkedQueues.Stack.Pop | include/utils/DataStructures.hpp:184-201 | The top item comes out; null exactly when empty |
| TreiberStack.ReplayContents | include/utils/DataStructures.hpp:163-201 | A correct sequential history of distinct pushes pops nothing twice and leaves exactly the nodes pushed and not popped |
| TreiberStack.InvPushed | include/utils/DataStructures.hpp:173-182 | A successful push exchange puts the node on top of the chain and keeps the invariant |
| TreiberStack.InvPopped | include/utils/DataStructures.hpp:190-200 | A successful pop exchange installs the link that belongs to the node, although it was read earlier, and keeps the invariant |
| TreiberStack.InvStep | include/utils/DataStructures.hpp:173-201 | Every step of every thread keeps the invariant, failed and spuriously failed exchanges included |
| TreiberStack.HistoryIsStack | include/utils/DataStructures.hpp:163-221 | Under every interleaving the exchanges in order of effect are a correct history of a sequential stack; the links from the head spell out its contents, exactly the pushed and not popped nodes, each once; nothing is popped twice or held by two threads; the counter is off by exactly the pending updates |
| StackCalls.TimelineFits | include/utils/DataStructures.hpp:173-201 | The effects in the timeline of calls, effects and replies are that history, and every thread's place in the code fits what it has called and been served |
| StackCalls.Linearizable | include/utils/DataStructures.hpp:163-201 | Under every interleaving the effects are a correct sequential history, every effect answers a call of its thread with nothing of that thread's in between, and every reply is that of exactly one effect between the call and the reply |
| StackProgress.LonePush | include/utils/DataStructures.hpp:173-182 | From any state a push whose thread runs alone, no exchange failing spuriously, takes effect within two exchanges |
| StackProgress.LonePop | include/utils/DataStructures.hpp:184-201 | From any state a pop whose thread runs alone takes effect within two exchanges, finding the stack empty included |
| StackProgress.LoadsHead | include/utils/DataStructures.hpp:173-200 | Starting a call or failing an exchange leaves the thread with the present head, unless the call is over |
| StackProgress.FailureMeansProgress | include/utils/DataStructures.hpp:173-201 | Under every interleaving, a thread that loaded the head and fails its next exchange, not spuriously, was overtaken by a successful exchange of another thread |
| Tasks.After | src/core/Task.cpp:22-73 | A call only makes the moves of the lifecycle, and counts a retry exactly when a running task goes back to created, within the bound |
| Tasks.RetriesBounded | src/core/Task.cpp:22-73 | In every run retries stay within the bound, the number of starts is the retries before running and one more after, and a task is failed only with its retries used up |
| Tasks.FinalStays | src/core/Task.cpp:40-73 | Completed, failed and cancelled are never left and their retry count never changes |
| Tasks.FinalForever | src/core/Task.cpp:40-73 | Once a run has reached a final status, no continuation changes it |
| Tasks.CompletedExactlyWhen | src/core/Task.cpp:40-47 | In every run a task is completed if and only if some completion met it running |
| Tasks.CancelledExactlyWhen | src/core/Task.cpp:64-73 | In every run a task is cancelled if and only if some cancellation met it in a status that is not final |
| Tasks.FailedExactlyWhen | src/core/Task.cpp:49-62 | In every run a task is failed if and only if some failure met it running with its retries used up |
| Tasks.RunningExactlyWhen | src/core/Task.cpp:31-62 | In every run a task is running if and only if a start met it queued and no completion, failure or cancellation has come since |
| Tasks.QueuedExactlyWhen | src/core/Task.cpp:22-38 | In every run a task is queued if and only if it was queued from created and no start or cancellation has come since |
| Tasks.ErrorIsLast | src/core/Task.cpp:49-62 | In every run the error message is that of the last failure reported, in whatever status, and empty if there was none |
| Tasks.Task.MarkQueued | src/core/Task.cpp:22-29 | The object's fields follow the lifecycle step |
| Tasks.Task.MarkStarted | src/core/Task.cpp:31-38 | The object's fields follow the lifecycle step |
| Tasks.Task.MarkCompleted | src/core/Task.cpp:40-47 | The object's fields follow the lifecycle step |
| Tasks.Task.MarkFailed | src/core/Task.cpp:49-62 | The object's fields follow the lifecycle step, the error message being set in every status |
| Tasks.Task.Cancel | src/core/Task.cpp:64-73 | The object's fields follow the lifecycle step |
| QueueModel.InvEnqueue | src/core/QueueManager.cpp:36-67 | An enqueue keeps the manager's invariant |
| QueueModel.InvDequeue | src/core/QueueManager.cpp:73-158 | A dequeue keeps the manager's invariant |
| QueueModel.InvSetMode | src/core/QueueManager.cpp:351-445 | A change of mode keeps the manager's invariant |
| QueueModel.InvRun | src/core/QueueManager.cpp:22-445 | In every state of every run only the current family has queues, every queue belongs to a group of the duplicate-free list, and in priority mode every queue is sorted |
| Chronicle.ModeRun | src/core/QueueManager.cpp:351-362 | In every run the mode is the one last set, FIFO if none was, clears notwithstanding |
| Chronicle.GroupsRun | src/core/QueueManager.cpp:36-44 | In every run the groups are the names of the enqueues, each once, in the order of first appearance, clears and changes of mode notwithstanding |
| Chronicle.CursorRun | src/core/QueueManager.cpp:516-526 | The cursor stays the same over every part of a run without a round robin dequeue on a total that is not zero |
| Chronicle.CountsRun | src/core/QueueManager.cpp:22-276 | In every run the four running counts are the numbers of enqueues, of dequeues that returned a task, of successful cancellations and of peeks, modulo 2^64, clears and changes of mode notwithstanding |
| Chronicle.TableStep | src/core/QueueManager.cpp:36-445 | A clear empties every table, a change of mode keeps entries for exactly the groups with work, and otherwise only an enqueue under a new name adds an entry and may reorder the table |
| Disciplines.LeavesInOrder | src/core/QueueManager.cpp:22-165 | In every stretch of a run in one mode without a clear and for every group, each task handed out is one put in and still waiting, and of those waiting the oldest in FIFO and round robin, the newest in LIFO, one of highest priority in priority mode and the newest among equals; what is queued is what still waits, in that order |
| Disciplines.EarlierLeavesFirst | src/core/QueueManager.cpp:46-108 | In such a stretch in FIFO or round robin, of two tasks put into a group and both handed out the earlier one leaves first |
| Disciplines.LaterLeavesFirst | src/core/QueueManager.cpp:46-108 | In LIFO a task put into a group while an earlier one waits leaves before it |
| Disciplines.HighestLeavesFirst | src/core/QueueManager.cpp:46-143 | In priority mode a task handed out has at least the priority of every task waiting in the group and is newer than those of its own priority |
| QueueManager.AddToFamily | src/core/QueueManager.cpp:46-63 | The entry goes where the discipline puts it in its group's queue, other queues stay, and the traversal order changes only with a new key |
| QueueManager.FindNonEmpty | src/core/QueueManager.cpp:88-108 | The loop finds the first group in traversal order with something queued |
| QueueManager.SelectGroup | src/core/QueueManager.cpp:116-136 | The loop makes the choice characterised by Serving.SelectBest and Serving.SelectFirst |
| QueueManager.DrainFamily | src/core/QueueManager.cpp:364-417 | The loops collect everything queued, group by group in removal order |
| QueueManager.RefillFamily | src/core/QueueManager.cpp:425-444 | The loop fills empty queues under the new discipline |
| QueueManager.Manager.Enqueue | src/core/QueueManager.cpp:22-71 | A null task changes nothing; otherwise the task is registered, its group known, an entry with the task's own priority queued and the counters raised |
| QueueManager.Manager.TakeFrom | src/core/QueueManager.cpp:541-594 | Takes the front of the group's queue in the current family, or nothing exactly when there is none |
| QueueManager.Manager.TakeRoundRobin | src/core/QueueManager.cpp:596-610 | Tries each turn once, leaving the cursor behind the group served; `RoundRobin.TurnByIndex` says which group that is |
| QueueManager.Manager.Dequeue | src/core/QueueManager.cpp:73-165 | In every mode the state and the task returned are those of the state machine, the invariant kept; in priority mode the task's own priority is at least that of every task queued |
| QueueManager.Manager.Peek | src/core/QueueManager.cpp:167-222 | The task returned is that of the state machine; only the peek count is raised |
| QueueManager.Manager.CancelTask | src/core/QueueManager.cpp:261-276 | Succeeds exactly for a registered task in queued status, which is then cancelled, unregistered and uncounted but stays queued |
| QueueManager.Manager.Clear | src/core/QueueManager.cpp:234-246 | Every queue, the registry and the total are emptied; mode, groups, cursor and the four running counts stay |
| QueueManager.Manager.SetMode | src/core/QueueManager.cpp:351-445 | Nothing for the same mode; otherwise all queues are drained, cleared and refilled under the new discipline, the invariant kept |
| QueueManager.ReturnsHighest | src/core/QueueManager.cpp:116-143 | In priority mode, while entries carry their tasks' priorities, the task returned has at least the priority of every task queued in any group |
| Serving.FirstNonEmptyFinds | src/core/QueueManager.cpp:88-108 | The group found is the first in traversal order that has something queued; none is found only if no group of the order has |
| Serving.SelectBest | src/core/QueueManager.cpp:118-136 | The scan's choice beats or equals every front, and is either the start value or the front of a group of the order |
| Serving.SelectFirst | src/core/QueueManager.cpp:118-136 | Every group before the chosen one in traversal order has a strictly lower front |
| Serving.ScanServes | src/core/QueueManager.cpp:79-108 | In FIFO and LIFO mode a dequeue returns a task exactly when the total is not zero and something is queued, and it is the front of the first group in traversal order that has something |
| Serving.PeekShows | src/core/QueueManager.cpp:167-222 | Whatever the total, peek names a task exactly when something is queued, in priority mode with a front above the lowest integer: the winner's front in priority mode, otherwise the front of the first group in traversal order with work |
| Serving.ChosenExactlyWhen | src/core/QueueManager.cpp:118-136 | The scan settles on a group if and only if its front beats the lowest integer and every front earlier in traversal order and no front beats it |
| Serving.PriorityServes | src/core/QueueManager.cpp:116-143 | In priority mode a dequeue returns a task exactly when the total is not zero, some front beats the lowest integer and the group with the empty name does not win; it is then the winner's front |
| Serving.PriorityServesMaximum | src/core/QueueManager.cpp:116-143 | The task returned has at least the priority of every queued task of every group |
| Serving.PeekForetellsDequeue | src/core/QueueManager.cpp:73-222 | Outside round robin peek names the task of the next dequeue if and only if it names none, or the total is not zero and in priority mode the group with the empty name does not win |
| Conservation.DequeueHolds | src/core/QueueManager.cpp:73-158 | What a dequeue hands out of a group is exactly what the group loses, in every mode |
| Conservation.ConservedRun | src/core/QueueManager.cpp:22-445 | In every run and for every group, what was put in since the last clear is, with multiplicity, what was handed out of the group and what is still queued in it |
| RoundRobin.TurnByIndex | src/core/QueueManager.cpp:516-526 | By index into the list of groups: a dequeue serves the first group with work among those at cursor, cursor + 1 and so on, each taken modulo 2^64 and then modulo the number of groups, hands out its front and leaves the cursor just behind |
| RoundRobin.TurnMisses | src/core/QueueManager.cpp:596-610 | A round in which none of these groups has work moves the cursor by the number of groups and changes nothing else |
| Rotation.NextInTurn | src/core/QueueManager.cpp:516-526 | In every run, after a group was served the next one served, with the groups the same and the cursor not wrapping with effect, is the first with work among those behind it in the list, around to itself |
| RoundRobin.TurnTries | src/core/QueueManager.cpp:596-610 | A turn serves someone exactly when one of the cursor values it tries, wrap-around included, stands for a group with something queued |
| RoundRobin.TurnHits | src/core/QueueManager.cpp:596-610 | A dequeue returns a task exactly when the total is not zero and the round tries a group with something queued |
| RoundRobin.TurnServes | src/core/QueueManager.cpp:596-610 | Where the round does not wrap or the number of groups divides 2^64, a dequeue returns a task exactly when the total is not zero and something is queued |
| Runs.AnyTurn | src/core/QueueManager.cpp:22-165 | For every list of groups, every cursor and every group, a run without a clear ends in round robin with exactly one task, queued in that group |
| RoundRobin.WrapMisses | src/core/QueueManager.cpp:516-526 | Everywhere else a run without a clear leads to a queued task that a dequeue with a non-zero total does not find |
| RoundRobin.RoundServesExactlyWhen | src/core/QueueManager.cpp:516-526 | In the states that runs reach with given groups and cursor, a dequeue finds a task whenever there is one if and only if the round does not wrap or the number of groups divides 2^64 |
| RoundRobin.PeekForetellsTurn | src/core/QueueManager.cpp:73-184 | In round robin peek and dequeue agree if and only if nothing is queued, or the total is not zero and the first group with work that the turn tries has the same task in front as the first one in traversal order |
| RoundRobin.Fairness | src/core/QueueManager.cpp:516-526 | While a group with work is passed over, and the cursor does not wrap or the number of groups divides 2^64, fewer tasks than groups are handed out and no other group gets two of them |
| Migration.SetModeReorders | src/core/QueueManager.cpp:351-445 | A group's removal order is kept on entering FIFO or round robin, reversed on entering LIFO, and becomes the stable descending sort of its reverse on entering priority mode |
| Migration.SetModeConserves | src/core/QueueManager.cpp:351-445 | Every group keeps exactly its tasks, with multiplicity |
| Migration.DrainInOrder | src/core/QueueManager.cpp:364-417 | Everything is drained group after group in traversal order |
| Migration.RoundTripReverses | src/core/QueueManager.cpp:351-445 | From FIFO to LIFO and back reverses every group |
| Migration.TwoRoundTripsRestore | src/core/QueueManager.cpp:351-445 | Doing it twice restores every group |
| Ledger.SlotsAreLengths | src/core/QueueManager.cpp:453-485 | The number of queued entries is the sum of the queue lengths, in any traversal order |
| Ledger.BalancedStep | src/core/QueueManager.cpp:66-67 | Every operation keeps the counters since the last clear balanced with what is queued |
| Ledger.LedgerRun | src/core/QueueManager.cpp:22-445 | In every run, counting since the last clear, the total is enqueued less dequeued less cancelled, and the summed queue lengths are the total plus the cancelled, modulo 2^64 |
| Shortfalls.ZeroTotalExactlyWhen | src/core/QueueManager.cpp:224-276 | In every run the total is zero if and only if, modulo 2^64, as many tasks are queued as have been cancelled since the last clear |
| Shortfalls.RunServesExactlyWhen | src/core/QueueManager.cpp:73-165 | In every run a dequeue returns a task if and only if the number queued is not that of the tasks cancelled since the last clear, modulo 2^64, and something is queued: in round robin, in a group the round tries; in priority mode, with a front above the lowest integer and the empty name not winning |
| Registry.HistoryIsRun | src/core/QueueManager.cpp:22-445 | Every history of manager and lifecycle calls, with its task map, is a run of the state machine whose cancellations succeed for registered tasks in queued status |
| Registry.TotalWrapsExactlyWhen | src/core/QueueManager.cpp:261-276 | In every history a cancellation takes the total from zero to 2^64 - 1 if and only if it succeeds and, modulo 2^64, as many tasks are queued as were cancelled since the last clear |
| Registry.CancelledTotalHidesTask | src/core/QueueManager.cpp:261-276 | A queued task is cancelled and then handed out, and another task stays queued that a dequeue does not return |
| Registry.CancelAfterTakeWraps | src/core/QueueManager.cpp:261-276 | A task cancelled after it was handed out makes the total wrap, and the next task submitted does not come out |
| Shortfalls.EmptyNameNotServed | src/core/QueueManager.cpp:116-143 | After entering priority mode and enqueueing under the empty name, peek names the task and a dequeue returns nothing |
| Shortfalls.PeekMisleads | src/core/QueueManager.cpp:173-184 | In round robin peek can name the task of one group while the dequeue returns that of another |
| Numerals.StoullInvertsDecimal | src/persistence/Storage.cpp:294-311 | Every 64-bit number is read back as printed, and larger ones are out of range |
| Numerals.StoullReads | src/persistence/Storage.cpp:304-311 | Spaces, a sign if any and the longest run of digits are read, negated modulo 2^64 after a minus sign, and the rest is ignored; without digits there is no number, and from 2^64 on it is out of range |
| Numerals.SameLengthOrder | src/persistence/Storage.cpp:299-302 | Among numerals of equal length alphabetical order is numeric order |
| Numerals.LongerSortsFirst | src/persistence/Storage.cpp:299-302 | Where consecutive numerals get longer, the longer one sorts first |
| Numerals.NumeralOrder | src/persistence/Storage.cpp:299-302 | A smaller number comes first alphabetically if and only if the larger one, cut to as many digits, is not below it |
| Numerals.NumeralPrecedes | src/persistence/Storage.cpp:299-302 | Which of any two numbers comes first alphabetically, in terms of the numbers |
| OrderedStore.Seek | src/persistence/Storage.cpp:151 | The iterator stands at the first key not before the prefix |
| OrderedStore.ScanPrefix | src/persistence/Storage.cpp:151-155 | Seeking and stopping at the first key without the prefix visits exactly the keys with it, in order |
| WriteLog.ExtractInvertsTaskKey | src/persistence/Storage.cpp:294-311 | Extracting the id of a task key gives the id back, for every 64-bit id |
| WriteLog.RestartRecovers | src/persistence/Storage.cpp:39-46 | A restart never crashes and recovers the last number the counter's record was written with since the truncation, zero if none |
| WriteLog.InvStep | src/persistence/Storage.cpp:39-238 | Every operation, whatever of its writes fails, keeps the log on disk equal to what was written since the last truncation |
| WriteLog.InvExec | src/persistence/Storage.cpp:39-238 | In every run with any writes failing, each number holds the entry last written under it since the truncation, the counter's record holds the last number it was written with, and nothing else has the log prefix |
| Recovery.SafeRun | src/persistence/Storage.cpp:24-238 | Where no live number is above the counter, operations whose restarts all find the last entry's counter record written overwrite nothing |
| Recovery.RestartSafeExactlyWhen | src/persistence/Storage.cpp:24-47 | In every run with any writes failing: after a restart some continuation, every further restart in it finding the last entry's counter record written, overwrites a live entry if and only if a live number is above the recovered counter |
| Recovery.AppendAfterRestart | src/persistence/Storage.cpp:172-191 | After a restart and n successful appends the next append overwrites if and only if the number it uses was live |
| Recovery.CarefulRun | src/persistence/Storage.cpp:24-191 | In runs whose restarts all find the last entry's counter record written, nothing is ever overwritten; after a restart now some continuation of that kind overwrites an entry if and only if the last entry's counter record was not written |
| Recovery.LostEndangers | src/persistence/Storage.cpp:184-188 | Whatever went before, an append whose counter write fails makes the next restart one after which a live entry can be overwritten |
| Recovery.AllWritesCareful | src/persistence/Storage.cpp:172-191 | Runs in which no write fails are of that kind |
| Recovery.LostCounterOverwrites | src/persistence/Storage.cpp:184-188 | A first entry whose counter write failed is overwritten by the first append after a restart |
| Recovery.TruncationDelaysOverwrite | src/persistence/Storage.cpp:184-238 | After n appends and a truncation such an entry is overwritten by exactly the append behind n others |
| Recovery.CarelessRestart | src/persistence/Storage.cpp:24-191 | After a restart that did not find the counter record written, the last entry's record is no longer enough |
| Replay.ReplayExact | src/persistence/Storage.cpp:193-218 | In every run a replay reads, for each number written since the truncation, the entry last written under it and nothing else, in the alphabetical order of the numerals |
| Replay.ReplayCompleteExactlyWhen | src/persistence/Storage.cpp:193-218 | In every run a replay returns as many entries as were written since the truncation if and only if no number was written twice, and then it returns each of them once |
| Replay.ReplayOnce | src/persistence/Storage.cpp:193-218 | In particular where nothing was overwritten |
| Replay.PairInOrder | src/persistence/Storage.cpp:193-218 | In every run, of two live entries that are replayed the earlier one comes back first if and only if its number precedes the other's alphabetically; with equally many digits, if and only if its number is smaller |
| Replay.AppendOrderExactlyWhen | src/persistence/Storage.cpp:193-218 | In every run, whatever writes fail, a replay is the log in append order if and only if each live number, repeated and falling ones included, precedes the next one alphabetically |
| Replay.GaplessOrder | src/persistence/Storage.cpp:193-218 | Where nothing was overwritten and the numbers have no gaps, if and only if the first and last live number have equally many digits |
| Replay.AllWritesGapless | src/persistence/Storage.cpp:172-191 | Runs in which no write fails leave no gaps |
| Replay.LogRun | src/persistence/Storage.cpp:39-238 | In every run whose restarts find the last entry's counter record written, whatever other writes fail, the next append overwrites nothing and a replay returns every entry written since the last truncation exactly once |
| Journal.HoldsExactlyWhen | src/persistence/Storage.cpp:60-116 | In every run an object is stored for an id if and only if a save of it succeeded |
| Journal.LiveIsLogged | src/persistence/Storage.cpp:172-191 | In every run the live entries carry the items that the operations logged since the last successful truncation, in order: an append its own item, a successful save the task, a successful update the id and status |
| Journal.CounterExactly | src/persistence/Storage.cpp:172-191 | In every run the counter in memory is what the last restart recovered and one more for each attempt to log since |
| Journal.ReplayReports | src/persistence/Storage.cpp:193-218 | In every run a replay reports these items, each as often as logged, where no number was written twice, and as the same list where each live number precedes the next one alphabetically |
| Journal.CarefulReplayReports | src/persistence/Storage.cpp:172-218 | In every run whose restarts find the last entry's counter record written, a replay reports exactly the items logged since the last truncation, with multiplicity |
| Storage.ReplayReturnsLog | src/persistence/Storage.cpp:193-218 | From any disk the log invariant allows, where each live number precedes the next one alphabetically, what a replay reports is operation and data of the live log in append order; `Journal.LiveIsLogged` says what those are |
| Storage.Store.Initialize | src/persistence/Storage.cpp:24-47 | The counter becomes the number its record was printed from, stays as it is without a record, and an unreadable record is an error; the database is untouched |
| Storage.Store.AppendToWAL | src/persistence/Storage.cpp:172-191 | The counter is raised by one modulo 2^64, an entry with the given operation and data is written under it, then the counter's record, as far as the writes succeed; a failed entry leaves the database as it was |
| Storage.Store.SaveTask | src/persistence/Storage.cpp:60-83 | The task is stored and logged; the answer tells only whether it was stored |
| Storage.Store.UpdateTaskStatus | src/persistence/Storage.cpp:85-116 | Any stored object gets the status and nothing else changes; the update is logged; anything but an object is refused |
| Storage.Store.LoadTask | src/persistence/Storage.cpp:118-142 | Finds the task stored under the id, if any |
| Storage.Store.ReplayWAL | src/persistence/Storage.cpp:193-218 | The loop reports operation and data of the entries among the keys with the log prefix, in order |
| Storage.Store.TruncateWAL | src/persistence/Storage.cpp:220-238 | If the batch is written exactly the keys without the log prefix stay, otherwise all, each with its value, as the answer tells; the counter in memory stays |
| Storage.Store.LoadAllTasks | src/persistence/Storage.cpp:144-170 | Every stored task that decodes is loaded and nothing else, each once where tasks are under their own keys |
| Storage.WriteKeepsFiled | src/persistence/Storage.cpp:60-116 | A write keeps every task under its own key, stores the given one and touches no other |
| Storage.StoreIsMap | src/persistence/Storage.cpp:60-142 | Lookup by id behaves as a plain map under saves and status updates, as far as their writes succeed, and under logging, truncation and restarts; an update keeps a stored task's id and body |
| Storage.FiledExec | src/persistence/Storage.cpp:60-238 | In every run each stored task is under the key of its own id |

## Left out

- Relaxation.Relax: distances are unbounded integers, because a chain of 2^31 tasks is out of reach; the same holds for the in-degree counters and the levels.
- RoundRobin.Fairness: stated while mode and groups stay the same and, unless the number of groups divides 2^64, the cursor does not wrap, because a new group or such a wrap moves every group's turn.
- Replay.LogRun: stated for runs of fewer than 2^64 operations, since a counter that wraps writes an entry over its own record; the same bound is on Recovery.RestartSafeExactlyWhen, Journal.CounterExactly and Journal.ReplayReports.
- Rotation.NextInTurn: stated for the same groups at both dequeues and a cursor that does not wrap unless the number of groups divides 2^64; RoundRobin.TurnByIndex has neither bound.
- StackCalls.Linearizable: memory is sequentially consistent, node identities are never reused and the counter is a mathematical integer.
- SkipList.PriorityQueue.Enqueue: one caller at a time, as under the manager's exclusive lock; no lock-free claim is made for the skip list or the intrusive list.
- LinkedQueues.IntrusiveList.PopFront: one caller at a time, since clearing the tail can lose a concurrent push.
- QueueManager.Manager.Dequeue: queues are sequences in removal order rather than the linked objects; the contracts of `LinkedQueues` and `SkipList` match the sequence operations used, but no manager over the linked objects is built; locks, timestamps and wait times are not modelled.
- Storage.Store.LoadAllTasks: JSON dump and parse are an assumed round trip, and of an object only the parts the code reads are kept.
- Registry.HistoryIsRun: one task object for each id, as `Task::generateId` makes them, and the default of three retries.
- Lifecycle: calls are atomic, `setMaxRetries` during a run, timestamps and JSON conversion are not modelled.
- Network server, command-line commands, thread pool, TLS: input/output and dispatch.
- Graph drawing, metrics, backup, restore, compaction and batch operations: formatting or foreign code.
- Deallocation and leaks: nodes are garbage-collected.
- Dependency-gated execution: `dequeue` never consults `areDependenciesMet`, so there is nothing to state.
