# Quoin runtime: verified model

Quoin is a dynamically typed, message-sending language with a bytecode VM written
in Rust. This project models the parts of its runtime whose correctness depends on
several operations working together, and proves what they promise over all inputs,
all runs and all interleavings. `dafny verify dfyconfig.toml` checks everything.

* **Dispatch** (`ClassGraph`, `Dispatch`, `DispatchTransfer`, `DispatchCache`,
  `DispatchSame`, `DispatchOrder`, `DispatchMeaning`, `DispatchVm`,
  `DispatchGlobals`). Multimethod resolution walks a class, its mixins and its parent
  depth first, scoring variants by class distance, element tags and guards; a cache keyed on class, selector, side and argument classes
  must agree with that walk although guards run arbitrary code in the middle of it. A
  guard's execution is a finite tree of heap changes and nested sends, and it may leave
  values on the VM stack. Coherence, rooting and restoration hold for every such tree;
  the answer is that of a fresh walk for guards that redefine nothing - they may send,
  run further guards, look up again, allocate, add classes that no type hint already
  means, and let the collector take eigenclasses that nothing on the stack leads to.
* **The checker's class table** (`ClassTables`). The compile-time twin of the walk,
  over names.
* **The scheduler with record and replay** (`Driver`, `ReplayProof`,
  `ReplayCompletes`, `DriverLoop`, `Fairness`, `Conservation`, `VmCalls`). The
  VM is an arbitrary deterministic step function; the outside world decides when
  completions arrive.
* **The wake log** (`Numerals`, `Tokens`, `WakeLog`) and **process-tree collection**
  (`PsCollect`).
* **The I/O backend** (`IoBackend`, `IoBackendRuns`, `SmolBackend`, `ChildSlots`).
  One step is one uninterrupted stretch of the single-threaded executor; runs are
  arbitrary sequences of steps of all operations.
* **The handle table** (`HandleTables`, `HandleLife`).
* **The markup compiler** (`Terminal`, `Markup`, `MarkupMeaning`, `MarkupWriter`,
  `MarkupGrammar`, `MarkupStable`).
  Its meaning is given by a terminal that interprets Select Graphic Rendition,
  section 8.3.117 of ECMA-48.
* **Integer operations** (`IntOps`).

## What the proofs found

* Binding a global does not drop the method cache (src/vm/exec.rs:1999 and 2889), but
  globals are what type hints are resolved with. Binding or rebinding is harmless
  exactly when the name keeps its meaning for every named class - for an unbound name,
  when the class bound is the only one so called (`BindSafeIff`); otherwise
  `AliasMakesCacheStale` builds a program whose cached answer a fresh lookup
  contradicts.
* The comment at src/class_table.rs:514-515 says that an unknown class on either side
  makes the subtype query silent. The code never looks the supertype up, and compares
  it only with the classes' own names, so a hint that is an alias of a class is denied
  although dispatch accepts it - once the classes above the argument's class are all
  listed, exactly if none of them is called so (`DenialIff`, `AliasHintDenied`).
* `FinishStream` clears its teardown entry before it looks for the stream
  (src/io_backend_smol.rs:812-827). While another operation holds the stream it finds
  nothing, and the trailer is never written. `TrailersKeptIff` gives the exact steps
  that lose one, `FinishDuringWrite` a run.
* The asynchronous close sets no tombstone and a close during a TLS handshake finds
  no lease; `CloseIsFinal` and `AsyncCloseIsFinal` say exactly when the closed id can
  come back, `AsyncCloseDuringRead` and `CloseDuringHandshake` show runs. Finishing a
  stream sets no tombstone either (`FinishIsFinal`).
* A handle is safe for at most 2^32 - 2 releases of its slot; `AliasAfterFullCycle`
  shows that one more is too many.
* A comment beside the colorizer says that compiled output passes through it unchanged.
  `OutputStableIff` says for exactly which texts it does; `OutputCanChangeAgain` is one
  for which it does not.
* The comment at src/instruction.rs:438-439 says integer operations wrap. The code
  raises an overflow error (src/devirt_ops.rs:42-75); the model follows the code.

## Model

| member | source | states |
|---|---|---|
| `ClassGraph.ChainDistanceLoop` | src/dispatch.rs:1155-1179 | the loop up the parents computes the chain distance |
| `ClassGraph.ScoreLoop` | src/dispatch.rs:1048-1083 | the accumulating loop computes the score of a parameter list, or refuses |
| `ClassGraph.DistanceIsLeast` | src/dispatch.rs:1137-1179 | on a parent chain that ends (the source's loop has no other exit on a cycle), the distance is the least n such that the n-th ancestor matches the hint or the one before mixes it in; none exactly when no n does |
| `Dispatch.SelectSpec` | src/dispatch.rs:687-713 | selection finds nothing only without entries, picks the unique lowest (score, guard rank), and is ambiguous exactly when several share a lowest score other than the fallback maximum |
| `Dispatch.WalkIsFirstAnswer` | src/dispatch.rs:601-729 | the recursive walk with its visited list answers like the first answering class of the search order |
| `Dispatch.OrderDistinct` | src/dispatch.rs:601-632 | the search order lists no class twice |
| `Dispatch.OrderClosed` | src/dispatch.rs:601-632 | the search order holds every mixin and parent of its members |
| `Dispatch.LocalSpec` | src/dispatch.rs:687-713 | one class answers as its variants say: an error exactly if a guard throws, else nothing exactly when no variant applies, ambiguous exactly when two applicable variants share the lowest (score, guard rank) and it is not the fallback, else the first variant of the lowest rank |
| `Dispatch.ResolutionSpec` | src/dispatch.rs:601-807 | the search order starts at the class and lists exactly the classes reachable from it, each once; resolution finds nothing exactly when no variant of any of them applies, and else answers as the variants of the first class with an answer do; also on cyclic graphs |
| `DispatchOrder.OrderExact` | src/dispatch.rs:601-632 | from any visited list the search adds exactly the classes reached over mixins and parents without passing what is visited |
| `DispatchOrder.MixinsFirst` | src/dispatch.rs:715-729 | from any visited list: the class itself, then everything its first mixin leads to, then the rest of what the second leads to, and so on; what only the parent leads to comes last; nothing twice |
| `DispatchOrder.OrderUnfolds` | src/dispatch.rs:715-729 | each mixin in turn is searched from what is visited so far, then the parent |
| `DispatchMeaning.DistanceIff` | src/dispatch.rs:1118-1179 | the distance is that of the rules: nil and nullable hints, the type name, the fewest hops up the parents or into a mixin with globals by identity and other names by name, `Object` as last resort at 1000000 |
| `DispatchMeaning.FitMeans` | src/dispatch.rs:745-807 | a variant applies exactly if there are enough arguments, each has a distance and its required tag, and the guard, if any, passes; its score is the sum of twice the distances less one per required tag, the largest 64-bit integer for a signatureless native |
| `DispatchMeaning.ResolutionMeaning` | src/dispatch.rs:601-807 | nothing is found exactly when no variant of any class that mixins and parents lead to accepts or throws; else the first class in search order with an answer gives its own: an error, an ambiguity, or its best accepting variant |
| `DispatchMeaning.FoundMeaning` | src/dispatch.rs:687-713 | the method found accepts; no accepting variant of its class costs less, or as much with a guard against none; a signatureless native is found only if every other accepting variant is as dear |
| `DispatchMeaning.MixinsAnswerFirst` | src/dispatch.rs:715-729 | if the class has nothing and a mixin leads to a class that has, the answer comes from a class that this or an earlier mixin leads to |
| `DispatchMeaning.ValuesSeen` | src/vm/call.rs:675-705 | the class, type name and tag that dispatch sees of each kind of value |
| `DispatchMeaning.ClassesOnlyUntainted` | src/dispatch.rs:766-806 | where no reachable variant has a guard or required tags the walk is untainted |
| `Dispatch.UntaintedTally` | src/dispatch.rs:766-806 | scoring that raises no taint answers alike whatever the guards say |
| `DispatchTransfer.WalkAgrees` | src/dispatch.rs:513-549 | two heaps that agree on a closed set of classes resolve alike for arguments of the same shape |
| `DispatchTransfer.WalkUntainted` | src/dispatch.rs:570-586 | an untainted walk is independent of the guards |
| `DispatchSame.WalkSame` | src/dispatch.rs:601-729 | a walk, tainted ones included, answers and visits alike in two heaps that agree on the classes it can see |
| `DispatchSame.ArgumentsSeen` | src/dispatch.rs:634-662 | arguments on the stack keep their views, and their classes are among those kept, across changes that keep what the stack leads to |
| `DispatchCache.KeyLoop` | src/dispatch.rs:513-549 | the loop builds the key; eigenclasses and too many arguments have none |
| `DispatchCache.KeyGivenIff` | src/dispatch.rs:513-549 | a lookup has a key if and only if it has at most four arguments and involves no eigenclass |
| `DispatchCache.KeyInjective` | src/dispatch.rs:513-549 | equal keys mean same class, selector, side, argument classes and kinds |
| `DispatchCache.KeySufficient` | src/dispatch.rs:513-549 | one untainted walk settles every lookup with its key |
| `DispatchCache.InsertCoherent` | src/dispatch.rs:576-593 | inserting an untainted answer keeps every entry equal to a fresh walk |
| `DispatchCache.QuietKeepsCoherent` | src/dispatch.rs:513-549 | allocation, new classes and reused eigenclass addresses leave every entry fresh |
| `DispatchVm.Vm.InvalidateMethodCache` | src/dispatch.rs:503-508 | the cache is emptied, the epoch advances with wrap-around |
| `DispatchVm.Vm.RunGuard` | src/dispatch.rs:766-806 | whatever a guard does and leaves on the stack, the cache stays coherent, the flag is restored, and nothing below what it left is touched; a guard that only sends and allocates, with the collector running, changes nothing a walk can see |
| `DispatchVm.Vm.MatchOne` | src/dispatch.rs:745-807 | one variant is scored; the flag rises exactly for tagged or guarded variants that get that far; the fit is the specified one for every guard that redefines nothing, nested sends included |
| `DispatchVm.Vm.ScoreCandidates` | src/dispatch.rs:687-700 | all candidates are scored in order while those still to come stay rooted, with the specified tally for guards that redefine nothing; every entry is a candidate |
| `DispatchVm.Vm.ResolveInClass` | src/dispatch.rs:674-730 | own variants first, then the edges, with the walk's answer for guards that redefine nothing; a method found is live |
| `DispatchVm.Vm.LookupEdges` | src/dispatch.rs:715-729 | mixins and parent in turn until one answers, as the walk over them does for guards that redefine nothing |
| `DispatchVm.Vm.RootAndResolve` | src/dispatch.rs:634-662 | candidates, mixins and parent are on the stack while guards run; after success and error the stack is back to its exact earlier contents although guards may leave anything above |
| `DispatchVm.Vm.LookupRec` | src/dispatch.rs:601-663 | the walk over mutable state: coherence, stack and liveness of the answer for every guard behaviour, and the answer of `Walk` for guards that redefine nothing, re-entrant ones included |
| `DispatchVm.Vm.Lookup` | src/dispatch.rs:551-594 | whatever guards do, the cache stays coherent, the flag and the stack are restored and a method found is live; if guards only send, look up again and allocate, the answer is that of a fresh walk over the tables at the start, and untainted answers are in the cache; a hit runs no guard and changes nothing |
| `DispatchGlobals.BindKeepsDistances` | src/dispatch.rs:1137-1179 | binding or rebinding a global, to a class or to another value, leaves all type distances alone if and only if the name means the same classes as before |
| `DispatchGlobals.BindKeepsCoherent` | src/vm/exec.rs:1977-1999 | if it does for the named classes, the uninvalidated cache of every program that has them stays coherent |
| `DispatchGlobals.AliasMakesCacheStale` | src/vm/exec.rs:1977-1999 | if it does not, some program with those classes has a coherent cache that the binding makes incoherent |
| `DispatchGlobals.BindSafeIff` | src/vm/exec.rs:1977-1999 | binding without invalidation is safe for every cache of every program that has these classes and further ones, none of them called by the name, if and only if the name keeps its meaning for the named classes |
| `ClassTables.RespondsSpec` | src/class_table.rs:341-373 | "no" if and only if every reachable class is known, has no catch-all and lacks the selector; "yes" gives a reachable owner; silence a reachable unknown or catch-all class; on every table |
| `ClassTables.NoFalseMnu` | src/class_table.rs:341-373 | when the table mirrors the graph, "no" implies that dispatch meets no variant at all, on either side, for any arguments and guards, on every graph, cyclic parent chains included |
| `ClassTables.SubtypeSpec` | src/class_table.rs:516-547 | "not a subtype" if and only if every reachable class is known and none is the supertype; "yes" means it is reachable; silence that an unknown class is; on every table |
| `ClassTables.DistanceImpliesSubtype` | src/class_table.rs:516-547 | what dispatch accepts by class distance for a hint that is no alias the checker never denies |
| `ClassTables.DenialIff` | src/class_table.rs:516-547 | on any graph with live edges: if a class above the given one bears the name, no table that mirrors the graph denies the subtyping; a mirroring table that lists the classes above it denies if and only if none of them bears the name |
| `ClassTables.DeniedIsAlias` | src/class_table.rs:516-547 | a hint that dispatch accepts and the checker denies is an alias or matches by type name alone, and names no class above the value's class |
| `ClassTables.AliasHintDenied` | src/class_table.rs:516-547 | a concrete denial of an accepted alias |
| `ClassTables.TypeNameDenied` | src/class_table.rs:516-547 | a concrete denial of a value accepted by its type name |
| `ClassTables.DeclaredRefinesPlain` | src/class_table.rs:387-512 | on every acyclic table the searches with a visited set return the declaration and the definer of the plain depth-first ones |
| `ClassTables.DeclaredOrder` | src/class_table.rs:466-512 | on every acyclic table: the class's own declaration, else that of its first mixin that finds one, else its parent's |
| `ReplayProof.ReplayStep` | src/runner_driver.rs:906-1090 | one replayed step stays at the recorded state, reaches the next one, or diverges because the recorded completion cannot come |
| `ReplayProof.ReplayEmitsPrefix` | src/runner_driver.rs:810-1105 | for every log, machine and arrivals: after any number of steps a replay has emitted exactly the log up to the cursor, or reported divergence |
| `ReplayProof.ReplayFollows` | src/runner_driver.rs:810-1105 | after any number of steps and any arrivals the replay is in step with a recorded state - same VM, queue, current task, and exactly the log up to the cursor - or has reported divergence |
| `ReplayCompletes.ReplayReachesEnd` | src/runner_driver.rs:906-1090 | if every operation brings its recorded result, in any order, the replay reaches the recorded end with exactly the recorded log |
| `DriverLoop.Scheduler.ExpectPick` | src/replay.rs:323-335 | the next pick is consumed, or nothing matches |
| `DriverLoop.Scheduler.ExpectRotate` | src/replay.rs:336-347 | the next rotation is consumed, or nothing matches |
| `DriverLoop.Scheduler.DeliverOne` | src/runner_driver.rs:711-757 | a completion is logged and its task woken |
| `DriverLoop.Scheduler.AwaitWanted` | src/runner_driver.rs:906-945 | the wanted completion is delivered once it is there, every other one is held back |
| `DriverLoop.Scheduler.PickFromLog` | src/runner_driver.rs:810-851 | the logged task is taken from the queue, or the run diverges |
| `DriverLoop.Scheduler.EndYield` | src/runner_driver.rs:1066-1105 | the logged rotation decides whether the task is requeued |
| `DriverLoop.Scheduler.Drive` | src/runner_driver.rs:758-1142 | the imperative loop performs exactly the replay steps the theorems are about |
| `Fairness.PickedInTurn` | src/runner_driver.rs:834-851 | without stress a task at position k is picked after exactly k other picks |
| `Fairness.SpinnersStarveNobody` | src/runner_driver.rs:1066-1105 | over every run without stress, a task at position k of the queue has been picked once k + 2 rotations have passed, however the running tasks spin |
| `Conservation.TasksConserved` | src/runner_driver.rs:736-1105 | over every live run each task stays in the same number of places among current, ready, in flight and held back |
| `Conservation.ReplayTasksConserved` | src/runner_driver.rs:906-945 | the same over every replay, whatever arrives in whatever order and whether or not it diverges |
| `Conservation.DeliveredOnce` | src/runner_driver.rs:711-757 | over every live run the operations that tasks parked on, I/O and timers, are delivered once or still outstanding, and nothing else is delivered |
| `Conservation.ReplayDeliveredOnce` | src/runner_driver.rs:906-945 | the same over every replay, with completions held back |
| `VmCalls.LiveCallsAgree` | src/runner_driver.rs:711-757 | over every live run, with a VM that records its calls: each completion brought is handed over in log order with its own payload, or none if aborted, and logged as that; each task picked is resumed with loading, and only then; exactly the preempted tasks are saved |
| `VmCalls.ReplayCallsAgree` | src/runner_driver.rs:906-1105 | the same over every replay of any log, for completions that have arrived |
| `VmCalls.RotationsMean` | src/runner_driver.rs:1090-1105 | a rotation preempts exactly if anything else is ready, or under stress |
| `VmCalls.EndsMean` | src/runner_driver.rs:855-885 | a live run ends by the guest's exit, by having nothing to run or wait for - as a deadlock exactly if the main task is parked - or as the last resume ended |
| `VmCalls.StepsMean` | src/runner_driver.rs:1029-1142 | the queue after a resume and a timer is the VM's, after I/O it grows by the woken task; a task that parks is off |
| `WakeLog.LineRoundTrip` | src/replay.rs:77-110 | every event line parses back to its event |
| `WakeLog.LineForms` | src/replay.rs:77-86 | the written form of each event |
| `WakeLog.LogRoundTrip` | src/replay.rs:124-160 | the recorded file parses back to exactly its sections, empty ones included, under its batch, and is refused under any other |
| `WakeLog.LineReads` | src/replay.rs:88-110 | a line is read as an event if and only if its words spell it, numbers with any zeros and a plus sign, and the numbers fit; every other line is refused |
| `WakeLog.TextMeans` | src/replay.rs:124-160 | a text loads if and only if its first line has the name, the version and this batch, and every further line is empty, a marker or an event after a marker; each section then has the events of the lines under its marker |
| `WakeLog.ParseLog` | src/replay.rs:124-160 | the loop parser computes the specified parse of any text |
| `PsCollect.StartCollect` | src/runner_driver.rs:439-487 | the loop asks every live child and marks the others done |
| `PsCollect.PollAll` | src/runner_driver.rs:492-508 | the loop that removes in place keeps exactly the silent children pending |
| `PsCollect.ProgressCollect` | src/runner_driver.rs:491-541 | one poll, with the deadline, the patching and the answers |
| `PsCollect.StartPartitions` | src/runner_driver.rs:439-487 | pending and done children partition the registry |
| `PsCollect.PolledKeepsPartition` | src/runner_driver.rs:492-508 | every poll keeps the partition |
| `PsCollect.ExpiredKeepsPartition` | src/runner_driver.rs:509-514 | the deadline keeps the partition |
| `PsCollect.TreeComplete` | src/runner_driver.rs:439-541 | each worker row gains exactly one `ps` entry: the tree the child sent, if it was running, took the request and sent a tree as its first message; else `unresponsive`; nothing else changes |
| `PsCollect.CollectionAnswers` | src/runner_driver.rs:782-806 | a finished collection sends one tree to all its requesters, those who joined on the way included |
| `PsCollect.CollectionEnds` | src/runner_driver.rs:509-514 | a collection ends with the first turn at which every child asked has given something, or that is late, and with no other |
| `PsCollect.AskedChildren` | src/runner_driver.rs:439-487 | exactly the children that run and take requests are asked |
| `PsCollect.QueueTakenUp` | src/runner_driver.rs:782-806 | after every turn nobody is left in the queue |
| `PsCollect.WholeCollection` | src/runner_driver.rs:439-541 | from the first request to the answers: everyone who asked before the end gets the tree of the start with one more entry in every row, that of the row's own child |
| `PsCollect.RequestersConserved` | src/runner_driver.rs:782-806 | over every run the answered, collected-for and queued requests are exactly the arrivals, in order |
| `PsCollect.ControlLane.Service` | src/runner_driver.rs:782-806 | one pass over the mutable lane is one turn of the model |
| `IoBackend.StepKeepsInv` | src/io_backend_smol.rs:163-198 | every step keeps: each id in one place, leased ids those in flight and held once, a leased id with its own abort handle or a tombstone, an operation aborted exactly under a tombstone |
| `IoBackend.RunKeepsInv` | src/io_backend_smol.rs:547-628 | so does every interleaving |
| `IoBackendRuns.NeverAgainIffDead` | src/io_backend_smol.rs:1151-1171 | an issued id is unusable in all continuations if and only if no registry, open lease or handshake has it |
| `IoBackendRuns.CloseIsFinal` | src/io_backend_smol.rs:1151-1171 | the synchronous close is final over all continuations if and only if no handshake holds the stream |
| `IoBackendRuns.AsyncCloseIsFinal` | src/io_backend_smol.rs:738-746 | the asynchronous close is final if and only if, besides, no unclosed lease holds the id |
| `IoBackendRuns.FinishIsFinal` | src/io_backend_smol.rs:812-827 | finishing is final if and only if no handshake and no unclosed lease holds the id and it is no listener or random-access file |
| `IoBackendRuns.CloseDuringHandshake` | src/io_backend_smol.rs:1082-1111 | a run in which a closed stream is open again after its handshake |
| `IoBackendRuns.AsyncCloseDuringRead` | src/io_backend_smol.rs:738-746 | a run in which an asynchronously closed stream is open again after a read |
| `IoBackendRuns.TakeSucceeds` | src/io_backend_smol.rs:394-402 | a lease is granted exactly on a registered id, never on a leased one |
| `IoBackendRuns.InsertedIsLeased` | src/io_backend_smol.rs:202-228 | a resource inserted is leased as itself under its own kind and under no other |
| `IoBackendRuns.ReplacedIsLeased` | src/io_backend_smol.rs:793-811 | a wrapped stream, a secured one and one whose lease ended are leased next as what they then are |
| `IoBackendRuns.LeaseKeptInRun` | src/io_backend_smol.rs:393-516 | an operation keeps its lease through any run, tombstoned exactly by a close of its id |
| `IoBackendRuns.LeaseReturns` | src/io_backend_smol.rs:410-425 | a lease ends with the same resource under the same id, or, exactly if closed on the way, dropped for good; it is aborted exactly in the second case |
| `IoBackendRuns.TrailersKeptIff` | src/io_backend_smol.rs:793-827 | a step keeps every unwritten trailer known to teardown if and only if it is not a finish of a stream that is out, or a close during its handshake |
| `IoBackendRuns.TrailersKept` | src/io_backend_smol.rs:46-62 | over every run without such a step teardown knows every live encoder |
| `IoBackendRuns.PendingIff` | src/io_backend_smol.rs:793-827 | over every run teardown is to finish exactly the streams wrapped in a write codec and neither closed nor finished since |
| `IoBackendRuns.FinishDuringWrite` | src/io_backend_smol.rs:812-827 | a run that leaves an open encoder teardown does not know |
| `SmolBackend.SmolInner.InsertResource` | src/io_backend_smol.rs:202-228 | a fresh id in the right registry |
| `SmolBackend.SmolInner.TakeLease` | src/io_backend_smol.rs:394-402 | the lease step, or not found |
| `SmolBackend.SmolInner.DropLease` | src/io_backend_smol.rs:410-425 | the end-of-lease step |
| `SmolBackend.SmolInner.CloseId` | src/io_backend_smol.rs:1151-1171 | the close step, final outside handshakes |
| `SmolBackend.SmolInner.PerformClose` | src/io_backend_smol.rs:738-746 | the asynchronous close step |
| `SmolBackend.SmolInner.WrapStream` | src/io_backend_smol.rs:793-811 | the codec replaces the stream under its id; a write codec is noted for teardown |
| `SmolBackend.SmolInner.FinishStream` | src/io_backend_smol.rs:812-827 | the finish step, reporting whether a stream was found |
| `SmolBackend.SmolInner.StartHandshake` | src/io_backend_smol.rs:1082-1094 | the stream leaves the registry without a lease |
| `SmolBackend.SmolInner.EndHandshake` | src/io_backend_smol.rs:1095-1111 | the secured stream takes over the id, a failed one is dropped |
| `SmolBackend.SmolInner.Teardown` | src/io_backend_smol.rs:46-62 | every pending registered stream is finished exactly once; if no trailer was forgotten no encoder is left unfinished |
| `ChildSlots.NeverBorrowedTwice` | src/io_backend_smol.rs:15-31 | in no interleaving is the child cell borrowed twice at once |
| `ChildSlots.RecordedForever` | src/io_backend_smol.rs:1194-1245 | a recorded exit never changes and no signal is sent after it |
| `ChildSlots.RecordedIff` | src/io_backend_smol.rs:1044-1054 | over every run: the exit recorded is the first that a parked wait, or a probe of a listed child that nobody waits for, observes |
| `ChildSlots.SentIff` | src/io_backend_smol.rs:1177-1221 | over every run: signals are sent exactly for requests, and for reaping and teardown of an undetached child, while it is listed and no exit was observed |
| `ChildSlots.ReapedForever` | src/io_backend_smol.rs:1177-1192 | a reaped child is never signalled again |
| `ChildSlots.ParksIff` | src/io_backend_smol.rs:1015-1034 | a wait parks if and only if the child is listed, not known to have exited and not waited for |
| `ChildSlots.CancelledWaitFrees` | src/io_backend_smol.rs:153-161 | after a cancelled wait the next one parks, whatever else happened, unless the child was reaped or is known to have exited |
| `ChildSlots.DetachedSurvives` | src/io_backend_smol.rs:33-45 | reaping and teardown never kill a detached child |
| `ChildSlots.ChildSlot.StartWait` | src/io_backend_smol.rs:1015-1043 | an error, the recorded exit, or a parked wait |
| `ChildSlots.ChildSlot.FinishWait` | src/io_backend_smol.rs:1044-1054 | the wait resolves or is dropped |
| `ChildSlots.ChildSlot.Running` | src/io_backend_smol.rs:1223-1245 | the liveness probe, recording an exit it sees |
| `ChildSlots.ChildSlot.SendSignal` | src/io_backend_smol.rs:1194-1221 | a signal is sent only to a listed child without recorded exit |
| `ChildSlots.ChildSlot.ReapChild` | src/io_backend_smol.rs:1177-1192 | the entry goes; a running, undetached child is killed |
| `HandleTables.HandleRoundTrip` | src/handle_table.rs:40-47 | index and generation come back from a handle |
| `HandleTables.SweepExact` | src/handle_table.rs:104-126 | a sweep frees exactly the slots that die and keeps the free list exact |
| `HandleTables.ReleaseExact` | src/handle_table.rs:152-163 | releasing a batch with duplicates and stale handles keeps the free list exactly the empty slots without repeats |
| `HandleTables.ApplySteps` | src/handle_table.rs:97-201 | every operation keeps the table valid and moves each slot by at most one generation per release |
| `HandleTables.AllocKeepsValid` | src/handle_table.rs:170-189 | the table stays valid; the new handle is not 0, did not resolve before and resolves to its value; every other slot is untouched or moves by one legal step |
| `HandleTables.GenerationCounts` | src/handle_table.rs:191-201 | over every run the generation counts releases, skipping 0 on wrap-around |
| `HandleTables.NoAliasing` | src/handle_table.rs:97-201 | a minted handle resolves if and only if its slot was released a multiple of 2^32 - 1 times and is occupied, to the value it was minted for if never released |
| `HandleLife.HandleLifetime` | src/handle_table.rs:104-163 | a handle minted for a call of an extension gives its value after any run if and only if the run has no release that names it, none of the extension, and no end of the call before it was retained; while its slot was freed fewer than 2^32 - 1 times |
| `HandleLife.EpochsFresh` | src/handle_table.rs:97-102 | a call gets an epoch that none of the 2^32 - 1 calls before it got; the one before those had the same |
| `HandleTables.AliasAfterFullCycle` | src/handle_table.rs:191-201 | after exactly 2^32 - 1 releases the handle answers another value |
| `HandleTables.HandleTable.BeginCall` | src/handle_table.rs:97-102 | the next epoch, wrapping at 2^32 |
| `HandleTables.HandleTable.EndCall` | src/handle_table.rs:104-111 | the epoch's handles and no others are freed |
| `HandleTables.HandleTable.MintLocal` | src/handle_table.rs:113-117 | the allocation step |
| `HandleTables.HandleTable.Lookup` | src/handle_table.rs:128-138 | the value of a resolving handle, else none |
| `HandleTables.HandleTable.Retain` | src/handle_table.rs:140-150 | the handle outlives its call, if it resolves |
| `HandleTables.HandleTable.Release` | src/handle_table.rs:152-163 | the batch release step |
| `HandleTables.HandleTable.ReleaseForExt` | src/handle_table.rs:119-126 | an extension's handles and no others are freed |
| `Terminal.ShowSequence` | src/ansi_colorizer.rs:57-69 | a terminal reads a written sequence as its parameters |
| `Terminal.JoinedRoundTrip` | src/ansi_colorizer.rs:57-69 | joined decimal codes read back |
| `Markup.MergedWith` | src/ansi_colorizer.rs:41-53 | the loop merges a tag into its enclosing state |
| `Markup.ParseTag` | src/ansi_colorizer.rs:134-161 | the token loop reads a tag, or refuses the run |
| `Markup.Colorize` | src/ansi_colorizer.rs:167-216 | the loop with its style stack emits the compilation of the text's pieces |
| `MarkupGrammar.ColorIff` | src/ansi_colorizer.rs:89-118 | a word is a colour if and only if it is one of the sixteen names, a grey, or a hash and six hexadecimal digits, and which colour it is |
| `MarkupGrammar.AttributesIff` | src/ansi_colorizer.rs:134-161 | the words of a tag are read if and only if they are a list of style words, colours, and colours after `on` |
| `MarkupGrammar.TagIff` | src/ansi_colorizer.rs:134-161 | a run is a closing tag if and only if its only word is a slash, an opening one if and only if its words are an attribute list that is not empty, both without a newline; all else is no tag |
| `MarkupGrammar.PiecesIff` | src/ansi_colorizer.rs:167-216 | a text reads as given pieces if and only if it divides into parts that stand for them; a bracket is text exactly when it is doubled or when neither another nor a tag's run follows |
| `MarkupMeaning.MergedIsNested` | src/ansi_colorizer.rs:41-53 | a merged span means one span inside the other, in every style |
| `MarkupMeaning.CodesMean` | src/ansi_colorizer.rs:57-69 | a span's codes, applied to any style, put the span inside it |
| `MarkupMeaning.AttributesNest` | src/ansi_colorizer.rs:134-161 | the words of a tag act one after the other |
| `MarkupMeaning.TagSplits` | src/ansi_colorizer.rs:134-161 | one tag with two attribute lists means two nested tags |
| `MarkupMeaning.ColorizePreservesMeaning` | src/ansi_colorizer.rs:167-216 | for every text without ESC the terminal shows each visible character in the style of its enclosing spans and ends in the default style |
| `MarkupMeaning.DecolorizeGivesVisible` | src/ansi_colorizer.rs:22-24 | stripping the output leaves exactly the visible text |
| `MarkupWriter.EscapeIsText` | src/ansi_colorizer.rs:18-20 | escaped text stays text whatever follows |
| `MarkupWriter.EscapeRoundTrip` | src/ansi_colorizer.rs:18-20 | compiling an escaped string gives the string, for every string |
| `MarkupWriter.DocumentRoundTrip` | src/ansi_colorizer.rs:72-161 | every document of text, spans and closes can be written as markup that reads back as itself |
| `MarkupWriter.WordCodes` | src/ansi_colorizer.rs:72-124 | the rendition codes of the attribute words and of the colour names, in front and behind |
| `MarkupWriter.OnMeansBehind` | src/ansi_colorizer.rs:147-159 | a colour alone sets the text colour, after `on` the background |
| `MarkupWriter.GrayIsBrightBlack` | src/ansi_colorizer.rs:102-106 | `gray` and `grey` read as `bright-black` anywhere in a tag |
| `MarkupWriter.PassesThrough` | src/ansi_colorizer.rs:353-359 | a text compiles to itself if and only if it has no doubled bracket and no tag |
| `MarkupWriter.OutputCanChangeAgain` | src/ansi_colorizer.rs:353-359 | an output that a second compilation changes |
| `MarkupStable.OutputStableIff` | src/ansi_colorizer.rs:353-359 | compiling the output of a text again changes nothing if and only if in the text no text bracket is followed by another or starts a tag within its run of text |
| `IntOps.OverflowBySign` | src/devirt_ops.rs:45-47 | a sum or difference is the wrapped two's-complement value, and overflows exactly when the signs show that it wrapped |
| `IntOps.MulFitsIffDivides` | src/devirt_ops.rs:45-67 | the product is v if and only if v fits and dividing v by one factor gives the other with remainder 0 |
| `IntOps.ComparisonsMean` | src/devirt_ops.rs:68-73 | less holds if and only if a positive number makes up the difference, exactly one of less, equal and greater holds, the others are negations, and an exact difference has the sign they say |
| `IntOps.DivExact` | src/devirt_ops.rs:49-61 | division gives q if and only if q fits and some remainder makes it the division of a by b; it overflows only for the minimum by -1 |
| `IntOps.ModExact` | src/devirt_ops.rs:62-67 | the remainder likewise, and it never overflows |
| `IntOps.DivModLaw` | src/devirt_ops.rs:49-67 | both succeed with q and r if and only if a = q*b + r with r smaller than b and of a's sign |
| `IntOps.DivUndoesMul` | src/devirt_ops.rs:45-67 | dividing an exact product by a factor gives the other, with remainder 0 |

## Left out

- Premise of the cache theorems: a heap change either keeps all named classes, their tables and what type hints match, or invalidates; only eigenclasses are collected; parent chains end; `type_name` is a function of kind and class; lookups nest.
- Score sums are unbounded integers; an i64 overflow of a score is not modelled.
- Method chains are sequences of variants, and namespaced names are compared as rendered.
- `Callable::call`, native and extension invocation, error texts and candidate formatting (src/dispatch.rs:101-348, 809-1030).
- `ClassTable::insert` and the `add_` methods: the table is a given map.
- The live scheduler loop is modelled on values; only the replaying loop is also given over mutable state.
- ClassTables.DistanceImpliesSubtype: covers acceptance by walking classes and hints other than aliases; ClassTables.DenialIff is exact for all hints.
- ClassTables.DeniedIsAlias: takes the class of the value as the checker's subtype, for class values the class itself; which static type the checker gives such an expression is not part of this model.
- DispatchGlobals.BindSafeIff: assumes that nothing inherits from an eigenclass or mixes one in.
- DispatchMeaning.FitMeans: assumes that the parent chains of the arguments' classes end; on a cycle the source's loop does not.
- DispatchVm.Vm.Lookup: methods are never collected; says nothing about which method is found when a guard redefines methods, parents or mixins during the walk or moves an argument to an eigenclass, beyond its being live.
- ReplayProof.ReplayFollows: assumes equal payload hashes mean equal payloads and, under stress, that picking among several queue entries of one task leaves what picking the first of them leaves; states after the log is spent are outside the claim.
- ReplayCompletes.ReplayReachesEnd: also assumes that no operation is in flight twice.
- Fairness.PickedInTurn: assumes that the VM only appends to the queue.
- Conservation.TasksConserved: covers I/O parks, yields and rotations, not joins, gathers and timers.
- Signals, debugger front ends and retranslation in the driver loop; the deadline, spawn and cancel procedures of the VM are part of the opaque step.
- Wake-log environment variables, the ring dump and the hash function itself.
- Process-tree requests whose requester has stopped listening count as answered.
- Real sockets, TLS, files and codecs; a finish that is cancelled while it writes the trailer; ids are unbounded where the source has 64-bit counters.
- Terminals that treat single and double underline, or the two blink rates, as exclusive: ECMA-48 lets attributes accumulate. On an exclusive one a close restores flags in first-seen order and may pick the other variant.
- HandleTables.NoAliasing: holds while the table has at most 2^32 slots, where the source's 32-bit index is exact.
- The attribute strings of the value printer (src/ansi_colorizer.rs:218-270), double arithmetic, list accessors and the pin table: easy members.
