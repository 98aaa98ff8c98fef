# ScaleLockDep: a verified model

ScaleLockDep interposes on `pthread_mutex_lock`, `trylock` and `unlock` and looks for two things: lock orders
that could deadlock (a cycle among all (held, new) lock pairs ever observed) and threads that are about to
deadlock now (a cycle of threads each waiting for a lock the next one owns). This project models the code that
decides, in `lockdep/`, and proves what it promises. The numbers of locks, threads, words and ring slots are
parameters everywhere.

## What is proved

**Potential deadlocks, one graph.** `Digraph` holds the specification: a set of pairs and whether it is cyclic.
`PathSearch` is the recursive search with its shared `visited` array and the reconstruction of the chain.
`GlobalBackend` is the synchronous graph (byte matrix, predecessor bits, sites, reports). `RbGraph` is the
worker's graph (adjacency, predecessor and snapshot bits, transitive closure updated in place), `RbDrain` the
batch drain against the plain loop that inserts event after event, `RbFrontEnd` the application thread's half and
the comparison of the two backends. `Words` and `Matrices` give the C bit operators their meaning, digit by
digit, on numbers below 2^64.

**Potential deadlocks, all interleavings.** `GlobalMachine` and `Pipeline` are step machines in which every atomic
access is one step: the synchronous backend with its unlocked skip test, and the asynchronous one with producers,
snapshot, rings, lazy worker start, pending flag, semaphore, drain and shutdown. `PipelineFlow` proves that no pair
is lost or invented at any step and that the backends end with the same graph and verdict; `PipelineWake` that no
wakeup is lost; `PipelineStop` that shutdown drains; `PipelineStart` that the worker is created once;
`PipelineRoom` that no ring overflows; `PipelineRest` that the worker comes to rest; `PipelineEnds` that no reachable
state is a dead end, shutdown included; `PipelineSkip` that what the snapshot shows is not offered again; `PipelineLog`
that the report log is that of inserting the recorded pairs one by one. `PipelineAcquire` and `PipelineAlone` say what one
acquisition and one round of the worker do when nobody else moves. `TraceReplay` says what traces mean, by replaying them
through the held state and the synchronous graph. `DrainRefinement` ties the drain on arrays to the machine's drain. `SpscRing` is
the ring itself with wrapping 32-bit counters, at the grain of single field copies.

**Actual deadlocks.** `WaitMachine` separates the real mutex from the bookkeeping and interleaves all of it.
`WaitDetect` and `WaitOutcome` prove completeness: a wait cycle cannot be left, its last announcer walks exactly
that cycle and ends the process within a fixed number of its own steps, and no run ever contains a silent
deadlock. `WaitAlone` says what one call does when its thread
runs alone. `WaitSound` says what a report means, `WaitReread` how it could be confirmed. `WaitWalk` is the walk on
fields that stand still.

**Thread state and registries.** `HeldState` (held stack, reference counts, bits), `SlotRegistry` (address and thread
registries, TLS cache).

## Where the code does less than its documentation says

- README.md:237 and lockdep/README.md:51 call actual-deadlock detection exact. It never misses (`WaitOutcome`), but
  it can report a chain that was never true at once, because the walk loads one field at a time:
  `WaitFalseReport.ReportCanBeFalse` is a 16-step run of two threads that ends the process while the lock in
  question is free. A chain is real exactly when all its fields agree at one moment
  (`WaitSound.ReportIsRealIffFieldsAgree`), but no single load can see that. `WaitReread` gives a condition that single
  loads can decide before the process is ended, while all other threads go on: read the chain again from its last
  link back to its first, the owner and then the announcement of each. The reading thread itself holds the last lock,
  so each confirmed link is frozen by the one confirmed before. If the chain was real when the walk closed, every
  load confirms it; if every load confirms it, it is real (`BackwardRereadIsExact`); and no deadlock is lost by
  asking (`RereadKeepsDetection`). The code does not read again and is modelled as it is.
- lockdep/README.md:35 offers the ring capacity as a free build setting and nothing checks it, but the ring relies on
  a capacity that divides 2^32 and is smaller. With one that does not divide it, two counters less than a capacity
  apart share a slot when the counters wrap (`RingArithmetic.LiveSlotsDifferIffDivides`); at 2^32 itself the 32-bit
  difference is always below the capacity, so the ring never looks full. The default 4096 is fine.

## Assumptions

Atomic accesses are sequentially consistent steps. Mutexes are normal ones in the ownership and wait-chain parts
(recursive holds are covered in the held-state and potential-deadlock parts), only the holder unlocks, and the real
lock call does not fail. Mutex addresses are not null. Capacity limits at which the source panics are
preconditions. Shutdown is called at most once and the worker is not started again after it.

## Model

| member | source | states |
|---|---|---|
| Digraph.AddEdgeClosure | lockdep/potential.c:323-342 | after adding u->v to any graph, cyclic or not, s reaches t iff it did before or s is or reaches u and t is or is reached from v |
| Digraph.ClosureStepIsExact | lockdep/potential.c:323-342 | the row update turns the exact transitive closure of a graph into that of the graph with the new edge |
| Digraph.AddEdgeCyclic | lockdep/potential.c:271-276 | a new edge makes the graph cyclic iff it already was or its target already reached its source |
| Digraph.AcyclicIffRanked | lockdep/graph.c:95-143 | no cycle iff some ranking of the locks increases along every recorded edge |
| Digraph.ReportedIffCyclic | lockdep/graph.c:95-143 | over any sequence of insertions at least one edge is reported iff the resulting graph is cyclic |
| Digraph.VerdictIgnoresOrder | lockdep/potential.c:363-390 | insertion sequences with the same edges, in any order and with repetitions, give the same graph and verdict |
| PathSearch.FindPath | lockdep/graph.c:45-70 | the shared-visited search finds a simple recorded path linked by parent pointers, or leaves a set of rejected slots closed under edges without the target |
| PathSearch.ClosedSetTraps | lockdep/potential.c:243-269 | a walk that starts in a set closed under edges ends in it, so a failed search means the target is unreachable |
| PathSearch.ExistingChain | lockdep/potential.c:299-312 | following parents back and reversing yields exactly the path found; the array length guard never cuts it |
| PathSearch.FindExistingChain | lockdep/graph.c:95-135 | found iff `to` reaches `from`; then the chain is a simple path of recorded edges from `to` to `from` that fits the arrays |
| Reports.ChainInfos | lockdep/potential.c:310-312 | the site listed for each edge of the chain is the one recorded for that edge |
| GlobalBackend.GlobalGraph.constructor | lockdep/graph.c:76-155 | the empty graph is valid and has no report |
| GlobalBackend.GlobalGraph.HasUnknownPredecessor | lockdep/graph.c:22-38 | yes iff some (held, new) pair of the acquisition is not recorded |
| GlobalBackend.GlobalGraph.AddEdgeAndCheckCycle | lockdep/graph.c:76-155 | records the pair with its site if new; one more report iff it is new and closes a cycle, and that report witnesses the cycle with the recorded sites; reported iff cyclic is kept |
| GlobalBackend.GlobalGraph.CheckCycle | lockdep/graph.c:95-135 | finds a chain iff the target reaches the source, and then the report is a witness |
| GlobalBackend.GlobalGraph.AddHeldEdges | lockdep/potential.c:80-90 | records every pair of the held stack with the new lock, first site kept; the report log is that of inserting them oldest first |
| GlobalBackend.GlobalGraph.OnAcquire | lockdep/potential.c:530-545 | with the skip test graph, sites and report log are still those of inserting every pair of the acquisition; when all are known nothing is written |
| GlobalBackend.LearnAllPairs | lockdep/potential.c:80-90 | recording held lock after held lock adds exactly the pairs of the acquisition, and nothing when all are known |
| Words.OrWord | lockdep/potential.c:66-68 | a bit of the result is set iff it is set in either word |
| Words.AndNotWord | lockdep/potential.c:104-108 | a bit of the result is set iff it is set in the first word and clear in the second |
| Words.MaskWord | lockdep/potential.c:57-59 | exactly the named bit is set |
| Words.ClearLowest | lockdep/potential.c:371-388 | ctz names the lowest set bit, and `bits & (bits - 1)` clears that bit and no other |
| Words.DropLowestWord | lockdep/potential.c:388-388 | the loop step removes exactly the lowest bit and makes the word smaller |
| Words.SameSlotsSameWords | lockdep/potential.c:53-68 | bitsets that stand for the same slots are equal word for word |
| Words.HasAnyBits | lockdep/potential.c:70-78 | yes iff the bitset stands for a non-empty set of slots |
| Matrices.SetBit | lockdep/potential.c:66-68 | the matrix then mirrors the old pairs and the new one, no other bit touched |
| Matrices.MirrorsDetermines | lockdep/potential.c:344-361 | the pairs determine every word of a bit matrix |
| RbGraph.WorkerGraph.RegisterSlot | lockdep/state.c:105-136 | a newly registered lock leaves all four matrices, the closure included, exact for the larger slot count |
| RbGraph.WorkerGraph.ReportCycleIfAny | lockdep/potential.c:271-321 | one more report iff `to` already reaches `from`; the report witnesses the cycle, so the early returns after the reachability test are never taken |
| RbGraph.WorkerGraph.UpdateReachability | lockdep/potential.c:323-342 | the in-place row update changes the mirrored relation by exactly one closure step |
| RbGraph.WorkerGraph.AddEdgeIfNew | lockdep/potential.c:344-361 | adjacency, predecessors, snapshot, exact closure and sites agree again with the old pairs plus the new one; report log exact |
| RbGraph.WorkerGraph.ProcessEdgeBits | lockdep/potential.c:363-390 | records each source bit whose edge is unknown, in ascending order and exactly once; without a site table neither thread nor call site is recorded or reported; graph and report log are those of inserting them in that order |
| RbGraph.SourcesInExact | lockdep/potential.c:371-388 | the ctz loop over one word meets exactly the slots of its set bits, ascending |
| RbGraph.WorkerGraph.ReportedIffDiagonalBit | lockdep/potential.c:271-276 | some cycle was reported iff some diagonal reachability bit is set |
| RbGraph.SamePairsSameMatrices | lockdep/potential.c:344-361 | two worker graphs with the same pairs are equal in every word of all four matrices and in the verdict, however they came by the pairs |
| RbDrain.ApplyAllIsFirstCarrier | lockdep/potential.c:363-390 | inserting events one at a time adds exactly the carried pairs, each with the site of the first event that carried it |
| RbDrain.PendingTable.FoldWord | lockdep/potential.c:419-445 | one event word: sites are noted for just the sources not pending before and with a call site, then the bits are merged |
| RbDrain.PendingTable.NoteSites | lockdep/potential.c:427-441 | exactly the sites of the word's set bits are overwritten |
| RbDrain.PendingTable.Touch | lockdep/potential.c:414-417 | the list of touched targets names each once, in the order of first touch, and cannot overflow |
| RbDrain.PendingTable.Fold | lockdep/potential.c:405-446 | after folding an event the pending bits, target list and sites describe exactly the events dequeued so far |
| RbDrain.DrainEqualsOneAtATime | lockdep/potential.c:448-452 | inserting each touched target once leaves the graph of inserting event after event, sites included, if every call site is set |
| RbDrain.DrainShowsFirstCarriers | lockdep/log.c:181-192 | whether all events have call sites or none has, the report prints for each pair what one-at-a-time insertion would print |
| RbDrain.Worker.constructor | lockdep/potential.c:33-34 | the drain starts with an empty graph, empty rings and a zero site table |
| RbDrain.Worker.Collect | lockdep/potential.c:400-446 | dequeues every ring empty in slot order and folds all of it |
| RbDrain.Worker.InsertPending | lockdep/potential.c:448-452 | the carried pairs of the touched targets are in the graph, each with the site a drain attributes; graph and log are those of the insertions listed, which come in the order of first touch and then of ascending source |
| RbDrain.Worker.DrainOnce | lockdep/potential.c:392-455 | progress iff something was queued; rings empty after; same pairs as one at a time, same sites when all events have call sites, same printed sites also when none has; every attributed site and the site table exactly; earlier reports survive and there is one more for each insertion that closed a cycle, with the site recorded for its pair; insertions in order of first touch, then ascending source; without site reporting no thread or call site is recorded or printed |
| RbFrontEnd.CollectUnknownPredecessors | lockdep/potential.c:92-111 | whatever the word loads return, the unknown set is the held locks other than the new one whose bit was not loaded; yes iff there is one |
| RbFrontEnd.SnapshotWord | lockdep/potential.c:100-103 | a loaded snapshot word holds the recorded predecessors in its range |
| RbFrontEnd.WordsLoadedSeparately | lockdep/potential.c:100-103 | words loaded at different moments of a growing graph show recorded pairs only |
| RbFrontEnd.OnAcquire | lockdep/potential.c:547-557 | no event iff no unknown bit; either way the graph and sites after inserting it are those of the synchronous backend |
| RbFrontEnd.OfferEqualsSynchronous | lockdep/potential.c:92-111 | however much the graph grew since the snapshot was read, inserting the event has the effect of recording every pair; range filters discard nothing |
| RbFrontEnd.SamePairsSameVerdict | lockdep/potential.c:530-562 | the two backends over the same pairs hold the same matrix, the same predecessor words and the same verdict |
| TraceReplay.Replay | lockdep/potential.c:530-545 | replaying a trace through the held state and the synchronous graph leaves exactly the trace's held locks held and adds exactly its observed pairs |
| TraceReplay.HeldAfterAcquire | lockdep/state.c:154-161 | the acquired lock is held on top of what was held |
| TraceReplay.HeldAfterRelease | lockdep/state.c:167-192 | a release takes out the topmost occurrence of its lock, one in multiplicity, and keeps the order of the rest |
| TraceReplay.ObservedIff | lockdep/potential.c:80-90 | a pair is observed iff some acquisition of its second lock happened while the first, different, was held |
| Traces.InsertSeqLaws | lockdep/graph.c:95-143 | inserting pairs in order gives as many reports as insertions that find their target reaching their source, each for such a pair |
| Traces.AddEdgeIsInsert | lockdep/potential.c:344-361 | what both backends promise for one edge is one abstract insertion with its report |
| Reports.LogsSeqCount | lockdep/graph.c:95-143 | over a sequence of insertions earlier reports survive and there are exactly as many new ones as insertions that close a cycle |
| DrainRefinement.DrainedPairsAreQueued | lockdep/potential.c:392-455 | inserting a queue of events adds exactly the pairs the step machine sees in that queue |
| DrainRefinement.PerformsIsInsertSeq | lockdep/potential.c:363-390 | a sequence of concrete insertions with its reports is the same sequence of the machine's insertions |
| DrainRefinement.DrainIsMachineDrain | lockdep/potential.c:392-455 | what a drain promises on arrays is, for the machine, inserting exactly the pairs of the queued events, with the verdict kept exact |
| Traces.InsertKeepsExact | lockdep/graph.c:95-143 | an insertion keeps "reported iff cyclic" |
| GlobalMachine.SynchronousIsExact | lockdep/graph.c:22-155 | in every interleaving, once idle, the synchronous graph is the set of observed pairs and reported iff it is cyclic |
| GlobalMachine.SynchronousLogIsExact | lockdep/graph.c:95-143 | in every reachable state graph and log are those of inserting the recorded pairs one after the other, each once |
| GlobalMachine.KnownAcquisitionOnlyTests | lockdep/graph.c:22-38 | an acquisition whose pairs are all recorded when its test begins never gets to the insertions |
| GlobalMachine.AcquireAlone | lockdep/potential.c:80-90 | an acquisition that runs alone leaves graph and log of inserting its pairs in the order of the held stack |
| PipelineSkip.KnownPairsAreRemoved | lockdep/potential.c:100-105 | over any run, what an acquisition still means to offer has no pair of a loaded word that the snapshot had when its loads began |
| PipelineSkip.KnownAcquisitionIsSkipped | lockdep/potential.c:551-555 | an acquisition whose pairs the snapshot all had stays at its loads, touches neither rings, dropped pairs, flag nor semaphore, and ends only by returning |
| PipelineLog.WorkerLogIsExact | lockdep/potential.c:271-361 | in every reachable state the worker's graph and log are those of inserting the recorded pairs one after the other, each once, so every logged pair closes a cycle and they are counted exactly |
| PipelineAcquire.SkipTestAlone | lockdep/potential.c:92-111 | alone, the loads leave exactly the held locks whose pair the snapshot lacks; none means return |
| PipelineAcquire.EnsureAlone | lockdep/potential.c:113-146 | alone, an unstarted worker is started with a fresh semaphore and both flags down, a started one is left alone |
| PipelineAcquire.FullRingAlone | lockdep/potential.c:201-213 | a full ring makes the producer signal and then drop, or under stall test again |
| PipelineAcquire.AcquireAlone | lockdep/potential.c:530-562 | alone, an acquisition with a missing pair and room adds one event with exactly the missing predecessors and signals the worker; nothing else changes |
| PipelineAlone.DrainAlone | lockdep/potential.c:392-455 | alone, one drain moves everything queued into graph and snapshot and leads on by whether it found anything and whether the flag was already cleared |
| PipelineAlone.RoundAlone | lockdep/potential.c:471-501 | alone, a round of the worker inserts everything queued, clears the flag and sleeps, or exits if the stop flag is set |
| PipelineAlone.LateDrainAlone | lockdep/potential.c:483-486 | a drain after clearing the flag that finds something raises the flag again and starts over |
| Pipeline.InQueueEdges | lockdep/potential.c:363-390 | the pairs of a queue are its events' sources, each with its event's target, a lock with itself excluded |
| PipelineFlow.Conservation | lockdep/potential.c:195-227 | at every step of every interleaving the observed pairs are exactly those recorded, in the batch, in an event, in an unfinished acquisition or dropped; none is dropped under stall |
| PipelineFlow.GraphIsSound | lockdep/potential.c:344-361 | under either policy the graph contains observed pairs only, reported iff cyclic, and the snapshot lags by at most one pair |
| PipelineFlow.AsynchronousIsExact | lockdep/potential.c:392-501 | under stall, at rest, the asynchronous graph is the set of observed pairs and reported iff it is cyclic |
| PipelineFlow.BackendsAgree | lockdep/potential.c:530-562 | any asynchronous and any synchronous run over the same traces, at rest, have the same graph and the same verdict |
| PipelineFlow.MissingPairsAreOffered | lockdep/potential.c:92-111 | from its first snapshot load to its end, an acquisition keeps every pair of its own that the graph lacks ready to be offered, and nothing else |
| PipelineFlow.SkipOnlyWhenKnown | lockdep/potential.c:551-555 | an acquisition is skipped only when the graph has every one of its pairs |
| PipelineFlow.NoPairIsSkipped | lockdep/potential.c:195-227 | however an acquisition ends, all its pairs are in the graph, or the missing ones are all in the one event it published, or they are dropped, which takes the drop policy and a full ring; earlier drops play no part, so a dropped pair that is still missing is offered by the next acquisition that observes it |
| PipelineStart.WorkerStartsOnce | lockdep/potential.c:113-146 | one producer at a time is between winning the race and storing ready; nobody enqueues, signals or shuts down before the worker exists |
| PipelineRoom.RingsNeverOverflow | lockdep/potential.c:195-227 | no ring ever exceeds its capacity, and there is room at every publication |
| PipelineWake.NoLostWakeup | lockdep/potential.c:173-179 | while the worker sleeps on a zero semaphore, a queued event or a raised flag means some thread is about to post, or about to exchange a lowered flag |
| PipelineWake.WakerWakes | lockdep/potential.c:173-179 | a waker's move either posts or makes it the one that posts next; while the semaphore is 0 it brings the post strictly nearer |
| PipelineWake.SomeWakerRemains | lockdep/potential.c:173-179 | while the worker is blocked, no step of anybody leaves it without a waker or leads further from the post, although one producer may take over another's turn |
| PipelineWake.TwoWakerMovesSuffice | lockdep/potential.c:471-501 | over any run that starts with the worker blocked although there is work, two moves of wakers, at most one exchange and one post, make the semaphore positive |
| PipelineWake.WorkerCanWake | lockdep/potential.c:471-501 | from every reachable state where the worker is blocked although there is work, at most three further steps have it draining again |
| PipelineWake.NoStuckStall | lockdep/potential.c:201-213 | a producer stalled on a full ring before a sleeping worker is not alone: another thread is about to wake it |
| PipelineStop.ShutdownDrainsEverything | lockdep/potential.c:471-501 | when the worker has exited, every pair published before the stop flag was set is in the graph |
| PipelineStop.DueIsWhatWasPublished | lockdep/potential.c:511-519 | those pairs are the ones in rings, batch and graph at the moment the flag was stored |
| PipelineStop.PublishedIff | lockdep/potential.c:511-519 | published means recorded, in the batch, or in a ring |
| PipelineStop.ShutdownIsNotStuck | lockdep/potential.c:457-501 | after the stop post the worker sleeps only while another thread's wakeup is on its way |
| PipelineRest.WorkerWorks | lockdep/potential.c:392-501 | every worker step strictly lowers a bound made of semaphore, queued events, batch and place in the loop |
| PipelineRest.WorkerStopsWithinBound | lockdep/potential.c:471-501 | while nobody else moves the worker takes at most that many steps |
| PipelineRest.StoppedWorkerHasDrained | lockdep/potential.c:471-501 | a blocked worker with no acquisition unfinished has empty rings and an empty batch |
| PipelineRest.RestIsReachable | lockdep/potential.c:471-501 | from every reachable state with all acquisitions finished and no shutdown, worker steps alone lead to rest with the same traces |
| PipelineEnds.SomeStepLeadsOn | lockdep/potential.c:113-227 | before shutdown, an unfinished acquisition always leaves somebody a step that strictly shortens what is left: itself, the starting producer, the worker or a waker |
| PipelineEnds.QuiescenceIsReachable | lockdep/potential.c:195-501 | from every reachable state before shutdown some continuation with the same traces finishes all acquisitions and comes to rest |
| PipelineEnds.ShutdownReturns | lockdep/potential.c:511-528 | from every reachable state after the stop flag was set some continuation has the worker exit with everything inserted that was published before |
| RingArithmetic.LiveSlotsDifferIffDivides | lockdep/potential.c:215-215 | counters less than a capacity apart keep different slots across every wrap iff the capacity divides 2^32 |
| RingArithmetic.SlotSurvivesWrapIffDivides | lockdep/potential.c:215-215 | the slot of a wrapped counter is the slot of the true counter for all counters iff the capacity divides 2^32 |
| RingArithmetic.Sub32IsDistance | lockdep/potential.c:203-203 | 32-bit `tail - head` is the true distance |
| RingArithmetic.WrapSeparates | lockdep/potential.c:234-234 | wrapped counters are equal iff the true ones are |
| RingArithmetic.SlotsDiffer | lockdep/potential.c:215-215 | counters less than a capacity apart use different slots |
| SpscRing.Ring.TestFull | lockdep/potential.c:201-205 | full iff the queue holds capacity events |
| SpscRing.Ring.WriteField | lockdep/potential.c:215-221 | no slot of an unconsumed event changes |
| SpscRing.Ring.Publish | lockdep/potential.c:223-223 | the written event joins the queue at its end |
| SpscRing.Ring.TestEmpty | lockdep/potential.c:230-236 | empty iff the queue is |
| SpscRing.Ring.Advance | lockdep/potential.c:238-239 | the copied event is the front of the queue, whole, and leaves it |
| SpscRing.Ring.TryEnqueue | lockdep/potential.c:201-223 | appends iff there is room |
| SpscRing.Ring.TryDequeue | lockdep/potential.c:229-241 | removes and returns the front iff there is one |
| WaitMachine.StepKeepsLedger | lockdep/hook.c:83-196 | every step of every thread keeps the correspondence of owner, waiting, held sets and real holders |
| WaitMachine.DisownKeepsLedger | lockdep/core.c:177-185 | a late compare-and-swap never erases the next holder |
| WaitMachine.OwnKeepsLedger | lockdep/core.c:155-158 | storing the owner keeps that correspondence although the previous holder may still be on its way out |
| WaitMachine.OwnerIsExact | lockdep/core.c:155-185 | in every reachable state the holder that has stored itself is the recorded owner; otherwise the owner is nobody or a thread between its unlock and its compare-and-swap |
| WaitAlone.FirstLockAlone | lockdep/hook.c:91-102 | alone, a thread without locks that finds the lock free ends as its holder and recorded owner; nothing else changes |
| WaitAlone.NestedLockAlone | lockdep/hook.c:104-132 | alone, the same for a nested lock, with the announcement withdrawn if there was one |
| WaitAlone.UnlockAlone | lockdep/hook.c:142-164 | alone, an unlock frees the lock and takes back the ownership |
| WaitAlone.WalkAlone | lockdep/core.c:29-68 | alone, the walk reports iff the chain of the fields comes back to the thread, with exactly that chain, and else goes into the real lock |
| WaitAlone.BusyLockAlone | lockdep/core.c:75-103 | alone, a nested lock on a held mutex announces it and then walks the chain that includes this announcement |
| WaitDetect.WalkerStaysOnCourse | lockdep/core.c:29-68 | a load of the last announcer records the next link of the cycle, or closes the chain on exactly the cycle |
| WaitDetect.RunKeepsDetects | lockdep/core.c:75-103 | in every reachable state the last announcer of every wait cycle is in its walk, along that cycle |
| WaitOutcome.CycleIsFrozen | lockdep/hook.c:83-132 | no step of any thread changes a wait cycle, who announced last, or what its members want |
| WaitOutcome.DetectionIsInevitable | lockdep/core.c:29-103 | from a wait cycle on, the cycle stays, the last announcer takes fewer than twice its length many steps, each one load further, and if it ends the process it reports exactly the cycle |
| WaitOutcome.WalkerCanStep | lockdep/core.c:29-68 | the last announcer always has a next step |
| WaitOutcome.SomeoneIsWalking | lockdep/core.c:75-103 | every wait cycle in a live state has a member walking along it |
| WaitOutcome.NoSilentDeadlock | lockdep/hook.c:91-132 | no reachable live state has a ring of threads parked in the real lock behind one another, first-lock takers included |
| WaitSound.FieldsMeanReal | lockdep/core.c:145-158 | in reachable states the fields agree along a closed chain iff each thread has announced its lock and the next really holds it |
| WaitSound.WalkReadsItsChain | lockdep/core.c:29-68 | every entry of a walk's chain was the content of its field at some moment of that walk |
| WaitSound.EveryExitReports | lockdep/hook.c:117-120 | the process ends only with a closed chain that starts at the thread that took the last step |
| WaitSound.ReportIsRealIffFieldsAgree | lockdep/core.c:29-103 | a report is a real circular wait iff the fields along the chain still read the same |
| WaitSound.StableWalkIsSound | lockdep/core.c:29-68 | if owner and waiting fields along the chain stood still during the walk, the report is a real circular wait |
| WaitReread.TailIsFrozen | lockdep/core.c:29-68 | the real end of a closed chain survives every step of every other thread |
| WaitReread.TwoLoadsDecideOneLink | lockdep/core.c:41-64 | with the later links real, loading owner and then announcement confirms one more link iff it is real |
| WaitReread.RereadPassesIffTailsReal | lockdep/core.c:41-64 | a backward reading, one load at a time among running threads, confirms every link iff at each announcement load the chain is real from there on |
| WaitReread.BackwardRereadIsExact | lockdep/hook.c:117-120 | for every reachable report and every continuation of the other threads: real when the walk closed implies confirmed, confirmed implies real, then and for as long as the reporting thread stands there |
| WaitReread.RereadKeepsDetection | lockdep/hook.c:117-120 | the last announcer of a wait cycle reports exactly that cycle, and the backward reading confirms it |
| WaitFalseReport.ReportCanBeFalse | lockdep/core.c:41-64 | a concrete run ends with a report that is no circular wait, the lock in question being free |
| WaitWalk.CollectChain | lockdep/core.c:29-68 | on fields that stand still: yes iff following owner then waiting ever meets the caller; both arrays hold exactly the chain, up to its first return to the caller or its end, and stay in bounds |
| WaitWalk.BoundSuffices | lockdep/core.c:41-41 | a chain that has not closed after as many steps as there are threads never will |
| WaitWalk.LoopMeetsNobodyNew | lockdep/core.c:41-64 | a chain that runs into a loop elsewhere meets no further thread |
| HeldStack.RemoveTopDeletesLast | lockdep/state.c:167-192 | the last occurrence goes and the rest keeps its order |
| HeldStack.ReleaseUndoesAcquire | lockdep/state.c:154-192 | releasing undoes the matching acquisition also when others came in between |
| HeldStack.RemoveTopMultiset | lockdep/state.c:167-192 | one occurrence fewer of the lock, if there is one, and no other change of multiplicity |
| HeldState.ThreadState.NoteHolds | lockdep/lockdep.h:205-214 | counts stay multiplicities and bits stay "count positive" with one more hold |
| HeldState.ThreadState.NoteReleases | lockdep/lockdep.h:216-229 | the same with one hold fewer |
| HeldState.ThreadState.Acquire | lockdep/core.c:129-144 | the stack gains the lock on top; counts and bits follow |
| HeldState.ThreadState.Push | lockdep/state.c:154-161 | the stack gains the lock on top |
| HeldState.ThreadState.Remove | lockdep/state.c:167-192 | the topmost occurrence goes; an unknown lock changes nothing |
| HeldState.ThreadState.Release | lockdep/lockdep.h:267-291 | all three release paths have the effect of removing the topmost occurrence |
| HeldState.ThreadState.BitsAreHeldLocks | lockdep/potential.c:104-108 | in ring-buffer mode the bitset read by the skip test is the set of held locks |
| SlotRegistry.SlotTable.Lookup | lockdep/state.c:70-85 | the slot of the key, if it has one |
| SlotRegistry.SlotTable.LookupOrCreate | lockdep/state.c:105-136 | entries unchanged or extended by the key; keys stay distinct; the result is the key's slot |
| SlotRegistry.SlotOfIsStable | lockdep/state.c:105-136 | a slot once given is the key's slot for ever |
| SlotRegistry.SlotOfIsInjective | lockdep/state.c:198-236 | different keys never share a slot |
| SlotRegistry.SlotCache.AgreesForever | lockdep/state.c:41-46 | growth of the registry never invalidates a cache |
| SlotRegistry.SlotCache.Lookup | lockdep/lockdep.h:231-241 | the cached lookup returns what the uncached one would and remembers it, touching no other entry |
| SlotRegistry.SlotCache.LookupOrCreate | lockdep/lockdep.h:243-251 | the cached lookup returns the key's slot and leaves the registry as the uncached one would |
| SlotRegistry.SlotCache.EntriesAreGranules | lockdep/state.c:24-28 | addresses within eight bytes share a cache entry, the next eight bytes use the next one |
| SlotRegistry.SlotCache.TopOfStackAgrees | lockdep/core.c:3-18 | the top-of-stack shortcut answers iff the registry would give that slot |

## Left out

- Weak-memory effects: every atomic access is one sequentially consistent step. `NoLostWakeup` depends on it in particular: the worker clears the pending flag with a release store and then loads the ring tails (lockdep/potential.c:481-483), which weaker hardware may reorder.
- Liveness under a scheduler: what is bounded is the number of moves of the threads that matter (`TwoWakerMovesSuffice`, `WorkerStopsWithinBound`, `DetectionIsInevitable`); that the scheduler lets them move is not modelled.
- Printing, symbol lookup and report text (lockdep/log.c): a report is a record in a log; the synchronous backend prints after it leaves the metadata lock, so lines of different threads may appear in another order.
- `dlsym` interposition, environment parsing, the recursion guard, internal-thread flags, constructor and destructor.
- Edge, cycle and dropped-event counters.
- `waiting_on_pc` and `owner_acquire_pc`, the sites printed with an actual deadlock.
- The failure path of the blocking lock call (`lockdep_cancel_wait`), and `pthread_cond_wait`, which is not intercepted.
- Recursive and error-checking mutexes in the ownership and wait-chain parts.
- Kernel reuse of thread ids, and panics at capacity limits.
- Restarting the worker after shutdown, and an enqueue that races with the destruction of the semaphore.
- Rings inside `Pipeline` and `RbDrain.Worker` are the queues that `SpscRing.Ring` is proved to implement; there each publication and each removal is one step.
- The machines (`GlobalMachine`, `Pipeline`, `WaitMachine`) are relations on values, because their steps belong to different threads; the same code in sequential form is `GlobalBackend`, `RbGraph`, `RbDrain`, `HeldState` and `WaitWalk`, on arrays and objects.
- RbFrontEnd.OnAcquire: stops before the worker start and the enqueue, which are in `Pipeline` and `SpscRing`.
- RbDrain.Worker.Collect: nothing is published while the rings are emptied; concurrent publication is in `Pipeline`.
- RbDrain.Worker.DrainOnce: nothing is published during a drain; concurrent publication is in `Pipeline`.
- SpscRing.Ring.TryEnqueue: one attempt; the stall loop, the drop branch and the signal around it are in `Pipeline`.
- GlobalMachine.SynchronousIsExact: matrix and predecessor bit change in one step; in lockdep/graph.c:135-140 the bit follows the matrix store, and a skip test in between only costs a search for an edge that is already there.
- WaitWalk.CollectChain: the fields do not move during the walk; moving fields are in `WaitMachine`.
- SlotRegistry.SlotTable.LookupOrCreate: runs as one operation, since the source holds the metadata lock throughout.
