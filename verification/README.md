# Verification of the concurrency and resource logic of linuxviewer

This project models the parts of the Vulkan engine whose correctness does not follow from reading one function, and
proves properties of them in Dafny. `dafny verify dfyconfig.toml` checks everything.

| file | what it models |
|---|---|
| `QueueRequests.dfy`, `QueueSearch.dfy` | the list of queue requests, and the pruned search for the configuration of minimum penalty that hands out the queues of a device |
| `QueueAllocation.dfy`, `QueueAcquire.dfy` | the index ranges of the replies, the choice of a reply, and the lock-free handing out of queues |
| `SpecialCircumstances.dfy`, `RenderLoop.dfy` | the flag bits, and the protocol between render loop, X event thread, threads that add synchronous tasks, and the frame limiter |
| `SemaphoreWatcher.dfy`, `WatcherTask.dfy` | the watcher of timeline semaphores: two parallel vectors with swap-removal that refine a map, and the stateful task that runs it, with its timer |
| `LayoutOrder.dfy`, `SetLayoutBindings.dfy` | the order of bindings that ignores binding numbers, and sorted insertion into two parallel vectors |
| `CacheProtocol.dfy`, `BindingNumbers.dfy`, `LayoutCache.dfy`, `PipelineLayout.dfy` | the cache protocol with read-to-write lock upgrade, its use for descriptor set layouts, and the translation of set indexes for pipeline layouts |
| `DescriptorSets.dfy` | allocation, regrouping and transposition of descriptor sets |
| `Swapchain.dfy`, `DelayedDestruction.dfy`, `DestructionDelay.dfy` | the rotation of semaphores through the swapchain, the ring that delays their destruction, and whether the delay is long enough |
| `PipelineCacheMerge.dfy` | the merging of pipeline caches of factories that run at the same time |
| `Uri.dfy` | the URI decoder and percent-decoding, against the composition of section 5.3 of RFC 3986 |
| `Options.dfy` | optional values |

Code that changes things in place is modelled by classes and methods with the loops of the source, and every such
method is proved against a function or predicate that does not know about indexes and cursors. Protocols between threads
are state machines: a step is one atomic operation or one critical section, and the results hold for every sequence of
steps. A C++ assertion is a precondition where it is a demand on the caller, and something to prove where it is a claim.

## What was found

These are proved, with the exact condition where there is one.

- `is_compatible_with` returns true without defining the replies when every request matches a family but the requests can
  not be served with one queue each (`QueueSearch.IsCompatibleWith`, `QueueSearch.CompatibleWithoutReplies`), which is the
  exact condition as long as priorities are not astronomical (`QueueSearch.FoundExactly`). With priorities that make every
  configuration cost the largest float or more it also does so (`QueueSearch.AstronomicalPriority`).
- The assertion `R <= R0` in the penalty of a combined request can fail (`QueueSearch.CombinedRequestMayAskForMore`), under
  the condition of `QueueSearch.AssertionFailsExactly` and `QueueSearch.AssertionFailsForRequests`;
  the search is proved optimal without it.
- The cache of descriptor set layouts ignores binding flags, which goes well exactly for requests whose flags follow from
  their bindings (`LayoutCache.OwnFlagsExactly`).
- The comment above `realize_pipeline_layout` says that binding numbers are ignored when pipeline layouts are compared;
  `SetLayoutCompare` compares them (`PipelineLayout.SetLayoutTies`). The model follows the code. Because of that the copying
  of binding numbers on a hit changes nothing (`PipelineLayout.RealizePipelineLayout`).
- The cache of pipeline layouts can return a layout that was created for other push constant ranges, because ranges with a
  common stage compare equal (`PipelineLayout.PushConstantsMayBeThoseOfAnother`, `PipelineLayout.OwnPushConstantsExactly`).
  That comparison is not an order on all sets of ranges (`PipelineLayout.PushOrderExactly`,
  `PipelineLayout.PushOrderOfOneStage`), and its assertion, which is meant for the ranges of one pipeline, can fail when the
  cache compares those of two (`PipelineLayout.AssertionFailsExactly`).
- With one frame resource, the check of `PipelineFactory` that a set is a frame resource fails
  (`DescriptorSets.FrameResourceAsAsked`), although the pipeline binds the right handles.
- A destruction that is delayed by more than 16 frames happens too early (`DelayedDestruction.StayIsDelay`).
- The rendering-finished semaphores of a dropped swapchain are kept for as many frames as it had images, up to 16. That is
  enough if and only if the swapchains that come after it have fewer images in total
  (`DestructionDelay.DelayIsEnoughExactly`); with as many images as before, a presentation can still be waiting for a
  semaphore that is destroyed (`DestructionDelay.SomeRunIsTooEarly`).
- The part of `pipeline_factory_done` after the unlock races with other completions and with factories that start
  (`PipelineCacheMerge.FinishBeforeSignalIsFatal`, `PipelineCacheMerge.CompleteBeforeFinishIsFatal`); the discipline that
  rules this out, and no more, is proved sufficient and necessary (`PipelineCacheMerge.DisciplineSuffices`,
  `PipelineCacheMerge.DisciplineIsNecessary`).
- `find_first_of` with "//" finds a single slash, so that a scheme followed by a path whose only slash is at its end throws
  (`Uri.OutOfRangeExactly`), and an absolute path without an authority loses its first segment (`Uri.FirstSegmentIsLost`); the
  path of a URI without an authority is given back exactly under the condition of `Uri.PathWithoutAuthority`. With "ssl=true" it
  finds any of the letters (`Uri.PostgresIsSecure`, `Uri.SslFalseIsSecure`).
- A question mark in a fragment without a query is taken for a query (`Uri.RoundTrip`), and the port of an ipv6 host is
  dropped (`Uri.PortRoundTrip`).

## Model

| member | source | states |
|---|---|---|
| `QueueRequests.DeviceCreateInfo.AddQueueRequest` | src/vulkan/infos/DeviceCreateInfo.h:50-57 | the request, which may already be combined with the one before it, is appended with priority 0 read as 1; the list stays well combined and its flags the union of the flags of its requests |
| `QueueRequests.DeviceCreateInfo.SetDefaultQueueRequests` | src/vulkan/infos/DeviceCreateInfo.h:86-92 | an empty list becomes the default list, whose second request is combined with the first, with priorities 1 |
| `QueueRequests.DeviceCreateInfo.CombineQueueRequest` | src/vulkan/infos/DeviceCreateInfo.h:59-73 | the request is appended, combined with the one before it, taking over the maximum and the priority of that one when its own are 0; the list stays well combined |
| `QueueSearch.MoreQueuesCostLess` | src/vulkan/LogicalDevice.cxx:218-221 | with a positive priority, more queues cost less if and only if the maximum is positive as an `int`; a maximum of 2^31 or more turns the penalty around |
| `QueueSearch.TakenGrows` | src/vulkan/LogicalDevice.cxx:196-202 | the queues of a family that the first requests take are at most those that all requests take |
| `QueueSearch.OversubscribedIsInfeasible` | src/vulkan/LogicalDevice.cxx:204-208 | the early break skips nothing: when handing out a number of queues takes more than the family has, every configuration that hands out that number or more is infeasible |
| `QueueSearch.CountSearched` | src/vulkan/LogicalDevice.cxx:164-184 | an iteration of a hand-out loop extends by one the counts below which all feasible configurations were considered |
| `QueueSearch.CountsExhausted` | src/vulkan/LogicalDevice.cxx:178-208 | when a hand-out loop ends, at its limit or by the early break, every feasible configuration of the unpruned set with this beginning was considered |
| `QueueSearch.CandidateSearched` | src/vulkan/LogicalDevice.cxx:149-157 | an iteration of a family loop extends by one the candidates for which all feasible configurations were considered |
| `QueueSearch.CandidatesExhausted` | src/vulkan/LogicalDevice.cxx:149-157 | when a family loop ends, all feasible configurations with this beginning were considered |
| `QueueSearch.Search.HandedOutFrom` | src/vulkan/LogicalDevice.cxx:196-202 | the inner sum counts exactly the queues of the family that the requests so far take |
| `QueueSearch.Search.CalculatePenalty` | src/vulkan/LogicalDevice.cxx:212-234 | the loop computes the sum over all requests of P(R-H)/H, where a combined request is charged for the queues that it shares, and rewarded; and it tells whether its assertion R <= R0 held for all of them |
| `QueueSearch.Search.Consider` | src/vulkan/LogicalDevice.cxx:235-274 | the configuration is added to those considered; the best one is the cheapest of these, if that costs less than the largest float |
| `QueueSearch.Search.HandOutLoops` | src/vulkan/LogicalDevice.cxx:164-285 | the nested hand-out loops consider every feasible configuration with these families and this beginning |
| `QueueSearch.Search.FamilyLoops` | src/vulkan/LogicalDevice.cxx:149-290 | the nested family loops consider every feasible configuration with these first families |
| `QueueSearch.Candidates` | src/vulkan/LogicalDevice.cxx:60-77 | exactly the families that may serve the request are listed, including those that stand in for a transfer queue |
| `QueueSearch.LargestCount` | src/vulkan/LogicalDevice.cxx:73-84 | the largest queue count among the families that may serve a request |
| `QueueSearch.ProblemOf` | src/vulkan/LogicalDevice.cxx:50-86 | the lists of candidate families and the resolved maxima make a well-formed problem |
| `QueueSearch.UnsupportedFlagIsUnmatched` | src/vulkan/LogicalDevice.cxx:36-48 | the early rejection for unsupported features rejects nothing that the test per request would accept |
| `QueueSearch.CollectSupportedFlags` | src/vulkan/LogicalDevice.cxx:29-32 | the union of the flags of all families |
| `QueueSearch.CollectCandidates` | src/vulkan/LogicalDevice.cxx:50-86 | fails if and only if some request has no family that may serve it; otherwise it makes the problem of these families and requests |
| `QueueSearch.MatchingFamilies` | src/vulkan/LogicalDevice.cxx:57-81 | the candidates of one request, none if and only if no family may serve it, and their largest queue count |
| `QueueSearch.IsCompatibleWith` | src/vulkan/LogicalDevice.cxx:25-311 | true if and only if every request has a family that may serve it; there are replies if and only if a feasible configuration costs less than the largest float, and they are those of a feasible configuration of minimum penalty over the whole unpruned set; unless priorities are astronomical there are replies if and only if the requests can be served with one queue each; the assertion in the penalty is reported exactly |
| `QueueSearch.HandOut` | src/vulkan/LogicalDevice.cxx:145-290 | the search answers for every well-formed problem: when there are replies, which, and whether its assertion held |
| `QueueSearch.EverythingSearched` | src/vulkan/LogicalDevice.cxx:145-290 | when all loops are done exactly the feasible configurations were considered, the remembered one is optimal, and the assertion held throughout if and only if it holds for every feasible configuration |
| `QueueSearch.TakenIsMonotone` | src/vulkan/LogicalDevice.cxx:200-202 | handing out fewer queues to every request takes fewer of each family |
| `QueueSearch.FeasibleIffOneQueueEachFits` | src/vulkan/LogicalDevice.cxx:101-124 | a feasible configuration exists if and only if some choice of families has a queue for each request that can not share |
| `QueueSearch.PenaltyIsBounded` | src/vulkan/LogicalDevice.cxx:212-234 | with priorities that are not negative, a configuration costs at most 2^31 times the sum of the priorities |
| `QueueSearch.FoundExactly` | src/vulkan/LogicalDevice.cxx:235-237 | when that bound is below the largest float, the search remembers a configuration if and only if the requests can be served with one queue each |
| `QueueSearch.SmallPrioritiesAreAffordable` | src/vulkan/LogicalDevice.cxx:217 | the bound is below the largest float for up to 2^32 requests with priorities from 0 to 1 |
| `QueueSearch.SingleQueueOutcome` | src/vulkan/LogicalDevice.cxx:235-237 | for one request and one queue: it can always be served, and is remembered if and only if priority times missing queues is below the largest float |
| `QueueSearch.AstronomicalPriority` | src/vulkan/LogicalDevice.cxx:145 | a request that can be served and for which no configuration is remembered |
| `QueueSearch.CompatibleWithoutReplies` | src/vulkan/LogicalDevice.cxx:301-310 | the assertion that all replies are defined can fail: two requests for the only queue of a device match a family, and have no feasible configuration (the condition for it is `QueueSearch.FoundExactly`) |
| `QueueSearch.AssertionFailsExactly` | src/vulkan/LogicalDevice.cxx:228 | the assertion R <= R0 fails for some configuration that is considered if and only if there is a choice of families in which the requests fit with one queue each, and in which a request that can share asks for more than the one before it |
| `QueueSearch.AssertionFailsForRequests` | src/vulkan/LogicalDevice.cxx:83-84 | the same in terms of the call: the device, and the requests with maxima that may still be 0 |
| `QueueSearch.GivenMaximaAreSafe` | src/vulkan/LogicalDevice.cxx:228 | on no device does it fail when the maxima of combined requests are given and do not increase, as for the default requests |
| `QueueSearch.CombinedRequestMayAskForMore` | src/vulkan/LogicalDevice.cxx:228 | an input for which it fails: a pair with both maxima left at 0, on a device whose larger family only supports presentation |
| `QueueSearch.SharedQueueIsFeasible` | src/vulkan/LogicalDevice.cxx:276-283 | two combined requests can be served by a single queue |
| `QueueAllocation.RangesAreOrdered` | src/vulkan/LogicalDevice.cxx:566-576 | the index ranges of two replies of one family follow each other, so they are disjoint |
| `QueueAllocation.RangesTile` | src/vulkan/LogicalDevice.cxx:566-576 | an index lies in the range of some reply of a family if and only if it is below the number of queues that are created for that family |
| `QueueAllocation.HandedIsTaken` | src/vulkan/LogicalDevice.cxx:573-575 | the number of queues that are created for a family is the number that the search counted |
| `QueueAllocation.RangesExist` | src/vulkan/LogicalDevice.cxx:196-208 | after a search that found a configuration every index of every range is below the queue count of its family |
| `QueueAllocation.AssignStartIndexes` | src/vulkan/LogicalDevice.cxx:562-576 | every reply starts at the number of queues of its family that the replies before it were given, and as many priorities as queues are pushed, those of its own request in its own range |
| `QueueAcquire.LogicalDevice.CombineFlags` | src/vulkan/LogicalDevice.cxx:691-703 | a flag is combined into a reply if and only if that reply or one combined with it was requested with that flag, for this cookie |
| `QueueAcquire.LogicalDevice.CountReplies` | src/vulkan/LogicalDevice.cxx:705-740 | the two counts are the sizes of the sets of replies that support, and that also requested, the flags; the remembered reply is one of the latter |
| `QueueAcquire.LogicalDevice.SelectReply` | src/vulkan/LogicalDevice.cxx:743-761 | a reply is selected only when it is the only match; each error says which of the two sets is empty or too large |
| `QueueAcquire.LogicalDevice.TakeQueue` | src/vulkan/queues/QueueReply.h:85-94 | returns the next index of the reply if and only if one is left; a call is one increment, or when there is none left an increment and a decrement, of the state machine that all threads share |
| `QueueAcquire.LogicalDevice.AcquireQueue` | src/vulkan/LogicalDevice.cxx:685-772 | a successful call returns the family and the next index of the only matching reply, in the range of that reply; a call that fails leaves all counters as they were, and fails on a selected reply only when its queues are used up; the queues that were returned are the grants of the run of the calls so far |
| `QueueAcquire.GrantKeepsInvariant` | src/vulkan/queues/QueueReply.h:85-94 | granting a queue keeps the counter equal to grants plus pending decrements, and the granted indexes consecutive |
| `QueueAcquire.NextKeepsInvariant` | src/vulkan/queues/QueueReply.h:85-94 | so does every atomic step of any thread |
| `QueueAcquire.RunKeepsInvariant` | src/vulkan/queues/QueueReply.h:85-94 | and so does every interleaving |
| `QueueAcquire.NoMoreThanTheQueues` | src/vulkan/queues/QueueReply.h:22-25 | in every interleaving a reply grants at most its number of queues, its counter is ahead of the grants by the pending decrements only, and such exist only when all queues were granted |
| `QueueAcquire.GrantInRange` | src/vulkan/queues/QueueReply.h:85-94 | in every interleaving each granted index lies in the range of its reply |
| `QueueAcquire.QueuesAreExclusive` | src/vulkan/LogicalDevice.cxx:763-771 | in every interleaving no two successful calls return the same family and index |
| `QueueAcquire.HandedOutOnce` | src/vulkan/LogicalDevice.cxx:763-771 | no object of the class ever returns a queue for the second time, whatever is asked of it |
| `QueueAcquire.GrantedQueuesExist` | src/vulkan/LogicalDevice.cxx:763-771 | end to end, from the search: every queue that is handed out exists in its family |
| `QueueAcquire.GrantedWhileQueuesLast` | src/vulkan/queues/QueueReply.h:87-92 | a call is granted a queue if and only if the reply has one left, also while other threads have yet to undo their increment |
| `SpecialCircumstances.DecodeIsFaithful` | src/vulkan/SpecialCircumstances.h:104-109 | the decoders of the six flag bits agree with `can_render`, and no decoded circumstance means no bit |
| `SpecialCircumstances.SetAndReset` | src/vulkan/SpecialCircumstances.h:123-154 | every setter and resetter changes its own circumstance and no other |
| `SpecialCircumstances.MapMasks` | src/vulkan/SpecialCircumstances.h:59-89 | the four map states encode polarity and being handled, and the four masks do what the diagram says from every state |
| `SpecialCircumstances.SpecialCircumstances.SetMapped` | src/vulkan/SpecialCircumstances.cxx:23-29 | a window that is not mapped becomes mapped and unhandled and is flagged; for a mapped window nothing changes |
| `SpecialCircumstances.SpecialCircumstances.SetUnmapped` | src/vulkan/SpecialCircumstances.cxx:31-37 | the same for unmapping |
| `SpecialCircumstances.SpecialCircumstances.HandledMapChanged` | src/vulkan/SpecialCircumstances.cxx:9-21 | the polarity is not changed; it succeeds if and only if the state is handled afterwards, and otherwise flags the change again |
| `SpecialCircumstances.SpecialCircumstances.HandleMapChanged` | src/vulkan/SynchronousWindow.cxx:686-700 | without interference: the flag is left set if and only if handling failed, and the minimized flag is that of the polarity that was seen |
| `RenderLoop.InvariantHolds` | src/vulkan/SynchronousWindow.cxx:325-426 | the invariant of the protocol holds after any interleaving of the render loop with the X event thread, threads that add tasks, and the timer |
| `RenderLoop.MapEventsAreHandled` | src/vulkan/SynchronousWindow.cxx:384-404 | whenever no thread is in the middle of a map change and the flag is clear, the last change was handled, and the minimized flag is set exactly when the window is unmapped |
| `RenderLoop.RetriesAreBounded` | src/vulkan/SpecialCircumstances.cxx:9-21 | handling fails if and only if the polarity is no longer the one that was seen; then there was a map event since, and there are never more failures than map events |
| `RenderLoop.OnlyMapEventsRemap` | src/vulkan/SpecialCircumstances.h:49-58 | only the X event thread changes the polarity, always towards unhandled |
| `RenderLoop.NoTaskIsForgotten` | src/vulkan/SynchronousEngine.h:18-50 | whenever a task is runnable the flag is set, a thread is about to set it, or the handler is between its reset and its last test |
| `RenderLoop.NoResizeIsForgotten` | src/vulkan/WindowEvents.h:207-224 | the swapchain has the last extent that was reported, or the change is flagged |
| `RenderLoop.RendersOnlyWhenPossible` | src/vulkan/SynchronousWindow.cxx:343-354 | a frame is only rendered with a swapchain and a window that is not minimized, with the frame limiter started |
| `RenderLoop.PassesEndWithTheTimerArmed` | src/vulkan/SynchronousWindow.cxx:338-426 | a pass that ends rendered a frame and waits for the frame limiter, or could not render and waits for the slow limiter; the bare return is only reached in the latter case |
| `RenderLoop.FlagsAreSetAfterOutOfDate` | src/vulkan/SynchronousWindow.cxx:356-371 | the assertion after an out-of-date exception always holds |
| `RenderLoop.PassEnds` | src/vulkan/SynchronousWindow.cxx:338-426 | without interference a pass ends, in fewer than a hundred steps |
| `RenderLoop.ResizeKeepsWork` | src/vulkan/SynchronousWindow.cxx:634-684 | no resize is lost while the window size is handled: the extent is read and the flag reset under one lock |
| `SemaphoreWatcher.ReachedIsExact` | src/vulkan/SemaphoreWatcher.h:188-197 | in a sorted list exactly the waiters before the first unreached one are reached |
| `SemaphoreWatcher.Replaced` | src/vulkan/SemaphoreWatcher.h:199-205 | replacing one element of both vectors replaces the waiters of one semaphore in the map that they represent |
| `SemaphoreWatcher.Appended` | src/vulkan/SemaphoreWatcher.h:155-157 | appending to both vectors adds one semaphore to the map |
| `SemaphoreWatcher.GapFilled` | src/vulkan/SemaphoreWatcher.h:64-74 | moving the last element into the gap removes one semaphore from the map and keeps all others |
| `SemaphoreWatcher.Watcher.Add` | src/vulkan/SemaphoreWatcher.h:140-159 | the waiter is added at the end of the list of its semaphore, and the condition is signalled if and only if the semaphore is new |
| `SemaphoreWatcher.Watcher.RemoveAt` | src/vulkan/SemaphoreWatcher.h:64-74 | removes one semaphore from the map |
| `SemaphoreWatcher.Watcher.Remove` | src/vulkan/SemaphoreWatcher.h:161-175 | removes the semaphore from the map if it is watched, and nothing else |
| `SemaphoreWatcher.Watcher.SignalReached` | src/vulkan/SemaphoreWatcher.h:190-197 | signals exactly the leading waiters whose value was reached, in order |
| `SemaphoreWatcher.Watcher.PollOne` | src/vulkan/SemaphoreWatcher.h:183-212 | one semaphore: its reached waiters are signalled and dropped, it stays exactly when others remain, and the next index holds the next unexamined semaphore |
| `SemaphoreWatcher.Watcher.Poll` | src/vulkan/SemaphoreWatcher.h:177-214 | in one pass every watched semaphore is examined exactly once despite the swap-removal, exactly the reached waiters of each are signalled, in order, the rest stay, and the result says whether any remain |
| `SemaphoreWatcher.WaitersAreConserved` | src/vulkan/SemaphoreWatcher.h:140-214 | over any run, what was added to a semaphore was signalled once, was removed, or still waits; without removal it is signalled in the order in which it was added |
| `SemaphoreWatcher.RunIsWellFormed` | src/vulkan/SemaphoreWatcher.h:148-152 | over any run all lists stay sorted and none is empty |
| `SemaphoreWatcher.SignaledByPoll` | src/vulkan/SemaphoreWatcher.h:188-197 | no waiter is signalled early: some poll read a counter that reached its value |
| `SemaphoreWatcher.SignaledOnTime` | src/vulkan/SemaphoreWatcher.h:177-214 | with counters that do not decrease, right after a poll no signalled waiter has a value above the counter and no waiting one has a value that was reached |
| `WatcherTask.InvariantHolds` | src/vulkan/SemaphoreWatcher.cxx:15-45 | the invariant of the watcher task holds after any interleaving with threads that add semaphores and with its timer |
| `WatcherTask.NeverSleepsOnWork` | src/vulkan/SemaphoreWatcher.cxx:26-39 | the watcher is not blocked while semaphores are watched without a signal pending, and no old timer signal survives into its sleep |
| `WatcherTask.TimerIsUsedWell` | src/vulkan/SemaphoreWatcher.cxx:20-36 | the timer is never started while it runs or its signal is pending, and its signal is never waited for in vain |
| `WatcherTask.StepsGetCloser` | src/vulkan/SemaphoreWatcher.cxx:15-45 | any steps of all threads, in any order, of which none polls or removes the semaphore, bring the poll closer as soon as they contain the step that the watcher waits for |
| `WatcherTask.WorkIsPolled` | src/vulkan/SemaphoreWatcher.cxx:15-45 | from any state of the invariant, a semaphore that is watched and not removed is polled within seven rounds, with all waiters that it had; a round contains a step of the watcher and one of its timer, and anything that other threads do, in any order |
| `WatcherTask.OperatesTheWatchSet` | src/vulkan/SemaphoreWatcher.h:140-214 | the watch set of the stateful task, in any run, is that of the watcher after the operations that the run carried out, so that the results about runs of the watcher hold for it |
| `WatcherTask.ReachedWaiterIsSignaled` | src/vulkan/SemaphoreWatcher.cxx:15-45 | after any run, a waiter whose value was reached, and whose semaphore is not removed, is signalled within seven such rounds, whatever other threads do in them, and no longer waits after that poll |
| `LayoutOrder.VectorTies` | src/vulkan/LogicalDevice.h:137 | vectors compare equal if and only if they have the same size and compare equal element by element |
| `LayoutOrder.VectorLessIsTransitive` | src/vulkan/LogicalDevice.h:137 | the lexicographical order over a strict weak order is transitive |
| `LayoutOrder.LayoutBindingTies` | src/vulkan/descriptor/LayoutBindingCompare.h:10-29 | two bindings compare equal if and only if they are equal in everything but their binding number |
| `LayoutOrder.LayoutBindingOrder` | src/vulkan/descriptor/LayoutBindingCompare.h:10-29 | the comparison is a strict weak order |
| `LayoutOrder.SetLayoutKeyTies` | src/vulkan/LogicalDevice.h:137 | keys of the cache compare equal if and only if they are equal up to binding numbers |
| `LayoutOrder.SetLayoutKeyOrder` | src/vulkan/LogicalDevice.h:137 | the order of the keys is one that a map can use |
| `SetLayoutBindings.SetLayoutBindingsAndFlags.InsertFlags` | src/vulkan/descriptor/SetLayoutBindingsAndFlags.cxx:41-58 | the flags stay empty while all are zero, and otherwise get the new flags at the place of the binding; the pool flag becomes set if and only if it was or the flags contain eUpdateAfterBind |
| `SetLayoutBindings.SetLayoutBindingsAndFlags.ShiftFlags` | src/vulkan/descriptor/SetLayoutBindingsAndFlags.cxx:50-57 | the shifting loop inserts the flags at the index and keeps the order of all others |
| `SetLayoutBindings.SetLayoutBindingsAndFlags.Insert` | src/vulkan/descriptor/SetLayoutBindingsAndFlags.cxx:11-65 | the pair of binding and flags is inserted at one place of the list of pairs; the bindings stay sorted, the flags stay empty with all zero or parallel to the bindings, and the pool flag is set if and only if some inserted flags contain eUpdateAfterBind |
| `SetLayoutBindings.PairInserted` | src/vulkan/descriptor/SetLayoutBindingsAndFlags.cxx:38-58 | inserting a binding and its flags keeps both vectors describing everything that was inserted, in all cases of the table in the source |
| `SetLayoutBindings.SortedInsert` | src/vulkan/descriptor/SetLayoutBindingsAndFlags.cxx:39-40 | inserting before the first larger binding keeps the order |
| `CacheProtocol.NextKeepsInvariant` | src/vulkan/LogicalDevice.cxx:1306-1352 | every step of any thread keeps what threads know about the cache and the lock |
| `CacheProtocol.InvariantHolds` | src/vulkan/LogicalDevice.cxx:1306-1352 | and so does every interleaving, with any number of lost conversions of the lock |
| `CacheProtocol.OneEntryPerClass` | src/vulkan/LogicalDevice.cxx:1312-1327 | at most one entry and handle is stored for each class of keys that compare equal |
| `CacheProtocol.SameClassSameEntry` | src/vulkan/LogicalDevice.cxx:1312-1345 | threads that finish get the same entry if and only if their keys compare equal |
| `CacheProtocol.EntryHasCreator` | src/vulkan/LogicalDevice.cxx:1322-1324 | every entry that is returned was created by a thread that asked for the same class |
| `CacheProtocol.StoredEntryIsNew` | src/vulkan/LogicalDevice.cxx:1323-1326 | the assertion that an entry that was not found can be stored: no other thread stored it while the lock was converted |
| `CacheProtocol.EntriesStay` | src/vulkan/LogicalDevice.cxx:1310-1327 | entries are never changed or removed |
| `CacheProtocol.NoDeadlock` | src/vulkan/LogicalDevice.cxx:1347-1351 | as long as some thread is not done, some thread can take a step that changes something |
| `CacheProtocol.ChosenGetsCloser` | src/vulkan/LogicalDevice.cxx:1306-1352 | a step of a suitably chosen thread brings the end closer, although losing the conversion sends threads back to the beginning |
| `CacheProtocol.AllCanFinish` | src/vulkan/LogicalDevice.cxx:1306-1352 | from every state that can be reached there is a way on in which all threads finish |
| `BindingNumbers.FixBindings` | src/vulkan/LogicalDevice.cxx:1332-1341 | the loop replaces the binding numbers of the caller by those of the key, and nothing else |
| `BindingNumbers.RenumberedIsKey` | src/vulkan/LogicalDevice.cxx:1335-1340 | the assertions around that loop: bindings that compare equal to the key have its size, and become equal to it |
| `LayoutCache.DoneReturns` | src/vulkan/LogicalDevice.cxx:1299-1353 | every thread that finishes returns a handle, and the bindings that it leaves with, its own after the loop, are exactly those that the handle was created from |
| `LayoutCache.SameHandleForSameBindings` | src/vulkan/LogicalDevice.cxx:1299-1353 | under any interleaving two callers get the same handle if and only if their bindings are equal up to numbers, and then what the loop makes of their bindings is the same |
| `LayoutCache.HandleIsDetermined` | src/vulkan/LogicalDevice.cxx:1299-1353 | the handle that a caller gets is a function of its bindings up to binding numbers, and stays so whatever other threads do afterwards |
| `LayoutCache.FlagsMayBeThoseOfAnother` | src/vulkan/LogicalDevice.cxx:1311 | binding flags are no part of the key: of two callers that return, with the same bindings and different flags, one gets a layout that was created with the flags of the other |
| `LayoutCache.FlagsOfAnother` | src/vulkan/LogicalDevice.cxx:1311 | for any such two requests there is a schedule in which that happens |
| `LayoutCache.OwnFlagsExactly` | src/vulkan/LogicalDevice.cxx:1311 | all callers get a layout with their own flags under every schedule if and only if, among the requests, equal bindings up to numbers come with equal flags |
| `PipelineLayout.SetIndexHintMap.AddFromTo` | src/vulkan/descriptor/SetIndexHintMap.h:19-29 | adds one translation |
| `PipelineLayout.SetIndexHintMap.Convert` | src/vulkan/descriptor/SetIndexHintMap.h:36-47 | the translation of a hint, or undefined for a hint that was not added |
| `PipelineLayout.SetIndexHintMap.ReverseConvert` | src/vulkan/descriptor/SetIndexHintMap.h:49-63 | a hint that is translated to the set index, and none if and only if there is none |
| `PipelineLayout.SetIndexHintMap.ReverseOfConvert` | src/vulkan/descriptor/SetIndexHintMap.h:36-63 | on a map without two hints for one set index, `reverse_convert` inverts `convert` |
| `PipelineLayout.SetLayoutTies` | src/vulkan/descriptor/SetLayout.h:85-104 | layouts compare equal if and only if their bindings, with their numbers, are equal, and their flags too unless there are no bindings yet; handles and hints play no part |
| `PipelineLayout.PushTies` | src/vulkan/pipeline/PushConstantRangeCompare.h:11-29 | where the assertion in the comparison holds, ranges compare equal if and only if they have a stage in common |
| `PipelineLayout.PushTiesExactly` | src/vulkan/pipeline/PushConstantRangeCompare.h:11-29 | whether or not the assertion holds, ranges compare equal if and only if they have a stage in common and neither begins and ends before the other |
| `PipelineLayout.PushOrderExactly` | src/vulkan/pipeline/PushConstantRangeCompare.h:11-29 | where all comparisons pass the assertion: the comparison is a strict weak order on a set of ranges if and only if sharing a stage is transitive on the set, and ranges that share a stage are on the same side of any range that shares with neither |
| `PipelineLayout.PushOrderOfOneStage` | src/vulkan/pipeline/PushConstantRangeCompare.h:11-29 | without the assertion, on ranges that all share a stage: the comparison is a strict weak order if and only if being neither before nor after each other is transitive |
| `PipelineLayout.AssertionIsNeeded` | src/vulkan/pipeline/PushConstantRangeCompare.h:27 | three ranges for the same stages, of which one overlaps two that follow each other, share stages as they should and are not ordered |
| `PipelineLayout.AssertionFailsExactly` | src/vulkan/pipeline/PushConstantRangeCompare.h:27 | comparing two lists of ranges fails the assertion if and only if at some index the ranges share a stage without a common end, and all before share a stage |
| `PipelineLayout.AssertionMayFail` | src/vulkan/pipeline/PushConstantRangeCompare.h:27 | two lists for which it fails, as two unrelated pipelines can have |
| `PipelineLayout.PushLessIsNoOrder` | src/vulkan/pipeline/PushConstantRangeCompare.h:11-29 | comparing equal is not transitive: ranges without a common stage both compare equal to a range that has a stage of each |
| `PipelineLayout.HintMapMaps` | src/vulkan/LogicalDevice.cxx:1515 | with distinct hints every hint of the caller is translated to that of the stored layout, and nothing else is translated |
| `PipelineLayout.HintMapTranslates` | src/vulkan/LogicalDevice.cxx:1509-1526 | translating hints to those of stored layouts with the same handles preserves meaning: every layout is found where its hint goes to, different hints go to different set indexes, and all other slots are empty |
| `PipelineLayout.SameKeySameHandles` | src/vulkan/LogicalDevice.cxx:1504-1506 | layouts that compare equal element by element have the same bindings and the same handles |
| `PipelineLayout.LargestHint` | src/vulkan/pipeline/PipelineFactory.cxx:782-794 | the largest hint leaves room for every hint and is one of them |
| `PipelineLayout.NewSlots` | src/vulkan/LogicalDevice.cxx:1475-1491 | a new pipeline layout has each handle at its hint and the empty layout everywhere else, and the translation is that of the layouts to themselves |
| `PipelineLayout.CopyNumbers` | src/vulkan/LogicalDevice.cxx:1507-1526 | the hints are translated to those of the stored layouts, and of the bindings only the numbers are changed, to those of the stored layouts |
| `PipelineLayout.RealizePipelineLayout` | src/vulkan/LogicalDevice.cxx:1443-1540 | on a hit, a miss and after any number of retries: the returned layout holds at the translation of each hint the handle of that layout, the translation is injective on exactly the hints of the caller, the binding numbers of the caller stay what they were, and the cache keeps these properties; the entry is the first that compares equal, or new |
| `PipelineLayout.GivesSharedStages` | src/vulkan/LogicalDevice.cxx:1471-1498 | the layout that is returned was created for as many push constant ranges as the caller has, each with a stage in common with the one of the caller |
| `PipelineLayout.IdentityOnMiss` | src/vulkan/LogicalDevice.cxx:1489-1490 | on a miss the translation is the identity |
| `PipelineLayout.PushConstantsMayBeThoseOfAnother` | src/vulkan/LogicalDevice.cxx:1471-1472 | a stored layout is found for other push constant ranges: with the same set layouts if and only if there are as many ranges, and those at the same index have a stage in common and neither is before the other; where the assertion holds, a stage in common is enough, whatever their sizes |
| `PipelineLayout.OwnPushConstantsExactly` | src/vulkan/LogicalDevice.cxx:1471-1498 | over any run of calls, all get a layout for their own push constant ranges if and only if no two calls whose keys compare equal have different ranges |
| `PipelineLayout.PushConstantsClash` | src/vulkan/LogicalDevice.cxx:1471-1472 | a run in which that fails: two pipelines without descriptor sets, with 8 and 16 bytes of push constants for the same stage |
| `DescriptorSets.Flatten` | src/vulkan/LogicalDevice.cxx:980-1001 | both vectors that are passed to Vulkan repeat every element once per frame resource, or once, in the order of the set indexes |
| `DescriptorSets.Regroup` | src/vulkan/LogicalDevice.cxx:1025-1036 | every set gets the handles at its own place in the flat vector |
| `DescriptorSets.AllocateDescriptorSets` | src/vulkan/LogicalDevice.cxx:969-1036 | every set has as many different handles as it needs, all newly allocated from its own layout, and no two sets share a handle |
| `DescriptorSets.FrameResourceAsAsked` | src/vulkan/pipeline/PipelineFactory.cxx:1631-1632 | the assertion that a set is a frame resource exactly when asked holds if and only if it was not asked or there is more than one frame |
| `DescriptorSets.Pipeline.constructor` | src/vulkan/Pipeline.h:34-71 | row f has at place s the handle of set s for frame f, or its only handle |
| `DescriptorSets.AllocatedIsUsable` | src/vulkan/descriptor/FrameResourceCapableDescriptorSet.h:76-104 | sets that were allocated can be bound if and only if there is a frame resource or none was asked for; one frame resource is enough |
| `DescriptorSets.BoundIsFromLayout` | src/vulkan/Pipeline.h:44-65 | for every frame and set index the handle that is bound was allocated from the layout of that set index |
| `DescriptorSets.BoundIsShared` | src/vulkan/Pipeline.h:51-63 | two places share a handle if and only if they have the same set index, and the same frame or no frame resource |
| `DescriptorSets.EveryHandleIsBound` | src/vulkan/Pipeline.h:43-66 | every handle that was allocated is bound by some frame, also when there is only one |
| `Swapchain.RotatedConserves` | src/vulkan/Swapchain.h:51-54 | the swap conserves the image-available handles together with the acquire handle |
| `Swapchain.Swapchain.UpdateCurrentIndex` | src/vulkan/Swapchain.h:189-192 | the acquire semaphore and that of the new image are swapped, and the index is that of the image |
| `Swapchain.Swapchain.RecreateSwapchainImages` | src/vulkan/Swapchain.cxx:238-276 | the rendering-finished semaphores go to the ring, to be destroyed after as many steps as there were images; every new image has two new handles, and the acquire semaphore stays |
| `Swapchain.NextKeepsInvariant` | src/vulkan/SynchronousWindow.cxx:870-899 | every step of the application, the presentation engine and the device keeps the invariant about handles, semaphore states, images and fences |
| `Swapchain.InvariantHolds` | src/vulkan/SynchronousWindow.cxx:870-899 | and so does every interleaving of them, with recreation |
| `Swapchain.AcquireSemaphoreIsIdle` | src/vulkan/SynchronousWindow.cxx:878-883 | in every run the acquire semaphore has no outstanding operation when an image is acquired |
| `Swapchain.SemaphoreRules` | src/vulkan/SynchronousWindow.cxx:1101-1126 | a submit waits on a semaphore that has a signal pending or set, and signals one without outstanding operations; a presentation waits on one that will be signaled |
| `Swapchain.DestroyedSemaphoresAreIdle` | src/vulkan/SynchronousWindow.cxx:658-662 | after waiting for all fences the image-available semaphores that are destroyed are idle |
| `Swapchain.ReacquireNeedsRendering` | src/vulkan/Swapchain.h:189-192 | acquiring an image leaves an idle acquire semaphore if and only if the previous rendering to that image has completed, which is why it must not come back before it was presented |
| `Swapchain.HandlesAreConserved` | src/vulkan/Swapchain.h:189-192 | over any run without recreation the image-available handles with the acquire handle, and the rendering-finished handles, stay the same |
| `Swapchain.HandlesStayDistinct` | src/vulkan/Swapchain.cxx:238-276 | over any run, with recreation, all handles are different from each other and from those that were handed to the ring, and none in use is destroyed |
| `Swapchain.RescuedUntilDue` | src/vulkan/Swapchain.cxx:246-249 | a rendering-finished semaphore of a dropped image is destroyed exactly when as many frames have completed since as it is to stay, and until then it is idle exactly when the presentation of the image has completed |
| `Swapchain.DestructionIsSafeExactly` | src/vulkan/SynchronousWindow.h:97-102 | what the ring destroys after a frame, in any run, has no outstanding operation if and only if the presentation of the dropped image has completed |
| `DestructionDelay.StepKeepsBudget` | src/vulkan/Swapchain.cxx:246-249 | while the presentation of a dropped image is outstanding every further frame uses up an image of a later swapchain |
| `DestructionDelay.DelayIsEnough` | src/vulkan/Swapchain.cxx:246-249 | when presentations complete in the order of their swapchains, no semaphore of a dropped image is destroyed while a presentation waits for it, if the swapchains that come after it have fewer images in total than frames that it stays |
| `DestructionDelay.DelayIsNotEnough` | src/vulkan/Swapchain.cxx:246-249 | if they have as many or more, and an image was being presented when the swapchain was dropped, there is a run, without any completed presentation, in which its semaphore is destroyed while the presentation waits for it |
| `DestructionDelay.DelayIsEnoughExactly` | src/vulkan/Swapchain.cxx:246-249 | the two together, for any swapchain that is dropped and any sizes of the swapchains that come after it: over all runs with presentations in order no semaphore is destroyed too early if and only if nothing was being presented or these are smaller in total |
| `DestructionDelay.SomeRunIsTooEarly` | src/vulkan/Swapchain.cxx:246-249 | such a run exists from the start of the program, for any number of frame resources and of images, for example with as many images before and after |
| `DelayedDestruction.StayIsDelay` | src/vulkan/SynchronousWindow.h:92-95 | a semaphore stays as long as asked if and only if the delay is from 1 to 16; a larger delay ends too early |
| `DelayedDestruction.DestroyedWhenDue` | src/vulkan/SynchronousWindow.h:97-102 | a semaphore is destroyed by the step at which it is due and by no other |
| `DelayedDestruction.AddKeepsRepresents` | src/vulkan/SynchronousWindow.h:92-95 | adding to the slot keeps the ring representing the list of due times |
| `DelayedDestruction.StepKeepsRepresents` | src/vulkan/SynchronousWindow.h:97-102 | so does clearing the slot of a step, which holds exactly what is due |
| `DelayedDestruction.DelaySemaphoreDestruction.Add` | src/vulkan/SynchronousWindow.h:92-95 | the semaphore becomes due after the delay modulo 16, with 16 for 0 |
| `DelayedDestruction.DelaySemaphoreDestruction.Step` | src/vulkan/SynchronousWindow.h:97-102 | destroys exactly the semaphores that are due at this step, in the order in which they were added |
| `DelayedDestruction.AddedIsQueuedOrDestroyed` | src/vulkan/SynchronousWindow.h:85-103 | after any sequence of adds and steps, added equals destroyed plus queued |
| `PipelineCacheMerge.Application.RunPipelineFactory` | src/vulkan/Application.cxx:381-389 | the window is listed once more under its cache name, and nothing else changes |
| `PipelineCacheMerge.Application.PipelineFactoryDone` | src/vulkan/Application.cxx:391-448 | without interference: the first cache becomes the merger, every other is delivered to it, one listing of the window is erased, and the last one finishes the merger |
| `PipelineCacheMerge.RunningIsListed` | src/vulkan/Application.cxx:402-412 | the assertions that the window of a factory that is done is listed |
| `PipelineCacheMerge.NextKeepsInvariant` | src/vulkan/Application.cxx:391-448 | every step under that discipline keeps the invariant |
| `PipelineCacheMerge.InvariantHolds` | src/vulkan/Application.cxx:391-448 | and so does every interleaving under that discipline |
| `PipelineCacheMerge.DisciplineSuffices` | src/vulkan/Application.cxx:402-447 | a run is never fatal when the last factory does not complete while another has yet to finish the merger, and the merger is not finished before its own factory signalled it; the window of a factory that completes is listed |
| `PipelineCacheMerge.DisciplineIsNecessary` | src/vulkan/Application.cxx:428-447 | after any step that does not keep that discipline, from any state of the protocol, the factories that are under way can get to a fatal step |
| `PipelineCacheMerge.CachesAreMerged` | src/vulkan/Application.cxx:413-438 | over any such run the history is a sequence of periods with one merger each, to which every other cache of the period is delivered before it is told, once, that no more follow; every completed factory contributes exactly once |
| `PipelineCacheMerge.MergedWhileBusy` | src/vulkan/Application.cxx:413-438 | when no completion is under way there is a merged cache if and only if some factory has completed in the current period and some is running |
| `PipelineCacheMerge.EveryPeriodEnds` | src/vulkan/Application.cxx:440-447 | when all started factories have completed, every merger was finished |
| `PipelineCacheMerge.FinishBeforeSignalIsFatal` | src/vulkan/Application.cxx:428-447 | what happens outside the lock can go wrong: if the last factory finishes the merger before the first has signalled it, that signal uses a null pointer |
| `PipelineCacheMerge.FinishBeforeSignalCanHappen` | src/vulkan/Application.cxx:428-447 | a run of two factories that ends in that situation |
| `PipelineCacheMerge.CompleteBeforeFinishIsFatal` | src/vulkan/Application.cxx:440-447 | and if a factory completes before the last one finished the merger, with no other running, two factories finish the same merger and the second finds none |
| `PipelineCacheMerge.CompleteBeforeFinishCanHappen` | src/vulkan/Application.cxx:440-447 | a run of two factories that ends in that situation |
| `PipelineCacheMerge.AtomicCompletion` | src/vulkan/Application.cxx:391-448 | a completion that nothing comes in between of keeps the discipline, and is what the method does |
| `Uri.SplitAtDelimiter` | src/data_types/URI.cxx:43-52 | a text is split at its first delimiter into what is before and what is after it |
| `Uri.URI.CaptureUpTo` | src/data_types/URI.cxx:43-52 | the text up to the delimiter or to the end; an error without the delimiter when there is a message, and when the cursor is outside the text |
| `Uri.URI.MoveBefore` | src/data_types/URI.cxx:54-65 | the cursor moves to the first delimiter if and only if there is one |
| `Uri.URI.DecodeTailHere` | src/data_types/URI.cxx:107-141 | path, query and fragment are those of the splitting of the rest of the text, in all branches |
| `Uri.URI.DecodeHierarchyHere` | src/data_types/URI.cxx:91-146 | authority, path, query and fragment, or out of range |
| `Uri.URI.DecodeHostHere` | src/data_types/URI.cxx:166-188 | host and port, or an ipv6 host, or an error for a bracket that is not closed |
| `Uri.URI.DecodeAuthorityHere` | src/data_types/URI.cxx:148-188 | user information, host and port of the authority |
| `Uri.URI.DecodeUserInfoHere` | src/data_types/URI.cxx:190-209 | username and password of the user information |
| `Uri.URI.UpdateSecure` | src/data_types/URI.cxx:211-225 | secure by scheme or port, or by the query of a postgres scheme |
| `Uri.URI.Assign` | src/data_types/URI.cxx:77-226 | on a new object the cursor-based decoder computes the splitting of the whole text, with the same errors |
| `Uri.DecodeOfCompose` | src/data_types/URI.cxx:77-226 | decoding a composed URI: which parts come out, whatever the fragment contains |
| `Uri.RoundTrip` | src/data_types/URI.cxx:77-226 | composing a URI as in section 5.3 of RFC 3986 and decoding it gives back every component, the scheme in lower case, if and only if no fragment without a query contains a question mark |
| `Uri.PortRoundTrip` | src/data_types/URI.cxx:166-188 | the port is given back if and only if there is none or the host is not an ipv6 address |
| `Uri.OutOfRangeExactly` | src/data_types/URI.cxx:91-101 | a text with a scheme makes the decoder throw out of range if and only if the first slash after the scheme is the last character |
| `Uri.PathWithoutAuthority` | src/data_types/URI.cxx:91-145 | a URI without an authority is decoded to one without an authority and with its path if and only if no slash follows the scheme and there is no query; to all of its components if and only if there is no fragment either |
| `Uri.SingleSlashIsTwo` | src/data_types/URI.cxx:91-101 | whatever character follows a single slash is taken for the second slash before an authority |
| `Uri.FirstSegmentIsLost` | src/data_types/URI.cxx:91-105 | so the first segment of an absolute path without an authority, but for its first letter, becomes the authority: "file:/etc/passwd" is decoded to the host "tc" and the path "/passwd" |
| `Uri.PostgresIsSecure` | src/data_types/URI.cxx:217-225 | for every text that decodes with a postgres scheme: it is taken to be secure exactly when its query contains "ssl=true", if and only if the query contains that or none of its letters (or, on port 443, contains it) |
| `Uri.ComposedPostgresIsSecure` | src/data_types/URI.cxx:217-225 | the same for a URI that is composed of components, in terms of these |
| `Uri.SslFalseIsSecure` | src/data_types/URI.cxx:224 | a composed postgres URI with the query "ssl=false" is taken to be secure |
| `Uri.DecodingIsUnique` | src/data_types/URI.cxx:228-324 | no text has two decodings |
| `Uri.MalformedEncodesNothing` | src/data_types/URI.cxx:228-324 | what begins with an encoding and goes on with something malformed is not an encoding |
| `Uri.TwoDigits` | src/data_types/URI.cxx:241-283 | the inner loop computes the value of two hexadecimal digits of either case, and fails if and only if one is no digit |
| `Uri.UnescapePath` | src/data_types/URI.cxx:228-324 | succeeds if and only if the input is one of the percent-encodings of some text (section 2.1 of RFC 3986), and then gives that text; otherwise it gives the decoding of what comes before the first malformed character |
| `Uri.GetPath` | src/data_types/URI.cxx:36-41 | the decoded path, or of a malformed path the part before the first malformed character |
| `Uri.PathRoundTrip` | src/data_types/URI.cxx:36-41 | composing a URI around any encoding of an absolute path, decoding it and asking for the path gives the text of the path |

## Left out

- QueueSearch.Search.HandOutLoops: `MultiLoop` is not part of this model; it is taken to be the nested loops that the comments describe, one level of recursion with a loop per nested loop.
- QueueSearch.IsCompatibleWith: the penalty is computed with reals, so rounding of floats is not modelled, and sums of queue counts do not wrap around at 32 bits; the conversion of a maximum to `int` is modelled.
- QueueAcquire.LogicalDevice.AcquireQueue: `release_queue` has no callers and is not modelled, and neither is the wrap-around of the atomic counter, which would take 2^32 failing threads.
- LayoutOrder.VectorTies: `utils::VectorCompare` and `utils::PairCompare` are not part of this model; they are taken to be lexicographical.
- SetLayoutBindings.SetLayoutBindingsAndFlags.Insert: `utils::sorted_vector_insert` is not part of this model; among bindings that compare equal any place is allowed to the pair.
- PipelineLayout.RealizePipelineLayout: the cache is searched for the first key that compares equal. For keys that `PushConstantRangeCompare` does not order, what a `std::map` does is not defined; a key that it fails to find would be stored twice, which does not affect the translation.
- DestructionDelay.DelayIsEnoughExactly: that presentations complete in the order of their swapchains is an assumption about the presentation engine; without it nothing bounds the number of frames until the presentation of a dropped image completes.
- Swapchain.AcquireSemaphoreIsIdle: assumes that an image is only acquired again after its previous presentation completed, as Vulkan and `README.sync` have it.
- SemaphoreWatcher.Watcher.PollOne: at src/vulkan/SemaphoreWatcher.h:201-202 an iterator is used after the elements before it were erased; the model has the evident meaning, the value of the first waiter that is left.
- DelayedDestruction.DelaySemaphoreDestruction.Add: a negative delay, and overflow of the position plus the delay, are not modelled; the only caller passes a number of images.
- CacheProtocol.AllCanFinish: fairness of the locks is not modelled, so under an unfair schedule a thread that keeps losing the upgrade may retry forever.
- PipelineCacheMerge.CachesAreMerged: one cache name; the statements hold for each name, because the names do not share state.
- Uri.URI.Assign: assigning to an object that was decoded before is not modelled; `decode` does not reset the components. `std::isalnum` and `std::tolower` are those of the "C" locale.
- RenderLoop.InvariantHolds: relaxed and acquire/release memory ordering; every atomic operation is one step that all threads see in the same order. `mainloop` runs any of the runnable tasks, in any order, and may leave some.
- WatcherTask.InvariantHolds: the variant of the watcher that runs as a synchronous task and yields instead of using a timer.
- Vulkan, XCB, ImGui and Tracy calls: handles and results are parameters; of the allocators only that they return new handles is used.
- Debug output, debug names and serialization.
- The vectors of images and image views of the swapchain, frame buffers and attachments: they are rebuilt without bookkeeping.
- `CombinedImageSamplerUpdater`, partition counting, shader registration, and the choice of swapchain parameters.
- Comparison operators and `get_port` of a URI: single expressions and a table.
