# Zilker SDK: verified models of its concurrency, storage and rule code

This project models parts of the Zilker SDK in Dafny and proves what they promise, for every
input and every run.  Concurrent components are state machines whose steps are the sections
between taking and releasing a mutex, so that a run is any interleaving of any number of
threads.  For each of them there is an invariant, a lemma that every step keeps it, the theorems
that follow for all reachable states or all runs, and the component in its own imperative form: a
class whose methods are proved to take exactly the steps of the machine.

| component | files |
|---|---|
| Thread-safe wrapper: a detachable item with counted readers and queued modifications | ThreadSafeWrapper, WrapperSafety, WrapperTheorems, WrapperRelease, WrapperObject |
| Thread pool that grows, shrinks and may be destroyed by its own task | ThreadPool, PoolSafety, PoolTheorems, PoolProgress, PoolObject |
| Blocking queue | BlockingQueue, BlockingQueueObject |
| Task executor with its drain | TaskExecutor, TaskExecutorProgress, TaskExecutorObject |
| Repeating tasks: cancel races, fixed rate, back-off | RepeatingTask, RepeatingTaskProgress, RepeatingTaskObject |
| Delayed tasks: cancel, reschedule, force, handles | DelayedTask, DelayedTaskProgress, DelayedTaskObject |
| Storage: save through temporary, backup and main file, with crashes at any point | Storage, StorageRuns |
| Negative rules compiled to a Sheens state machine | Sheens, NegativeRule, NegativeRuleObject |
| Thermostat schedule merging | Schedule |
| Comma-list action expansion | Strtok, Actions |
| Protected configuration framing | Framing |

Some things one would expect of the code do not hold.  There the model keeps the code's
behaviour, and lemmas show where it fails, on a run, an input or the whole failing family, and
exactly when it does not:

- A wake-up of the queue can be lost unless at most one caller waits on each side (`TimeoutLosesSignal`,
  `LostWakeup`, `WakeupsSufficeIff`).
- A pool with a minimum of zero can keep a task with nobody to run it (`StrandedWithoutMinimum`, `StrandedIffNoMinimum`).
- The wrapper's 16-bit reader count limits how many may read at once (`TooManyReaders`, `ReaderLimit`).
- A back-off task's argument can be handed over twice (`CanceledAtOnce`, `HandedOverTwiceIff`), and its
  delays follow the formula only without 64-bit overflow (`OverflowBreaks`, `BackOffFormulaIff`).
- A second canceller of a repeating task may return early (`LateCancelReturnsEarly`, `AnotherCallbackIff`).
- Forcing a delayed task acts at once only on a waiting one (`ForcedIdleForgotten`,
  `ForcedImmediatelyIff`), though the call reports success for an idle one too.
- A save cut short is harmless only over a main file that loads (`TwoCrashesLose`, `FailedSwapLoses`,
  `CutShortLosesIff`, `CrashSafeIff`), an empty value does not replace the one before it
  (`SaveThenLoad`), and an empty backup loads once (`EmptyBackupLoadsOnce`, `LoadTwiceIff`).
- A rule fires once per window, not at every end time without a trigger (`FiresOncePerWindow`, `FiresIff`).
- A schedule entry without thermostats swallows later ones (`EmptyEntryLosesCoverage`, `CoversNextIff`),
  and merging can add days for thermostats an entry did not name (`OverCoverage`, `OverCoverageIff`).
- Action lists and protected values are limited by 16-bit sizes (`OnePerEntryIff`, `AllTokensKeptIff`,
  `OpensShorter`, `RoundTripIff`), and protected values lose trailing zero bytes (`TrimOfPaddedIff`).

Time is a count of nanoseconds that never decreases.  Callbacks, clocks, wake-ups, file system
failures, the random vector, the cipher, base64, the JSON parser, the time script and the trigger
patterns are parameters, so that every theorem is about all of them.

## Model

| member | source | states |
|---|---|---|
| WrapperTheorems.Reachable | source/libs/concurrent/c/src/icThreadSafeWrapper.c:95-315 | in every run within the reader limit the invariant holds, and the next step destroys no ref and runs no modification on one while a reader is inside its callback |
| WrapperTheorems.Reclamation | source/libs/concurrent/c/src/icThreadSafeWrapper.c:157-241 | in every run a ref exists exactly while it is attached or read, is destroyed exactly once as soon as it is neither, and an attached ref without readers has no pending modifications |
| WrapperTheorems.LastReaderDestroys | source/libs/concurrent/c/src/icThreadSafeWrapper.c:217-237 | a ref released under readers is destroyed by its last reader leaving, and by no earlier one |
| WrapperTheorems.Resolution | source/libs/concurrent/c/src/icThreadSafeWrapper.c:254-315 | once nobody reads the ref a modification call went to, it has freed its context exactly once and run at most once; an accepted one's future is complete and says applied exactly if it ran; a rejected one's is untouched |
| WrapperTheorems.SettledForever | source/libs/concurrent/c/src/icThreadSafeWrapper.c:562-641 | a settled call never changes again in any run: no later free of the applied list flips its future |
| WrapperTheorems.DeferredRefinesEager | source/libs/concurrent/c/src/icThreadSafeWrapper.c:539-556 | a live ref's item is the fold of a prefix of all modifications enqueued on it, and folding its queue over it gives what eager modification gives |
| WrapperTheorems.EagerStep | source/libs/concurrent/c/src/icThreadSafeWrapper.c:254-315 | a step changes the eager item of a surviving ref only by the modification it enqueues |
| WrapperTheorems.ReaderLimit | source/libs/concurrent/c/src/icThreadSafeWrapper.c:198-241 | for every state of the invariant, a new reader is within the 16-bit counter if and only if no run of allowed steps after it destroys a ref under a reader |
| WrapperTheorems.ReleasedUnderReaders | source/libs/concurrent/c/src/icThreadSafeWrapper.c:157-209 | with the counter full, one more reader and a release destroy the item under all 65536 |
| WrapperTheorems.TooManyReaders | source/libs/concurrent/c/src/icThreadSafeWrapper.c:198-241 | with 65536 readers inside, a release destroys the item under all of them |
| WrapperSafety.StepKeepsInv | source/libs/concurrent/c/src/icThreadSafeWrapper.c:95-315 | every allowed step of every caller keeps the invariant |
| WrapperSafety.StepGuarantee | source/libs/concurrent/c/src/icThreadSafeWrapper.c:95-315 | every step keeps refs under readers as they are, keeps settled calls, and extends a ref's history by at most the modification it enqueues |
| WrapperSafety.ApplyKeepsHistory | source/libs/concurrent/c/src/icThreadSafeWrapper.c:539-556 | running the queue turns the item into the fold of everything enqueued |
| WrapperRelease.WantedAfterModification | source/libs/concurrent/c/src/icThreadSafeWrapper.c:601-612 | after any modification, or the last reader of an attached ref with a queue, what is still attached and unread does not satisfy the auto-release function |
| WrapperRelease.OnlyUnwantedGo | source/libs/concurrent/c/src/icThreadSafeWrapper.c:516-533 | no step but a release detaches the attached ref unless the auto-release function holds of its item with all modifications, the step's own included |
| WrapperRelease.NeverLetGo | source/libs/concurrent/c/src/icThreadSafeWrapper.c:95-315 | with an auto-release function that holds of no item, or none, no run without a release ever detaches the item |
| WrapperRelease.AcceptedIff | source/libs/concurrent/c/src/icThreadSafeWrapper.c:271-305 | a modification is accepted on the attached ref if and only if that is being read or does not satisfy the auto-release function |
| WrapperRelease.EnqueueAtRest | source/libs/concurrent/c/src/icThreadSafeWrapper.c:271-305 | a modification of an unread item runs at once unless the item was to go as it stood, and the modified item stays if and only if it is not to go |
| WrapperRelease.EnqueueWhileRead | source/libs/concurrent/c/src/icThreadSafeWrapper.c:271-305 | a modification of an item being read is queued behind the others and leaves the item as it is |
| WrapperRelease.EnqueueWithout | source/libs/concurrent/c/src/icThreadSafeWrapper.c:262-275 | with nothing attached it is rejected, unless the wrapper makes an item, and then that stays if and only if it is not to go |
| WrapperRelease.LastReaderApplies | source/libs/concurrent/c/src/icThreadSafeWrapper.c:217-237 | the last reader leaves the item with its whole queue applied, and it goes exactly if there was a queue and the result is to go |
| WrapperRelease.ReadFinds | source/libs/concurrent/c/src/icThreadSafeWrapper.c:198-211 | a read of an item that is to go finds none; any other gets one more reader |
| WrapperRelease.AssignIfReleasedFinds | source/libs/concurrent/c/src/icThreadSafeWrapper.c:119-139 | assigning if released replaces an item that is to go and leaves any other |
| WrapperRelease.AssignWithout | source/libs/concurrent/c/src/icThreadSafeWrapper.c:95-139 | an assignment attaches its item if and only if nothing is attached |
| WrapperRelease.ReleaseLetsGoIff | source/libs/concurrent/c/src/icThreadSafeWrapper.c:157-189 | a release detaches if and only if the function agrees to the item as it stands, or it is unread and was to go anyway; it destroys at once exactly an unread one |
| WrapperRelease.ReleaseByDefault | source/libs/concurrent/c/src/icThreadSafeWrapper.c:157-189 | a release without a function uses the wrapper's, and does nothing without that |
| WrapperObject.Wrapper.SetFutureComplete | source/libs/concurrent/c/src/icThreadSafeWrapper.c:619-641 | completes the future the record points to with the given verdict and forgets it, so that a second call changes nothing |
| WrapperObject.Wrapper.ApplyModifications | source/libs/concurrent/c/src/icThreadSafeWrapper.c:539-556 | the two loops have the effect of the specified step: items folded, futures complete, contexts freed |
| WrapperObject.Wrapper.DestroyRef | source/libs/concurrent/c/src/icThreadSafeWrapper.c:489-507 | destroys the ref and resolves what was queued on it as not applied |
| WrapperObject.Wrapper.PostModificationCheckRelease | source/libs/concurrent/c/src/icThreadSafeWrapper.c:601-612 | destroys the ref if and only if the auto-release function holds of its item, and detaches it then |
| WrapperObject.Wrapper.GetRef | source/libs/concurrent/c/src/icThreadSafeWrapper.c:516-533 | brings the attached ref up to date when nobody reads it |
| WrapperObject.Wrapper.AssignItem | source/libs/concurrent/c/src/icThreadSafeWrapper.c:95-110 | takes the Assign step; true exactly if nothing was attached |
| WrapperObject.Wrapper.AssignItemIfReleased | source/libs/concurrent/c/src/icThreadSafeWrapper.c:119-139 | takes the AssignIfReleased step |
| WrapperObject.Wrapper.ConditionalReleaseItem | source/libs/concurrent/c/src/icThreadSafeWrapper.c:157-189 | takes the Release step with the function given or the automatic one; true exactly if there was an item and the function agreed |
| WrapperObject.Wrapper.ReadBegin | source/libs/concurrent/c/src/icThreadSafeWrapper.c:198-211 | takes the ReadBegin step, with the counter's 16 bits |
| WrapperObject.Wrapper.ReadEnd | source/libs/concurrent/c/src/icThreadSafeWrapper.c:217-238 | takes the ReadEnd step |
| WrapperObject.Wrapper.EnqueueModification | source/libs/concurrent/c/src/icThreadSafeWrapper.c:254-315 | takes the Enqueue step: rejects, runs at once or queues |
| PoolTheorems.CreateInv | source/libs/concurrent/c/src/threadPool.c:129-188 | a new pool has its minimum of workers and satisfies the invariant |
| PoolSafety.StepKeepsInv | source/libs/concurrent/c/src/threadPool.c:193-375 | every step of workers, callers and the destroyer keeps the invariant |
| PoolTheorems.ThreadsEndOnce | source/libs/concurrent/c/src/threadPool.c:193-282 | once the pool is freed every worker thread was detached or joined, exactly one of the two; only a task that destroyed its own pool may still be inside, and its one step left never touches the pool |
| PoolTheorems.ThreadsEndAtMostOnce | source/libs/concurrent/c/src/threadPool.c:588-666 | in every reachable state no thread was disposed of twice, and a joined thread has exited |
| PoolTheorems.KeyDeletedOnce | source/libs/concurrent/c/src/threadPool.c:234-269 | the thread-local key is deleted at most once, and has been exactly when the pool is freed and all its workers have exited |
| PoolTheorems.NoWorkerAfterShutdown | source/libs/concurrent/c/src/threadPool.c:333-349 | from the start of shutdown no run adds a worker |
| PoolTheorems.RunningShape | source/libs/concurrent/c/src/threadPool.c:504-550 | while the pool runs the live workers are exactly those in slots 0 to threadCount-1 at their own offsets, the count is within its bounds, and active is the number of workers executing a task |
| PoolTheorems.DecrementGuardIdle | source/libs/concurrent/c/src/threadPool.c:655-666 | the guard on decrementing active never fires |
| PoolTheorems.StatisticsBalance | source/libs/concurrent/c/src/threadPool.c:350-375 | until shutdown and without a clear, tasks queued equal tasks run plus backlog plus those popped but not yet counted |
| PoolTheorems.TasksAtMostOnce | source/libs/concurrent/c/src/threadPool.c:297-375 | every task runs at most once, and its argument is freed at most once, exactly when neither the queue nor a worker holds it any more |
| PoolTheorems.TasksSettled | source/libs/concurrent/c/src/threadPool.c:681-697 | when the pool is gone every task ever handed over, run or rejected or left over, had its argument freed exactly once |
| PoolTheorems.StrandedIffNoMinimum | source/libs/concurrent/c/src/threadPool.c:588-609 | a pool can be left with a queued task and no worker if and only if its minimum is zero |
| PoolTheorems.NeverStranded | source/libs/concurrent/c/src/threadPool.c:588-609 | with a minimum of at least one that never happens in any run |
| PoolTheorems.StrandedWithoutMinimum | source/libs/concurrent/c/src/threadPool.c:340-349 | with minimum zero a concrete run, built for every pool size, leaves a task behind |
| PoolProgress.CreatedAsAsked | source/libs/concurrent/c/src/threadPool.c:129-188 | a new pool has the bounds and capacity asked for, its minimum of workers in their slots, and nothing to do |
| PoolProgress.AddTaskGrows | source/libs/concurrent/c/src/threadPool.c:297-375 | in every reachable state a task is accepted if and only if the pool lives, there is room and the push did not time out; an accepted one is last in the queue and brings one new worker, in the last slot, if and only if there is a free slot, however busy the pool is |
| PoolProgress.SomeoneForIt | source/libs/concurrent/c/src/threadPool.c:340-349 | after an accepted task the pool has its most workers or one that executes nothing |
| PoolProgress.AcceptedIsRun | source/libs/concurrent/c/src/threadPool.c:613-653 | over every run in which the pool lives, an accepted task is freed only after it was run |
| PoolProgress.OldestFirst | source/libs/concurrent/c/src/threadPool.c:572-587 | a worker takes the task accepted first among those waiting |
| PoolProgress.DestroyStops | source/libs/concurrent/c/src/threadPool.c:204-217 | a live pool can always be destroyed, by a caller or by its own running task, and is stopped at once |
| PoolProgress.DestructionCanFinish | source/libs/concurrent/c/src/threadPool.c:219-282 | from every reachable state of its destruction a pool can be brought to its end, with every worker exited and joined or detached once and the key deleted: none is stuck |
| PoolProgress.ClearStatisticsZeroes | source/libs/concurrent/c/src/threadPool.c:480-487 | clearing the statistics touches nothing else |
| PoolObject.Pool.constructor | source/libs/concurrent/c/src/threadPool.c:129-188 | creates the pool of the specification |
| PoolObject.Pool.AddWorkerThreads | source/libs/concurrent/c/src/threadPool.c:504-550 | adds as many workers as asked for and as there is room for, each at its own offset |
| PoolObject.Pool.AddTaskLocked | source/libs/concurrent/c/src/threadPool.c:297-375 | takes the AddTask step: queues the task and adds a worker while there is a free slot, or turns the task away and frees its argument |
| PoolObject.Pool.PopTask | source/libs/concurrent/c/src/threadPool.c:572-582 | takes the Pop step |
| PoolObject.Pool.RetireIfSpare | source/libs/concurrent/c/src/threadPool.c:588-612 | takes the Decide step of a worker without a task |
| PoolObject.Pool.BeginTask | source/libs/concurrent/c/src/threadPool.c:613-637 | takes the Decide step of a worker with a task |
| PoolObject.Pool.EndTask | source/libs/concurrent/c/src/threadPool.c:651-666 | takes the step after a task that left the pool alone |
| PoolObject.Pool.BeginDestroy | source/libs/concurrent/c/src/threadPool.c:204-217 | stops the pool and takes the snapshot of the thread count |
| PoolObject.Pool.JoinOrDetach | source/libs/concurrent/c/src/threadPool.c:219-257 | takes one Join step: detaches itself, or joins the thread in the slot |
| PoolObject.Pool.FreePool | source/libs/concurrent/c/src/threadPool.c:263-282 | frees what is left in the queue, and the key unless a worker's own task owns it |
| RepeatingTaskSafety.StepKeepsInv | source/libs/concurrent/c/src/repeatingTask.c:318-633 | every step of the task's thread and of any number of cancellers keeps the invariant |
| RepeatingTaskSafety.CanceledForever | source/libs/concurrent/c/src/repeatingTask.c:501-513 | CANCELED is absorbing in every run, and no callback starts from it |
| RepeatingTaskSafety.ReleasedByRemover | source/libs/concurrent/c/src/repeatingTask.c:318-390 | the task is released at most once, by whoever took it out of the list |
| RepeatingTaskSafety.NoUseAfterRelease | source/libs/concurrent/c/src/repeatingTask.c:562-633 | neither the thread nor a cancel call uses the task after its release |
| RepeatingTaskSafety.CancelStopsCallbacks | source/libs/concurrent/c/src/repeatingTask.c:318-390 | after a cancel call that took the task out has returned, no callback starts or is under way, in any run |
| RepeatingTaskSafety.AnotherCallbackIff | source/libs/concurrent/c/src/repeatingTask.c:486-633 | another callback can start if and only if the thread is in its loop and the task is not canceled |
| RepeatingTaskSafety.LateCancelReturnsEarly | source/libs/concurrent/c/src/repeatingTask.c:318-331 | a cancel call that comes second can return while callbacks still start |
| RepeatingTaskSafety.ArgumentHandedOver | source/libs/concurrent/c/src/repeatingTask.c:603-629 | in the end the argument went to the canceller unless the task completed by itself, and to the back-off success callback if there is one; to both exactly if such a task was canceled before completion |
| RepeatingTaskSafety.HandedOverTwiceIff | source/libs/concurrent/c/src/repeatingTask.c:603-629 | some run of a new task ends with its argument handed over twice if and only if it was created as a back-off task with a success callback |
| RepeatingTaskSafety.CanceledAtOnce | source/libs/concurrent/c/src/repeatingTask.c:318-390 | the run: canceled before its first callback, both get the argument |
| RepeatingTaskSafety.ArgumentAtMostOnceEach | source/libs/concurrent/c/src/repeatingTask.c:349-390 | neither of them receives it twice |
| RepeatingTaskTiming.FixedRateNoDrift | source/libs/concurrent/c/src/repeatingTask.c:531-560 | after k undisturbed runs the target is the creation time plus k periods, whatever the runs took, and the next run starts after it |
| RepeatingTaskTiming.BackOffFormulaIff | source/libs/concurrent/c/src/repeatingTask.c:188-210 | the delay after the k-th failed run is min(max, start + (k-1)*increment) for every k if and only if start <= max and max + increment fits 64 bits |
| RepeatingTaskTiming.OverflowBreaks | source/libs/concurrent/c/src/repeatingTask.c:188-210 | past 64 bits some delay misses the formula |
| RepeatingTaskTiming.BackOffMonotone | source/libs/concurrent/c/src/repeatingTask.c:188-210 | within those bounds the delays never shrink and never pass the maximum |
| RepeatingTaskTiming.BackOffRun | source/libs/concurrent/c/src/repeatingTask.c:531-560 | in every run without a change of delay the stored delay is that of the number of failed runs |
| RepeatingTaskTiming.BackOffWaits | source/libs/concurrent/c/src/repeatingTask.c:531-598 | left alone after its k-th failed run, the task starts again only once that delay has passed since the run ended |
| RepeatingTaskProgress.UnitsAre | source/libs/concurrent/c/src/repeatingTask.c:215-238 | a delay in nanoseconds, unit by unit |
| RepeatingTaskProgress.NormalWaits | source/libs/concurrent/c/src/repeatingTask.c:531-598 | left alone after a run, a normal task starts again only once its delay has passed since the run ended |
| RepeatingTaskProgress.TargetAfterRun | source/libs/concurrent/c/src/repeatingTask.c:542-573 | the next target, kind by kind, and that the thread pauses exactly unless it was told to go on or the target has passed |
| RepeatingTaskProgress.GoesOnIff | source/libs/concurrent/c/src/repeatingTask.c:575-600 | a paused task goes on at a look if and only if it was canceled, short-circuited or its target has passed |
| RepeatingTaskProgress.ShortCircuitStartsNext | source/libs/concurrent/c/src/repeatingTask.c:395-416 | a short-circuited paused task starts its callback at the next look, whatever the time |
| RepeatingTaskProgress.ChangeSetsDeadline | source/libs/concurrent/c/src/repeatingTask.c:423-469 | a change makes the pause under way end that long from now, and a run under way be followed by the new delay |
| RepeatingTaskProgress.CanceledIgnoresChanges | source/libs/concurrent/c/src/repeatingTask.c:395-469 | a canceled task ignores both |
| RepeatingTaskProgress.SuccessIsLast | source/libs/concurrent/c/src/repeatingTask.c:517-525 | after a back-off run that reports success no callback starts in any run |
| RepeatingTaskProgress.CompletesByItself | source/libs/concurrent/c/src/repeatingTask.c:603-630 | a new back-off task has a run in which it ends by itself: released by its own thread, its argument not returned, its success callback called if it has one |
| RepeatingTaskProgress.TaskCanEnd | source/libs/concurrent/c/src/repeatingTask.c:318-390 | from every state of the invariant the task can be brought to its end: no race of thread and cancellers is stuck |
| RepeatingTaskObject.RepeatTask.constructor | source/libs/concurrent/c/src/repeatingTask.c:243-309 | the new task of the specification |
| RepeatingTaskObject.RepeatTask.BeginRun | source/libs/concurrent/c/src/repeatingTask.c:496-513 | takes the Start step |
| RepeatingTaskObject.RepeatTask.EndRun | source/libs/concurrent/c/src/repeatingTask.c:531-573 | takes the EndRun step, with the wrapping back-off addition and the fixed-rate target |
| RepeatingTaskObject.RepeatTask.AfterWait | source/libs/concurrent/c/src/repeatingTask.c:575-600 | takes the Wake step |
| RepeatingTaskObject.RepeatTask.MarkComplete | source/libs/concurrent/c/src/repeatingTask.c:617-629 | a completed back-off task marks itself canceled and complete |
| RepeatingTaskObject.RepeatTask.RemoveFromList | source/libs/concurrent/c/src/repeatingTask.c:318-347 | takes the step under the list's mutex; true exactly for the one that found it |
| RepeatingTaskObject.RepeatTask.SignalCancel | source/libs/concurrent/c/src/repeatingTask.c:349-384 | takes the step under the task's mutex |
| RepeatingTaskObject.RepeatTask.BreakWait | source/libs/concurrent/c/src/repeatingTask.c:395-416 | takes the ShortCircuit step |
| RepeatingTaskObject.RepeatTask.ChangeDelay | source/libs/concurrent/c/src/repeatingTask.c:423-469 | takes the Change step |
| DelayedTask.Find | source/libs/concurrent/c/src/delayedTask.c:610-622 | the first task in the list with the handle, nothing exactly if there is none |
| DelayedTaskSafety.StepKeepsInv | source/libs/concurrent/c/src/delayedTask.c:140-577 | every step of the threads and of any callers keeps the invariant, with wake-ups at any time |
| DelayedTaskSafety.LookupUnambiguous | source/libs/concurrent/c/src/delayedTask.c:114-125 | in every reachable state a handle finds a task if and only if that task is live and has it |
| DelayedTaskSafety.RemovesItself | source/libs/concurrent/c/src/delayedTask.c:560-575 | the thread's delete by handle removes its own task and no other |
| DelayedTaskSafety.ArgumentHandedOverOnce | source/libs/concurrent/c/src/delayedTask.c:309-341 | the argument goes to the callback or to one cancel, never both, and to exactly one by the time the task is gone |
| DelayedTaskSafety.NotBeforeDeadline | source/libs/concurrent/c/src/delayedTask.c:514-535 | a callback never starts before the deadline last asked for, unless the task was forced out of its wait |
| DelayedTaskSafety.RescheduleMovesDeadline | source/libs/concurrent/c/src/delayedTask.c:246-273 | a reschedule that returns true set the deadline to now plus the delay while the argument was unclaimed; one that returns false changed nothing |
| DelayedTaskSafety.DeadlineHolds | source/libs/concurrent/c/src/delayedTask.c:514-526 | from any state, over any run without force or reschedule, the callback does not start before the deadline in force, even if the old wait had already timed out |
| DelayedTaskSafety.CallbackStartedOnce | source/libs/concurrent/c/src/delayedTask.c:528-547 | once the callback has started no run starts it again or hands the argument to a cancel |
| DelayedTaskSafety.ForcedImmediatelyIff | source/libs/concurrent/c/src/delayedTask.c:350-366 | after a force that reports success, in whatever phase the task is, the thread's next look starts the callback if and only if the task was waiting or its delay has passed anyway |
| DelayedTaskSafety.ForcedIdleForgotten | source/libs/concurrent/c/src/delayedTask.c:508-510 | a force of an idle task leaves no trace once its thread begins |
| DelayedTaskSafety.ForcedWaitingSettled | source/libs/concurrent/c/src/delayedTask.c:424-445 | after a force of a waiting task no cancel gets the argument in any run |
| DelayedTaskSafety.ScheduleKeepsHandlesIff | source/libs/concurrent/c/src/delayedTask.c:628-643 | scheduling keeps the live handles positive and strictly increasing if and only if the last one is not the largest 32-bit number |
| DelayedTaskSafety.HandleReused | source/libs/concurrent/c/src/delayedTask.c:628-643 | a removed task's handle can be given to a new task |
| DelayedTaskSafety.WaitTestIff | source/libs/time/c/src/timeUtils.c:173-182 | the seconds-and-nanoseconds arithmetic of the wait loop is exact: its test holds if and only if nanoseconds are left, in every unit |
| DelayedTaskProgress.CancelTakesEffectIff | source/libs/concurrent/c/src/delayedTask.c:309-341 | a cancel hands the argument over and cancels the task if and only if it is idle or waiting; otherwise, and without a task, nothing changes |
| DelayedTaskProgress.CanceledNeverRuns | source/libs/concurrent/c/src/delayedTask.c:484-577 | after such a cancel no run ever starts the callback or hands the argument over again |
| DelayedTaskProgress.LooksIff | source/libs/concurrent/c/src/delayedTask.c:493-535 | the thread's next look cleans up a canceled task, and starts the callback of an unforced one if and only if its delay has passed |
| DelayedTaskProgress.ScheduleAdds | source/libs/concurrent/c/src/delayedTask.c:140-199 | until the handles wrap, a new task is last in the list, idle, due after its delay, under a handle that no listed task has |
| DelayedTaskProgress.UnitsAre | source/libs/concurrent/c/src/delayedTask.c:447-469 | a delay in nanoseconds, unit by unit |
| DelayedTaskProgress.TaskCanEnd | source/libs/concurrent/c/src/delayedTask.c:484-577 | from every state of the invariant a task can be brought to its end, with its callback run once or its argument handed back once and never both |
| DelayedTaskObject.TaskObject.constructor | source/libs/concurrent/c/src/delayedTask.c:140-161 | the new task |
| DelayedTaskObject.TaskObject.ComputeWaitTime | source/libs/concurrent/c/src/delayedTask.c:447-479 | what is left of the delay |
| DelayedTaskObject.TaskObject.BeginThread | source/libs/concurrent/c/src/delayedTask.c:484-535 | the thread's first section: leave, wait or run, with the state it sets |
| DelayedTaskObject.TaskObject.AfterWake | source/libs/concurrent/c/src/delayedTask.c:518-535 | the thread after a wake-up: leave, wait on or run |
| DelayedTaskObject.TaskObject.CancelIt | source/libs/concurrent/c/src/delayedTask.c:309-341 | claims the argument and sets CANCELED if and only if the state was IDLE or WAITING |
| DelayedTaskObject.TaskObject.RescheduleIt | source/libs/concurrent/c/src/delayedTask.c:246-273 | moves the deadline exactly if the task is pending |
| DelayedTaskObject.TaskObject.ForceIt | source/libs/concurrent/c/src/delayedTask.c:424-445 | sets RUNNING exactly if the task is pending |
| DelayedTaskObject.TaskList.NextHandle | source/libs/concurrent/c/src/delayedTask.c:628-643 | one for an empty list, else the last handle plus one modulo 2^32 |
| DelayedTaskObject.TaskList.Lookup | source/libs/concurrent/c/src/delayedTask.c:114-125 | the first task with the handle, null exactly if there is none |
| DelayedTaskObject.TaskList.Delete | source/libs/concurrent/c/src/delayedTask.c:566-572 | removes the first task with the handle and keeps the order of the others |
| BlockingQueueSafety.BoundedFifo | source/libs/concurrent/c/src/icBlockingQueue.c:131-257 | in every run the contents never exceed the capacity, and without delete and clear the accepted elements are the popped ones in order followed by the contents |
| BlockingQueueSafety.StepKeepsFifo | source/libs/concurrent/c/src/icBlockingQueue.c:131-305 | with delete and clear too, popped and remaining elements are in acceptance order, no element twice, and every accepted element is popped, held or dropped |
| BlockingQueueSafety.DisabledForever | source/libs/concurrent/c/src/icBlockingQueue.c:307-318 | after disable no push or pop succeeds in any run |
| BlockingQueueSafety.DisableIsFinal | source/libs/concurrent/c/src/icBlockingQueue.c:307-318 | after any run with a disable in it the queue is disabled and everyone waiting has been signalled |
| BlockingQueueSafety.NothingSucceedsDisabled | source/libs/concurrent/c/src/icBlockingQueue.c:163-183 | no call that has not succeeded by then ever does |
| BlockingQueueSafety.PushSucceedsIff | source/libs/concurrent/c/src/icBlockingQueue.c:146-184 | a push succeeds if and only if the queue is enabled, its wait has not timed out and there is room, and its element is then last |
| BlockingQueueSafety.PopSucceedsIff | source/libs/concurrent/c/src/icBlockingQueue.c:216-252 | a pop succeeds if and only if the queue is enabled, its wait has not timed out and there is an element, and it then takes the first |
| BlockingQueueSafety.NewQueue | source/libs/concurrent/c/src/icBlockingQueue.c:62-81 | a new queue is empty and enabled with the capacity asked for, or 65535 |
| BlockingQueueSafety.WakeupsSufficeIff | source/libs/concurrent/c/src/icBlockingQueue.c:168-175 | for every capacity, no run with at most n waiters on each side loses a wake-up if and only if n <= 1, with waits that may end or time out at any moment, signalled or not |
| BlockingQueueSafety.TimeoutLosesSignal | source/libs/concurrent/c/src/icBlockingQueue.c:47-60 | with two waiting consumers the one that was signalled times out and the other sleeps on beside an element, for every capacity |
| BlockingQueueSafety.LostWakeup | source/libs/concurrent/c/src/icBlockingQueue.c:168-244 | without any timeout: two elements arrive for two waiting consumers and one sleeps on beside an element |
| BlockingQueueSafety.SleepersHaveNothing | source/libs/concurrent/c/src/icBlockingQueue.c:131-257 | with at most one waiter on each side, an unsignalled waiting consumer means an empty queue and a producer a full one, unless disabled |
| BlockingQueueSafety.EndlessUntilTimePasses | source/libs/concurrent/c/src/icBlockingQueue.c:144-159 | over all the waits of a call without timeout, a wait is endless if and only if no time has passed since the first; none after it is endless again, and the call gives up exactly when the infinite amount has passed |
| BlockingQueueSafety.FiniteWaitsEnd | source/libs/concurrent/c/src/icBlockingQueue.c:144-159 | the waits of a call with a shorter timeout are never endless, and it gives up exactly when that time has passed |
| BlockingQueueObject.NextWait | source/libs/concurrent/c/src/icBlockingQueue.c:47-60 | the turn of the wait loop computes those waits |
| BlockingQueueObject.Queue.constructor | source/libs/concurrent/c/src/icBlockingQueue.c:62-81 | an enabled empty queue of the capacity asked for, or the largest |
| BlockingQueueObject.Queue.PushSection | source/libs/concurrent/c/src/icBlockingQueue.c:131-189 | takes the push step up to the next wait; the element is appended exactly on success |
| BlockingQueueObject.Queue.PopSection | source/libs/concurrent/c/src/icBlockingQueue.c:202-257 | takes the pop step; the first element is removed and returned exactly on success |
| BlockingQueueObject.Queue.DeleteFirst | source/libs/concurrent/c/src/icBlockingQueue.c:259-280 | removes the first matching element, true exactly if there is one, and keeps the others in order |
| BlockingQueueObject.Queue.ClearAll | source/libs/concurrent/c/src/icBlockingQueue.c:291-305 | takes the Clear step |
| BlockingQueueObject.Queue.SetDisabled | source/libs/concurrent/c/src/icBlockingQueue.c:307-318 | takes the Disable step |
| TaskExecutorSafety.DrainRunsEverything | source/libs/concurrent/c/src/taskExecutor.c:130-172 | when a drain has returned, every accepted task no clear removed was run exactly once if it can be run and freed exactly once, after its run; the runs are exactly those tasks in acceptance order |
| TaskExecutorSafety.DestroyDropsTheQueue | source/libs/concurrent/c/src/taskExecutor.c:91-125 | a destroy drops exactly what is queued; those tasks never ran and are freed once |
| TaskExecutorSafety.EverythingFreed | source/libs/concurrent/c/src/taskExecutor.c:177-190 | after teardown every task ever appended was freed exactly once, except one rejected without a free function, and only finished ones ran |
| TaskExecutorSafety.RejectionFrees | source/libs/concurrent/c/src/taskExecutor.c:226-266 | a rejected task is left unfreed if and only if the executor was already winding down and the task has no free function |
| TaskExecutorSafety.ForwardOnly | source/libs/concurrent/c/src/taskExecutor.c:91-172 | the state only moves forward through RUN, FINISH, CANCEL, and nothing is accepted after RUN |
| TaskExecutorSafety.StepKeepsInv | source/libs/concurrent/c/src/taskExecutor.c:91-398 | every step of the worker, the appenders, clear and teardown keeps the invariant |
| TaskExecutorProgress.AppendAcceptsIff | source/libs/concurrent/c/src/taskExecutor.c:226-266 | in every reachable state a task is accepted, last in queue and order, if and only if the state is RUN and fewer than 100 are queued; it waits if and only if the state is RUN and 100 are; otherwise it is rejected |
| TaskExecutorProgress.RetryAcceptsIff | source/libs/concurrent/c/src/taskExecutor.c:244-256 | a waiting append is accepted if and only if it has not timed out and there is room, and rejected if and only if it has |
| TaskExecutorProgress.ClearRemovesQueue | source/libs/concurrent/c/src/taskExecutor.c:195-212 | in RUN a clear removes exactly what is queued, each freed once and never run; otherwise it does nothing |
| TaskExecutorProgress.TeardownBegins | source/libs/concurrent/c/src/taskExecutor.c:91-172 | with no append waiting, a drain and a destroy of an executor take effect at once and keep the queue |
| TaskExecutorProgress.TeardownCanFinish | source/libs/concurrent/c/src/taskExecutor.c:91-190 | from every reachable state with no append waiting teardown can be finished, as a drain unless a destroy has begun: none is stuck |
| TaskExecutorObject.Executor.constructor | source/libs/concurrent/c/src/taskExecutor.c:72-86 | a running executor with an empty queue |
| TaskExecutorObject.Executor.AppendTask | source/libs/concurrent/c/src/taskExecutor.c:226-266 | takes the Append step: queued exactly in RUN with fewer than 100 queued, left waiting in RUN with more, else refused, with exactly the frees that go with it |
| TaskExecutorObject.Executor.RetryAppend | source/libs/concurrent/c/src/taskExecutor.c:244-256 | the same after a wake-up from that wait |
| TaskExecutorObject.Executor.FreeQueue | source/libs/concurrent/c/src/taskExecutor.c:322-330 | frees every container in order and empties the queue |
| TaskExecutorObject.Executor.ClearAll | source/libs/concurrent/c/src/taskExecutor.c:195-212 | takes the Clear step, which does nothing outside RUN |
| TaskExecutorObject.Executor.CheckState | source/libs/concurrent/c/src/taskExecutor.c:344-366 | goes on exactly unless canceled, or finishing with an empty queue |
| TaskExecutorObject.Executor.HandleOne | source/libs/concurrent/c/src/taskExecutor.c:370-392 | takes the first container, runs it if it can be run, then frees it |
| TaskExecutorObject.Executor.FinishQueue | source/libs/concurrent/c/src/taskExecutor.c:335-398 | in FINISH the worker's loop runs and frees all that is queued, in order, and exits |
| TaskExecutorObject.Executor.BeginDrain | source/libs/concurrent/c/src/taskExecutor.c:139-159 | takes the Drain step |
| TaskExecutorObject.Executor.BeginDestroy | source/libs/concurrent/c/src/taskExecutor.c:98-109 | takes the Destroy step; must join exactly if not yet canceled |
| TaskExecutorObject.Executor.InternalDestroy | source/libs/concurrent/c/src/taskExecutor.c:177-190 | frees what is left |
| Storage.SaveThenLoad | source/libs/config/c/src/storage.c:102-187 | a completed save is what the next load returns if and only if the value is not empty and parses; after an empty save the next load returns the value before it |
| Storage.ReportedSaveIff | source/libs/config/c/src/backupUtils.c:62-94 | a save reported as success took effect if and only if its final rename did; otherwise the next load returns the old value |
| Storage.CrashSafeIff | source/libs/config/c/src/backupUtils.c:62-94 | a save cut short between any two steps leaves the old or the new value to the next load if and only if the old value stood in the main file |
| Storage.RecoverableLoads | source/libs/config/c/src/storage.c:236-335 | whatever file a recoverable value is in, load returns it and puts it back into main |
| Storage.LoadTwiceIff | source/libs/config/c/src/storage.c:236-335 | a second load returns what the first did if and only if the first did not accept an empty backup in place of a rejected main file |
| Storage.EmptyBackupLoadsOnce | source/libs/config/c/src/storage.c:258-314 | in that case the empty value loads once and then nothing does |
| Storage.ItemsDisjointIff | source/libs/config/c/src/storage.c:79-92 | two items share a file if and only if one's path is one of the other's suffixed paths |
| Storage.OtherItemsKept | source/libs/config/c/src/storage.c:102-335 | saving, loading or crashing on one item does not change what a disjoint one loads |
| Storage.DeleteThenLoad | source/libs/config/c/src/storage.c:435-467 | after a delete nothing loads; after one cut short the backup's value does |
| Storage.SaveLeaves | source/libs/config/c/src/backupUtils.c:62-94 | after a save main has the value, backup what main had, the temporary file is gone and nothing else changed |
| Storage.LoadLeaves | source/libs/config/c/src/storage.c:258-314 | a rejected main file is kept as the bad file, and a load touches nothing but these two |
| Storage.DeleteLeaves | source/libs/config/c/src/storage.c:435-467 | a delete removes the item's four files and nothing else |
| Storage.PathsDistinct | source/libs/config/c/src/storage.c:79-92 | the four paths of an item differ |
| StorageRuns.NothingLost | source/libs/config/c/src/storage.c:102-335 | at every moment of every run in which a save begins only over a main file that loads, crashes and failed writes, renames and copies included, a load returns the last value swapped in and restores it |
| StorageRuns.NothingOwed | source/libs/config/c/src/storage.c:102-335 | at rest the main file loads unless, since the last load or save that went through, there was a crash, a cut copy, or a save that moved the main file away and failed to swap in the new one |
| StorageRuns.LoadPays | source/libs/config/c/src/storage.c:236-335 | one undisturbed load makes the main file load again, so a load after every such event is enough |
| StorageRuns.CutShortLosesIff | source/libs/config/c/src/backupUtils.c:62-94 | a save begun at rest and cut short after its first rename keeps the value if and only if the main file loaded when it began |
| StorageRuns.FailedSwapLoses | source/libs/config/c/src/backupUtils.c:84-94 | a save reported as success whose last rename failed, followed by a save cut short, loses the value with no crash before the second save |
| StorageRuns.StepKeepsInv | source/libs/config/c/src/backupUtils.c:62-139 | every step of such a run keeps the value recoverable |
| StorageRuns.TwoCrashesLose | source/libs/config/c/src/backupUtils.c:68-94 | two saves cut short with no load between can lose the value |
| StorageRuns.PartialCopyIff | source/libs/config/c/src/storage.c:290-335 | a repair copy cut short keeps the value loadable if and only if it was empty, complete or rejected by the parser |
| StorageObject.Store.SafeFileSave | source/libs/config/c/src/backupUtils.c:62-94 | the renames and unlinks in order, under any combination of failures |
| StorageObject.Store.Save | source/libs/config/c/src/storage.c:102-187 | takes the save's outcome; true exactly if the temporary file was written |
| StorageObject.Store.Load | source/libs/config/c/src/storage.c:236-335 | returns what the specification loads and leaves the files it leaves, whatever rename or copy fails and however far the copy gets |
| StorageObject.Store.Delete | source/libs/config/c/src/storage.c:435-467 | removes main and backup; true exactly if main was there |
| NegativeRuleGraph.ConstraintsEnteredIff | source/libs/cslt/src/sheens/sheens_transcoder_negative.c:207-249 | on every event sequence the compiled rule enters constraints exactly on the events on which the reference window machine fires, and its actions exactly on those the constraints allow |
| NegativeRuleGraph.ActionsPerformedOnce | source/libs/cslt/src/sheens/sheens_transcoders.c:503-510 | on every event sequence the script of the actions is run exactly once on an event on which the rule fires and its constraints allow, and on no other |
| NegativeRuleGraph.GraphFollows | source/libs/cslt/src/sheens/sheens_transcoder_negative.c:68-249 | on every event sequence the graph goes through exactly the nodes of the reference machine and ends where it does |
| NegativeRuleGraph.GraphRuns | source/libs/cslt/src/sheens/sheens_transcoder_negative.c:68-249 | the graph never gets stuck |
| NegativeRuleGraph.WindowAfterReset | source/libs/cslt/src/sheens/sheens_transcoder_negative.c:236-238 | every branch into the trigger window comes from the node that resets the bindings |
| NegativeRuleGraph.WaitsWithClearBindings | source/libs/cslt/src/sheens/sheens_json.c:86-104 | whenever the machine waits, its bindings are reset but for what persists |
| NegativeRule.FiresIff | source/libs/cslt/src/sheens/sheens_transcoder_negative.c:207-249 | a rule fires if and only if the event is an end-time tick after a tick that opened the window, with no trigger and no end-time tick in between |
| NegativeRule.FiresOnEventsIff | source/libs/cslt/src/sheens/sheens_transcoder_negative.c:207-249 | read off the events alone when no tick is at both times: it fires if and only if the event is an end-time tick after a start-time tick with no trigger and no end-time tick in between |
| NegativeRule.StartThenEndFires | source/libs/cslt/src/sheens/sheens_transcoder_negative.c:207-249 | a start-time tick that is no end-time tick, then an end-time tick with no trigger or end-time tick between, always fires |
| NegativeRule.OpensOrCloses | source/libs/cslt/src/sheens/sheens_transcoder_negative.c:213-229 | one tick never both opens and closes the window |
| NegativeRule.FiresOncePerWindow | source/libs/cslt/src/sheens/sheens_transcoder_negative.c:222-229 | a second end-time tick does not fire although no trigger came since the start |
| NegativeRuleObject.NodesObject.BuildTimeNode | source/libs/cslt/src/sheens/sheens_transcoder_negative.c:68-139 | adds the time node, failing exactly on an unknown sun time and then adding nothing |
| NegativeRuleObject.NodesObject.BuildTriggers | source/libs/cslt/src/sheens/sheens_transcoder_negative.c:150-205 | adds the window node with the triggers in order before the tick, failing exactly if one cannot be translated |
| NegativeRuleObject.NodesObject.NegativeToGraph | source/libs/cslt/src/sheens/sheens_transcoder_negative.c:207-249 | adds the four nodes and returns the start branch, or fails exactly on a bad time or trigger |
| NegativeRuleObject.NodesObject.Compile | source/libs/cslt/src/sheens/sheens_transcoders.c:322-353 | the whole graph, failing also on an empty trigger list |
| Sheens.SettlesOnce | source/libs/cslt/src/sheens/sheens_json.c:28-104 | from any configuration of any graph the nodes visited until the next wait are determined |
| Schedule.CoverageKept | source/libs/libicrule/src/icrule_schedule.c:166-183 | after merging any list of entries that all name thermostats, every thermostat, day, time, mode and temperature asked for is covered |
| Schedule.CoversNextIff | source/libs/libicrule/src/icrule_schedule.c:43-97 | every possible next entry keeps its coverage if and only if no item has an empty id list |
| Schedule.EmptyEntryLosesCoverage | source/libs/libicrule/src/icrule_schedule.c:52-54 | an entry without ids swallows a later one that has them |
| Schedule.OverCoverageIff | source/libs/libicrule/src/icrule_schedule.c:52-90 | inserting any entry covers only what was covered before or is asked for by it if and only if every thermostat its host names beyond it was covered on its days already |
| Schedule.OverCoverage | source/libs/libicrule/src/icrule_schedule.c:59-65 | two entries of one rule merge so that a thermostat the second does not name changes on the second's day |
| Schedule.DaysAreUnion | source/libs/libicrule/src/icrule_schedule.c:177-179 | an item has a day if and only if one of the entries that went into it has |
| Schedule.OwnerHosts | source/libs/libicrule/src/icrule_schedule.c:43-97 | every entry went into an item with its key that names all its thermostats or none |
| Schedule.MergedSeparate | source/libs/libicrule/src/icrule_schedule.c:173-183 | no later item would be absorbed by an earlier one |
| Schedule.SameEntriesShare | source/libs/libicrule/src/icrule_schedule.c:166-183 | entries with the same key and the same thermostats always go into one item |
| Schedule.NamedBeforeAddsNothing | source/libs/libicrule/src/icrule_schedule.c:59-90 | an entry whose thermostats an earlier one with its key named adds no item |
| Schedule.UnnamedAddsItem | source/libs/libicrule/src/icrule_schedule.c:79-96 | one that names a thermostat no earlier entry with its key named, none of those being empty, adds one |
| Schedule.ItemsDiffer | source/libs/libicrule/src/icrule_schedule.c:173-183 | no two items have the same key and the same thermostats |
| ScheduleObject.Contains | source/libs/libicrule/src/icrule_schedule.c:67-77 | the innermost search |
| ScheduleObject.ContainsAll | source/libs/libicrule/src/icrule_schedule.c:56-84 | the search with its rejected flag: true exactly for a subset |
| ScheduleObject.ScheduleList.FindHost | source/libs/libicrule/src/icrule_schedule.c:43-97 | the first item that absorbs the entry |
| ScheduleObject.ScheduleList.Add | source/libs/libicrule/src/icrule_schedule.c:173-183 | adds the days in place, or appends the entry |
| ScheduleObject.ScheduleList.AddAll | source/libs/libicrule/src/icrule.c:103-110 | a rule's entries, merged in order |
| Actions.ExpandZips | source/libs/libicrule/src/icrule_action.c:549-701 | with a device id and a largest size N >= 2 there are N actions, and each parameter's values over them are its counted tokens, all of them if fewer than 65536, padded with the last |
| Actions.ExpandAt | source/libs/libicrule/src/icrule_action.c:637-690 | action i keeps everything of the original but values |
| Actions.ExpandCopiesRest | source/libs/libicrule/src/icrule_action.c:608-611 | a parameter without counted tokens is copied as it is |
| Actions.PassesThrough | source/libs/libicrule/src/icrule_action.c:695-698 | an action without a parameter of a device type passes through as it is, commas and all |
| Actions.SingleTokensPassThrough | source/libs/libicrule/src/icrule_action.c:624-630 | so does one whose lists all have at most one token, when one of them has a token |
| Actions.NamesDeviceIff | source/libs/libicrule/src/icrule_action.c:561-578 | the device types are camera, sensor, light, door lock and thermostat |
| Actions.CleanupKeeps | source/libs/libicrule/src/icrule_action.c:513-538 | cleanup keeps exactly the parameters with a value, as they are |
| Actions.NoTokenLost | source/libs/libicrule/src/icrule_action.c:656-687 | counted token j of every parameter is its value in action j |
| Actions.AllTokensKeptIff | source/libs/libicrule/src/icrule_action.c:602-617 | a parameter has all its tokens in their places if and only if there are fewer than 65536 |
| Actions.ExpandTwice | source/libs/libicrule/src/icrule_action.c:549-701 | expanding an expanded action gives it back |
| Actions.VanishesIff | source/libs/libicrule/src/icrule_action.c:637-692 | an action vanishes if and only if it names a device and no list has a counted token |
| Actions.OnePerEntryIff | source/libs/libicrule/src/icrule_action.c:588-617 | there is one action per entry of the longest list if and only if its size fits 16 bits |
| Strtok.TokensOfJoin | source/libs/libicrule/src/icrule.c:338-357 | splitting undoes joining for any list of tokens |
| Strtok.TokensKeepCharacters | source/libs/libicrule/src/icrule.c:338-357 | splitting loses separators only |
| Strtok.TokensAreTokens | source/libs/libicrule/src/icrule.c:338-357 | every token is non-empty and free of separators |
| Strtok.CutTokens | source/libs/config/c/src/protectConfig.c:121-149 | what the first call leaves of a buffer is its beginning up to the end of the first token |
| Strtok.NextToken | source/libs/libicrule/src/icrule.c:346-352 | one step of the tokenizer: the next token and where it ends, or nothing left |
| Strtok.FirstToken | source/libs/config/c/src/protectConfig.c:121-124 | the first call on a buffer, with what it leaves of it |
| ActionsObject.StrtokToList | source/libs/libicrule/src/icrule.c:338-357 | the list of tokens |
| ActionsObject.CopyAction | source/libs/libicrule/src/icrule_action.c:452-511 | an equal action |
| ActionsObject.ActionParser.CleanupInvalid | source/libs/libicrule/src/icrule_action.c:513-538 | fails exactly if a required parameter has no value; otherwise exactly those with values are left |
| ActionsObject.ActionParser.FindDevice | source/libs/libicrule/src/icrule_action.c:555-579 | whether some parameter names a device |
| ActionsObject.ActionParser.SplitAll | source/libs/libicrule/src/icrule_action.c:586-622 | the token lists and the largest 16-bit size |
| ActionsObject.ActionParser.AssignEntry | source/libs/libicrule/src/icrule_action.c:655-687 | the values of entry i |
| ActionsObject.ActionParser.ParseMultivalue | source/libs/libicrule/src/icrule_action.c:549-701 | appends the expansion to the list, and an action without a device as it is |
| Framing.RoundTripIff | source/libs/config/c/src/protectConfig.c:271-612 | unprotect after protect gives the data back if and only if it is not empty, does not end in a zero byte and its padded length is below 65536, in every version |
| Framing.FrameCarries | source/libs/config/c/src/protectConfig.c:307-414 | a message in the current format carries the version in use and the vector drawn; a legacy one has no separator |
| Framing.KeyLengthChecked | source/libs/config/c/src/protectConfig.c:327-332 | a key that is not 32 bytes long is refused for writing and reading |
| Framing.VectorChecked | source/libs/config/c/src/protectConfig.c:497-519 | a vector that does not decode, or decodes to under 65536 bytes but not sixteen, is refused |
| Framing.ExtractOfFormat | source/libs/config/c/src/protectConfig.c:107-153 | extracting the printed message returns its three parts |
| Framing.LegacyNotExtracted | source/libs/config/c/src/protectConfig.c:107-153 | a string without separator is never taken for a message |
| Framing.UnprotectOfFrame | source/libs/config/c/src/protectConfig.c:492-537 | reading finds the vector and text that were framed, in the new and the legacy format |
| Framing.RestIgnored | source/libs/config/c/src/protectConfig.c:522-538 | a value that is not a message is read as if it ended with its first token, because the extraction has cut its buffer there |
| Framing.OpensShorter | source/libs/config/c/src/protectConfig.c:376-381 | past 16 bits nothing is written, or what is read back is shorter than the data |
| Framing.EmptyNotProtected | source/libs/config/c/src/protectConfig.c:376-427 | nothing is written for the empty value |
| Framing.TrimOfPaddedIff | source/libs/config/c/src/protectConfig.c:594-600 | cutting trailing zero bytes undoes the padding if and only if the data does not end in one |
| Framing.PadLengthLeast | source/libs/config/c/src/protectConfig.c:343-350 | the padded length is the least multiple of 16 that holds the data |
| Framing.MaskIsWholeBlocks | source/libs/config/c/src/protectConfig.c:349-350 | the bit mask rounds down to whole blocks for every 32-bit length |
| Framing.StrtoulOfPrint | source/libs/config/c/src/protectConfig.c:125-133 | a printed version is read back |
| Framing.StrtoulReads | source/libs/config/c/src/protectConfig.c:125-133 | a version may have spaces and a sign before it and anything after it; a negative one wraps and one past 64 bits is an error |
| Framing.MessageIff | source/libs/config/c/src/protectConfig.c:107-153 | any list of parts makes a message if and only if there are three and the first is read as at most 255 |
| Framing.UnforcedVersion | source/libs/config/c/src/protectConfig.c:522-537 | until a version is forced, the version in use is the legacy one if and only if a legacy value was read |
| Framing.ForcedVersion | source/libs/config/c/src/protectConfig.c:235-257 | once forced, reads never change it, and without downgrade it never goes down |
| Framing.ForceSets | source/libs/config/c/src/protectConfig.c:235-257 | a force sets exactly the version asked for if it exists and is not lower or a downgrade is asked for, and otherwise does nothing |
| FramingObject.ExtractParts | source/libs/config/c/src/protectConfig.c:107-153 | the token loop computes the extraction, failures included, and what it leaves of its buffer |
| FramingObject.PadBlock | source/libs/config/c/src/protectConfig.c:358-361 | the zeroed buffer with the data at its front |
| FramingObject.TrimBlock | source/libs/config/c/src/protectConfig.c:597-600 | the loop over trailing zero bytes |
| FramingObject.OpenText | source/libs/config/c/src/protectConfig.c:538-612 | decodes, decrypts and trims |
| FramingObject.ProtectSession.ForceVersion | source/libs/config/c/src/protectConfig.c:235-257 | takes the Force step; true exactly if it applies |
| FramingObject.ProtectSession.ProtectData | source/libs/config/c/src/protectConfig.c:271-434 | the message of the specification in the version in use |
| FramingObject.ProtectSession.UnprotectData | source/libs/config/c/src/protectConfig.c:449-612 | the value of the specification, and the version state after it |

## Left out

- Fairness and the termination of callbacks: it is proved that teardown and tasks can always be finished, not that a thread is ever scheduled; an append to a full executor queue holds the executor's mutex while it waits.
- Thread pool: maxTasksQueued and maxConcurrentTasks are not modelled, nor failures to create a thread.
- Thread pool: a pool is destroyed at most once, and nobody uses it after that except the task that destroys its own pool.
- Task executor: a destroy beside a drain that is still joining would join the worker twice and is not modelled; nor is a NULL executor.
- Repeating tasks: a callback that cancels its own task is not modelled.
- Repeating and delayed tasks: short circuit, change, reschedule and force look a task up, drop the list's mutex and then use the pointer; the model takes lookup and use as one step, so it says nothing of a task freed in between.
- Delayed tasks: finalizeAllDelayTasks, scheduleTimeOfDayTask and the overflow of a delay in hours or minutes.
- Blocking queue: iterate and the exact times of waits; a wait may end at any moment.
- Wrapper: awaiting a future, and copies of the modify call that only combine enqueue and await.
- Storage: storageGetKeys, namespaces, restore, file times and permissions; files are whole values, so a torn write is modelled only for the temporary file and the repair copy.
- Negative rules: the text of the scripts and the translation of triggers, which may add nodes of their own; triggers are predicates on events that no timer tick meets, and every event carries its time, sun times and status.
- Schedules: parsing of entries and the emission of set points; an item covers what its ids, days and key say.
- Actions: parsing of XML and attachments; parameters come with the values that cleanup leaves.
- Framing: cipher and base64 are any functions that undo each other; lengths within 15 of 2^32 are not modelled.
- FramingObject.OpenText: a text whose bytes are not whole blocks gives NotWholeBlocks, because there the code decrypts bytes past the ones it decoded, which the model does not have.
- FramingObject.ProtectSession.UnprotectData: the same for such a message.
- Framing: a session that is not open.
- Logging, errno values, memory failures, command-line tools, user interface and inter-process clients.
