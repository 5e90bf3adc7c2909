# Verified model of the utils-framework reactor

A model, in Dafny 4.11, of the three layers of the framework that share one thread and its
callbacks, with proofs of what they promise over whole runs.

- **Timer manager.** Many timers on one timerfd: an ordered multimap, a uniqueness rule on
  (subscriber, user id), and a kernel timer that has to follow the map's first key through every
  start, cancel, expiry and rollback. The kernel timer (armed instant, unread expirations, what
  `timerfd_settime` accepts, what it takes for "disarm") and the clock are part of the model.
- **Event loop.** The handler map, the map of removed handlers, epoll's interest list with its raw
  handler addresses, batches of at most three events, and the queue of scheduled events. Callbacks
  and scheduled events may add, update, remove, schedule and stop at will, and the allocator may use
  a freed address again.
- **Active object.** A queue under a mutex signalled by a semaphore eventfd, with any number of
  clients, as interleaved atomic steps, and the destructor's stop handshake.

## How it is built

Each layer has a state machine (`*Model.dfy`): total functions on values, one per operation, and a
run that is *any* sequence of steps, where a step that the thread cannot take changes nothing. The
theorems are about these runs. Each layer also has a class (`TimerManager.dfy`, `EventLoop.dfy`,
`ActiveObjectThread.dfy`) with the members, loops and in-place updates of the C++ class; every method
is proved to do to the object's state exactly what the state machine's function says. User code is a
script of calls: all scripts are covered, so callbacks that decide at run time are too.

| file | contents |
|---|---|
| Options.dfy | the option type |
| TimerKernel.dfy | the timerfd and the conversion to seconds and nanoseconds |
| TimerQueue.dfy | the multimap as an ordered sequence |
| TimerModel.dfy, TimerInvariants.dfy, TimerTheorems.dfy | the manager's state machine, what every run keeps, what runs promise |
| TimerManager.dfy | the manager as a class |
| EventMasks.dfy | the two event masks |
| EventLoopModel.dfy, EventLoopSafety.dfy, EventLoopRuns.dfy, EventLoopDrain.dfy | the loop's small-step machine, memory safety and dispatching, stopping and task order, draining and whole runs |
| EventLoop.dfy | the loop as a class, with handler objects |
| ActiveObjectModel.dfy, ActiveObjectTheorems.dfy | the interleaved machine and its theorems |
| ActiveObjectThread.dfy | the active object as a class, under interference |

## Where the code is not what its interface says

- `startPeriodicalTimer` passes `isPeriodical = false`, so what it starts fires at most once, in any run
  (`StartPeriodicalTimerFiresAtMostOnce`; one such run is `StartPeriodicalTimerFiresOnlyOnce`). The renewal
  branch is modelled all the same, because `launchNewTimer` takes both values of the flag:
  `RenewedIffPeriodical` says that the flag alone decides, and the spacing theorem is about timers that
  have it.
- The kernel timer does not always follow the first key. A launch for instant 0 (that takes a negative
  timeout, unless the clock is at 0) is accepted but not armed (`ZeroInstantIsNotArmed`, `LaunchAgreesIff`), and the result of
  `timerfd_settime` is ignored when a renewal is for an instant that is not positive. `RunAgreesIff` gives
  the exact condition for a whole run. Even then nothing fires early and no expiration finds an empty
  map: those theorems are about all runs.
- A failed `EPOLL_CTL_MOD` leaves the handler's mask changed. `UpdateAgreesIff` says exactly when the
  two masks agree, `RefusedUpdateSplitsTheMasks` is a case where they do not.
- The active object promises to end only after all scheduled functions have been carried out. When no user
  function stops its event loop, everything scheduled before the destructor's request is carried out if
  and only if the thread's `addFdHandler` did not fail (`ShutdownDrains`, `RefusedThreadRunsNothing`); what
  is scheduled after it, as by a function that is still to run, never is. When a user function does
  stop the loop, at most one more function is carried out (`UserStopLeavesTheRest`,
  `StoppedThreadLeavesAFunction`).

## Assumptions

- Instants are nanoseconds of CLOCK_MONOTONIC, which never goes back and which
  `std::chrono::steady_clock` reads. The kernel timer expires at some moment not before its instant.
- The `timerfd_settime` calls whose result the code ignores fail only on a malformed time.
- After `EPOLL_CTL_DEL` the fd is not in the interest list, whatever the call returned.
- epoll_wait reports distinct fds of the interest list; the event words are arbitrary.
- Handlers scheduled with `scheduleEvent` schedule finitely many others (only for the theorems
  about draining; the others allow endless scheduling).

## Model

| member | source | states |
|---|---|---|
| TimerKernel.TimespecIsExact | sw/timer/src/timerManagerImpl.cc:178-185 | the pair handed to the kernel denotes the expiry exactly, is well formed iff the expiry is not negative, and is the disarming pair iff it is 0 |
| TimerKernel.TimespecKeepsOrder | sw/timer/src/timerManagerImpl.cc:178-185 | on instants the kernel takes, lexicographic order of pairs is the order of instants |
| TimerQueue.UpperBound | sw/timer/inc/timerManagerImpl.h:67-72 | a new multimap node goes behind every node whose key is not larger |
| TimerQueue.EraseUndoesFrontEmplace | sw/timer/src/timerManagerImpl.cc:136-141 | erasing by key undoes an insertion that came first, although the erase takes all equal keys |
| TimerQueue.EraseKeyTakesAll | sw/timer/src/timerManagerImpl.cc:141 | erasing by key takes every node with the key and no other |
| TimerQueue.SortedIsUnique | sw/timer/inc/timerManagerImpl.h:67-72 | a multiset of nodes has one arrangement in the order (expiry, insertion) |
| TimerInvariants.RollbackIsExact | sw/timer/src/timerManagerImpl.cc:108-149 | a launch that does not return NORMAL leaves the ordered map and all records unchanged, and the whole state once there is a descriptor |
| TimerInvariants.LaunchReturns | sw/timer/src/timerManagerImpl.cc:115-145 | exactly when a launch returns ALREADY_EXISTS, INTERNAL_FAULT and NORMAL; a failing one changes nothing but that there may be a descriptor |
| TimerInvariants.LaunchStarts | sw/timer/src/timerManagerImpl.cc:134-148 | an accepted launch adds one node, due at the clock plus the timeout, keeps all others in order, and sets the kernel timer iff the node comes first |
| TimerInvariants.StartTimerStarts | sw/timer/src/timerManagerImpl.cc:58-67 | the return codes of startTimer, and that it starts one timer of the given name and timeout that is not periodic |
| TimerInvariants.StartPeriodicalTimerStarts | sw/timer/src/timerManagerImpl.cc:69-79 | the same of startPeriodicalTimer: the timer carries the interval, is first due after it, and is not periodic |
| TimerInvariants.CancelReturns | sw/timer/src/timerManagerImpl.cc:88-105 | NORMAL exactly when a timer of the name is active, NOT_FOUND otherwise; that timer and no other leaves the map |
| TimerInvariants.ExpirationReturns | sw/timer/src/timerManagerImpl.cc:209-249 | the first timer fires, a periodic one and no other comes back an interval after the clock, and the kernel timer is set for the new first key |
| TimerInvariants.ClockIsElapsed | sw/timer/src/timerManagerImpl.cc:58-249 | no operation moves the clock |
| TimerInvariants.RunWf | sw/timer/src/timerManagerImpl.cc:108-249 | in every run the map is in multimap order and no two active timers share subscriber and user id |
| TimerInvariants.LaunchesAreConserved | sw/timer/src/timerManagerImpl.cc:88-249 | every accepted launch is exactly one of active, cancelled, fired for good |
| TimerInvariants.OneShotFiresOnce | sw/timer/src/timerManagerImpl.cc:237-240 | a timer without the periodic flag fires at most once in any run |
| TimerInvariants.RenewedIffPeriodical | sw/timer/src/timerManagerImpl.cc:230-240 | the fired timer is active again iff its flag is set |
| TimerTheorems.StartTimerFiresOnce | sw/timer/src/timerManagerImpl.cc:58-67 | from any reachable state and in any continuation, what startTimer started fires at most once, under its name, and not before its timeout is over |
| TimerTheorems.StartPeriodicalTimerFiresAtMostOnce | sw/timer/src/timerManagerImpl.cc:69-79 | from any reachable state and in any continuation, what startPeriodicalTimer started fires at most once, and not before the interval is over |
| TimerInvariants.StartPeriodicalTimerFiresOnlyOnce | sw/timer/src/timerManagerImpl.cc:74 | a concrete periodic start that is gone after its first firing |
| TimerTheorems.LaunchAgreesIff | sw/timer/src/timerManagerImpl.cc:115-145 | a launch keeps kernel timer and first key in agreement iff it is not for instant 0, or the name is taken, there is no descriptor, or the kernel refuses |
| TimerTheorems.ZeroInstantIsNotArmed | sw/timer/src/timerManagerImpl.cc:182-187 | a concrete accepted launch that the kernel is not armed for |
| TimerTheorems.CancelKeepsArmed | sw/timer/src/timerManagerImpl.cc:94-98 | cancelling the first timer or another keeps the agreement |
| TimerTheorems.ExpiredKeepsArmed | sw/timer/src/timerManagerImpl.cc:209-243 | the agreement holds when the subscriber is called, unless the fired timer was renewed at an instant that is not positive |
| TimerTheorems.HarmfulRenewalDisagrees | sw/timer/src/timerManagerImpl.cc:230-243 | after such a renewal the kernel timer is not armed for the first key |
| TimerTheorems.RunAgreesIff | sw/timer/src/timerManagerImpl.cc:94-243 | in all states of a run the kernel timer is armed for, or holds one expiration of, exactly the first key, and is idle when the map is empty, iff no step launches at instant 0 with effect or renews at an instant that is not positive |
| TimerTheorems.ForwardRunsAgree | sw/timer/src/timerManagerImpl.cc:94-243 | with timeouts and intervals that are not negative the kernel timer agrees with the map in every reachable state |
| TimerTheorems.ExpirationFindsADueTimer | sw/timer/src/timerManagerImpl.cc:224-248 | in every run, the error branch is unreachable, and an expiration that is read fires a due timer |
| TimerTheorems.ArmedPairIsLeast | sw/timer/src/timerManagerImpl.cc:173-200 | the armed pair is well formed, not the disarming one, and least among all active timers' |
| TimerTheorems.NothingFiresEarly | sw/timer/src/timerManagerImpl.cc:211-243 | in no run is a timer fired before its expiry, though the handler never reads the clock to check |
| TimerTheorems.NoTimerFiresBeforeItsTimeout | sw/timer/src/timerManagerImpl.cc:134 | in every run, the first firing of an accepted launch is at least its timeout after the launch |
| TimerTheorems.LaunchKeepsOrderIff | sw/timer/src/timerManagerImpl.cc:134-136 | an accepted launch keeps the firing order iff it does not ask for an instant before the last firing's |
| TimerTheorems.FiringIsAStableSort | sw/timer/src/timerManagerImpl.cc:108-249 | fired then active nodes are the stable sort by expiry of the uncancelled insertions, and nothing else is |
| TimerTheorems.CancelledTimerStaysSilent | sw/timer/src/timerManagerImpl.cc:88-101 | after a NORMAL cancel the timer does not fire unless a launch of its name is accepted, even if its expiration was already reported |
| TimerTheorems.PeriodicFiringsAreSpaced | sw/timer/src/timerManagerImpl.cc:230-243 | in every run, two firings of a periodic timer are at least its interval apart |
| TimerTheorems.DueTimersFireInOrder | sw/timer/src/timerManagerImpl.cc:209-243 | n rounds of expiration and handler fire exactly the first n due timers, in order |
| TimerManager.TimerManager.SetTimerFd | sw/timer/src/timerManagerImpl.cc:173-200 | sets or disarms the kernel timer as the state machine does, and fails without changing it |
| TimerManager.TimerManager.Search | sw/timer/src/timerManagerImpl.cc:88-102 | the scan finds the first timer of the name |
| TimerManager.TimerManager.LaunchNewTimer | sw/timer/src/timerManagerImpl.cc:108-149 | the in-place launch is the state machine's, result included |
| TimerManager.TimerManager.StartTimer | sw/timer/src/timerManagerImpl.cc:58-67 | is the state machine's, result included |
| TimerManager.TimerManager.StartPeriodicalTimer | sw/timer/src/timerManagerImpl.cc:69-79 | is the state machine's, result included |
| TimerManager.TimerManager.CancelTimer | sw/timer/src/timerManagerImpl.cc:81-106 | the in-place cancel is the state machine's, result included |
| TimerManager.TimerManager.OnTimerExpired | sw/timer/src/timerManagerImpl.cc:209-249 | the handler, followed by any script of the subscriber, is the run of the state machine |
| EventMasks.EpollBits | sw/eventLoop/src/eventLoopImpl.cc:282-298 | a converted mask has bit 1 iff the local mask has bit 1, bit 4 iff it has bit 2, and no other bit |
| EventMasks.LocalBits | sw/eventLoop/src/eventLoopImpl.cc:300-317 | the converse: local bit 1 iff event bit 1, local bit 2 iff event bit 4, and no other bit |
| EventMasks.ConversionsRoundTrip | sw/eventLoop/src/eventLoopImpl.cc:282-317 | converting a mask there and back keeps its two known bits |
| EventMasks.ConversionsCommuteWithMasking | sw/eventLoop/src/eventLoopImpl.cc:271-316 | for every event word and requested mask, what is delivered is, bit by bit, what was asked for and reported |
| EventMasks.DeliveredIff | sw/eventLoop/src/eventLoopImpl.cc:271-274 | a callback is called iff the event and the handler share an input or output bit, and is handed just these |
| EventMasks.RefusedMask | sw/eventLoop/src/eventLoopImpl.cc:74-79 | a mask is refused iff it asks for neither event |
| EventLoopModel.Allocate | sw/eventLoop/src/eventLoopImpl.cc:95 | a new handler's address is that of no live one, and may be that of a freed one |
| EventLoopSafety.AddReturns | sw/eventLoop/src/eventLoopImpl.cc:56-133 | exactly when addFdHandler returns what; failing calls change no map, a successful one registers just the fd, with handler and interest for just the events asked for |
| EventLoopSafety.RemoveReturns | sw/eventLoop/src/eventLoopImpl.cc:176-208 | NORMAL iff the fd is registered, NOT_FOUND otherwise; just that fd leaves map and interest list, and its handler, with no events, joins the removed map unless that has one |
| EventLoopSafety.UpdateReturns | sw/eventLoop/src/eventLoopImpl.cc:135-174 | exactly when updateFdEvents returns what; the handler, and the interest too unless epoll refuses, then have just the events asked for, and nothing else changes |
| EventLoopSafety.UpdateAgreesIff | sw/eventLoop/src/eventLoopImpl.cc:160-170 | after an update the kernel's mask is the handler's iff epoll_ctl succeeds or the kernel has that mask already |
| EventLoopSafety.RefusedUpdateSplitsTheMasks | sw/eventLoop/src/eventLoopImpl.cc:160-170 | a concrete update that leaves the kernel waiting for input and the handler asking for output |
| EventLoopSafety.CallKeepsWf | sw/eventLoop/src/eventLoopImpl.cc:56-208 | every call keeps interest list and map in agreement and live addresses distinct |
| EventLoopSafety.CallKeepsHeld | sw/eventLoop/src/eventLoopImpl.cc:196-204 | a registration that a batch may point to stays alive through every call, though emplace does not overwrite |
| EventLoopSafety.SecondRemovalFrees | sw/eventLoop/src/eventLoopImpl.cc:201-204 | a removal frees its handler iff its fd was already removed in the batch, and then nothing is found at its address |
| EventLoopSafety.NoDanglingEvent | sw/eventLoop/src/eventLoopImpl.cc:225-241 | in every run every event not done with leads to a live handler of its fd, the running callback's included |
| EventLoopSafety.WaitsOnlyWithHandlers | sw/eventLoop/src/eventLoopImpl.cc:225-233 | the loop waits only while running, with a registered handler, and after dropping the removed ones |
| EventLoopSafety.InterestAgreesInEveryRun | sw/eventLoop/src/eventLoopImpl.cc:121-204 | interest list and handler map have the same fds and pointers in every run, and the same masks where no MOD failed |
| EventLoopSafety.DispatchedIffOwed | sw/eventLoop/src/eventLoopImpl.cc:267-280 | a callback is called iff its registration is still current and a bit it last requested is reported, with exactly those bits |
| EventLoopRuns.StopEndsTheRun | sw/eventLoop/src/eventLoopImpl.cc:225-265 | after stop() there is no further epoll_wait, the rest of the batch is handled, and run returns NORMAL |
| EventLoopRuns.RunReturnsIff | sw/eventLoop/src/eventLoopImpl.cc:225-249 | run returns NORMAL iff it is told to stop or has no handler at its head, INTERNAL_FAULT iff the wait fails |
| EventLoopRuns.RunsUntilStopped | sw/eventLoop/src/eventLoopImpl.cc:219-249 | a run in which nobody calls stop() goes on as long as there is a handler |
| EventLoopRuns.BatchIsHandledInOrder | sw/eventLoop/src/eventLoopImpl.cc:233-241 | every reported event is handled once and in order before the next wait, whatever the callbacks do |
| EventLoopRuns.TasksRunOnceInOrder | sw/eventLoop/src/eventLoopImpl.cc:324-356 | tasks start once and in order of scheduling, and none is left at an epoll_wait after a dispatch |
| EventLoopDrain.QueueOrderIsLevelOrder | sw/eventLoop/src/eventLoopImpl.cc:326-340 | working a queue off, children behind, is breadth-first order |
| EventLoopDrain.DrainIsBreadthFirst | sw/eventLoop/src/eventLoopImpl.cc:324-341 | the drain of a finite forest ends with the queue empty and starts each task once, breadth first |
| EventLoopDrain.DrainIsSteps | sw/eventLoop/src/eventLoopImpl.cc:324-341 | the drain is a run of the machine whose calls are those of the tasks, in order |
| EventLoopDrain.HandleEventIsSteps | sw/eventLoop/src/eventLoopImpl.cc:267-280 | handling an event is a run of the machine: if a wanted bit is reported, the callback's calls and then those of the scheduled tasks, breadth first |
| EventLoopDrain.BatchIsSteps | sw/eventLoop/src/eventLoopImpl.cc:238-241 | handling a batch is a run of the machine with those calls, in which no handler lookup fails |
| EventLoopDrain.RunIsSteps | sw/eventLoop/src/eventLoopImpl.cc:210-250 | a whole run(), from its call on, is a run of the machine with those calls, and returns what the machine does |
| EventLoop.EventLoop.AddFdHandler | sw/eventLoop/src/eventLoopImpl.cc:56-133 | the in-place registration is the model's, and keeps what a batch may point to |
| EventLoop.EventLoop.UpdateFdEvents | sw/eventLoop/src/eventLoopImpl.cc:135-174 | the in-place update is the model's |
| EventLoop.EventLoop.RemoveFdHandler | sw/eventLoop/src/eventLoopImpl.cc:176-208 | the in-place removal is the model's, and keeps what a batch may point to |
| EventLoop.EventLoop.ExecuteScheduledEvents | sw/eventLoop/src/eventLoopImpl.cc:324-341 | the drain loop terminates with the queue empty and is the model's drain |
| EventLoop.EventLoop.HandleEpollEvent | sw/eventLoop/src/eventLoopImpl.cc:267-280 | one event through a reference that must be held: which callback is called with what, and any script of it |
| EventLoop.EventLoop.HandleBatch | sw/eventLoop/src/eventLoopImpl.cc:238-241 | each reference of a batch is held when its turn comes, whatever the callbacks before it did |
| EventLoop.EventLoop.Run | sw/eventLoop/src/eventLoopImpl.cc:210-250 | run() on objects is the model's run, result included |
| ActiveObjectTheorems.TokensMatchInEveryRun | sw/activeObject/src/activeObjectThread.cc:99-152 | queue length is counter plus clients before their write plus the token in hand; no read blocks, none finds an empty queue, no wakeup is lost |
| ActiveObjectTheorems.RunsInOrder | sw/activeObject/src/activeObjectThread.cc:99-152 | at all times dequeued then queue is what clients asked for, in order; non-empty functions run once in that order |
| ActiveObjectTheorems.InitRunsFirst | sw/activeObject/src/activeObjectThread.cc:80-85 | initFunc is called once and before all functions exactly when it is given |
| ActiveObjectTheorems.RefusedIff | sw/activeObject/src/activeObjectThread.cc:67-70 | the thread counts as refused iff its addFdHandler failed |
| ActiveObjectTheorems.EndedConsumesUpToTheStop | sw/activeObject/src/activeObjectThread.cc:88-152 | a thread that has ended consumed exactly what was enqueued up to the first stop request |
| ActiveObjectTheorems.NeverStuck | sw/activeObject/src/activeObjectThread.cc:60-152 | after the stop request the thread can go on until its end, or waits for a write that a client owes and that wakes it |
| ActiveObjectTheorems.CanFinish | sw/activeObject/src/activeObjectThread.cc:30-35 | from the stop request a bounded run of the thread and of clients that owe a write ends the thread |
| ActiveObjectTheorems.ShutdownDrains | sw/activeObject/if/activeObjectIf.h:74-77 | unless a user function stops the loop, and though clients are in the middle of calls and enqueue on, the join returns, and exactly what was enqueued up to the stop request has been consumed and called, or nothing if the thread's addFdHandler failed |
| ActiveObjectTheorems.QuietShutdownLeavesNothing | sw/activeObject/if/activeObjectIf.h:74-77 | when nobody enqueues after the stop request, no function, token or owed write is left iff the thread's addFdHandler did not fail |
| ActiveObjectTheorems.RefusedThreadRunsNothing | sw/activeObject/src/activeObjectThread.cc:67-70 | a concrete run in which addFdHandler fails and a scheduled function is never called |
| ActiveObjectTheorems.UserStopLeavesTheRest | sw/activeObject/src/activeObjectThread.cc:138-152 | once a user function stops the loop, exactly one more function is consumed if the eventfd was already reported, and none otherwise; all are carried out iff no other is or gets enqueued |
| ActiveObjectTheorems.StoppedThreadLeavesAFunction | sw/activeObject/if/activeObjectIf.h:74-77 | a concrete run in which a user function stops the loop and a scheduled function is never called |
| ActiveObjectThread.ActiveObjectThread.ScheduleFunction | sw/activeObject/src/activeObjectThread.cc:99-121 | enqueue and write, with any steps of others between, are that run of the machine |
| ActiveObjectThread.ActiveObjectThread.DequeueFunction | sw/activeObject/src/activeObjectThread.cc:123-136 | takes the first function out, or gives an empty one |
| ActiveObjectThread.ActiveObjectThread.HandleFdEvent | sw/activeObject/src/activeObjectThread.cc:138-152 | read and dequeue, with any client steps between, are that run and always consume a function |
| ActiveObjectThread.ActiveObjectThread.Destroy | sw/activeObject/src/activeObjectThread.cc:30-35 | when the destructor's join returns, exactly what was enqueued up to its request has been consumed, or nothing if the thread's addFdHandler failed; other clients may be between enqueue and write |

## Left out

- Real system calls, errno beyond EAGAIN and EINTR, and closing of descriptors: they are the small kernel states and the oracle parameters described above.
- The NOT_THREAD_LOCAL checks of the timer manager and the event loop: the model has one owner thread.
- Overflow of 64-bit clock arithmetic (a timeout of more than 292 years) and eventfd counter saturation; a read or write of the eventfd that fails.
- A failing `eventfd` in the active object's `start()` (sw/activeObject/src/activeObjectThread.cc:48-52): it starts no thread.
- Nested `run()` from a callback, which would clear the removed handlers in the middle of a batch.
- Exceptions thrown by callbacks, and a failing memory allocation.
- The destructors of the timer manager and of the event loop, and the self-destruction path of the active object, which stops without draining.
- The active object's event loop is a few program points of its own here, not an instance of the event loop's machine; other fds in it appear as one step that changes nothing and one that stops the loop.
- sw/itcPubSub, sw/startup, sw/threadLocal and the wrapper sw/activeObject/src/activeObjectImpl.cc: they would add only easy members.
- Tracing, thread names and scheduling policies.
