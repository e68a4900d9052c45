# Camera framework: concurrency and buffer kernels

A Dafny model of the small stateful machinery of the OpenHarmony camera framework, with proofs over
every run, any number of threads and every input.

Each concurrent component is modelled twice, and the two are tied together:

* as a state machine (`State`, `Step`, `Enabled`, `Apply`, `Runs`, `Final`): a step is what one thread
  does between taking a mutex and giving it back, or between two such blocks; `Runs` is any
  interleaving of any number of threads; history fields record what was accepted, executed, fired;
* as a class with the source's fields, whose methods follow the source's statements and are proved to
  do exactly the corresponding step.

| file | component |
|---|---|
| `Options.dfy`, `ConditionVariables.dfy` | optional values; parked and woken threads, `notify_one`, `notify_all` |
| `BlockingQueue.dfy` | the bounded blocking deque |
| `ThreadPool.dfy` | the thread pool's deque, submitters and workers |
| `WorkerQueue.dfy`, `WorkerQueueProtocol.dfy` | the Taihe worker queue: list and wait predicate; threads around it |
| `TimerHandles.dfy`, `DeferredTimer.dfy`, `TimeBroker.dfy`, `TimeBrokerClass.dfy` | deferred timers: the handle ring, one timer, the broker |
| `TimeBrokerCollision.dfy` | what the one disorderly registration leads to |
| `TimerCore.dfy`, `TimerSystem.dfy`, `TimerCallbacks.dfy` | the thread that delivers; broker and thread as one system; the callbacks it runs |
| `SimpleTimer.dfy`, `DynamicLoader.dfy`, `DelayedFree.dfy` | the cancellable one-shot timer; the library cache; its delayed free by such timers |
| `LcdResize.dfy`, `FaceRotation.dfy` | picture adapter kernels |
| `FixedSizeList.dfy`, `TaskIds.dfy` | the ring list; the wrapping task-id counter |

## Where the code does less than one would expect

Each of these is stated with its exact condition and a concrete run or input.

* Worker queue: a task's creation time is read in its constructor, and a finished consumer reads the
  clock before it locks the list. The time a waiter measures therefore includes the delay between that
  reading and the hand-over (`EvictsExactlyWhen`), and a task can be evicted at the instant it becomes
  the head (`EvictedOnArrival`). The test for a running head (line 63) and the empty-list return (line
  75) can never be taken (`DeadBranches`).
* Time broker: a registration made between TimerCore's hand-over and `Timer::TimerExpired`, for a time
  no later than the one being delivered, leaves the timer in TimerCore's table twice. It is the only step
  that breaks the invariant (`TimeBrokers.StepKeepsInvExactlyWhen`), it always can be followed by a
  callback before its deadline (`CollisionFiresEarly`), and it does occur (`CollisionOccurs`). The clock
  is read under the broker's mutex only, so the reading can be older than the hand-over. A top of zero
  does not force the restart, so the timer may then stay set for zero while the next top is already due.
* Time broker: a callback begins after its `DeregisterCallback` has returned exactly when that call came
  behind the expiry's locked block (`LateExactlyWhen`, `CalledAfterDeregistration`).
* TimerCore: `DoTimeout` pops the top without looking at the clock. A first registration that arrives
  after a twelve-minute wait on an empty timeline has timed out is delivered at once, however far ahead
  it lies (`FiresEarlyNextExactlyWhen`, `LateRegistrationFiresEarly`). With neither of the two, broker
  and thread together fire nothing early, and sleep past nothing by more than the delay between the two
  clock readings of a wait (`SystemFiresOnTime`, `PendingIsAwaited`).
* Handles: the counter is one static shared by all brokers, so a broker can refuse a registration while
  almost every handle is free (`FailsExactlyWhen`, `SharedCounterFailsAtOnce`).
* Blocking queue: `Clear` frees every slot but notifies one producer (`ClearServesProducersExactlyWhen`,
  `ClearLosesAWakeup`), and `SetActive(false)` notifies one thread of each kind
  (`ShutdownStrandsExactlyWhen`).
* Simple timer: starting again before a cancelled worker has left revives that worker
  (`SafeExactlyWhen`, `RestartRevivesTheCancelled`). The library loader starts each timer once,
  which is safe (`StartedOnceIsSafe`).
* Library loader: the wait for a closing library gives up after five seconds; a constructor that then
  opens the library breaks the rule of one handle per name exactly when the old one has not been closed
  by then (`OverrunOpensTwoExactlyWhen`, `SlowCloseOpensTwo`).
* Ring list: after a full list has been written over, removing and adding no longer behave like a list,
  unless a whole number of rounds was written over (`NextAddAppendsExactlyWhen`,
  `OverwrittenIsNotAList`).
* LCD resize: a very long picture can come out with a short side of zero (`CollapsesExactlyWhen`), and
  after the 4096 cap a second call can change the sizes again (`TwiceIsOnceExactlyWhen`).
* Face rotation: two half turns restore the boxes but add 360 to each angle
  (`TwoHalvesRestoreExactlyWhen`).

## Model

| member | source | states |
|---|---|---|
| BlockingQueues.EveryRunConserves | common/utils/blocking_queue.h:55-226 | over every interleaving of Push, Pop, PopBack, Front, Back, Clear and SetActive: never more values than the capacity, an inactive queue is empty, and every accepted value is exactly once popped, queued or cleared |
| BlockingQueues.EveryRunIsADeque | common/utils/blocking_queue.h:55-226 | over every interleaving, both ends mixed and all threads together: replaying what was accepted, popped and cleared on one sequential deque gives the queue that is left, so every PopBack took the newest value not yet removed and every Pop the oldest |
| BlockingQueues.UntimedRunsLoseNoWakeup | common/utils/blocking_queue.h:55-148 | without Clear and SetActive: while a producer is parked, the woken producers are at least as many as the free slots, and no consumer is parked while a value is queued |
| BlockingQueues.ClearServesProducersExactlyWhen | common/utils/blocking_queue.h:203-213 | Clear keeps the producers served if and only if its single notification leaves nobody parked or the woken ones cover the whole capacity |
| BlockingQueues.ClearLosesAWakeup | common/utils/blocking_queue.h:203-213 | a run from an empty queue of two in which Clear leaves a producer parked beside free slots |
| BlockingQueues.PopsFollowPushes | common/utils/blocking_queue.h:55-133 | in runs where no PopBack, Clear or SetActive(false) takes effect, popped values followed by queued values are the accepted values in order, across all threads |
| BlockingQueues.ShutdownStrandsExactlyWhen | common/utils/blocking_queue.h:187-195 | SetActive(false) leaves a producer, or a consumer, parked exactly when more of them were parked than it notifies |
| BlockingQueues.EveryReachableQueue | common/utils/blocking_queue.h:31-226 | the three run theorems from the constructor on, for every requested capacity |
| BlockingQueues.BlockingQueue.constructor | common/utils/blocking_queue.h:31-34 | an active, empty queue; no capacity asked for means the largest one |
| BlockingQueues.BlockingQueue.CanPush | common/utils/blocking_queue.h:214-226 | which of refusing, waiting and storing a producer does |
| BlockingQueues.BlockingQueue.Push | common/utils/blocking_queue.h:55-64 | appends the value and wakes every consumer, waits when full, refuses when inactive, as the step Push; keeps the invariant |
| BlockingQueues.BlockingQueue.PushResume | common/utils/blocking_queue.h:219-225 | the same for a producer that got the mutex back in its wait |
| BlockingQueues.BlockingQueue.TakeOne | common/utils/blocking_queue.h:85-148 | Pop returns the first value and leaves the rest, PopBack the last and leaves those before it, Front and Back only look; one producer notified; waits when empty, nothing when inactive; keeps the invariant |
| BlockingQueues.BlockingQueue.TakeResume | common/utils/blocking_queue.h:91-101 | the same for a consumer that got the mutex back in its wait |
| BlockingQueues.BlockingQueue.Extract | common/utils/blocking_queue.h:97-100 | the first value for Pop and Front, the last for PopBack and Back; the queue without it for Pop and PopBack and unchanged for the others; one producer notified |
| BlockingQueues.BlockingQueue.ClearUnlocked | common/utils/blocking_queue.h:203-213 | empties the queue and notifies one producer if it was full |
| BlockingQueues.BlockingQueue.Clear | common/utils/blocking_queue.h:182-186 | an empty queue, with the notification of ClearUnlocked, as the step Clear; keeps the invariant |
| BlockingQueues.BlockingQueue.SetActive | common/utils/blocking_queue.h:187-195 | the flag becomes the argument; false also empties the queue and notifies one thread of each kind; keeps the invariant |
| ThreadPools.NoWakeupLostBeforeStop | common/src/task_manager/thread_pool.cpp:135-171 | until the pool is stopped: while a worker is parked, woken workers plus submitters about to notify are at least as many as the pending tasks |
| ThreadPools.OrderIsStable | common/src/task_manager/thread_pool.cpp:135-171 | over every run: each submitted task has one place among started and pending tasks, tasks that are not urgent are in submission order, and the order of two tasks never changes |
| ThreadPools.StepInsertsOnly | common/src/task_manager/thread_pool.cpp:142-163 | a submission appends, or if urgent goes right behind the started tasks; no other step touches the order |
| ThreadPools.UrgentStartsFirst | common/src/task_manager/thread_pool.cpp:159-160 | an urgent task starts before every task that was queued when it was submitted |
| ThreadPools.NormalTasksStartInOrder | common/src/task_manager/thread_pool.cpp:161-163 | of two tasks that are not urgent the one submitted first starts first |
| ThreadPools.HeadIsNew | common/src/task_manager/thread_pool.cpp:142-144 | the task a worker is about to take has never been started |
| ThreadPools.EveryReachablePool | common/src/task_manager/thread_pool.cpp:36-171 | wake-ups and order together, from construction |
| ThreadPools.ThreadPool.Submit | common/src/task_manager/thread_pool.cpp:153-171 | an urgent task goes to the front, any other to the back, and neither exactly when it saw the stop flag |
| ThreadPools.ThreadPool.Announce | common/src/task_manager/thread_pool.cpp:165 | the notification sent after the mutex was released |
| ThreadPools.ThreadPool.GetTask | common/src/task_manager/thread_pool.cpp:135-145 | an arriving worker takes the front task, never started before, and leaves the rest; or waits, or returns nothing once stopped |
| ThreadPools.ThreadPool.GetTaskResume | common/src/task_manager/thread_pool.cpp:138-145 | the same for a worker that got the mutex back in its wait |
| ThreadPools.ThreadPool.SetStopped | common/src/task_manager/thread_pool.cpp:50 | the stop flag is set, without the mutex, and nothing else changes |
| ThreadPools.ThreadPool.NotifyStopped | common/src/task_manager/thread_pool.cpp:51 | every parked worker is woken, and nothing else changes |
| WorkerQueueProtocol.EveryRunKeepsInv | frameworks/taihe/src/camera_worker_queue_keeper_taihe.cpp:44-121 | the one invariant over list, mutex holder, statuses, clocks and tickets, over every run of any number of threads |
| WorkerQueueProtocol.OrderAndExclusion | frameworks/taihe/src/camera_worker_queue_keeper_taihe.cpp:44-121 | the list is the tail of the acquisition order, functions start in strictly increasing ticket order, one at a time, each ticket that left was started or evicted and never both, and the pop after the function removes the task that ran |
| WorkerQueueProtocol.DeadBranches | frameworks/taihe/src/camera_worker_queue_keeper_taihe.cpp:63-75 | whenever the predicate runs the head is not RUNNING, and an eviction never empties the list |
| WorkerQueueProtocol.EvictsExactlyWhen | frameworks/taihe/src/camera_worker_queue_keeper_taihe.cpp:52-84 | the head is evicted exactly when the waiter is queued behind it, has been patient once, and the time at the head when the predicate reads the clock, plus the lag of the reading of the hand-over before (by a pop or by an eviction), reaches the timeout |
| WorkerQueueProtocol.EvictedOnlyAfterTheTimeout | frameworks/taihe/src/camera_worker_queue_keeper_taihe.cpp:26-117 | over every run, when the hand-over's clock reading was not delayed: only a task that sat unstarted at the head for the whole timeout is evicted |
| WorkerQueueProtocol.EvictedOnArrival | frameworks/taihe/src/camera_worker_queue_keeper_taihe.cpp:44-50 | a run in which a delayed push makes a task be evicted at the instant it became the head |
| WorkerQueueProtocol.EvictionShape | frameworks/taihe/src/camera_worker_queue_keeper_taihe.cpp:74-83 | an eviction drops the head and nothing else; unless the waiter is next, everybody starts to wait afresh |
| WorkerQueueProtocol.PatientShape | frameworks/taihe/src/camera_worker_queue_keeper_taihe.cpp:61-70 | a predicate that evicts nobody changes at most wait counts and admits only the head's owner |
| WorkerQueueProtocol.EvaluationBringsCloser | frameworks/taihe/src/camera_worker_queue_keeper_taihe.cpp:61-83 | no evaluation moves a waiter back, and its own behind an overdue head admits it or strictly lowers twice its position less its wait count |
| WorkerQueueProtocol.OtherStepKeepsRemaining | frameworks/taihe/src/camera_worker_queue_keeper_taihe.cpp:86-121 | no other step of any thread raises that measure |
| WorkerQueueProtocol.GoneStaysGone | frameworks/taihe/src/camera_worker_queue_keeper_taihe.cpp:44-121 | a task that left the list never comes back |
| WorkerQueueProtocol.EvaluationsBounded | frameworks/taihe/src/camera_worker_queue_keeper_taihe.cpp:99-102 | while a thread waits, its evaluations behind an overdue head stay below the measure it started with |
| WorkerQueueProtocol.WaiterAnsweredWithin | frameworks/taihe/src/camera_worker_queue_keeper_taihe.cpp:99-102 | a waiter at position p does not wait through 2p such evaluations |
| WorkerQueueProtocol.WaitEndsWithAnAnswer | frameworks/taihe/src/camera_worker_queue_keeper_taihe.cpp:99-108 | a wait ends only by the thread's own evaluation: admitted at the head with the mutex, or told that its task is gone |
| WorkerQueueProtocol.HeadIsAdmitted | frameworks/taihe/src/camera_worker_queue_keeper_taihe.cpp:61-62 | a waiter whose task heads the list is admitted, with the mutex, by its very next evaluation, which changes nothing else |
| WorkerQueueProtocol.MissingIsTold | frameworks/taihe/src/camera_worker_queue_keeper_taihe.cpp:55-60 | a waiter whose task is not in the list is told so and leaves |
| WorkerQueueProtocol.BehindTheHeadAdmittedExactlyWhen | frameworks/taihe/src/camera_worker_queue_keeper_taihe.cpp:63-83 | any other waiter is admitted exactly when its evaluation evicts the head and its own task comes next |
| WorkerQueueProtocol.NoWaitPastAnAnswer | frameworks/taihe/src/camera_worker_queue_keeper_taihe.cpp:99-102 | no run in which a thread evaluates with its task at the head, or gone, keeps that thread waiting throughout |
| WorkerQueueProtocol.ConsumerPath | frameworks/taihe/src/camera_worker_queue_keeper_taihe.cpp:86-117 | a consumer waits only for a queued task; what it was admitted for starts with its own ticket; afterwards its task has left, the rest is restamped and the mutex is free |
| WorkerQueue.WorkerQueueKeeper.AcquireWorkerQueueTask | frameworks/taihe/src/camera_worker_queue_keeper_taihe.cpp:44-50 | a new task is appended, with wait count zero and the given creation time |
| WorkerQueue.WorkerQueueKeeper.Contains | frameworks/taihe/src/camera_worker_queue_keeper_taihe.cpp:55 | tells whether the task is in the list |
| WorkerQueue.WorkerQueueKeeper.WorkerQueueTasksResetCreateTimeNoLock | frameworks/taihe/src/camera_worker_queue_keeper_taihe.cpp:26-32 | every task gets the time and wait count zero, and nothing else changes |
| WorkerQueue.WorkerQueueKeeper.WorkerLockCondition | frameworks/taihe/src/camera_worker_queue_keeper_taihe.cpp:52-84 | the head is admitted and a missing task reported, both without a change; nobody else is admitted who is not then the head; at most the head is dropped; and the whole is one evaluation of the protocol |
| WorkerQueue.WorkerQueueKeeper.EvictHead | frameworks/taihe/src/camera_worker_queue_keeper_taihe.cpp:74-83 | the head is dropped; the waiter is admitted if it comes next, and otherwise everybody left starts to wait afresh |
| WorkerQueue.WorkerQueueKeeper.SetStatus | frameworks/taihe/src/camera_worker_queue_keeper_taihe.cpp:109-111 | only that task's status changes |
| WorkerQueue.WorkerQueueKeeper.PopAndReset | frameworks/taihe/src/camera_worker_queue_keeper_taihe.cpp:112-117 | the head leaves and the rest starts to wait at the reading taken before the lock |
| TimerHandles.FailsExactlyWhen | common/src/timer/time_broker.cpp:100-110 | the search fails exactly when every handle from the counter up to the previous handle is live |
| TimeBrokers.AloneRefusesExactlyWhen | common/src/timer/time_broker.cpp:100-119 | over every run of a single broker: a registration is refused exactly when every other non-zero 32-bit handle is live, and never before the first success |
| TimeBrokers.AloneCounterStays | common/src/timer/time_broker.cpp:100-119 | as long as no other broker takes handles, the static counter stands at the previous handle |
| TimerHandles.SharedCounterFailsAtOnce | common/src/timer/time_broker.cpp:112-119 | with the shared counter just behind the previous handle it fails whatever is free |
| TimerHandles.StopsOnce | common/src/timer/time_broker.cpp:100-119 | where the search stops is determined by the live handles, the previous handle and the counter |
| TimerHandles.Successor | common/src/timer/time_broker.cpp:112-119 | the next handle is a non-zero 32-bit number, for every counter value |
| TimerHandles.Search | common/src/timer/time_broker.cpp:102-104 | the loop ends for every counter value, at a non-zero handle that is free or is the previous one, having passed only live ones |
| DeferredTimers.StartAtArms | common/src/timer/camera_deferred_timer.cpp:101-109 | a start leaves the timer in TimerCore's table exactly once, for the new time |
| DeferredTimers.Timer.StartAt | common/src/timer/camera_deferred_timer.cpp:74-109 | takes an active timer's entry out, and puts it in under the new time |
| DeferredTimers.Timer.Start | common/src/timer/camera_deferred_timer.cpp:68-99 | the same for a delay from now, zero meaning the timer's interval |
| DeferredTimers.Timer.Stop | common/src/timer/camera_deferred_timer.cpp:80-90 | inactive, and out of the table if it was active |
| DeferredTimers.Timer.TimerExpired | common/src/timer/camera_deferred_timer.cpp:117-137 | calls back only if active; afterwards active exactly if periodic |
| TimeBrokers.EveryRunKeepsTheBooks | common/src/timer/time_broker.cpp:60-161 | over every run without a collision, however old the clock readings of its registrations: each registration is exactly one of pending, fired once and cancelled, and nothing fires before its deadline |
| TimeBrokers.EveryTimerIsAsOrdered | common/src/timer/time_broker.cpp:60-161 | over every run, collisions or not: whatever is pending or has fired carries the callback and the deadline given to the registration it came from |
| TimeBrokers.RegisterStores | common/src/timer/time_broker.cpp:60-78 | a granted registration adds one pending timer under its handle, with the callback given and the clock reading plus the delay, and touches no other |
| TimeBrokers.DeregisterRemovesOnly | common/src/timer/time_broker.cpp:79-87 | a deregistration takes out exactly the timer of its handle, which then counts as cancelled, and touches no other |
| TimeBrokers.StepKeepsInvExactlyWhen | common/src/timer/time_broker.cpp:60-161 | a step keeps heap, buckets, owners and timer in agreement exactly when it is not a registration, during a delivery in flight, for a time no later than the one delivered |
| TimeBrokerCollisions.CollisionFiresEarly | common/src/timer/time_broker.cpp:68-75 | every such registration, in whatever state of an orderly run, can be followed by a run in which a timer fires before its deadline |
| TimeBrokerCollisions.SurplusFiresEarly | common/src/timer/camera_deferred_timer.cpp:101-136 | the entry too many survives every expiry of a due time and then fires whatever is registered next |
| TimeBrokerCollisions.CollisionOccurs | common/src/timer/time_broker.cpp:68-75 | a run from the start with such a registration and such an early callback |
| TimeBrokers.ExpiryFiresExactly | common/src/timer/time_broker.cpp:121-149 | an expiry pops the least time, which is due and no later than any pending deadline; fires exactly the pending timers of that time in registration order; keeps the others; and shrinks the timeline by one |
| TimeBrokers.DueExactly | common/src/timer/time_broker.cpp:131-139 | what the weak entries of a bucket yield is exactly the pending timers of that time, so a stale entry never fires or erases whoever reuses its handle |
| TimeBrokers.PendingMeansArmed | common/src/timer/time_broker.cpp:73-160 | while the timer thread idles with something pending, the timer is armed once, no later than any pending deadline |
| TimeBrokers.RegisteredArmed | common/src/timer/time_broker.cpp:68-75 | a registration for any time, past ones included, keeps the timer armed for the top exactly when it does not meet or precede a time in flight |
| TimeBrokers.ExpiredArmed | common/src/timer/time_broker.cpp:131-160 | an expiry leaves the timer armed for the new top, or off with an empty timeline |
| TimeBrokers.EmptyTimelineDrained | common/src/timer/time_broker.cpp:70-140 | an empty timeline means that both maps are empty |
| TimeBrokerClass.TimeBroker.constructor | common/src/timer/time_broker.cpp:32-58 | empty books and a fresh one-shot timer |
| TimeBrokerClass.TimeBroker.GetNextHandle | common/src/timer/time_broker.cpp:100-119 | the handle at which the search stops; success exactly if it is not the previous one; both counters move there |
| TimeBrokerClass.TimeBroker.RegisterCallback | common/src/timer/time_broker.cpp:60-78 | on success one more pending timer, under the handle returned, with the callback given and due after the delay; on failure no timer changes; books and timer are those of the step Register |
| TimeBrokerClass.TimeBroker.Insert | common/src/timer/time_broker.cpp:68-75 | the timer stored under the handle carries this callback and time; every other timer stays; bucket and timeline take it in; and the deferred timer restarts exactly if the new time is the top |
| TimeBrokerClass.TimeBroker.DeregisterCallback | common/src/timer/time_broker.cpp:79-87 | exactly the timer of the handle goes and counts as cancelled; a zero or unknown handle changes nothing |
| TimeBrokerClass.TimeBroker.GetExpiredFunc | common/src/timer/time_broker.cpp:89-98 | the callback that the expiry of this handle's timer will run; none exactly if no expiry would run anything for the handle |
| TimeBrokerClass.TimeBroker.TakeDue | common/src/timer/time_broker.cpp:134-139 | the entries that still lock, in order, and the map without their handles |
| TimeBrokerClass.TimeBroker.TimerExpired | common/src/timer/time_broker.cpp:121-145 | books and timer of the step BrokerExpires, and the timers to call in order |
| TimeBrokerClass.TimeBroker.RestartTimer | common/src/timer/time_broker.cpp:151-160 | nothing to do on an empty timeline or an active timer without force; otherwise a start for the top |
| TimerCores.ActionKeepsCoreExactlyWhen | common/src/timer/core/timer_core.cpp:69-168 | an action keeps the loop's invariant (it wakes when the top is due, not earlier, and later at most by the delay between the two clock readings of its wait) exactly when it is not a future registration on an empty timeline between a time-out and DoTimeout |
| TimerCores.FiresEarlyNextExactlyWhen | common/src/timer/core/timer_core.cpp:69-168 | the loop can hand a timer over before its time in its very next step exactly when the action was such a registration |
| TimerCores.RunIsPunctual | common/src/timer/core/timer_core.cpp:69-168 | over every run without one, no timer is handed over before its time |
| TimerCores.LateRegistrationFiresEarly | common/src/timer/core/timer_core.cpp:134-160 | with one, a timer registered for any future time is handed over at once |
| TimerCores.EveryEntryIsAccountedFor | common/src/timer/core/timer_core.cpp:78-162 | over every run, for every timer and time: what was in the table and what was registered is, counted with multiplicity, handed over, still in the table or deregistered |
| TimerCores.TimeoutHandsOverTheRow | common/src/timer/core/timer_core.cpp:144-162 | a time-out hands over each timer of the top row as often as the row held it, empties that row, and touches no other |
| TimerCores.TopIsHandedOver | common/src/timer/core/timer_core.cpp:114-168 | whatever is registered: a loop that reads the timeline and is not disturbed hands the top row over when its time comes, or at once when that has passed |
| TimerCores.LoopGoesOn | common/src/timer/core/timer_core.cpp:114-168 | a request to start over is honoured once, by the next evaluation of the wait's predicate; without one the wait goes on to its time-out; behind DoTimeout the loop starts again |
| TimerCores.TimerCore.RegisterTimer | common/src/timer/core/timer_core.cpp:78-89 | the new entry, its time in the timeline once, and the loop told to start over when it is the top |
| TimerCores.TimerCore.DeregisterTimer | common/src/timer/core/timer_core.cpp:102-111 | every entry of the timer under that time goes, and an empty row with it |
| TimerCores.TimerCore.GetNextExpirationTimeUnlocked | common/src/timer/core/timer_core.cpp:120-142 | a wait begun with it lasts exactly this long unless the loop was told to start over, and it is never longer than the time to an entry still to come |
| TimerCores.TimerCore.DoTimeout | common/src/timer/core/timer_core.cpp:144-162 | the timers handed over are the whole row of the least time, in order; that row and one timeline entry go; every other row stays; nothing on an empty timeline |
| TimerSystems.MoveKeepsInvExactlyWhen | common/src/timer/core/timer_core.cpp:69-168 | broker, timer and timer thread as one machine, with StartAt's two calls apart: a move keeps all in order exactly when it is neither a late registration nor a collision |
| TimerSystems.DeliverIsCoreTakes | common/src/timer/core/timer_core.cpp:144-168 | what the broker relies on: an entry of its timer is taken only when its time has come |
| TimerSystems.DeliverHandsOverAll | common/src/timer/core/timer_core.cpp:144-162 | the loop hands the broker's timer over exactly as often as its row held it, and the broker is called exactly as often |
| TimerSystems.SystemFiresOnTime | common/src/timer/core/timer_core.cpp:114-168 | over every run without the two, nothing is delivered or fired before its time, and each registration is exactly one of pending, fired once and cancelled |
| TimerSystems.PendingIsAwaited | common/src/timer/core/timer_core.cpp:114-142 | while the thread waits, its wait ends by the time the first pending timer is due, later at most by the delay between the two clock readings of the wait |
| TimerCallbacks.EveryRunCallsInOrder | common/src/timer/time_broker.cpp:121-149 | over every run, with or without collisions: what was handed over is called in order, once and not before, or still waits |
| TimerCallbacks.LateExactlyWhen | common/src/timer/time_broker.cpp:79-149 | over every run, for every callback that began: its timer had not been deregistered when it was handed over, and had been when the callback began exactly if that call came in between |
| TimerCallbacks.RecordedAsItWas | common/src/timer/time_broker.cpp:121-149 | in every run, hand-overs and callbacks are recorded with the deregistrations that had returned at that very moment, which is what "in between" means |
| TimerCallbacks.DeregistrationCancelsOrIsLate | common/src/timer/time_broker.cpp:79-149 | over every run: a timer whose deregistration has returned was cancelled and its callback never begins, or it had been handed over |
| TimerCallbacks.CalledAfterDeregistration | common/src/timer/time_broker.cpp:146-148 | a run in which a callback begins after its DeregisterCallback returned |
| SimpleTimers.TimerSafety | common/utils/camera_simple_timer.cpp:28-70 | in runs that never start a timer being cancelled: at most one worker, each start calls back at most once and never after it was cancelled, and the destructor has returned only when no worker is left |
| SimpleTimers.StartedOnceIsSafe | common/utils/camera_dynamic_loader.cpp:227-241 | the same for every timer that is started once, as the loader does |
| SimpleTimers.NoCallBeforeItsTimeout | common/utils/camera_simple_timer.cpp:40-61 | over every run: a callback begins no earlier than the moment its worker reached its wait plus the timeout given to that very StartTask |
| SimpleTimers.CallsBackWhenDue | common/utils/camera_simple_timer.cpp:43-50 | a waiting worker that was not cancelled can call back exactly from that moment on, and then does |
| SimpleTimers.StepKeepsInvExactlyWhen | common/utils/camera_simple_timer.cpp:53-61 | a step keeps the invariant exactly when it is not a start during cancellation |
| SimpleTimers.SafeExactlyWhen | common/utils/camera_simple_timer.cpp:53-61 | and exactly then one worker, one callback per start, none after cancellation and the destructor last still hold |
| SimpleTimers.RestartRevivesTheCancelled | common/utils/camera_simple_timer.cpp:40-70 | a run in which a start behind a cancellation lets the cancelled worker call back beside a second one |
| SimpleTimers.SimpleTimer.StartTask | common/utils/camera_simple_timer.cpp:53-61 | refused while running; otherwise running, with one more worker that carries this timeout, as the step StartTask |
| SimpleTimers.SimpleTimer.CancelTask | common/utils/camera_simple_timer.cpp:63-70 | is the step CancelTask: succeeds exactly while running, and the last start counts as cancelled |
| SimpleTimers.SimpleTimer.SleepBegins | common/utils/camera_simple_timer.cpp:40-44 | while running the worker sleeps until now plus the timeout of its own start; otherwise it leaves |
| SimpleTimers.SimpleTimer.WokenUp | common/utils/camera_simple_timer.cpp:43-50 | is the step of a worker woken before its time: it sleeps on while running, and leaves otherwise |
| SimpleTimers.SimpleTimer.SleepEnds | common/utils/camera_simple_timer.cpp:43-50 | a worker whose time is up calls back exactly if the status is still running, and otherwise leaves |
| SimpleTimers.SimpleTimer.Finish | common/utils/camera_simple_timer.cpp:49-50 | the worker leaves with status DONE |
| SimpleTimers.SimpleTimer.DestroyResumes | common/utils/camera_simple_timer.cpp:34-36 | is the step DestroyResume in every state: the wait ends exactly at status DONE, and in an orderly state no worker is left then |
| SimpleTimers.SimpleTimer.Destroy | common/utils/camera_simple_timer.cpp:28-37 | is the step Destroy in every state; in an orderly one it returns at once only when no worker is left |
| DynamicLoaders.OneInstancePerName | common/utils/camera_dynamic_loader.cpp:77-214 | over any interleaving for any names, as long as no constructor opens a library past a wait that gave up: at most one open handle per name, and an instance some client holds is the one the next get returns |
| DynamicLoaders.StepKeepsInvExactlyWhen | common/utils/camera_dynamic_loader.cpp:77-214 | strong entry, weak entry, library state and reference counts of one name agree after a step exactly when it is not such an opening |
| DynamicLoaders.OverrunOpensTwoExactlyWhen | common/utils/camera_dynamic_loader.cpp:91-114 | such an opening leaves two handles open exactly when the old instance has not been closed by then |
| DynamicLoaders.SlowCloseOpensTwo | common/utils/camera_dynamic_loader.cpp:89-126 | a run with two open handles for one name |
| DynamicLoaders.OneHandle | common/utils/camera_dynamic_loader.cpp:104-126 | two open handles of one name are the same |
| DynamicLoaders.GetReturnsTheHeldInstance | common/utils/camera_dynamic_loader.cpp:145-166 | a get made while a client holds the instance returns it and makes it strong |
| DynamicLoaders.ReferencesAreCounted | common/utils/camera_dynamic_loader.cpp:77-214 | get, share and drop move the clients of their instance by one and nothing else does; an instance begins to close exactly when no client and no strong entry holds it |
| DynamicLoaders.LifeOfAnInstance | common/utils/camera_dynamic_loader.cpp:104-214 | a get with no instance at hand constructs one; opening and publishing make it strong with one client, a failed opening leaves none; a free makes it weak; a closing one ends with its handle closed |
| DynamicLoaders.WaitEnds | common/utils/camera_dynamic_loader.cpp:89-126 | a constructor that waits, waits for one destructor under way, and goes on once that is through or when it gives up |
| DynamicLoaders.DynamicLoader.GetDynamiclibNoLock | common/utils/camera_dynamic_loader.cpp:145-166 | returns the strong instance, else the weak one if still owned and makes it strong, else none yet; no other name changes |
| DynamicLoaders.DynamicLoader.UpdateDynamiclibState | common/utils/camera_dynamic_loader.cpp:77-87 | sets that name's state and no other |
| DynamicLoaders.DynamicLoader.WaitIsOver | common/utils/camera_dynamic_loader.cpp:89-101 | waiting for UNLOAD is over exactly when the constructor can open the library without giving up, that is when no instance is loaded |
| DynamicLoaders.DynamicLoader.PublishNew | common/utils/camera_dynamic_loader.cpp:114-165 | LOADED and the strong entry; no other name changes |
| DynamicLoaders.DynamicLoader.FreeDynamiclibNoLock | common/utils/camera_dynamic_loader.cpp:203-214 | the strong entry becomes the weak one, if there is one |
| DelayedFrees.NoFreeEscapes | common/utils/camera_dynamic_loader.cpp:55-241 | over every run of cancellations and delayed frees by any threads: a pending free can still be reached through the slot or a call in progress, each timer frees at most once, and with no call in progress only the slot's timer is pending |
| DelayedFrees.CancelledNeverFrees | common/utils/camera_dynamic_loader.cpp:216-225 | once CancelTask has returned in any call, the timer that call found frees no more, whatever follows |
| DelayedFrees.LoneCallSupersedes | common/utils/camera_dynamic_loader.cpp:216-241 | a call that no other overlaps leaves, after a cancellation, no free pending and an empty slot; after a new delayed free, its own timer in the slot and no older free pending |
| DelayedFrees.OverlappingFreesKeepOne | common/utils/camera_dynamic_loader.cpp:216-241 | however delayed frees overlap: once none is in progress the slot holds a timer nobody cancelled, which has freed the library or still will, and no other free is pending |
| DelayedFrees.OverlappingCancelsLeaveNone | common/utils/camera_dynamic_loader.cpp:216-225 | however cancellations overlap, from any moment without a call on: once none is in progress the slot is empty and no free is pending |
| DelayedFrees.TimerRefines | common/utils/camera_simple_timer.cpp:28-70 | a simple timer that has been started takes only the steps that the delayed free knows of: calling back, ending after a cancellation, being stopped, and destruction once done |
| DelayedFrees.DestructorEnds | common/utils/camera_simple_timer.cpp:28-38 | a destructor that waits, waits for a worker that is done or has only to notice its cancellation |
| DelayedFrees.StepKeepsInv | common/utils/camera_dynamic_loader.cpp:55-241 | every timer that exists is owned by the slot or a call, or is being destroyed by one thread, unreferenced and not running |
| LcdResize.ResizeLcd | dynamic_libs/image_framework/src/picture_adapter.cpp:427-477 | refuses exactly unusable sizes and then leaves them; otherwise gives the resized sides in the old orientation, for all integers |
| LcdResize.FitSides | dynamic_libs/image_framework/src/picture_adapter.cpp:446-461 | the sides after the two thresholds, before the parity fix |
| LcdResize.ResizedIsFaithful | dynamic_libs/image_framework/src/picture_adapter.cpp:427-477 | on positive sizes: long side at most 4096, neither side grows, the long side stays the longer, both even if it changed and otherwise nothing changes, proportions within one unit |
| LcdResize.ResizedAimsAt | dynamic_libs/image_framework/src/picture_adapter.cpp:446-461 | a long side over 1920 becomes 1920, unless that cuts a short side of 512 or more below 512, which then becomes 512, unless that leaves the long side above 4096, which then becomes 4096 |
| LcdResize.PictureIsFaithful | dynamic_libs/image_framework/src/picture_adapter.cpp:427-477 | in either orientation: positive sizes are accepted, nothing grows or ends above 4096, the longer side stays the longer, and sizes up to 1920 stay |
| LcdResize.UsableExactlyWhen | dynamic_libs/image_framework/src/picture_adapter.cpp:435-445 | which sizes are refused, in whole numbers: a short side of zero, or one that is a million times the other and more |
| LcdResize.ResizedIsFitted | dynamic_libs/image_framework/src/picture_adapter.cpp:440-471 | truncating the quotients of the ratio is dividing whole numbers |
| LcdResize.CollapsesExactlyWhen | dynamic_libs/image_framework/src/picture_adapter.cpp:445-471 | the short side becomes zero exactly when the long one is more than 1920 times it, or 4096 times from 512 on |
| LcdResize.FixedExactlyWhen | dynamic_libs/image_framework/src/picture_adapter.cpp:445-471 | which sizes the call leaves alone |
| LcdResize.TwiceIsOnceExactlyWhen | dynamic_libs/image_framework/src/picture_adapter.cpp:427-477 | a second call leaves the sizes alone exactly unless the cap has cut the short side below 512 without wiping it out |
| FaceRotation.TurnedHoldsTheTurnedPoints | dynamic_libs/image_framework/src/picture_adapter.cpp:116-148 | the turned box holds exactly the points of the box turned by quarters about the unit square |
| FaceRotation.TurnsAdd | dynamic_libs/image_framework/src/picture_adapter.cpp:116-148 | two turns are one turn by the sum, up to whole rounds in the angle, and when not even those |
| FaceRotation.TurningBackRestores | dynamic_libs/image_framework/src/picture_adapter.cpp:98-173 | 90 and then 270, or the other way round, restores the whole array, for every face count |
| FaceRotation.TwoQuartersAreAHalf | dynamic_libs/image_framework/src/picture_adapter.cpp:98-173 | 90 twice is 180 on the whole array |
| FaceRotation.TwoHalvesRestoreExactlyWhen | dynamic_libs/image_framework/src/picture_adapter.cpp:125-132 | two half turns restore every box and add 360 to every angle |
| FaceRotation.ProperBoxesStayProper | dynamic_libs/image_framework/src/picture_adapter.cpp:98-173 | a box is ordered and inside the unit square after a turn if and only if it was before |
| FaceRotation.RotateFaceCoordinate | dynamic_libs/image_framework/src/picture_adapter.cpp:98-149 | succeeds exactly for a record that fits and a known degree; which slot of the old record, or one less it, each of slots 0 to 3 and 6 then holds; every other slot stays |
| FaceRotation.RotateFaces | dynamic_libs/image_framework/src/picture_adapter.cpp:151-173 | succeeds exactly for 1 to 100 faces, ten values each and a known degree; turns every face and leaves every other slot; on failure the array is as it was |
| FixedSizeLists.PlainListUntilOverwritten | common/utils/fixed_size_list.h:33-75 | in every run, while no full list was written over since the last clear, the visible slots are the list under append, remove first match and clear |
| FixedSizeLists.OffsetCountsOverwrites | common/utils/fixed_size_list.h:33-75 | in every run the next slot is off by the number of values written over a full list, modulo the size |
| FixedSizeLists.NextAddAppendsExactlyWhen | common/utils/fixed_size_list.h:33-41 | in every run the next value is appended exactly when that number is a whole number of rounds |
| FixedSizeLists.OverwrittenIsNotAList | common/utils/fixed_size_list.h:33-75 | with two slots: after adding three values, removing one and adding another, the removed value is back and a kept one gone |
| FixedSizeLists.ValueStays | common/utils/fixed_size_list.h:33-41 | value k stands in slot k mod maxSize until value k + maxSize |
| FixedSizeLists.AddsKeepTheLast | common/utils/fixed_size_list.h:33-41 | after any number of additions the visible slots are the last maxSize values, each in its own slot |
| FixedSizeLists.FirstMatch | common/utils/fixed_size_list.h:46-52 | the first wanted place, or the length when there is none |
| FixedSizeLists.WithoutIsListed | common/utils/fixed_size_list.h:43-75 | shifting the slots removes exactly the first match from the visible values |
| FixedSizeLists.FixedSizeList.constructor | common/utils/fixed_size_list.h:28-31 | an empty list of any size, zero included |
| FixedSizeLists.FixedSizeList.Add | common/utils/fixed_size_list.h:33-41 | writes at the index, moves it round, and grows up to the size |
| FixedSizeLists.FixedSizeList.FindIf | common/utils/fixed_size_list.h:43-54 | returns the first match and removes it; without one nothing changes |
| FixedSizeLists.FixedSizeList.RemoveAt | common/utils/fixed_size_list.h:66-75 | later values move down by one and the index goes back by one round the ring |
| FixedSizeLists.FixedSizeList.Clear | common/utils/fixed_size_list.h:56-63 | an empty list on a fresh buffer |
| TaskIds.NthId | frameworks/taihe/src/camera_utils_taihe.cpp:492-500 | from the base of a class the n-th number is base + (n - 1) mod 65535 + 1 |
| TaskIds.NthReturnedId | frameworks/taihe/src/camera_utils_taihe.cpp:492-500 | and the id returned for the n-th call of a class is that number |
| TaskIds.Next | frameworks/taihe/src/camera_utils_taihe.cpp:492-500 | from any 32-bit number: the class byte stays and the rest is 1 to 65535 |
| TaskIds.SameIdExactlyWhen | frameworks/taihe/src/camera_utils_taihe.cpp:492-500 | two calls get the same id exactly when they are a multiple of 65535 apart |
| TaskIds.RoundIsDistinct | frameworks/taihe/src/camera_utils_taihe.cpp:492-500 | any 65535 ids in a row are different |
| TaskIds.ClassesNeverCollide | frameworks/taihe/include/camera_worker_queue_keeper_taihe.h:24-41 | ids of different classes are different, and all are positive |
| TaskIds.TaskIdCounter.IncrementAndGet | frameworks/taihe/src/camera_utils_taihe.cpp:492-500 | the number moves on by one, from 65535 back to 1 within its class, and comes back as a signed 32-bit integer |

## Left out

- Fairness of mutexes and schedulers: a step may happen whenever it is possible, and progress is stated as a bound on a waiter's own evaluations.
- The timed overloads of BlockingQueue's Push and Pop and GetBackElement: a timed wait adds a way out without a value. Size, Full, Capacity, Empty and GetAllElements only read.
- Shutdown liveness of BlockingQueue and ThreadPool: SetActive(false) wakes one waiter of each kind, and the pool's stop flag is set outside the mutex, so a worker between its predicate and its wait can miss it. The thread pool's joins, names and priorities.
- ThreadPools.EveryReachablePool: a worker evaluates its predicate and parks in one step, which holds because the deque changes only under the mutex; the stop flag does not, and nothing about wake-ups is stated after it is set.
- WorkerQueueProtocol.WaiterAnsweredWithin: bounds the waiter's own evaluations behind an overdue head; that they come at least every two seconds is the wait's time-out, which is not modelled as a clock bound.
- The singleton access of the worker queue keeper, and a null task given to ConsumeWorkerQueueTask.
- TimeBrokers: the clock reading of a registration may be any earlier time, also one from before the broker's last locked block, which the source's mutex rules out; the theorems cover more runs than the source has. 64-bit overflow of timestamps, the destructor, and a failing RegisterTimer are not modelled.
- TimerSystems: one broker; the timers of others only register and deregister. TimerCore's shutdown and its `active_` flag are left out, and its weak pointers are taken to lock while the broker lives. The clock reading that a wait's duration comes from may be any earlier time. What a callback does is not part of the model, except that any thread may register and deregister at any time.
- DelayedFrees.NoFreeEscapes: the close timer's slot is one name's; the three functions that access it (lines 55-75) are single map accesses and appear as such. The free itself is the step Free of DynamicLoaders, which may come at any time there.
- LoadDynamiclibAsync is a cancellation followed by a get in another thread; its hand-over flag is left out. dlopen and dlsym results are inputs.
- The simple timer's callback is a step that holds the timer's mutex; what it does is not modelled.
- LcdResize.ResizedIsFaithful: double and float are exact reals; for a zero or negative side only the branch structure of ResizeLcd is modelled, and nothing is promised.
- FaceRotation.RotateFaces: reading the numbers from text and writing them back are left out; an empty text is a list of the wrong length here. Rounding of float is left out.
- FixedSizeLists: the mutex, since every public operation holds it throughout; adding to a list of size zero, which divides by zero in the source.
- TaskIds: callers share the counter without a lock; calls are taken one after the other. The bit masks are written as remainders.
- Recorder, deferred processing sessions, NDK and proxy layers, JSON and XML parsing, watermarks and listeners: their guarantees rest on classes and libraries outside these files.
