# Lights3: verified models of its concurrency core, stores and parsers

Lights3 is an S3-compatible gateway written in C++. This project models, in Dafny, the parts of it
whose correctness depends on state, interleaving or recursion, and proves what they promise:

* the asynchronous semaphore with cancellation, close and live resize (`src/core/semaphore.h`);
* the cancellation state that fires callbacks once (`src/core/cancel.h`);
* the thread pool with its bounded ready queue, backlog and continuation queue (`src/core/thread_pool.*`);
* the timer queue with its scheduling thread and callback thread (`src/core/timer.cc`);
* the vote-counting of `when_all` and of `Started` (`src/core/task.h`);
* the configuration store that several gateways keep in step through shared storage (`src/s3/sys_config_store.h`);
* the XML writer and parser (`src/s3/xml.*`) and the YAML-subset parser (`src/core/config.cc`);
* the rate limiter with its bounded table (`src/s3/ratelimit.*`);
* the block queue between a pushing and a pulling side (`src/http/pushpull.h`);
* the header table with its tag prefilter (`src/http/model.h`).

## How a component is modelled

State guarded by a mutex is a datatype `Core`; each lock section is a function on it; a `class` with
the same fields has one method per section, proved to compute that function, loops included. A
`...Protocol` module then takes the sections, the atomic exchanges and the waits as the steps of a
machine (`Enabled`, `Step`, `Run`) and proves its theorems about every reachable state or every run,
that is, every interleaving. The parsers are functions on the rest of the input; classes with a
position, a depth and loops are proved to compute the same functions. What those functions mean is
stated without them: trimming, escaping, references, comments and variables by positions and code
points, and each parser as a whole by a grammar of concrete texts. It accepts exactly the texts of the
grammar and returns exactly the tree they denote (`XmlLanguage.AcceptsExactly`,
`YamlLanguage.AcceptsExactly`).

| component | objects and lock sections | theorems about every run or input |
|---|---|---|
| semaphore | `Semaphore.dfy` | `SemaphoreProtocol.dfy` |
| cancellation | `CancelState.dfy` | `CancelProtocol.dfy` |
| thread pool | `ThreadPool.dfy` | `PoolProtocol.dfy`, `PoolWakeups.dfy` |
| timers | `TimerQueue.dfy` | `TimerProtocol.dfy`, `TimerOrder.dfy` |
| when_all, Started | `WhenAll.dfy`, `Started.dfy` | the same files |
| configuration store | `SysConfigStore.dfy` | `SysConfigProtocol.dfy`, `SysConfigPuts.dfy`, `SysConfigRuns.dfy` |
| XML | `Xml.dfy`, `XmlObjects.dfy` | `XmlText.dfy`, `XmlReferences.dfy`, `XmlTokens.dfy`, `XmlGrammar.dfy`, `XmlLanguage.dfy`, `XmlRoundTrip.dfy` |
| YAML | `Yaml.dfy`, `YamlLines.dfy`, `YamlObjects.dfy` | `YamlText.dfy`, `YamlGrammar.dfy`, `YamlLanguage.dfy`, `YamlTheorems.dfy`, `YamlRoundTrip.dfy` |
| rate limiter | `RateLimiter.dfy` | `RateLaws.dfy`, `RateProtocol.dfy`, `RateRuns.dfy`, `RateWalks.dfy` |
| block queue | `BlockQueue.dfy` | the same file |
| header table | `HeaderMap.dfy` | the same file |

The project file is `dfyconfig.toml`.

## Where the code does not do what a comment says

The models follow the code; these are the places where a promise turned out to need a condition.

* `src/core/semaphore.h:203-204` says that nothing new is admitted while the permit count is negative.
  While it is, a step admits somebody exactly when an unclaimed waiter is queued and the step is a
  release or a resize above the capacity (`NegativeAdmitsIff`); shrinking and growing back admits
  one more waiter every time, without bound (`OverAdmissionUnbounded`).
  Slots out exceed the capacity exactly while the count is negative, and one step gets there only by
  shrinking below what is out (`OverCapacityIffNegative`, `StepOverrunsIff`, `WithinCapacity`).
* `src/core/cancel.h:106-110` guarantees that a removed callback never runs again. On the firing
  thread it can still begin, exactly when it is later in the batch (`RemovedOnFiringThread`); on
  other threads the guarantee holds (`RemovedNeverRuns`). A callback that throws ends the batch: the
  later ones never run (`FinishedFiring`). `src/core/timer.cc:107-114` has the same gap on its
  callback thread (`CancelledOnCallbackThread`).
* `src/s3/sys_config_store.h:173` says that an entry whose fetch failed keeps its old value. The
  drop loop of lines 198-199 removes it when it was known at the start of the round
  (`FailedFetchKeepsIff`).
* `src/s3/sys_config_store.h:125-126` promises that a sync cannot bring a removed entry back. A
  second, failing remove of the same key erases the first one's tombstone
  (`FailedRemoveUncoversStaleSync`), and a sync may apply after the tombstone expired
  (`ExpiredTombstoneUncoversStaleSync`). A put of the same gateway that wrote before the delete may
  reach its lock section late: during the remove it erases the tombstone
  (`PutDuringRemoveUncoversStaleSync`), and after it it puts the entry back itself
  (`LatePutBringsItBack`). In every run without these, and in which nobody writes the entry again
  after the delete, it stays removed (`RemovedStaysRemoved`).
* `src/s3/sys_config_store.h:133-138`: remove takes its tombstone back only when the delete fails with an
  S3Error. Any other exception, such as the cancellation of a request that times out in the queue of
  the thread pool, ends it with the tombstone in place and the entry still in the table. Until the
  tombstone expires a sync then neither updates that entry nor drops it while storage has the key
  (`AbandonedRemoveKeepsStaleEntry`). So a round leaves a gateway equal to storage without its
  tombstoned keys exactly when it had no such entry (`SyncConverges`), and equal to storage once
  the tombstones have expired (`GatewaysAgree`).
* `src/s3/ratelimit.cc:75-78`: eviction gives up when it has read every tracked key in flight, so the
  table can hold as many keys as were ever in flight together. The walk reads the keys one by one
  while tokens are released without the mutex, so a release between that walk and the insertion
  (`OneOverPeak`), or inside the walk behind the position already read (`MidWalkRelease`), makes it
  one more, and never two (`SizeBounded`). The larger of the bound and that peak is exceeded exactly
  by an insertion into a full table as large as the peak while some tracked key is idle
  (`RateProtocol.StepOverrunsIff`), so never when nothing is released from the start of a vain walk
  to the insertion (`SizeBoundedUndisturbed`).
* `src/s3/ratelimit.cc:60` says that the least recently seen idle keys are dropped. Every key behind the
  victim was in flight when the walk began (`VictimIsOldest`); one of them may have become idle
  since, and the younger key is dropped all the same (`YoungerEvicted`).
* `src/core/thread_pool.cc:63-72`: only the first caller of join waits for the workers. Any later one
  returns at once (`LaterJoinReturnsAtOnce`), with tasks still queued (`LaterJoinReturnsEarly`).
* `src/core/thread_pool.cc:111-114`, the refill of an empty ready queue from the backlog, is never
  reached (`RefillNeverNeeded`).
* `src/http/pushpull.h:86` says that 0 means end of file. With an empty buffer pop returns 0 while
  data is waiting (`ZeroIffDrained`).
* `src/s3/xml.cc:53-56`: the root element is parsed without checking that it starts with `<`; the
  model does the same.

## Model

| member | source | states |
|---|---|---|
| `Semaphore.PopUnclaimedIsOldest` | src/core/semaphore.h:265-275 | the popping loop yields the oldest waiter nobody has claimed and leaves exactly what is behind it |
| `Semaphore.ClaimDuringLoopCommutes` | src/core/semaphore.h:293-294 | a cancellation that claims a waiter in the middle of the popping loop has the effect of one that came before it |
| `Semaphore.OneSlot` | src/core/semaphore.h:261-281 | a free slot goes to the first unclaimed waiter, and becomes a permit exactly when there is none |
| `Semaphore.GrowIsFifo` | src/core/semaphore.h:219-233 | growing by n wakes the first min(n, waiting) unclaimed waiters in queue order and counts the rest as permits |
| `Semaphore.Waiter.Claim` | src/core/semaphore.h:76-83 | the atomic exchange that decides who resumes a waiter |
| `Semaphore.AsyncSemaphore.constructor` | src/core/semaphore.h:30-31 | capacity and permits start equal, nobody waits |
| `Semaphore.AsyncSemaphore.PopFirstUnclaimed` | src/core/semaphore.h:265-275 | the loop computes the popping function; only the returned waiter is claimed |
| `Semaphore.AsyncSemaphore.ReleaseOne` | src/core/semaphore.h:261-281 | one release: new state and waiter to post; every other waiter untouched |
| `Semaphore.AsyncSemaphore.SetCapacity` | src/core/semaphore.h:209-234 | shrinking subtracts permits; growing gives out the new slots and claims exactly the woken waiters |
| `Semaphore.AsyncSemaphore.GrowBy` | src/core/semaphore.h:219-233 | the growth loop computes the growth function |
| `Semaphore.AsyncSemaphore.Acquire` | src/core/semaphore.h:140-156 | the lock section of an acquire computes the step that AcquireGets and ClosedAdmitsNobody are about, with the flags it sets |
| `Semaphore.AsyncSemaphore.TryAcquire` | src/core/semaphore.h:194-199 | takes a permit exactly when open and positive, never queues |
| `Semaphore.AsyncSemaphore.Close` | src/core/semaphore.h:179-185 | marks closed and takes the whole queue |
| `Semaphore.AsyncSemaphore.Unlink` | src/core/semaphore.h:295-302 | the unlinking loop removes the waiter's first occurrence and nothing else |
| `Semaphore.RemoveFirstAt` | src/core/semaphore.h:297-301 | what unlinking a queued waiter leaves |
| `SemaphoreProtocol.StepKeeps` | src/core/semaphore.h:105-310 | every step of acquire, release, cancel, close and resize keeps the whole invariant |
| `SemaphoreProtocol.GrantManyIsGrow` | src/core/semaphore.h:219-233 | the machine's growth step is the object's growth loop, wake-ups in order included |
| `SemaphoreProtocol.ResizeIsSetCapacity` | src/core/semaphore.h:209-234 | the machine's resize step is the object's lock section, shrinking and growing |
| `SemaphoreProtocol.PermitsConserved` | src/core/semaphore.h:243-249 | permits plus slots out equal the capacity in every reachable state, so the drain test holds exactly when no slot is out |
| `SemaphoreProtocol.ResumedAtMostOnce` | src/core/semaphore.h:72-75 | no coroutine is resumed twice; a cancelled one owns no permit, an uncancelled one owned exactly one |
| `SemaphoreProtocol.OutcomeIsFinalStep` | src/core/semaphore.h:159-167 | no single step changes how a resumed acquire ended |
| `SemaphoreProtocol.OutcomeIsFinal` | src/core/semaphore.h:159-167 | the same over every continuation of every run |
| `SemaphoreProtocol.NoLostWakeup` | src/core/semaphore.h:261-310 | when nothing is under way, an acquire that was not resumed is an unclaimed queue entry, no permit is free, and somebody holds one if the capacity is positive |
| `SemaphoreProtocol.NoOvertaking` | src/core/semaphore.h:149-154 | a newcomer gets a permit only when nobody waits |
| `SemaphoreProtocol.AcquireGets` | src/core/semaphore.h:105-156 | an acquire gets a permit if and only if the semaphore is open, no cancellation was read, nobody claimed the waiter and a permit is free; it fails in place if and only if it is closed or a cancellation was read, and nobody claimed it; it queues if and only if it is open, not cancelled and no permit is free |
| `SemaphoreProtocol.ClosedAdmitsNobody` | src/core/semaphore.h:176-185 | along every run from a closed state nobody owns a slot who did not own one before, and an acquire without a permit never gets one |
| `SemaphoreProtocol.ClosedSettlesAll` | src/core/semaphore.h:176-187 | when nothing is under way, every acquire of a closed semaphore was resumed once, with a permit or as cancelled |
| `SemaphoreProtocol.GrantsAreFifo` | src/core/semaphore.h:265-275 | slots reach queued waiters in push order; only claimed waiters are skipped |
| `SemaphoreProtocol.OverCapacityIffNegative` | src/core/semaphore.h:201-204 | more slots out than the capacity if and only if the permit count is negative |
| `SemaphoreProtocol.StepPermits` | src/core/semaphore.h:209-218 | a count that is not negative becomes negative exactly by shrinking further than it reaches |
| `SemaphoreProtocol.StepOverrunsIff` | src/core/semaphore.h:209-218 | from within capacity, a step leaves it exactly by shrinking below what is out |
| `SemaphoreProtocol.WithinCapacity` | src/core/semaphore.h:209-241 | a run without a shrink never has more slots out than the capacity |
| `SemaphoreProtocol.ReleaseAdmitsIff` | src/core/semaphore.h:261-287 | whatever the count, a release admits somebody exactly when an unclaimed waiter is queued |
| `SemaphoreProtocol.NegativeAdmitsIff` | src/core/semaphore.h:201-233 | while the count is negative, a step of any kind admits somebody if and only if it is a release or a resize above the capacity, and an unclaimed waiter is queued |
| `SemaphoreProtocol.DrainsIffNotifies` | src/core/semaphore.h:276-279 | the drain test turns true exactly by the release that counts its permit and notifies; by no resize, close or cancellation |
| `SemaphoreProtocol.DrainWaitIsWoken` | src/core/semaphore.h:243-249 | in every run from a state with slots out to one with none, some step notified the drain waiters, resizes included |
| `SemaphoreProtocol.OverAdmitOnce` | src/core/semaphore.h:209-233 | acquire, shrink to 0, grow to 1 leaves one more slot out than before |
| `SemaphoreProtocol.OverAdmissionUnbounded` | src/core/semaphore.h:201-204 | for every k a run with capacity at most 1 has k + 1 slots out |
| `CancelState.CancelState.constructor` | src/core/cancel.h:118-120 | not cancelled, nothing registered |
| `CancelState.CancelState.SwapOut` | src/core/cancel.h:36-43 | the first request takes the whole batch and marks the firing thread; a second takes nothing |
| `CancelState.CancelState.FinishFiring` | src/core/cancel.h:47-56 | the guard ends firing |
| `CancelState.CancelState.AddCallback` | src/core/cancel.h:78-104 | a fresh id, or 0 and no registration once cancelled |
| `CancelState.CancelState.RemoveSection` | src/core/cancel.h:111-116 | erases the callback; says whether the caller must wait for the batch |
| `CancelState.FireBatch` | src/core/cancel.h:57 | the batch runs in id order up to and including the first callback that throws |
| `CancelProtocol.StepKeeps` | src/core/cancel.h:35-116 | every step keeps the invariant on registered, batched, running and finished callbacks |
| `CancelProtocol.RunsAtMostOnce` | src/core/cancel.h:35-58 | no callback begins twice in any run |
| `CancelProtocol.SwapTakesRegistered` | src/core/cancel.h:38-43 | the winning request takes exactly what is registered and not removed |
| `CancelProtocol.StepRegistered` | src/core/cancel.h:78-116 | what each step does to one callback: registered under a new id exactly when nothing was cancelled yet, taken off by its own remove or by the winning request, and by nothing else |
| `CancelProtocol.AddedCanStart` | src/core/cancel.h:78-104 | a registered callback can begin |
| `CancelProtocol.FinishedFiring` | src/core/cancel.h:44-57 | after firing, what ran is the batch in order, cut after the callback that threw, if one did |
| `CancelProtocol.RegisteredAtSwapRuns` | src/core/cancel.h:35-58 | from the winning request to any later state with firing over: what ran is what was registered at the swap, each once and in id order, up to the callback that threw; all of it when none threw |
| `CancelProtocol.CanStartIffLive` | src/core/cancel.h:106-116 | a callback can still begin in some continuation if and only if it is registered or waiting in the batch |
| `CancelProtocol.RemovedNeverRuns` | src/core/cancel.h:106-116 | after remove_callback returns on another thread, at once because its section left it not waiting or after its wait, the callback is not running and never begins; with nothing firing it returns at once |
| `CancelProtocol.RemovedOnFiringThread` | src/core/cancel.h:108-115 | on the firing thread it returns at once, and the callback can begin exactly when it is later in the batch |
| `ThreadPool.EnqueueIsFifo` | src/core/thread_pool.cc:46-61 | ready queue plus backlog behave as one queue when a task is accepted |
| `ThreadPool.TakeIsFifo` | src/core/thread_pool.cc:104-122 | continuations first, then strictly the oldest scheduled task, with the backlog promoted in order |
| `ThreadPool.ThreadPool.constructor` | src/core/thread_pool.cc:11-15 | empty queues; a capacity of 0 counts as 1 |
| `ThreadPool.ThreadPool.Post` | src/core/thread_pool.cc:19-44 | appends a continuation, or says that the caller must run it inline after join |
| `ThreadPool.ThreadPool.EnqueueDeferrable` | src/core/thread_pool.cc:46-61 | ready queue below capacity, backlog at capacity, refused after join |
| `ThreadPool.ThreadPool.Stop` | src/core/thread_pool.cc:63-68 | stops the pool and tells the first join from a later one |
| `ThreadPool.ThreadPool.Take` | src/core/thread_pool.cc:99-123 | what a worker takes, and the queues it leaves |
| `PoolProtocol.StepKeeps` | src/core/thread_pool.cc:19-195 | every step of post, schedule, cancel, worker, notification and join keeps the invariant |
| `PoolProtocol.RefinesOneFifo` | src/core/thread_pool.cc:46-123 | accepted tasks are those taken, then the ready queue, then the backlog, in arrival order; deferral only at exactly full capacity; nothing taken twice |
| `PoolProtocol.RefillNeverNeeded` | src/core/thread_pool.cc:111-114 | the ready queue is never empty while the backlog is not |
| `PoolProtocol.WorkersExitDrained` | src/core/thread_pool.cc:100-103 | a worker ends only after join, with all queues empty for good |
| `PoolProtocol.RunsAtMostOnce` | src/core/thread_pool.cc:99-140 | in every run no task and no continuation is run twice, and nothing runs that was not queued |
| `PoolProtocol.WorkersDrain` | src/core/thread_pool.cc:99-140 | once all workers have ended, the log of runs is exactly the accepted tasks and posted continuations, each once and finished |
| `PoolProtocol.JoinDrains` | src/core/thread_pool.cc:63-72 | when the first join has returned, the same holds then and ever after; no other join is the first |
| `PoolProtocol.LaterJoinReturnsAtOnce` | src/core/thread_pool.cc:64-68 | in any state of a stopping pool, another join returns at once and leaves queues and workers as they were |
| `PoolProtocol.LaterJoinReturnsEarly` | src/core/thread_pool.cc:64-68 | a reachable state in which such a join has returned and a queued continuation has not run |
| `PoolWakeups.SleeperIsCovered` | src/core/thread_pool.cc:30-123 | while any worker sleeps, the workers about to look plus the notifications still to come are at least as many as the tasks queued, backlog included; after join its notify_all is still to come |
| `PoolWakeups.NoTaskForgotten` | src/core/thread_pool.cc:30-123 | a queued task always has a worker that is awake or a notification still to come |
| `PoolWakeups.NothingLeftBehind` | src/core/thread_pool.cc:63-140 | when all workers sleep or have ended and nothing is on its way, everything queued has run to its end exactly once, and after join all workers have ended |
| `PoolProtocol.ResumedAtMostOnce` | src/core/thread_pool.cc:145-195 | a scheduled coroutine is resumed at most once, and exactly then it has one outcome |
| `PoolProtocol.OutcomeIsFinal` | src/core/thread_pool.cc:155-193 | no step changes how a resumed coroutine ended |
| `PoolProtocol.NoLostResume` | src/core/thread_pool.cc:145-195 | once the workers have ended and no callback is half way, every scheduled coroutine was resumed exactly once |
| `TimerQueue.TimerQueue.constructor` | src/core/timer.cc:7-7 | nothing pending, due or running |
| `TimerQueue.TimerQueue.Add` | src/core/timer.cc:30-56 | a fresh id in both tables and a wake-up exactly when it became the earliest; 0 after shutdown |
| `TimerQueue.TimerQueue.PendingLocked` | src/core/timer.cc:58-63 | the scan says whether the id is running or due |
| `TimerQueue.TimerQueue.CancelSection` | src/core/timer.cc:99-115 | erases a pending timer; otherwise says whether the caller must wait |
| `TimerQueue.TimerQueue.Round` | src/core/timer.cc:122-145 | one round of the scheduling loop: sleep without limit, sleep to a deadline, or hand the earliest timer over |
| `TimerQueue.TimerQueue.TakeDue` | src/core/timer.cc:155-158 | the callback thread takes the oldest due timer and marks it running |
| `TimerProtocol.StepKeeps` | src/core/timer.cc:9-192 | every step of add, notify, scheduling, firing, cancel and shutdown keeps the invariant |
| `TimerProtocol.OnePlacePerTimer` | src/core/timer.cc:43-46 | the two tables are exact inverses; a timer is pending, due or begun, never two of these; none begins twice or before its deadline |
| `TimerProtocol.NeverOversleeps` | src/core/timer.cc:47-54 | a sleeping scheduler with no wake-up on its way wakes no later than the earliest deadline, though only an earliest add notifies it |
| `TimerProtocol.CanStartIffLive` | src/core/timer.cc:99-192 | a callback can still begin in some continuation if and only if its timer is due, or pending while the queue is not stopping |
| `TimerProtocol.CancelledBeforeFiring` | src/core/timer.cc:99-106 | cancel returning true: the callback never ran and never will |
| `TimerProtocol.CancelledAfterFiring` | src/core/timer.cc:107-115 | cancel returning false on another thread, at once or after its wait: the callback is not running and never begins |
| `TimerProtocol.CancelledOnCallbackThread` | src/core/timer.cc:107-114 | on the callback thread it never waits, and the callback can begin exactly when it is due |
| `TimerOrder.StepTimer` | src/core/timer.cc:30-144 | what each step does to one pending timer: added under a new id with its deadline, taken off by its own cancel or when it is handed over, and by nothing else |
| `TimerOrder.AddedCanStart` | src/core/timer.cc:30-56 | an added timer can begin, and not before its deadline |
| `TimerOrder.HandedIsEarliest` | src/core/timer.cc:131-144 | what is handed over has expired and is the earliest pending timer, ids deciding between equal deadlines |
| `TimerOrder.BegunAsHandedOver` | src/core/timer.cc:140-158 | after every run the callbacks begun, then those due, are the timers handed over, in that order, all of them until shutdown |
| `TimerOrder.EarlierBeginsFirst` | src/core/timer.cc:122-158 | of two timers pending together, when the later one has begun the earlier one began before it or can never begin |
| `WhenAll.WhenAllLatch.constructor` | src/core/task.h:448-451 | one vote per child and one for the awaiter |
| `WhenAll.OneLastVote` | src/core/task.h:446-456 | of any number of votes in a row exactly the one that brings the count to 0 is told to transfer, and to the stored handle |
| `WhenAll.WhenAllLatch.Arrive` | src/core/task.h:452-456 | computes the vote that OneLastVote and the machine are about |
| `WhenAll.WhenAllLatch.Await` | src/core/task.h:462-470 | the handle is stored before the vote, so a last vote here transfers to it |
| `WhenAll.WhenAllLatch.GiveUp` | src/core/task.h:538-541 | the votes of the children never started |
| `WhenAll.Collect` | src/core/task.h:543-549 | the spawn error, else the first child error in input order, else all results in input order; an error exactly when there is one |
| `WhenAll.ResumedExactlyOnce` | src/core/task.h:520-542 | for every number of children, arrival order and spawn failure: resumed at most once, and exactly when the awaiter has voted and every started child has arrived |
| `WhenAll.EndsResumed` | src/core/task.h:520-542 | every run is over after at most 2n + 4 steps, and with no step left the awaiter has been resumed, every child started or the rest given up |
| `Started.SecondVoterResumes` | src/core/task.h:589-629 | in both orders of child and collector the second voter, and only it, gets the collector's handle |
| `Started.StartedState.Complete` | src/core/task.h:601-610 | computes the child's lock section that SecondVoterResumes and the machine are about |
| `Started.StartedState.Collect` | src/core/task.h:623-629 | the handle is stored before the vote, so whoever votes last, the collector or the child after it, transfers to it |
| `Started.CollectedExactlyOnce` | src/core/task.h:589-632 | the collector is resumed at most once, never before the child is done or through a handle not stored, and always when both have voted; wait returns only after done |
| `Started.EndsCollected` | src/core/task.h:589-632 | every run is over after at most 4 steps, and then the child is done and the collector was resumed or its wait has returned |
| `SysConfigStore.MergeInTwo` | src/s3/sys_config_store.h:186-199 | merging what was fetched and then dropping what is missing is one merge |
| `SysConfigStore.ChangeShows` | src/s3/sys_config_store.h:186-200 | the counters are non-zero only if the table changed, so skipping the rebuild is right |
| `SysConfigStore.SysConfigStore.RebuildSnapshot` | src/s3/sys_config_store.h:253-256 | the snapshot becomes the table |
| `SysConfigStore.SysConfigStore.Put` | src/s3/sys_config_store.h:114-119 | the lock section of put computes the step that StepCell and PutStaysVisible are about |
| `SysConfigStore.SysConfigStore.BeginRemove` | src/s3/sys_config_store.h:125-130 | the tombstone before the delete |
| `SysConfigStore.SysConfigStore.FailRemove` | src/s3/sys_config_store.h:133-138 | the section of the S3Error branch, after a failed delete: the tombstone goes |
| `SysConfigStore.SysConfigStore.FinishRemove` | src/s3/sys_config_store.h:140-143 | the entry goes, the snapshot follows |
| `SysConfigStore.SysConfigStore.ApplySyncLocked` | src/s3/sys_config_store.h:182-201 | expiry, both loops and the conditional rebuild compute the merge |
| `SysConfigStore.SysConfigStore.MergeFetched` | src/s3/sys_config_store.h:186-197 | the first loop computes the merge without the drops and reports whether anything changed |
| `SysConfigStore.SysConfigStore.DropMissing` | src/s3/sys_config_store.h:198-199 | the second loop drops exactly the known keys that were not fetched |
| `SysConfigProtocol.StepKeeps` | src/s3/sys_config_store.h:107-203 | every step of load, put, remove and sync on any number of gateways, failed and abandoned ones included, keeps the invariant |
| `SysConfigProtocol.SnapshotIsTable` | src/s3/sys_config_store.h:95-98 | the published snapshot equals the table in every reachable state |
| `SysConfigPuts.StepCell` | src/s3/sys_config_store.h:107-144 | what each step but a sync does to one key of one gateway: a finished put shows its value in table and snapshot and clears the tombstone, a remove sets the tombstone, takes it back or drops the entry; every other key of every gateway stays |
| `SysConfigPuts.StepObject` | src/s3/sys_config_store.h:107-139 | storage changes only by the write of a put and the delete of a remove, each under its own key |
| `SysConfigPuts.PutStaysVisible` | src/s3/sys_config_store.h:107-120 | in every run after a put's write that leaves its key alone, storage holds the value, and once the put has finished table and snapshot of its gateway show it, whatever syncs began meanwhile |
| `SysConfigProtocol.SyncAddsIff` | src/s3/sys_config_store.h:185-192 | a sync adds a missing key exactly when it fetched it and no unexpired tombstone covers it |
| `SysConfigProtocol.RemovedStaysRemoved` | src/s3/sys_config_store.h:122-144 | after remove, the entry is in neither storage nor the table in every continuation where nobody writes it after the delete, no earlier put of it finishes here, the remove is not abandoned, no other remove of it fails here, and syncs that fetched it apply within the tombstone's life |
| `SysConfigRuns.FailedRemoveUncoversStaleSync` | src/s3/sys_config_store.h:133-138 | a reachable state in which a failing second remove lets a stale sync bring the entry back |
| `SysConfigRuns.ExpiredTombstoneUncoversStaleSync` | src/s3/sys_config_store.h:185-192 | a reachable state in which a sync after the tombstone's life does |
| `SysConfigRuns.LatePutBringsItBack` | src/s3/sys_config_store.h:107-120 | a reachable state, the entry in neither storage nor the table, in which a put that wrote before the remove still puts it back into table and snapshot |
| `SysConfigRuns.PutDuringRemoveUncoversStaleSync` | src/s3/sys_config_store.h:114-119 | a reachable state in which a put that finished during the remove has erased the tombstone and a stale sync brings the entry back at once |
| `SysConfigProtocol.FailedFetchKeepsIff` | src/s3/sys_config_store.h:172-199 | an entry whose fetch yielded nothing keeps its value exactly when it was not known at the start of the round |
| `SysConfigProtocol.SyncConverges` | src/s3/sys_config_store.h:149-203 | from any reachable state in which a gateway has no sync under way, a round it completes while storage is not written, its own puts and removes do not move and its fetches do not fail leaves table and snapshot equal to the well-formed storage entries, but under its live tombstones to the entries it had whose keys storage still has; so it mirrors storage without the tombstoned keys if and only if it had none of those; other gateways may start, sync, fail and abort meanwhile |
| `SysConfigRuns.AbandonedRemoveKeepsStaleEntry` | src/s3/sys_config_store.h:131-139 | a remove ended by another exception than S3Error, and a whole quiet round after it that keeps a stale entry under the tombstone |
| `SysConfigProtocol.GatewaysAgree` | src/s3/sys_config_store.h:146-203 | two gateways agree with each other and with storage in any state that each reached by such a round, each from its own starting point, with its tombstones expired by then |
| `XmlText.TrimExact` | src/s3/xml.cc:237-242 | trim cuts exactly the outer blanks, by code point |
| `XmlText.SanitizeExact` | src/s3/xml.cc:9-39 | what survives escaping is the text without exactly the control characters XML forbids, by code point |
| `XmlText.EscapeSafe` | src/s3/xml.cc:9-39 | escaped text holds no markup character, whatever the text |
| `XmlTokens.EntityValueExact` | src/s3/xml.cc:187-217 | every named reference, and every decimal or hexadecimal one to an admitted code point, has its value |
| `XmlTokens.EntityValueSound` | src/s3/xml.cc:187-217 | whatever has a value is one of these |
| `XmlTokens.ValueIsMeant` | src/s3/xml.cc:187-235 | the value of a reference decodes to the code point its digits or name stand for |
| `XmlTokens.TextSound` | src/s3/xml.cc:176-185 | whatever is read as character data is a run of characters and references, each with its value |
| `XmlGrammar.ElementReads` | src/s3/xml.cc:107-160 | an element of the grammar, with attributes, comments, CDATA, references, self-closed tags and blanks, is read as its tree before any input, or refused exactly when too deep |
| `XmlLanguage.ElementSound` | src/s3/xml.cc:107-160 | whatever is read as an element is one of the grammar, read as its tree |
| `XmlLanguage.AcceptsExactly` | src/s3/xml.cc:53-60 | an input is accepted with a tree if and only if it is within the size limit and the text of a document of the grammar, nested at most 32 deep, that denotes this tree |
| `XmlRoundTrip.TextExact` | src/s3/xml.cc:176-185 | reading escaped text gives the text without forbidden control characters, before any further input |
| `XmlRoundTrip.AttributesExact` | src/s3/xml.cc:114-129 | the attributes of a written start tag are skipped exactly |
| `XmlRoundTrip.ElementExact` | src/s3/xml.cc:107-160 | a written element reads back at any depth and before any input, or is refused exactly when too deep |
| `XmlRoundTrip.ItemsExact` | src/s3/xml.cc:131-156 | mixed text and children read back in order, texts joined |
| `XmlRoundTrip.HeaderSkipped` | src/s3/xml.cc:79-91 | the writer's declaration is skipped and the root is not |
| `XmlRoundTrip.RoundTrip` | src/s3/xml.cc:262-265 | if and only if it is nested at most 32 deep, a written document parses to a tree with its names and structure and its texts, without the forbidden characters and outer blanks, stated by code point; otherwise the error is the depth error |
| `XmlRoundTrip.ParsedIsLegal` | src/s3/xml.cc:107-160 | whatever the input, a parsed tree has legal names and at most 32 levels |
| `XmlRoundTrip.Reparse` | src/s3/xml.cc:53-60 | whatever parses can be written and read again as the same tree, its texts without forbidden characters and outer blanks |
| `XmlReferences.Utf8Decodes` | src/s3/xml.cc:219-235 | an independent decoder gets every code point back from append_utf8 |
| `XmlReferences.Utf8Unique` | src/s3/xml.cc:219-235 | whatever decodes to an admitted code point is what append_utf8 writes for it |
| `XmlReferences.ReferenceExact` | src/s3/xml.cc:187-217 | every admitted code point is read from its decimal reference as its UTF-8 form, before any further input |
| `XmlObjects.XmlEscape` | src/s3/xml.cc:9-39 | the escaping loop computes the escape function |
| `XmlObjects.XmlWriter.constructor` | src/s3/xml.h:36 | starts with the declaration |
| `XmlObjects.XmlWriter.Open` | src/s3/xml.h:38-41 | appends the start tag and pushes the name |
| `XmlObjects.XmlWriter.Close` | src/s3/xml.h:42-45 | appends the end tag of the innermost open element |
| `XmlObjects.XmlWriter.Text` | src/s3/xml.h:49 | appends escaped text |
| `XmlObjects.XmlWriter.Element` | src/s3/xml.h:46-48 | appends a whole text element |
| `XmlObjects.Emit` | src/s3/xml.h:34-56 | driving the writer along a document appends exactly its written form and restores the stack |
| `XmlObjects.Parser.SkipWs` | src/s3/xml.cc:67-69 | the loop computes the skip function |
| `XmlObjects.Parser.SkipUntil` | src/s3/xml.cc:71-75 | position after the terminator, or an error when there is none |
| `XmlObjects.Parser.SkipMiscHere` | src/s3/xml.cc:79-91 | the loop over blanks, instructions, comments and doctypes |
| `XmlObjects.Parser.ParseNameHere` | src/s3/xml.cc:93-104 | the longest run of name characters, not empty |
| `XmlObjects.Parser.ParseAttributeHere` | src/s3/xml.cc:162-174 | one attribute skipped, or its error |
| `XmlObjects.Parser.ParseTagEnd` | src/s3/xml.cc:115-129 | the attribute loop up to the end of the start tag |
| `XmlObjects.Parser.ParseEntityHere` | src/s3/xml.cc:187-217 | named and numeric references, the length guard and the range check |
| `XmlObjects.Parser.ParseTextHere` | src/s3/xml.cc:176-185 | the text loop |
| `XmlObjects.Parser.ParseCloseHere` | src/s3/xml.cc:135-142 | the matching end tag, or its error |
| `XmlObjects.Parser.ParseElementHere` | src/s3/xml.cc:107-160 | one element with the depth counter restored |
| `XmlObjects.Parser.ParseContentHere` | src/s3/xml.cc:131-158 | the content loop computes the recursive content function |
| `XmlObjects.XmlParse` | src/s3/xml.cc:262-265 | the object parser computes, for every input and size limit, the function AcceptsExactly characterises |
| `XmlObjects.WriteThenParse` | src/s3/xml.cc:262-265 | writer object and parser object together satisfy the round trip |
| `YamlText.VariableExpands` | src/core/config.cc:33-50 | before any rest, `${NAME}` is the value of a defined variable, and the error naming it otherwise |
| `YamlText.DefaultExpands` | src/core/config.cc:33-50 | before any rest, `${NAME:-default}` is the value of a defined variable, and the default otherwise |
| `YamlText.LiteralExpands` | src/core/config.cc:31-54 | a text without a closed reference expands to itself in any environment |
| `YamlText.ExpandExact` | src/core/config.cc:29-56 | every text is characters, references and references with default; it expands to their values in order, or to the error of the first variable that has none, and to nothing else |
| `YamlText.TrimExact` | src/core/config.cc:58-63 | trim cuts exactly the outer spaces and tabs |
| `YamlText.UnquoteExact` | src/core/config.cc:65-69 | a value between two quotes of one kind is what they enclose, any other value is itself |
| `YamlText.CutExact` | src/core/config.cc:88-101 | a line is cut at its first # that follows a blank outside quotes |
| `YamlText.LineExact` | src/core/config.cc:77-104 | what a raw line amounts to: an error exactly for a tab after its leading spaces, nothing if blank or a comment, else its indentation and its trimmed content without carriage return and comment |
| `YamlGrammar.BlockReads` | src/core/config.cc:129-168 | a block of the grammar, with any indentation and any blanks, is read as the tree it denotes before any less indented line, or refused exactly when nested deeper than 65 blocks |
| `YamlGrammar.BlockSound` | src/core/config.cc:129-168 | whatever is read as a block is one of the grammar, read as the tree it denotes |
| `YamlGrammar.LinesAccepted` | src/core/config.cc:113-122 | lines are accepted with a tree if and only if they are those of one block of the grammar, nested at most 65 blocks, that denotes this tree; no lines are the empty map |
| `YamlLanguage.TabsRefused` | src/core/config.cc:71-107 | reading the lines fails if and only if some line has a tab after its leading spaces |
| `YamlLanguage.AcceptsExactly` | src/core/config.cc:194 | a text is accepted with a tree if and only if its lines, each read on its own, are those of a block of the grammar that denotes this tree |
| `YamlTheorems.EveryLineOnce` | src/core/config.cc:113-168 | a successful parse consumes every line exactly once and in order: the keys and scalars of the tree, read in order, are those of the lines |
| `YamlTheorems.NestingBounded` | src/core/config.cc:125-131 | no parsed tree nests more than 65 blocks |
| `YamlRoundTrip.LinesRoundTrip` | src/core/config.cc:113-122 | a tree whose values hold no variable reference, written as lines, parses back to itself in any environment if and only if it nests at most 65 blocks |
| `YamlRoundTrip.LinesBack` | src/core/config.cc:71-107 | splitting written text gives the lines back |
| `YamlRoundTrip.RoundTrip` | src/core/config.cc:194 | such a tree with plain keys, and values without a newline or both kinds of quote, written as text, parses back to itself in any environment if and only if it nests at most 65 blocks |
| `YamlObjects.ExpandEnv` | src/core/config.cc:29-56 | the expansion loop computes the function ExpandExact characterises |
| `YamlObjects.Parser.ParseBlock` | src/core/config.cc:129-134 | one block from the current line computes the recursive block function; lines before it untouched |
| `YamlObjects.Parser.ParseList` | src/core/config.cc:133-143 | the list loop, which rewrites the line it opens, computes the recursive list function |
| `YamlObjects.Parser.ParseItem` | src/core/config.cc:136-140 | an item's line is rewritten in place and parsed again as a block two columns further in |
| `YamlObjects.Parser.ParseEntry` | src/core/config.cc:146-165 | one key with its scalar, nested block or empty map |
| `YamlObjects.Parser.ParseMap` | src/core/config.cc:144-167 | the map loop computes the recursive map function |
| `YamlObjects.Parser.ParseAll` | src/core/config.cc:113-122 | the object parser computes the parsing function; leftover lines are an error |
| `YamlLines.StripComment` | src/core/config.cc:88-101 | the quote-aware scan computes the function CutExact characterises |
| `YamlLines.ReadLine` | src/core/config.cc:77-104 | one raw line: computes the function LineExact characterises |
| `YamlLines.SplitLines` | src/core/config.cc:71-107 | the reading loop computes the line function |
| `YamlLines.YamlParse` | src/core/config.cc:194 | reader and parser objects together compute, for every text, the function AcceptsExactly characterises |
| `RateLaws.ChargeExact` | src/s3/ratelimit.cc:35-51 | one call: the bucket holds the smaller of the burst and what it held plus the rate times the time since its stamp; the call passes if and only if that is at least 1 and the cap is not reached, and then costs 1 and one slot, otherwise nothing; without a rate only the cap counts |
| `RateLaws.ChargeConserves` | src/s3/ratelimit.cc:36-51 | bucket minus rate times stamp plus admissions is conserved by a call unless the bucket was cut to the burst, and then bucket plus admission is the burst |
| `RateLaws.BurstAtOnce` | src/s3/ratelimit.cc:26-29 | of any number of calls at the instant a key appears exactly the first burst of them pass |
| `RateLaws.BurstDefaults` | src/s3/ratelimit.cc:7-10 | the burst is the configured one, or the rate when none is configured |
| `RateLaws.AdmittedIff` | src/s3/ratelimit.cc:31-52 | in every reachable state a call for a tracked key is admitted if and only if its bucket, refilled up to the burst, holds at least 1 and fewer of its tokens are out than the cap; a refused call leaves no token |
| `RateLaws.RestedCallPasses` | src/s3/ratelimit.cc:36-43 | a call at least one over the rate after the stamp, with nothing in flight, is never refused |
| `RateLaws.NewKeyAdmitted` | src/s3/ratelimit.cc:23-52 | an untracked key is always admitted, from a full bucket, with one token out, and changes no other entry |
| `RateLaws.AdmissionsExact` | src/s3/ratelimit.cc:35-51 | while a key stays tracked and its bucket is never cut, its admissions over any stretch of any run are exactly what the bucket lost plus the rate times how far its stamp advanced |
| `RateLaws.ListIsByLastUse` | src/s3/ratelimit.cc:23-33 | after every run the order list holds the tracked keys by their last call, the latest first |
| `RateLimiter.ChargePays` | src/s3/ratelimit.cc:36-51 | one call keeps the bucket between 0 and the burst, moves its stamp to the later of the two times, and lowers bucket minus rate times stamp by at least one per admission |
| `RateLimiter.ReleaseBeforeIncrement` | src/s3/ratelimit.cc:44-52 | a release between the load of the counter and its increment has the effect of one just before the call |
| `RateLimiter.FreshPasses` | src/s3/ratelimit.cc:26-29 | a new key always passes |
| `RateLimiter.EvictDropsOldestIdle` | src/s3/ratelimit.cc:63-80 | eviction keeps list and table in step, drops idle keys only and the least recently used of them, changes no survivor, and stops short only when every key is in flight |
| `RateLimiter.AdmitKnownKeeps` | src/s3/ratelimit.cc:32-52 | a hit keeps the list a permutation of the table and every entry within its limits |
| `RateLimiter.AdmitNewKeeps` | src/s3/ratelimit.cc:23-52 | so does a miss, and it is admitted |
| `RateLimiter.Entry.RefillHere` | src/s3/ratelimit.cc:37-41 | refill in place computes the level ChargeExact and ChargeConserves are about |
| `RateLimiter.Entry.ChargeHere` | src/s3/ratelimit.cc:35-51 | refill, both checks and the charge, in place |
| `RateLimiter.Token.Reset` | src/s3/ratelimit.h:79-82 | gives the slot back once |
| `RateLimiter.Token.MoveFrom` | src/s3/ratelimit.h:68-75 | the old slot is returned, the other's taken over, none copied; self-move changes nothing |
| `RateLimiter.RateLimiter.constructor` | src/s3/ratelimit.cc:7-10 | burst defaults to the rate, the table bound is at least 1 |
| `RateLimiter.RateLimiter.EvictLocked` | src/s3/ratelimit.cc:63-80 | the two nested loops compute the eviction function |
| `RateLimiter.RateLimiter.FindVictim` | src/s3/ratelimit.cc:65-75 | the backward walk finds the idle key nearest the end, if any |
| `RateLimiter.RateLimiter.AdmitHit` | src/s3/ratelimit.cc:31-52 | the hit path on the objects |
| `RateLimiter.RateLimiter.AdmitMiss` | src/s3/ratelimit.cc:23-52 | the miss path on the objects, after making room |
| `RateLimiter.RateLimiter.AdmitRequest` | src/s3/ratelimit.cc:12-53 | the whole operation computes the step AdmittedIff and NewKeyAdmitted are about; the token points at the entry charged; disabled or unknown source is admitted without accounting |
| `RateProtocol.StepKeeps` | src/s3/ratelimit.cc:12-80 | every step of admit and release keeps the invariant, the eviction walk one look at a time |
| `RateProtocol.TokensNeverDangle` | src/s3/ratelimit.h:43-47 | a live token always points at an entry still in the table |
| `RateProtocol.TableTracked` | src/s3/ratelimit.cc:17-34 | the order list is a duplicate-free permutation of the keys, every counter equals its live tokens, and none exceeds the concurrency cap |
| `RateProtocol.SizeBounded` | src/s3/ratelimit.cc:63-80 | the table never exceeds the larger of its bound and one more than the most keys in flight at once |
| `RateProtocol.SizeBoundedUndisturbed` | src/s3/ratelimit.cc:17-34 | without a release from the start of a vain walk to the insertion, it never exceeds the larger of its bound and the most keys in flight at once |
| `RateProtocol.StepOverrunsIff` | src/s3/ratelimit.cc:63-80 | a step takes the table over the larger of its bound and that peak if and only if it inserts into a full table as large as the peak while some tracked key is idle |
| `RateProtocol.VictimIsOldest` | src/s3/ratelimit.cc:60-75 | a key is evicted only with nothing in flight, and every key less recently used than it was in flight when the walk began |
| `RateProtocol.AdmissionsBounded` | src/s3/ratelimit.cc:35-51 | while a key stays tracked, admissions over any stretch of any run are at most the burst plus the rate times how far its stamp advanced, whatever the order of call times |
| `RateProtocol.StampUpTo` | src/s3/ratelimit.cc:37-41 | the stamp never passes the latest call time of the key |
| `RateRuns.UndisturbedAdmit` | src/s3/ratelimit.cc:12-53 | with no release meanwhile, the steps of admit compose to the whole operation |
| `RateRuns.OneOverPeak` | src/s3/ratelimit.cc:63-80 | a run that tracks two keys with room for one though never more than one was in flight |
| `RateWalks.MidWalkRelease` | src/s3/ratelimit.cc:67-75 | a run that tracks three keys with room for two though never more than two were in flight, by a release inside the walk and none after it |
| `RateWalks.YoungerEvicted` | src/s3/ratelimit.cc:60-75 | a reachable state in which the next look evicts a key although a less recently used one is idle |
| `RateRuns.EvictionForgets` | src/s3/ratelimit.cc:60-62 | with room for one key, two keys taking turns are admitted any number of times at one instant |
| `BlockQueue.PushCopyAppends` | src/http/pushpull.h:42-65 | a copying push appends to the byte stream, however it is split into blocks |
| `BlockQueue.PushMoveAppends` | src/http/pushpull.h:67-77 | so does a moving push |
| `BlockQueue.PopTakesPrefix` | src/http/pushpull.h:87-108 | pop takes a prefix of the stream whenever there is one, non-empty unless the buffer is |
| `BlockQueue.BlockQueue.constructor` | src/http/pushpull.h:39 | empty, open, not failed |
| `BlockQueue.BlockQueue.Push` | src/http/pushpull.h:42-65 | the lock section, its answer, and the stream it leaves |
| `BlockQueue.BlockQueue.PushOwned` | src/http/pushpull.h:67-77 | the same for an owned buffer |
| `BlockQueue.BlockQueue.Close` | src/http/pushpull.h:79-84 | records the outcome, touches no data |
| `BlockQueue.BlockQueue.Cancel` | src/http/pushpull.h:110-118 | marks cancelled, touches no data |
| `BlockQueue.BlockQueue.PopInto` | src/http/pushpull.h:87-108 | data, end of file or one of the two errors, and the stream it leaves |
| `BlockQueue.StreamConserved` | src/http/pushpull.h:42-118 | in every interleaving, delivered bytes followed by buffered bytes are the accepted bytes in order, the count is exact, no stored block is empty, and occupancy stays below the capacity plus one push |
| `BlockQueue.ZeroIffDrained` | src/http/pushpull.h:86-108 | exactly when pop returns 0, and exactly when it throws, in every reachable state |
| `BlockQueue.WhoWaits` | src/http/pushpull.h:42-118 | after every run a push waits exactly while the queue holds its capacity and was not cancelled, a pop exactly while everything was delivered and it was neither closed nor cancelled; both at once only around a queue of capacity 0 |
| `BlockQueue.FlagsAreEvents` | src/http/pushpull.h:79-118 | closed, failed and cancelled exactly when some event said so; the last close counts |
| `BlockQueue.SmallPushesShareABlock` | src/http/pushpull.h:48-77 | consecutive small pushes go into one block up to 256 KiB; a large push and an owned buffer are blocks of their own |
| `HeaderMap.SameIsByLetter` | src/http/model.h:145-150 | two names are the same exactly when they are as long and agree byte by byte, the letters A to Z up to case, by code |
| `HeaderMap.ValuesAt` | src/http/model.h:63-70 | the values of a name are those of the items at exactly the positions with that name, in order |
| `HeaderMap.WithoutAt` | src/http/model.h:81-95 | remove keeps the items at exactly the positions with another name, in order |
| `HeaderMap.SameTag` | src/http/model.h:115-120 | names equal up to case have equal tags, so the filter never hides a match |
| `HeaderMap.MarkExact` | src/http/model.h:33 | setting one bit adds exactly that tag to the set |
| `HeaderMap.AbsentTag` | src/http/model.h:46-48 | a tag not in the set means no item of that name |
| `HeaderMap.ValuesUpToCase` | src/http/model.h:20-22 | lookups do not depend on the spelling of the name |
| `HeaderMap.PutValues` | src/http/model.h:36-42 | set replaces the first value or adds one, and touches no other name |
| `HeaderMap.WithoutValues` | src/http/model.h:80-102 | remove leaves no value of the name and every other name as it was |
| `HeaderMap.PiecesAreTheSplit` | src/http/model.h:131-139 | the pieces joined with commas are the value, and no piece holds a comma |
| `HeaderMap.Trim` | src/http/model.h:136-137 | the two loops cut exactly the outer blanks |
| `HeaderMap.Ieq` | src/http/model.h:145-150 | the comparison loop decides equality up to ASCII case |
| `HeaderMap.ListHasToken` | src/http/model.h:131-140 | the loop decides whether some piece, trimmed, is the token |
| `HeaderMap.HeaderMap.constructor` | src/http/model.h:163-168 | empty, with an empty set of tags |
| `HeaderMap.HeaderMap.Add` | src/http/model.h:30-35 | appends, keeping tags and set exact |
| `HeaderMap.HeaderMap.FindIndex` | src/http/model.h:155-161 | the filtered scan finds the first match of the plain scan, or none when there is none |
| `HeaderMap.HeaderMap.Find` | src/http/model.h:46-52 | the first value of the plain scan |
| `HeaderMap.HeaderMap.Set` | src/http/model.h:36-42 | overwrites the first match or appends |
| `HeaderMap.HeaderMap.GetAll` | src/http/model.h:63-70 | all values of the plain scan, in order |
| `HeaderMap.HeaderMap.Count` | src/http/model.h:71-78 | their number |
| `HeaderMap.HeaderMap.HasToken` | src/http/model.h:125-143 | whether a value of the name has the token in its comma list |
| `HeaderMap.HeaderMap.Remove` | src/http/model.h:81-102 | drops every match in order, says how many, and leaves tags and set exact |
| `HeaderMap.HeaderMap.Compact` | src/http/model.h:84-95 | the in-place compaction computes the filtered list |
| `HeaderMap.HeaderMap.Rebuild` | src/http/model.h:96-100 | the set is rebuilt to exactly the tags left |

## Left out

- HTTP drivers, TLS, sockets, routing, request dispatch, SigV4, credentials and the storage engines are not modelled.
- The C++ memory model and coroutine frame lifetimes: a lock section, an atomic exchange and a wait that returns are one step each, in any interleaving.
- Cancellation tokens inside the semaphore and the pool: a registered callback may fire at any later moment, which allows more runs than CancelState does.
- Liveness under fair scheduling: what is proved is that nothing is lost, who can still begin, and what holds when nothing is under way.
- 64-bit overflow of counters and ids; integers are unbounded.
- Floating point: bucket levels and times in the rate limiter and the stores are real numbers.
- Keys, entries and callbacks of the stores, the timers and the limiter are abstract values; their serialisation and hashing are not modelled.
- RateLimiter.AdmitRequest: runs without a release in between; releases inside admit are covered by RateProtocol, whose steps it composes.
- SysConfigStore: the paging and fetching loop of sync_now exists as steps of SysConfigProtocol, not as a loop on an object, and the background timer is left out.
- YamlRoundTrip.RoundTrip: writes values in quotes, so values with both kinds of quote, a newline or a variable reference are outside it; the parser has no escape for any of them.
- XmlRoundTrip.RoundTrip: attribute strings are given as name and value pairs without a double quote, because the writer does not escape them.
- YAML line numbers in error messages, and the typed configuration checks that follow parsing.
- Statistics, histograms, logging, the usage tracker and the bucket metrics table (the last has the shape of the limiter's table).
