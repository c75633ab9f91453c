# threadpool — a verified model of the pool's scheduling bookkeeping

A Dafny model of the core of Ni-Guvara/threadpool, a C++ thread pool with a
FIXED mode and a CACHED mode. Callers submit tasks into a bounded FIFO queue.
Detached worker threads take tasks from the head and run them. A submitter
fetches each task's output through a one-shot `Result`, which pairs an `Any`
value slot with a `Semaphore`. In CACHED mode the pool spawns a worker when the
pending tasks outnumber the idle workers, up to a ceiling. A worker idle for
more than `THREAD_IDLE_DURATION` seconds retires, down to the initial count.
On destruction the pool stops, the workers drain the queue and retire, and the
destructor returns once the worker registry is empty.

The repository holds two near-identical copies of the engine
(`src/threadpool.cpp` and `ThreadPool/ThreadPool/threadpool/src/threadpool.cpp`)
and a header-only variant (`include/threadpool.h`). It is modelled once, and
the table cites every copy.

Modules:

- `AnyValue` (`any_value.dfy`). `Any` is a tagged value. `Cast` is the
  type-checked `cast_<T>`, and a retrieval at the wrong type is an explicit
  `BadCast`.
- `TaskResult` (`task_result.dfy`). The classes `Semaphore`, `Task` and
  `Result` update their fields in place. A wait that would block is a
  precondition.
- `PoolSpec` (`pool_spec.dfy`). The pool state as a value `Pool<T>`, with one
  atomic transition function per block of the source: a block run under
  `taskQueMtx`, or an unlocked setter or flag write. It also defines runs,
  which are sequences of `Step`s.
- `Pool` (`thread_pool.dfy`). The class `ThreadPool` updates its fields in
  place. Each public method is proved to perform one `PoolSpec` transition
  (`ensures State() == PoolSpec.X(old(State()), ...)`). The setters, `Start`,
  `Submit`, `RetireOnShutdown`, `EnterIdleWait` and `Wake` perform the
  function of the same name. `TakeTask` performs `Take`, `FinishTask` performs
  `Finish`, `Shutdown` performs `Stop`, and `TimeOut` performs `IdleTimeout`.
  The helpers `CreateWorkers` and `StartWorkers` are the two loops of `start`,
  and `SpawnWorker` is the growth step of `submitTask`.
- `PoolProperties` (`pool_properties.dfy`). What the transitions guarantee,
  one step at a time and along whole runs.

Two parts of the program are inputs rather than modelled behaviour:

- The static `Thread::threadId` counter is the pool field `nextId`. The
  constructor takes its current value.
- The idle time a worker has measured on `system_clock` is the parameter
  `elapsedSeconds`.

A CACHED worker's idle wait is three steps, because the one-second timed
wait releases the lock and other blocks run while it lasts:

- `EnterIdleWait`: at the head of its `pending == 0` loop, with the pool
  running, the worker starts the wait.
- `Wake`: a notification ends the wait, and the worker is back at the head
  of its loop.
- A timeout ends the wait. The code then applies the idle rule without
  re-checking anything (`IdleTimeout`, the step `TimedOutAsWritten`). The
  corrected rule `IdleTimeoutRechecked` is the step `TimedOut`; see
  "## Findings".

Three further behaviours of the code are kept as written:

- `setMode` is not guarded by the running check, so it applies even while
  the pool runs.
- Idle retirement does not signal `conExit_`.
- A second `get` on a valid `Result` waits for a second post; in the model
  that is an unmet precondition.

## Model

| member | source | states |
|---|---|---|
| AnyValue.Of | ThreadPool/ThreadPool/threadpool/include/threadpool.h:56-57 | The converting constructor `Any(T v)` always yields a non-empty holder |
| AnyValue.Cast | ThreadPool/ThreadPool/threadpool/include/threadpool.h:59-65 | `cast_` succeeds exactly when the holder is non-empty and was built from a value of the requested type; it then returns a value that rebuilds the same holder and has that type |
| AnyValue.CastOfRoundTrip | ThreadPool/ThreadPool/threadpool/include/threadpool.h:41-65 | Round trip: `Any a(v); a.cast_<T>()` gives back `v` when `T` is `v`'s type, and is refused at every other type |
| AnyValue.CastOfEmptyFails | ThreadPool/ThreadPool/threadpool/include/threadpool.h:49-65 | A default-constructed or moved-from `Any` cannot be retrieved at any type |
| TaskResult.Semaphore.constructor | ThreadPool/ThreadPool/threadpool/include/threadpool.h:94 | The default semaphore starts at 0 |
| TaskResult.Semaphore.WithCount | ThreadPool/ThreadPool/threadpool/include/threadpool.h:95 | `Semaphore(int val)` starts at the given value |
| TaskResult.Semaphore.Wait | ThreadPool/ThreadPool/threadpool/include/threadpool.h:97-105 | `wait` completes only when the count is positive, lowers it by exactly 1, and leaves it non-negative |
| TaskResult.Semaphore.Post | ThreadPool/ThreadPool/threadpool/include/threadpool.h:107-112 | `post` raises the count by exactly 1 |
| TaskResult.Task.constructor | ThreadPool/ThreadPool/threadpool/src/threadpool.cpp:15-18 | A new task has no registered Result (`res_` is null) |
| TaskResult.Task.SetResult | src/threadpool.cpp:21-24 | `setResult` registers the given Result as the publish target |
| TaskResult.Task.Exec | src/threadpool.cpp:25-31 | With a Result registered, `exec` stores `run()` in it and posts its semaphore once; with none, nothing changes and `run` is not invoked |
| TaskResult.Result.constructor | ThreadPool/ThreadPool/threadpool/include/threadpool.h:117-119 | The Result records its validity (default true), starts empty with a semaphore at 0, and registers itself as the task's publish target |
| TaskResult.Result.SetVal | src/threadpool.cpp:3-7 | `setVal` stores the value, then posts the semaphore exactly once |
| TaskResult.Result.Get | src/threadpool.cpp:8-14 | An invalid Result returns the `""` sentinel at once and touches neither the slot nor the semaphore; a valid one consumes one post and moves out the stored value, leaving the slot empty |
| TaskResult.HandOff | ThreadPool/ThreadPool/threadpool/src/threadpool.cpp:3-33 | After a task with a registered Result is executed, the one fetch returns `run()` and consumes the only post |
| TaskResult.RejectedHandOff | src/threadpool.cpp:8-11 | Fetching from a Result built invalid returns the sentinel without any post |
| PoolSpec.SetMode | include/threadpool.h:95-98 | `setMode` changes the mode, even while running, and nothing else |
| PoolSpec.SetTaskQueThreshold | src/threadpool.cpp:81-85 | Sets the queue capacity only when the pool is not running; otherwise the state is unchanged; no other field changes |
| PoolSpec.SetTaskQueCurrentSize | src/threadpool.cpp:86-90 | Overwrites the pending count only when not running; otherwise the state is unchanged |
| PoolSpec.SetThreadsQueThreshold | src/threadpool.cpp:91-95 | Sets the thread ceiling only when not running; otherwise the state is unchanged |
| PoolSpec.SetThreadQueCurrentSize | src/threadpool.cpp:96-100 | Overwrites the thread count only when not running; otherwise the state is unchanged |
| Pool.ThreadPool.IsRunning | src/threadpool.cpp:77-80 | `checkThreadPoolIsRunning` answers exactly the running flag of the pool's state |
| PoolSpec.IdRangeContents | include/threadpool.h:40-43 | `n` consecutive `Thread` constructions draw exactly the ids from the counter value up to `n` further, that is `n` distinct ids |
| PoolSpec.Start | src/threadpool.cpp:102-125 | `start(n)` sets running and `init == current == n`; only the registry, the id counter and the idle count change besides, and each only grows |
| PoolSpec.Submit | src/threadpool.cpp:128-168 | Rejects exactly when pending >= capacity, and then leaves every field unchanged. On acceptance the task is appended at the tail, pending rises by 1, and only the queue, pending, registry, counter, thread count and idle count change. The thread count grows iff the mode is CACHED, pending (after the push) exceeds idle and current is below the ceiling. When it grows, the registry gains exactly the next id, the counter advances by 1, and current and idle each rise by 1; otherwise all four are unchanged. The ceiling is never passed, and FIXED mode never spawns |
| PoolSpec.Take | src/threadpool.cpp:218-221 | A take removes exactly the queue head, lowers pending and idle by 1 each, marks the worker as executing, and changes nothing else |
| PoolSpec.Finish | src/threadpool.cpp:235 | After running its task the worker is no longer executing and counts as idle again (idle + 1); nothing else changes |
| PoolSpec.RetireOnShutdown | ThreadPool/ThreadPool/threadpool/src/threadpool.cpp:189-197 | Shutdown retirement erases the worker's own id and leaves `currentThreadSize_` and the idle count unchanged |
| PoolSpec.EnterIdleWait | src/threadpool.cpp:183-197 | A CACHED worker at the head of its loop, with nothing pending and the pool running, enters the timed wait; nothing else changes |
| PoolSpec.Wake | include/threadpool.h:221-234 | A notified wait returns the worker to the head of its loop; nothing else changes |
| PoolSpec.IdleTimeout | ThreadPool/ThreadPool/threadpool/src/threadpool.cpp:200-213 | As written: after a timed-out wait, with more than 5 idle seconds and current > init, the worker erases itself and current and idle drop by 1, with no other change; otherwise it only leaves the wait. Current never drops below init |
| PoolSpec.IdleTimeoutRechecked | src/threadpool.cpp:183-208 | The corrected timeout: the worker leaves the wait, the queue, pending count, running flag and mode are untouched, and a worker leaves the registry only if nothing is pending, the pool runs and the mode is CACHED; then it agrees with `IdleTimeout`, otherwise with `Wake` |
| PoolSpec.Stop | ThreadPool/ThreadPool/threadpool/src/threadpool.cpp:72 | The destructor clears the running flag and changes nothing else |
| Pool.ThreadPool.constructor | include/threadpool.h:72-81 | A new pool is stopped and FIXED, with ceiling 16, capacity 1024 (`MAX_TASK_NUM`), init and current 5, nothing pending or idle and an empty registry |
| Pool.ThreadPool.SetMode | src/threadpool.cpp:73-76 | Performs `PoolSpec.SetMode` in place |
| Pool.ThreadPool.SetTaskQueThreshold | include/threadpool.h:105-109 | Performs `PoolSpec.SetTaskQueThreshold` in place; the argument defaults to 1024 |
| Pool.ThreadPool.SetTaskQueCurrentSize | ThreadPool/ThreadPool/threadpool/src/threadpool.cpp:92-96 | Performs `PoolSpec.SetTaskQueCurrentSize` in place |
| Pool.ThreadPool.SetThreadsQueThreshold | ThreadPool/ThreadPool/threadpool/src/threadpool.cpp:97-101 | Performs `PoolSpec.SetThreadsQueThreshold` in place |
| Pool.ThreadPool.SetThreadQueCurrentSize | ThreadPool/ThreadPool/threadpool/src/threadpool.cpp:102-106 | Performs `PoolSpec.SetThreadQueCurrentSize` in place |
| Pool.ThreadPool.SpawnWorker | src/threadpool.cpp:149-164 | The CACHED growth step performs `PoolSpec.Spawn` in place: the next id registered, the counter, current and idle each + 1 |
| Pool.ThreadPool.Start | src/threadpool.cpp:102-125 | Provided every lookup `threadsMap_[i]` for `i` in `0 .. n-1` lands on a worker this `start` creates, `start(n)` sets running and `init == current == n`, registers `n` workers with the next `n` ids and raises idle by `n` |
| Pool.ThreadPool.CreateWorkers | src/threadpool.cpp:110-118 | The creation loop registers one worker per iteration, each with the next counter value, so the registry grows by exactly the `current` ids above the old counter |
| Pool.ThreadPool.StartWorkers | ThreadPool/ThreadPool/threadpool/src/threadpool.cpp:126-130 | The start loop looks up each index, which must be registered, and raises idle by one per started worker |
| Pool.ThreadPool.Submit | ThreadPool/ThreadPool/threadpool/src/threadpool.cpp:134-175 | Performs `PoolSpec.Submit` in place; returns a fresh Result, valid exactly when the task was accepted, registered with the task, empty, with its semaphore at 0 |
| Pool.ThreadPool.TakeTask | ThreadPool/ThreadPool/threadpool/src/threadpool.cpp:223-226 | Returns the queue head and performs `PoolSpec.Take` in place |
| Pool.ThreadPool.FinishTask | ThreadPool/ThreadPool/threadpool/src/threadpool.cpp:240 | Performs `PoolSpec.Finish` in place |
| Pool.ThreadPool.RetireOnShutdown | src/threadpool.cpp:185-190 | Performs `PoolSpec.RetireOnShutdown` in place |
| Pool.ThreadPool.EnterIdleWait | src/threadpool.cpp:194-197 | Performs `PoolSpec.EnterIdleWait` in place |
| Pool.ThreadPool.Wake | ThreadPool/ThreadPool/threadpool/src/threadpool.cpp:189-202 | Performs `PoolSpec.Wake` in place |
| Pool.ThreadPool.TimeOut | src/threadpool.cpp:197-208 | Reports whether the idle rule fired and performs the as-written `PoolSpec.IdleTimeout` in place |
| Pool.ThreadPool.Shutdown | src/threadpool.cpp:65-67 | Performs `PoolSpec.Stop` in place |
| Pool.ServeOneTask | src/threadpool.cpp:128-235 | A scenario modelled on the example program, reduced to a FIXED pool, one worker and one task: a fresh pool started with one worker accepts a task; the worker takes it, runs it and finishes, and the submitter's fetch yields the task's output |
| Pool.RejectWhenFull | src/threadpool.cpp:134-140 | With capacity 0 set before `start`, a submission is rejected: nothing is queued and the fetch yields the sentinel without blocking |
| PoolProperties.StepPreservesInv | ThreadPool/ThreadPool/threadpool/src/threadpool.cpp:149-150 | Every step except overwriting the pending count and `start`, both timeout rules included, keeps the bookkeeping invariant: pending == queue length, every registered id below the counter, executing workers registered, and while running current == registry size and idle + executing == registry size |
| PoolProperties.SubmitPreservesInv | src/threadpool.cpp:142-163 | A submission keeps the bookkeeping invariant: the admitted task is counted once and a spawned worker's id is new |
| PoolProperties.AsWrittenTimeoutPreservesInv | src/threadpool.cpp:197-208 | The timeout as written keeps the bookkeeping invariant |
| PoolProperties.StartEstablishesInv | ThreadPool/ThreadPool/threadpool/src/threadpool.cpp:108-131 | `start(n)` on a pool as the constructor leaves it establishes the invariant |
| PoolProperties.StartRegistersNWorkers | src/threadpool.cpp:102-125 | `start(n)` adds exactly `n` workers to the registry, raises idle by `n`, and sets `init == current == n` |
| PoolProperties.StartLookupsNeedFreshCounter | src/threadpool.cpp:120-124 | For `n > 0`, `start`'s lookups `threadsMap_[0 .. n-1]` all land on the workers it creates iff the static id counter stood at 0 |
| PoolProperties.SpawnBeforeStartBreaksLookups | src/threadpool.cpp:147-164 | A CACHED pool whose submission before `start` spawned worker 0 fails `start(2)`'s lookups: index 0 lands on that earlier worker, not on the new ids 1 and 2 |
| PoolProperties.FirstPoolStarts | src/threadpool.cpp:33-34 | A pool constructed while the id counter stands at 0, and started before any other `Thread` is constructed, passes `start`'s lookups for every `n` and starts with the invariant in force |
| PoolProperties.SetPendingBreaksQueueCount | ThreadPool/ThreadPool/threadpool/src/threadpool.cpp:92-96 | Only the pre-start `setTaskQueCurrentSize` can break pending == queue length: overwriting it to 1 on a new pool does so |
| PoolProperties.ShutdownRetireLeavesCountStale | src/threadpool.cpp:185-190 | Shutdown retirement leaves `currentThreadSize_` stale: after the only worker retires the registry is empty but current is still 1 |
| PoolProperties.StepFifo | include/threadpool.h:254-257 | One step changes the queue only by appending the admitted task or removing the head |
| PoolProperties.WorkerLeavesOnlyWhenQueueEmpty | include/threadpool.h:221-245 | A worker leaves the registry only through the shutdown retirement or one of the two timeout rules; except under the timeout as written, it leaves only with nothing pending |
| PoolProperties.DrainTakesBeforeRetiring | ThreadPool/ThreadPool/threadpool/src/threadpool.cpp:189-226 | With the pool stopped and tasks pending, a worker at the head of its loop can take the head and can neither retire nor start a timed wait; a worker inside a timed wait is kept when it times out (re-checked) and can then take |
| PoolProperties.StrandingRunReaches | src/threadpool.cpp:128-209 | From a pool constructed at counter 0, the run set CACHED, start 0, submit 5, take, finish, enter the timed wait, submit 7 is feasible and reaches a running pool with task 7 queued and worker 0 waiting |
| PoolProperties.AsWrittenTimeoutStrandsTask | src/threadpool.cpp:197-208 | In that state the invariant holds; the as-written timeout (6 idle seconds) retires worker 0, and after the stop the destructor may return with task 7 still queued; under the re-checked rule worker 0 stays and can take it |
| PoolProperties.RunPreservesInv | src/threadpool.cpp:142-143 | The invariant holds along every run that neither overwrites the pending count nor restarts the pool |
| PoolProperties.FifoService | src/threadpool.cpp:142-144 | FIFO along any run: the tasks taken, followed by those still queued, are the tasks queued before followed by the tasks admitted, in submission order |
| PoolProperties.FixedModeKeepsThreadCount | ThreadPool/ThreadPool/threadpool/src/threadpool.cpp:154-219 | In FIXED mode, with no worker inside a CACHED timed wait (a pool FIXED since `start`), no step changes `currentThreadSize_` or grows the registry, and no worker starts a timed wait |
| PoolProperties.ModeSwitchDuringWaitShrinksFixedPool | src/threadpool.cpp:73-76 | `setMode(FIXED)` can land during a CACHED worker's timed wait with the invariant holding; the timeout as written then lowers the FIXED pool's thread count from 1 to 0, while the re-checked timeout keeps it at 1 |
| PoolProperties.ThreadCountStaysInBand | include/threadpool.h:186-245 | CACHED growth and idle retirement keep the thread count between `initThreadSize_` and `threadsQueSizeThreshold_` along any run that does not reconfigure them |
| PoolProperties.NewWorkersGetFreshIds | include/threadpool.h:40-66 | The id counter never decreases, and every worker that joins the registry along a run has an id at least the counter value at the start of the run, so ids are never reused |
| PoolProperties.RunKeepsQueueCount | ThreadPool/ThreadPool/threadpool/src/threadpool.cpp:223-225 | pending == queue length holds along every run that does not overwrite the pending count |
| PoolProperties.NoSubmissionAdmitsNothing | src/threadpool.cpp:128-168 | A run without submissions admits no task |
| PoolProperties.RegistryEmptiesOnlyWhenDrained | ThreadPool/ThreadPool/threadpool/src/threadpool.cpp:189-213 | Along runs without new work, restarts or the timeout as written (the re-checked timeout is allowed), the registry becomes empty only once nothing is pending |
| PoolProperties.ShutdownDrainsQueue | ThreadPool/ThreadPool/threadpool/src/threadpool.cpp:70-78 | Along runs without new work, restarts or the timeout as written (the re-checked timeout is allowed), when the destructor may return (stopped, registry empty) every task that was queued has been taken, in queue order, and the queue is empty |

## Findings

| source | as written | input that shows it | evidently intended | confidence | as-written member | corrected member |
|---|---|---|---|---|---|---|
| src/threadpool.cpp:197-208 (also ThreadPool/ThreadPool/threadpool/src/threadpool.cpp:202-213 and include/threadpool.h:234-245) | After the timed wait reports `timeout`, the worker applies the idle rule at once. It does not re-check `currentTaskSize_`, `threadPoolIsRunning_` or the mode, although a submission or a stop can land while it waits for the lock | A pool constructed at counter 0 is set to CACHED and started with 0 threads. Task 5 spawns worker 0, which runs it and enters the timed wait. Task 7 arrives and spawns nothing (1 pending, 1 idle). The wait times out after 6 idle seconds, and worker 0 retires with task 7 queued. After the stop the registry is empty, so the destructor returns and task 7 never runs | A worker retires on idleness only while nothing is pending, the pool runs and the mode is CACHED. Otherwise it goes back to the head of its loop | medium; not executed | PoolProperties.AsWrittenTimeoutStrandsTask | PoolSpec.IdleTimeoutRechecked |

The class method `Pool.ThreadPool.TimeOut` and the step `TimedOutAsWritten`
perform the rule as written; the step `TimedOut` performs the re-checked rule.
The bookkeeping invariant, FIFO service, the thread-count band, fresh ids
and the queue count are proved over runs that may use either step
(`StepPreservesInv` through `AsWrittenTimeoutPreservesInv`). The rule as
written loses two properties, which hold only for the re-checked rule:

- Drain. `ShutdownDrainsQueue` and `RegistryEmptiesOnlyWhenDrained` are
  proved for runs without `TimedOutAsWritten`, and `AsWrittenTimeoutStrandsTask`
  shows a run that breaks them.
- The FIXED thread count after a mode switch during a wait.
  `ModeSwitchDuringWaitShrinksFixedPool` shows the as-written timeout
  lowering a FIXED pool's thread count. `FixedModeKeepsThreadCount` therefore
  starts from a pool with no worker inside a timed wait.

## Left out

- Real threads: `std::thread` creation and `detach`, the mutex and the condition-variable waits and notifies. Each locked block is one atomic method, a blocking wait is a precondition, and a notify has no effect on the state.
- Wall-clock time: the one-second `wait_for` in `submitTask` and in the CACHED idle wait, and the `system_clock` idle measurement. A submission is decided at once on `pending >= capacity`, and the measured idle time is the `elapsedSeconds` parameter.
- Data races: the unlocked `idleThreadsSize_++` after a task runs and the unlocked access to the running flag are separate atomic steps (`FinishTask`, `Shutdown`), not interleavings inside other steps.
- The FIXED-mode untimed wait on `taskQueNotEmpty` has no step of its own. A FIXED worker counts as being at the head of its loop, and its wake-up changes no state. Spurious wake-ups of the timed wait are `Wake` steps.
- Liveness of the destructor: idle retirement does not signal `conExit_`, so a destructor already waiting is not woken when the last worker leaves that way. `ShutdownComplete` states when it may return, not that it is woken.
- The id counter is shared by every pool in the process. The model gives each pool its own copy, `nextId`, fixed at construction. Draws by other pools between this pool's construction and its `start`, which make `start`'s lookups miss, are not modelled.
- `start` runs without `taskQueMtx`. Its second loop raises the idle count while workers it has already started may lock and take tasks. The model makes `start` one atomic step.
- Pool.ThreadPool.TakeTask: requires a non-empty queue as well as a non-zero pending count. After `setTaskQueCurrentSize`, the source's `front()` on an empty queue is undefined behaviour.
- Pool.ThreadPool.Start: requires every lookup `threadsMap_[i]` to land on a worker this `start` creates. A missing key yields a null pointer that is then dereferenced, which is undefined behaviour. A key registered earlier (a worker spawned by a submission before `start`) starts that worker's thread a second time, giving two threads with one id, while a new worker is never started and never leaves the registry. Neither path is modelled: the model has one thread per id.
- `Thread` objects are reduced to their ids, and `Thread::start` to counting the worker idle.
- The `std::packaged_task`/`std::future` path of `include/threadpool.h`: its accepted tasks are modelled by the same queue steps, and its rejection (a future already holding `RType()`) by the invalid `Result`, whose sentinel is `""` as in the two `.cpp` copies.
- `Any` being move-only is a compile-time restriction with no state to model. Moving out is modelled by `Get` leaving the slot `Empty`.
- AnyValue.Cast: a `cast_` at the wrong type dereferences the null result of `dynamic_cast`, which is undefined behaviour. It is modelled as the explicit outcome `BadCast`. The virtual-dispatch mechanics are not modelled.
- `Task::run` is user code: an opaque function of no arguments. The range-sum task, the `clock()` timing and `getchar` of `example/main.cpp` are left out.
- The lifetime of a `Result` the caller discards while its task is still queued is not modelled, because Dafny has no deallocation.
- Logging through `std::cout`/`std::cerr`, and the `std::thread::hardware_concurrency()` default of `start`: the thread count is always an argument.
- The null check on the task pointer before it runs: queued tasks are never null here.
- The `int` counters are unbounded integers; 32-bit overflow of the counters and the id counter is not modelled.
