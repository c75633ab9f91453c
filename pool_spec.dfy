/** The pool's scheduling bookkeeping as a state machine over values. Every
    block the source runs under `taskQueMtx`, and every unlocked setter or
    flag write, is one atomic transition function here; the class `Pool.ThreadPool` is proved to perform exactly these transitions,
    and `PoolProperties` proves what they guarantee. Blocking waits are
    enabling conditions, and the idle time a worker has measured is an input. */
module PoolSpec {

  /** `MAX_TASK_NUM`: the default queue capacity. */
  const MaxTaskNum := 1024
  /** `THREAD_IDLE_DURATION`: seconds of idleness before a Cached worker may retire. */
  const ThreadIdleDuration := 5
  /** Default `threadsQueSizeThreshold_`. */
  const DefaultThreadCeiling := 16
  /** Default `initThreadSize_` and `currentThreadSize_` before `start`. */
  const DefaultThreadSize := 5

  datatype Mode = Cached | Fixed

  /** The pool's bookkeeping fields, plus two sets that
      stand for the workers' program counters rather than fields of the
      source: `busy`, the workers between taking a task and finishing it, and
      `waiting`, the CACHED workers inside their timed wait on
      `taskQueNotEmpty`. Field to source:
      running `threadPoolIsRunning_`, queue `tasksQue_`, pending
      `currentTaskSize_`, idle `idleThreadsSize_`, current `currentThreadSize_`,
      init `initThreadSize_`, threadCeiling `threadsQueSizeThreshold_`,
      taskCapacity `taskQueSizeThreshold_`, workers the keys of `threadsMap_`,
      nextId the static `Thread::threadId`. */
  datatype Pool<T> = Pool(
    running: bool,
    mode: Mode,
    queue: seq<T>,
    pending: int,
    idle: int,
    current: int,
    init: int,
    threadCeiling: int,
    taskCapacity: int,
    workers: set<int>,
    busy: set<int>,
    waiting: set<int>,
    nextId: int)

  /** The pool as its constructor leaves it; `idCounter` is the value the
      process-wide thread id counter has reached (0 for the first pool). */
  function Initial<T>(idCounter: int): Pool<T>
  {
    Pool(false, Fixed, [], 0, 0, DefaultThreadSize, DefaultThreadSize,
         DefaultThreadCeiling, MaxTaskNum, {}, {}, {}, idCounter)
  }

  // ---------------------------------------------------------------------
  // Configuration

  /** `setMode`: unguarded, applies even while running. */
  function SetMode<T>(s: Pool<T>, m: Mode): (r: Pool<T>)
    ensures r.mode == m && r.(mode := s.mode) == s
  {
    s.(mode := m)
  }

  /** `setTaskQueThreshold`: sets the queue capacity unless running. */
  function SetTaskQueThreshold<T>(s: Pool<T>, v: int): (r: Pool<T>)
    ensures s.running ==> r == s
    ensures !s.running ==> r.taskCapacity == v && r.(taskCapacity := s.taskCapacity) == s
  {
    if s.running then s else s.(taskCapacity := v)
  }

  /** `setTaskQueCurrentSize`: overwrites the pending count unless running. */
  function SetTaskQueCurrentSize<T>(s: Pool<T>, v: int): (r: Pool<T>)
    ensures s.running ==> r == s
    ensures !s.running ==> r.pending == v && r.(pending := s.pending) == s
  {
    if s.running then s else s.(pending := v)
  }

  /** `setThreadsQueThreshold`: sets the thread ceiling unless running. */
  function SetThreadsQueThreshold<T>(s: Pool<T>, v: int): (r: Pool<T>)
    ensures s.running ==> r == s
    ensures !s.running ==> r.threadCeiling == v && r.(threadCeiling := s.threadCeiling) == s
  {
    if s.running then s else s.(threadCeiling := v)
  }

  /** `setThreadQueCurrentSize`: overwrites the thread count unless running. */
  function SetThreadQueCurrentSize<T>(s: Pool<T>, v: int): (r: Pool<T>)
    ensures s.running ==> r == s
    ensures !s.running ==> r.current == v && r.(current := s.current) == s
  {
    if s.running then s else s.(current := v)
  }

  // ---------------------------------------------------------------------
  // start

  /** The ids `lo`, ..., `lo + n - 1` that `n` consecutive `Thread`
      constructions draw from the counter (none when `n <= 0`). */
  function IdRange(lo: int, n: int): set<int>
    decreases n
  {
    if n <= 0 then {} else IdRange(lo, n - 1) + {lo + n - 1}
  }

  /** `IdRange(lo, n)` holds exactly the ids from `lo` below `lo + n`, so
      `n` of them when `n` is positive. */
  lemma {:induction false} IdRangeContents(lo: int, n: int)
    ensures forall k :: k in IdRange(lo, n) <==> lo <= k < lo + n
    ensures |IdRange(lo, n)| == if n > 0 then n else 0
    decreases n
  {
    if n > 0 {
      IdRangeContents(lo, n - 1);
      assert lo + n - 1 !in IdRange(lo, n - 1);
    }
  }

  /** `start` creates `n` threads, then looks up `threadsMap_[i]` for every
      `i` in `0 .. n-1` and starts it. The lookups must land on exactly the
      workers this `start` created: a missing key would dereference a null
      pointer, and a key registered earlier would start that worker a second
      time while a new one is never started. */
  predicate StartLookupsSucceed<T>(s: Pool<T>, n: int)
  {
    forall i | 0 <= i < n :: i in IdRange(s.nextId, n)
  }

  /** `start(n)`: running, `init == current == n`, `n` fresh workers taking the
      next `n` ids, and one idle count per started worker. */
  function Start<T>(s: Pool<T>, n: int): (r: Pool<T>)
    ensures r.running && r.init == n && r.current == n
    ensures s.workers <= r.workers && s.nextId <= r.nextId && s.idle <= r.idle
    ensures r.(running := s.running, init := s.init, current := s.current,
               workers := s.workers, nextId := s.nextId, idle := s.idle) == s
  {
    var started := if n > 0 then n else 0;
    s.(running := true, init := n, current := n,
       workers := s.workers + IdRange(s.nextId, n),
       nextId := s.nextId + started, idle := s.idle + started)
  }

  // ---------------------------------------------------------------------
  // submitTask

  /** The Cached-mode growth rule, evaluated after the task is queued. */
  predicate SpawnRule<T>(s: Pool<T>)
  {
    s.mode == Cached && s.pending > s.idle && s.current < s.threadCeiling
  }

  /** One new worker with the next id: registered, counted, idle. */
  function Spawn<T>(s: Pool<T>): Pool<T>
  {
    s.(workers := s.workers + {s.nextId}, nextId := s.nextId + 1,
       current := s.current + 1, idle := s.idle + 1)
  }

  datatype Submission<T> = Submission(pool: Pool<T>, accepted: bool)

  /** `submitTask`: reject when the queue is at capacity (the Result is then
      built invalid); otherwise queue the task and apply the growth rule. */
  function Submit<T>(s: Pool<T>, t: T): (r: Submission<T>)
    ensures r.accepted <==> s.pending < s.taskCapacity
    ensures !r.accepted ==> r.pool == s
    ensures r.accepted ==> r.pool.queue == s.queue + [t] && r.pool.pending == s.pending + 1
    ensures r.accepted ==>
              r.pool.(queue := s.queue, pending := s.pending, workers := s.workers,
                      nextId := s.nextId, current := s.current, idle := s.idle) == s
    ensures r.pool.current > s.current <==>
              r.accepted && s.mode == Cached && s.pending + 1 > s.idle && s.current < s.threadCeiling
    ensures r.pool.current > s.current ==>
              r.pool.workers == s.workers + {s.nextId} && r.pool.nextId == s.nextId + 1 &&
              r.pool.current == s.current + 1 && r.pool.idle == s.idle + 1
    ensures r.pool.current <= s.current ==>
              r.pool.workers == s.workers && r.pool.nextId == s.nextId &&
              r.pool.current == s.current && r.pool.idle == s.idle
    ensures s.current <= s.threadCeiling ==> r.pool.current <= s.threadCeiling
    ensures s.mode == Fixed ==> r.pool.current == s.current && r.pool.workers == s.workers
  {
    if s.pending >= s.taskCapacity then Submission(s, false)
    else
      var queued := s.(queue := s.queue + [t], pending := s.pending + 1);
      Submission(if SpawnRule(queued) then Spawn(queued) else queued, true)
  }

  // ---------------------------------------------------------------------
  // threadHandler

  /** A worker leaves its wait loop once the pending count is non-zero; it
      must be a registered worker at the head of that loop (not executing a
      task, not inside a wait). The queue must hold a task for `front()` to
      be defined. */
  predicate CanTake<T>(s: Pool<T>, w: int)
  {
    s.pending != 0 && s.queue != [] && w in s.workers && w !in s.busy && w !in s.waiting
  }

  /** Take: pop the queue head and count one pending task and one idle
      worker fewer. */
  function Take<T>(s: Pool<T>, w: int): (r: Pool<T>)
    requires CanTake(s, w)
    ensures [s.queue[0]] + r.queue == s.queue
    ensures r.pending == s.pending - 1 && r.idle == s.idle - 1 && r.busy == s.busy + {w}
    ensures r.(queue := s.queue, pending := s.pending, idle := s.idle, busy := s.busy) == s
  {
    s.(queue := s.queue[1..], pending := s.pending - 1, idle := s.idle - 1, busy := s.busy + {w})
  }

  /** Finish: after running its task the worker counts as idle again. */
  function Finish<T>(s: Pool<T>, w: int): (r: Pool<T>)
    requires w in s.busy
    ensures r.idle == s.idle + 1 && r.busy == s.busy - {w} && w !in r.busy
    ensures r.(idle := s.idle, busy := s.busy) == s
  {
    s.(idle := s.idle + 1, busy := s.busy - {w})
  }

  /** Shutdown retirement is reached only inside the `pending == 0` loop with
      the pool stopped. */
  predicate CanRetireOnShutdown<T>(s: Pool<T>, w: int)
  {
    s.pending == 0 && !s.running && w in s.workers && w !in s.busy && w !in s.waiting
  }

  /** The worker erases its own id; `currentThreadSize_` and
      `idleThreadsSize_` are left as they were. */
  function RetireOnShutdown<T>(s: Pool<T>, w: int): (r: Pool<T>)
    requires CanRetireOnShutdown(s, w)
    ensures r.workers == s.workers - {w} && w !in r.workers
    ensures r.current == s.current && r.idle == s.idle
    ensures r.(workers := s.workers) == s
  {
    s.(workers := s.workers - {w})
  }

  /** A CACHED worker at the head of its `pending == 0` loop, with the pool
      running, starts a one-second timed wait on `taskQueNotEmpty`; the wait
      releases the lock, so other steps run while it lasts. */
  predicate CanEnterIdleWait<T>(s: Pool<T>, w: int)
  {
    && s.pending == 0 && s.running && s.mode == Cached
    && w in s.workers && w !in s.busy && w !in s.waiting
  }

  function EnterIdleWait<T>(s: Pool<T>, w: int): (r: Pool<T>)
    requires CanEnterIdleWait(s, w)
    ensures r.waiting == s.waiting + {w}
    ensures r.(waiting := s.waiting) == s
  {
    s.(waiting := s.waiting + {w})
  }

  /** The wait ends by a notification (`no_timeout`): with the lock held
      again the worker is back at the head of its loop, and nothing else
      changes. */
  function Wake<T>(s: Pool<T>, w: int): (r: Pool<T>)
    requires w in s.waiting
    ensures r.waiting == s.waiting - {w} && w !in r.waiting
    ensures r.(waiting := s.waiting) == s
  {
    s.(waiting := s.waiting - {w})
  }

  /** The idle-retirement rule after a timed wait has elapsed. */
  predicate IdleRetires<T>(s: Pool<T>, elapsedSeconds: int)
  {
    elapsedSeconds > ThreadIdleDuration && s.current > s.init
  }

  /** The wait reports `timeout`, as the code is written: the idle rule is
      applied to the state the worker finds on reacquiring the lock, without
      re-checking the pending count, the running flag or the mode. When the
      rule holds the worker erases itself and one thread and one idle worker
      are counted fewer; otherwise it is back at the head of its loop. */
  function IdleTimeout<T>(s: Pool<T>, w: int, elapsedSeconds: int): (r: Pool<T>)
    requires w in s.waiting
    ensures r.waiting == s.waiting - {w}
    ensures IdleRetires(s, elapsedSeconds) ==>
              r.workers == s.workers - {w} && r.current == s.current - 1 && r.idle == s.idle - 1
    ensures IdleRetires(s, elapsedSeconds) ==>
              r.(workers := s.workers, current := s.current, idle := s.idle, waiting := s.waiting) == s
    ensures !IdleRetires(s, elapsedSeconds) ==> r == Wake(s, w)
    ensures s.current >= s.init ==> r.current >= s.init
  {
    if IdleRetires(s, elapsedSeconds) then
      s.(waiting := s.waiting - {w}, workers := s.workers - {w},
         current := s.current - 1, idle := s.idle - 1)
    else Wake(s, w)
  }

  /** The timed-out wait as it is evidently meant: the idle rule applies only
      while the conditions the wait began under still hold (nothing pending,
      the pool running, CACHED mode); otherwise the worker goes back to the
      head of its loop, where it takes the pending task or retires through
      the shutdown path. */
  function IdleTimeoutRechecked<T>(s: Pool<T>, w: int, elapsedSeconds: int): (r: Pool<T>)
    requires w in s.waiting
    ensures r.waiting == s.waiting - {w}
    ensures r.queue == s.queue && r.pending == s.pending && r.running == s.running && r.mode == s.mode
    ensures r.workers != s.workers ==> s.pending == 0 && s.running && s.mode == Cached
    ensures s.current >= s.init ==> r.current >= s.init
    ensures s.pending == 0 && s.running && s.mode == Cached ==> r == IdleTimeout(s, w, elapsedSeconds)
    ensures !(s.pending == 0 && s.running && s.mode == Cached) ==> r == Wake(s, w)
  {
    if s.pending == 0 && s.running && s.mode == Cached then IdleTimeout(s, w, elapsedSeconds)
    else Wake(s, w)
  }

  /** The destructor's first half: clear the running flag. */
  function Stop<T>(s: Pool<T>): (r: Pool<T>)
    ensures !r.running && r.(running := s.running) == s
  {
    s.(running := false)
  }

  /** The destructor returns only once the registry is empty. */
  predicate ShutdownComplete<T>(s: Pool<T>)
  {
    !s.running && s.workers == {}
  }

  // ---------------------------------------------------------------------
  // Runs of the machine

  /** One atomic block of the pool or of a worker. A timed-out wait is either
      `TimedOutAsWritten`, the rule as the code writes it (`IdleTimeout`, what
      `Pool.ThreadPool.TimeOut` performs), or `TimedOut`, the re-checked rule
      `IdleTimeoutRechecked`. */
  datatype Step<T> =
    | ModeSet(m: Mode)
    | TaskQueThresholdSet(v: int)
    | TaskQueCurrentSizeSet(v: int)
    | ThreadsQueThresholdSet(v: int)
    | ThreadQueCurrentSizeSet(v: int)
    | Started(n: int)
    | Submitted(t: T)
    | Took(w: int)
    | Finished(w: int)
    | RetiredOnShutdown(w: int)
    | IdleWaitEntered(w: int)
    | Woken(w: int)
    | TimedOut(w: int, elapsedSeconds: int)
    | TimedOutAsWritten(w: int, elapsedSeconds: int)
    | Stopped

  predicate Enabled<T>(s: Pool<T>, step: Step<T>)
  {
    match step
    case Started(n) => StartLookupsSucceed(s, n)
    case Took(w) => CanTake(s, w)
    case Finished(w) => w in s.busy && w in s.workers
    case RetiredOnShutdown(w) => CanRetireOnShutdown(s, w)
    case IdleWaitEntered(w) => CanEnterIdleWait(s, w)
    case Woken(w) => w in s.waiting
    case TimedOut(w, _) => w in s.waiting
    case TimedOutAsWritten(w, _) => w in s.waiting
    case _ => true
  }

  function Apply<T>(s: Pool<T>, step: Step<T>): Pool<T>
    requires Enabled(s, step)
  {
    match step
    case ModeSet(m) => SetMode(s, m)
    case TaskQueThresholdSet(v) => SetTaskQueThreshold(s, v)
    case TaskQueCurrentSizeSet(v) => SetTaskQueCurrentSize(s, v)
    case ThreadsQueThresholdSet(v) => SetThreadsQueThreshold(s, v)
    case ThreadQueCurrentSizeSet(v) => SetThreadQueCurrentSize(s, v)
    case Started(n) => Start(s, n)
    case Submitted(t) => Submit(s, t).pool
    case Took(w) => Take(s, w)
    case Finished(w) => Finish(s, w)
    case RetiredOnShutdown(w) => RetireOnShutdown(s, w)
    case IdleWaitEntered(w) => EnterIdleWait(s, w)
    case Woken(w) => Wake(s, w)
    case TimedOut(w, e) => IdleTimeoutRechecked(s, w, e)
    case TimedOutAsWritten(w, e) => IdleTimeout(s, w, e)
    case Stopped => Stop(s)
  }

  /** Every step of `trace` is enabled in the state it is applied to. */
  predicate Feasible<T>(s: Pool<T>, trace: seq<Step<T>>)
    decreases |trace|
  {
    trace == [] || (Enabled(s, trace[0]) && Feasible(Apply(s, trace[0]), trace[1..]))
  }

  function Run<T>(s: Pool<T>, trace: seq<Step<T>>): Pool<T>
    requires Feasible(s, trace)
    decreases |trace|
  {
    if trace == [] then s else Run(Apply(s, trace[0]), trace[1..])
  }

  /** The task a step takes off the queue, if any. */
  function Dequeued<T>(s: Pool<T>, step: Step<T>): seq<T>
    requires Enabled(s, step)
  {
    if step.Took? then [s.queue[0]] else []
  }

  /** The task a step admits into the queue, if any. */
  function Enqueued<T>(s: Pool<T>, step: Step<T>): seq<T>
  {
    if step.Submitted? && s.pending < s.taskCapacity then [step.t] else []
  }

  /** The tasks taken along a run, in the order they were taken. */
  function Served<T>(s: Pool<T>, trace: seq<Step<T>>): seq<T>
    requires Feasible(s, trace)
    decreases |trace|
  {
    if trace == [] then [] else Dequeued(s, trace[0]) + Served(Apply(s, trace[0]), trace[1..])
  }

  /** The tasks admitted along a run, in submission order. */
  function Admitted<T>(s: Pool<T>, trace: seq<Step<T>>): seq<T>
    requires Feasible(s, trace)
    decreases |trace|
  {
    if trace == [] then [] else Enqueued(s, trace[0]) + Admitted(Apply(s, trace[0]), trace[1..])
  }
}
