/** `ThreadPool` with its fields updated in place. Each public method is one
    atomic step: a block the source runs under `taskQueMtx`, or an unlocked
    one (the setters, `start`, the destructor's flag write and the idle
    increment after a task runs). Each is proved to perform one transition
    of `PoolSpec`:
    - the setters, `Start`, `Submit`, `RetireOnShutdown`, `EnterIdleWait` and
      `Wake` perform the function of the same name;
    - `TakeTask` performs `Take`, `FinishTask` `Finish` and `Shutdown` `Stop`;
    - `TimeOut` performs `IdleTimeout`, the idle rule as the code writes it.
    The helpers `CreateWorkers` and `StartWorkers` are the two loops of
    `start`, and `SpawnWorker` is the growth step of `submitTask` (`Spawn`). */
module Pool {
  import opened AnyValue
  import opened TaskResult
  import opened PoolSpec

  class ThreadPool {
    var running: bool
    var mode: Mode
    var queue: seq<Task>
    var pending: int
    var idle: int
    var current: int
    var init: int
    var threadCeiling: int
    var taskCapacity: int
    /** Keys of `threadsMap_`: the ids of the registered workers. */
    var workers: set<int>
    /** Workers between taking a task and finishing it. */
    ghost var busy: set<int>
    /** CACHED workers inside their timed wait. */
    ghost var waiting: set<int>
    /** The process-wide `Thread::threadId` counter. */
    var nextId: int

    ghost function State(): PoolSpec.Pool<Task>
      reads this
    {
      PoolSpec.Pool(running, mode, queue, pending, idle, current, init,
                    threadCeiling, taskCapacity, workers, busy, waiting, nextId)
    }

    /** `ThreadPool()`: stopped, FIXED, ceiling 16, capacity 1024, nothing
        pending or idle. `idCounter` is where the thread id counter stands. */
    constructor (idCounter: int)
      ensures State() == Initial(idCounter)
    {
      running, mode := false, Fixed;
      queue, pending, idle := [], 0, 0;
      current, init := DefaultThreadSize, DefaultThreadSize;
      threadCeiling, taskCapacity := DefaultThreadCeiling, MaxTaskNum;
      workers, busy, waiting, nextId := {}, {}, {}, idCounter;
    }

    /** `checkThreadPoolIsRunning`. */
    function IsRunning(): (r: bool)
      reads this
      ensures r <==> State().running
    {
      running
    }

    method SetMode(m: Mode)
      modifies this
      ensures State() == PoolSpec.SetMode(old(State()), m)
    {
      mode := m;
    }

    method SetTaskQueThreshold(v: int := MaxTaskNum)
      modifies this
      ensures State() == PoolSpec.SetTaskQueThreshold(old(State()), v)
    {
      if !IsRunning() {
        taskCapacity := v;
      }
    }

    method SetTaskQueCurrentSize(v: int)
      modifies this
      ensures State() == PoolSpec.SetTaskQueCurrentSize(old(State()), v)
    {
      if !IsRunning() {
        pending := v;
      }
    }

    method SetThreadsQueThreshold(v: int)
      modifies this
      ensures State() == PoolSpec.SetThreadsQueThreshold(old(State()), v)
    {
      if !IsRunning() {
        threadCeiling := v;
      }
    }

    method SetThreadQueCurrentSize(v: int)
      modifies this
      ensures State() == PoolSpec.SetThreadQueCurrentSize(old(State()), v)
    {
      if !IsRunning() {
        current := v;
      }
    }

    /** `start(n)`: the first loop creates and registers `n` workers, the
        second looks each index up in the registry, starts it and counts it
        idle. */
    method Start(n: int)
      requires StartLookupsSucceed(State(), n)
      modifies this
      ensures State() == PoolSpec.Start(old(State()), n)
    {
      running := true;
      init := n;
      current := n;
      CreateWorkers();
      StartWorkers();
    }

    /** The first loop of `start`: `current` `Thread`s, each taking the next
        id from the counter, emplaced into the registry. */
    method CreateWorkers()
      modifies this`workers, this`nextId
      ensures workers == old(workers) + IdRange(old(nextId), current)
      ensures nextId == old(nextId) + if current > 0 then current else 0
    {
      var i := 0;
      while i < current
        invariant 0 <= i <= if current > 0 then current else 0
        invariant workers == old(workers) + IdRange(old(nextId), i) && nextId == old(nextId) + i
      {
        workers := workers + {nextId};
        nextId := nextId + 1;
        i := i + 1;
      }
    }

    /** The second loop of `start`: `threadsMap_[i]` for each index, which
        must be a registered worker, is started and counted idle. */
    method StartWorkers()
      requires forall i | 0 <= i < current :: i in workers
      modifies this`idle
      ensures idle == old(idle) + if current > 0 then current else 0
    {
      var i := 0;
      while i < current
        invariant 0 <= i <= if current > 0 then current else 0
        invariant idle == old(idle) + i
      {
        assert i in workers;
        idle := idle + 1;
        i := i + 1;
      }
    }

    /** `submitTask`: an invalid Result when the queue is at capacity;
        otherwise the task is queued, a worker may be spawned, and a valid
        Result registered with the task is returned. */
    method Submit(task: Task) returns (res: Result)
      modifies this, task
      ensures State() == PoolSpec.Submit(old(State()), task).pool
      ensures res.isValid == PoolSpec.Submit(old(State()), task).accepted
      ensures fresh(res) && res.task == task && task.res == res
      ensures res.val == Empty && fresh(res.sem) && res.sem.count == 0
    {
      if pending >= taskCapacity {
        res := new Result(task, false);
        return;
      }
      queue := queue + [task];
      pending := pending + 1;
      if mode == Cached && pending > idle && current < threadCeiling {
        SpawnWorker();
      }
      ghost var admitted := State();
      res := new Result(task);
      assert State() == admitted;
    }

    /** The CACHED growth step of `submitTask`: a new `Thread` takes the
        next id, is registered and started, and counts as one more thread
        and one more idle worker. */
    method SpawnWorker()
      modifies this`workers, this`nextId, this`current, this`idle
      ensures State() == Spawn(old(State()))
    {
      workers := workers + {nextId};
      nextId := nextId + 1;
      current := current + 1;
      idle := idle + 1;
    }

    /** A worker's locked block after its wait loop: pop the head. */
    method TakeTask(w: int) returns (task: Task)
      requires CanTake(State(), w)
      modifies this
      ensures task == old(queue)[0]
      ensures State() == Take(old(State()), w)
    {
      task := queue[0];
      queue := queue[1..];
      pending := pending - 1;
      idle := idle - 1;
      busy := busy + {w};
    }

    /** `idleThreadsSize_++` after the task has run. */
    method FinishTask(w: int)
      requires w in busy
      modifies this
      ensures State() == Finish(old(State()), w)
    {
      idle := idle + 1;
      busy := busy - {w};
    }

    /** The worker notices the stopped pool with nothing pending and erases
        its own registry entry. */
    method RetireOnShutdown(w: int)
      requires CanRetireOnShutdown(State(), w)
      modifies this
      ensures State() == PoolSpec.RetireOnShutdown(old(State()), w)
    {
      workers := workers - {w};
    }

    /** A CACHED worker at the head of its `pending == 0` loop starts its
        one-second timed wait. */
    method EnterIdleWait(w: int)
      requires CanEnterIdleWait(State(), w)
      modifies this
      ensures State() == PoolSpec.EnterIdleWait(old(State()), w)
    {
      waiting := waiting + {w};
    }

    /** The timed wait ends by a notification. */
    method Wake(w: int)
      requires w in waiting
      modifies this
      ensures State() == PoolSpec.Wake(old(State()), w)
    {
      waiting := waiting - {w};
    }

    /** The timed wait reports `timeout` after `elapsedSeconds` of idleness:
        the worker retires when the idle rule holds, re-checking nothing
        else. */
    method TimeOut(w: int, elapsedSeconds: int) returns (retired: bool)
      requires w in waiting
      modifies this
      ensures retired == IdleRetires(old(State()), elapsedSeconds)
      ensures State() == IdleTimeout(old(State()), w, elapsedSeconds)
    {
      waiting := waiting - {w};
      retired := elapsedSeconds > ThreadIdleDuration && current > init;
      if retired {
        workers := workers - {w};
        current := current - 1;
        idle := idle - 1;
      }
    }

    /** `~ThreadPool`, first half: stop the pool. The destructor then waits
        until `ShutdownComplete(State())`. */
    method Shutdown()
      modifies this
      ensures State() == Stop(old(State()))
    {
      running := false;
    }
  }

  /** A fresh pool started with one worker accepts a task; the worker takes
      it, runs it and publishes into the submitter's Result, whose fetch
      yields the task's output. */
  method ServeOneTask(run: () -> Any) returns (fetched: Any)
    ensures fetched == run()
  {
    var pool := new ThreadPool(0);
    pool.Start(1);
    var task := new Task(run);
    var res := pool.Submit(task);
    var taken := pool.TakeTask(0);
    taken.Exec();
    pool.FinishTask(0);
    fetched := res.Get();
  }

  /** With a queue capacity of 0 set before `start`, a submission is
      rejected: the task is never queued and the fetch answers the sentinel
      without blocking. */
  method RejectWhenFull(run: () -> Any) returns (fetched: Any, queued: nat)
    ensures fetched == Sentinel && queued == 0
  {
    var pool := new ThreadPool(0);
    pool.SetTaskQueThreshold(0);
    pool.Start(1);
    var task := new Task(run);
    var res := pool.Submit(task);
    fetched := res.Get();
    queued := |pool.queue|;
  }
}
