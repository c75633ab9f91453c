/** The result hand-off: a counting `Semaphore`, the `Task` that publishes its
    output, and the one-shot `Result` slot the submitter fetches from.
    Blocking is abstracted: a wait that would block is a precondition. */
module TaskResult {
  import opened AnyValue

  /** `Semaphore`: a counter guarded by its own mutex. */
  class Semaphore {
    var count: int

    /** `Semaphore()`: starts at 0. */
    constructor ()
      ensures count == 0
    {
      count := 0;
    }

    /** `Semaphore(int val)`: starts at the given value. */
    constructor WithCount(n: int)
      ensures count == n
    {
      count := n;
    }

    /** `wait`: completes only once the count is positive, then takes one
        unit, so a count that starts non-negative never goes negative. */
    method Wait()
      requires count > 0
      modifies this
      ensures count == old(count) - 1 && count >= 0
    {
      count := count - 1;
    }

    /** `post`: adds exactly one unit. */
    method Post()
      modifies this
      ensures count == old(count) + 1
    {
      count := count + 1;
    }
  }

  /** `Task`: user code `run` plus the Result it must publish into, if any. */
  class Task {
    /** The overridden `Task::run`, as an opaque function of no arguments. */
    const run: () -> Any
    var res: Result?

    /** `Task()`: no Result registered yet. */
    constructor (run: () -> Any)
      ensures this.run == run && res == null
    {
      this.run := run;
      res := null;
    }

    method SetResult(r: Result?)
      modifies this
      ensures res == r
    {
      res := r;
    }

    /** `Task::exec`: with a Result registered, publish `run()` into it;
        without one, nothing changes. */
    method Exec()
      modifies if res == null then {} else {res as object, res.sem}
      ensures res == old(res)
      ensures res == null ==> unchanged(this)
      ensures res != null ==> res.val == run() && res.sem.count == old(res.sem.count) + 1
    {
      if res != null {
        res.SetVal(run());
      }
    }
  }

  /** `Result`: the one-shot slot a submitter fetches the task's output from. */
  class Result {
    var val: Any
    const isValid: bool
    const sem: Semaphore
    const task: Task

    /** `Result(task, isValid = true)`: registers itself as the task's
        publish target. */
    constructor (task: Task, isValid: bool := true)
      modifies task
      ensures this.task == task && this.isValid == isValid
      ensures task.res == this
      ensures val == Empty && fresh(sem) && sem.count == 0
    {
      this.task := task;
      this.isValid := isValid;
      val := Empty;
      sem := new Semaphore();
      new;
      task.SetResult(this);
    }

    /** `setVal`: store the value, then post the semaphore exactly once. */
    method SetVal(v: Any)
      modifies this, sem
      ensures val == v && sem.count == old(sem.count) + 1
    {
      val := v;
      sem.Post();
    }

    /** `get`: an invalid Result answers the sentinel at once without touching
        the semaphore; a valid one waits for one post and moves the stored
        value out, leaving the slot empty. */
    method Get() returns (r: Any)
      requires isValid ==> sem.count > 0
      modifies this, sem
      ensures !isValid ==> r == Sentinel && val == old(val) && sem.count == old(sem.count)
      ensures isValid ==> r == old(val) && val == Empty && sem.count == old(sem.count) - 1
    {
      if !isValid {
        return Sentinel;
      }
      sem.Wait();
      r := val;
      val := Empty;
    }
  }

  /** A task executed with its Result registered delivers `run()` to the one
      fetch, and that fetch consumes the only post, so a second fetch would
      block rather than return the value twice. */
  method HandOff(run: () -> Any) returns (fetched: Any, postsLeft: int)
    ensures fetched == run() && postsLeft == 0
  {
    var task := new Task(run);
    var res := new Result(task);
    task.Exec();
    fetched := res.Get();
    postsLeft := res.sem.count;
  }

  /** A Result built invalid answers the sentinel without any post. */
  method RejectedHandOff(run: () -> Any) returns (fetched: Any)
    ensures fetched == Sentinel
  {
    var task := new Task(run);
    var res := new Result(task, false);
    fetched := res.Get();
  }
}
