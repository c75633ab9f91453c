/** What the pool's transitions guarantee: the counter invariants each step
    keeps, FIFO service, the Fixed and Cached thread-count rules, fresh worker
    ids, and drain-before-exit on shutdown. */
module PoolProperties {
  import opened PoolSpec

  /** The bookkeeping invariant: the pending count is the queue length, every
      registered id was drawn from the counter, executing and waiting workers
      are registered and no worker is both, and while the pool runs the
      thread count is the registry size and the idle count is the number of
      registered workers not executing a task. */
  predicate Inv<T>(s: Pool<T>)
  {
    && s.pending == |s.queue|
    && (forall w | w in s.workers :: w < s.nextId)
    && s.busy <= s.workers && s.waiting <= s.workers && s.busy * s.waiting == {}
    && (s.running ==> s.current == |s.workers| && s.idle + |s.busy| == |s.workers|)
  }

  // ---------------------------------------------------------------------
  // One step at a time

  /** Every step keeps the invariant except overwriting the pending count
      (possible only while stopped) and `start`, which is covered by
      `StartEstablishesInv`. */
  lemma StepPreservesInv<T>(s: Pool<T>, step: Step<T>)
    requires Inv(s) && Enabled(s, step)
    requires !step.TaskQueCurrentSizeSet? && !step.Started?
    ensures Inv(Apply(s, step))
  {
    match step
    case Submitted(t) => SubmitPreservesInv(s, t);
    case Took(w) =>
    case Finished(w) =>
    case RetiredOnShutdown(w) =>
    case IdleWaitEntered(w) =>
    case Woken(w) =>
    case TimedOut(w, e) =>
      if s.pending == 0 && s.running && s.mode == Cached {
        AsWrittenTimeoutPreservesInv(s, w, e);
      }
    case TimedOutAsWritten(w, e) => AsWrittenTimeoutPreservesInv(s, w, e);
    case _ =>
  }

  /** A submission keeps the invariant: an admitted task is counted once,
      and a spawned worker takes an id no registered worker has. */
  lemma SubmitPreservesInv<T>(s: Pool<T>, t: T)
    requires Inv(s)
    ensures Inv(Submit(s, t).pool)
  {
    if Submit(s, t).pool.current > s.current {
      assert s.nextId !in s.workers;
    }
  }

  /** `start(n)` on a pool with no workers and no idle count (the state the
      constructor leaves) establishes the invariant. */
  lemma StartEstablishesInv<T>(s: Pool<T>, n: int)
    requires Inv(s) && s.workers == {} && s.idle == 0 && n >= 0
    ensures Inv(Start(s, n))
  {
    var r := Start(s, n);
    IdRangeContents(s.nextId, n);
    assert r.workers == IdRange(s.nextId, n);
    assert s.busy == {};
  }

  /** `start(n)` registers exactly `n` new workers and raises the idle count by
      `n`, because the ids it draws are above every registered id. */
  lemma StartRegistersNWorkers<T>(s: Pool<T>, n: int)
    requires forall w | w in s.workers :: w < s.nextId
    requires n >= 0
    ensures |Start(s, n).workers| == |s.workers| + n
    ensures Start(s, n).idle == s.idle + n && Start(s, n).current == Start(s, n).init == n
  {
    var drawn := IdRange(s.nextId, n);
    IdRangeContents(s.nextId, n);
    assert s.workers * drawn == {} by {
      forall w | w in s.workers ensures w !in drawn {
      }
    }
    DisjointUnionSize(s.workers, drawn);
  }

  lemma DisjointUnionSize(a: set<int>, b: set<int>)
    requires a * b == {}
    ensures |a + b| == |a| + |b|
  {
  }

  /** The lookups `threadsMap_[0 .. n-1]` in `start` hit the ids just created
      only when the process-wide counter stood at 0: a pool started after any
      other `Thread` was constructed looks up an id it did not just create. */
  lemma StartLookupsNeedFreshCounter<T>(s: Pool<T>, n: int)
    requires n > 0
    ensures StartLookupsSucceed(s, n) <==> s.nextId == 0
  {
    IdRangeContents(s.nextId, n);
    if s.nextId > 0 {
      assert 0 !in IdRange(s.nextId, n);
    } else if s.nextId < 0 {
      assert n - 1 !in IdRange(s.nextId, n);
    }
  }

  /** The first pool of the process passes `start`'s lookups for any `n` and,
      for `n >= 0`, starts with the invariant established. */
  lemma FirstPoolStarts<T>(n: int)
    requires n >= 0
    ensures StartLookupsSucceed(Initial<T>(0), n)
    ensures Inv(Start(Initial<T>(0), n))
  {
    IdRangeContents(0, n);
    StartEstablishesInv(Initial<T>(0), n);
  }

  /** A CACHED pool whose submission before `start` spawned worker 0 cannot
      pass `start(2)`'s lookups: index 0 lands on that earlier worker, not on
      one of the ids 1 and 2 the new workers draw. */
  lemma SpawnBeforeStartBreaksLookups()
    ensures var s := Submit(SetMode(Initial<int>(0), Cached), 5).pool;
            s.workers == {0} && s.nextId == 1 && !StartLookupsSucceed(s, 2)
  {
    var s := Submit(SetMode(Initial<int>(0), Cached), 5).pool;
    IdRangeContents(1, 2);
    assert 0 !in IdRange(s.nextId, 2);
  }

  /** Overwriting the pending count before `start` breaks
      `pending == |queue|`. */
  lemma SetPendingBreaksQueueCount()
    ensures Inv(Initial<int>(0))
    ensures !Inv(SetTaskQueCurrentSize(Initial<int>(0), 1))
  {
  }

  /** Shutdown retirement erases the registry entry but leaves the thread
      count, so `current == |workers|` holds only until shutdown: one worker,
      stopped, retired, still counts one thread. */
  lemma ShutdownRetireLeavesCountStale()
    ensures var s := Stop(Start(Initial<int>(0), 1));
            CanRetireOnShutdown(s, 0) &&
            RetireOnShutdown(s, 0).workers == {} && RetireOnShutdown(s, 0).current == 1
  {
    var s := Stop(Start(Initial<int>(0), 1));
    assert s.workers == {0};
  }

  /** The queue changes only by appending an admitted task or removing the
      head: one step of FIFO service. */
  lemma StepFifo<T>(s: Pool<T>, step: Step<T>)
    requires Enabled(s, step)
    ensures Dequeued(s, step) + Apply(s, step).queue == s.queue + Enqueued(s, step)
  {
    match step
    case Took(w) =>
    case Submitted(t) =>
    case _ =>
  }

  /** A worker leaves the registry only through a retirement. Every
      retirement except the timed-out wait as written happens with nothing
      pending: the shutdown path is reached only then, and the re-checked
      timeout checks it again. */
  lemma WorkerLeavesOnlyWhenQueueEmpty<T>(s: Pool<T>, step: Step<T>)
    requires Enabled(s, step)
    requires !(s.workers <= Apply(s, step).workers)
    ensures step.RetiredOnShutdown? || step.TimedOut? || step.TimedOutAsWritten?
    ensures !step.TimedOutAsWritten? ==> s.pending == 0 && Apply(s, step).pending == 0
  {
    match step
    case Started(n) =>
    case Submitted(t) =>
    case _ =>
  }

  /** Drain before exit: with the pool stopped and tasks still pending, a
      worker at the head of its loop can take the head and can neither retire
      nor start a timed wait; a worker inside a timed wait is kept when the
      wait times out and is then at the head of its loop, able to take. */
  lemma DrainTakesBeforeRetiring<T>(s: Pool<T>, w: int, elapsedSeconds: int)
    requires Inv(s) && !s.running && s.pending > 0
    requires w in s.workers && w !in s.busy
    ensures w !in s.waiting ==>
              CanTake(s, w) && !CanRetireOnShutdown(s, w) && !CanEnterIdleWait(s, w)
    ensures w in s.waiting ==>
              IdleTimeoutRechecked(s, w, elapsedSeconds).workers == s.workers &&
              CanTake(IdleTimeoutRechecked(s, w, elapsedSeconds), w)
  {
  }

  /** The timed-out wait as the code writes it keeps the bookkeeping
      invariant; what it loses is drain (`AsWrittenTimeoutStrandsTask`). */
  lemma AsWrittenTimeoutPreservesInv<T>(s: Pool<T>, w: int, elapsedSeconds: int)
    requires Inv(s) && w in s.waiting
    ensures Inv(IdleTimeout(s, w, elapsedSeconds))
  {
    var r := IdleTimeout(s, w, elapsedSeconds);
    if IdleRetires(s, elapsedSeconds) {
      assert w !in s.busy * s.waiting;
      assert w in s.workers && w !in s.busy;
      assert r.busy <= r.workers && r.waiting <= r.workers;
    }
  }

  /** A run with `step` in front of `rest`. */
  lemma RunCons<T>(s: Pool<T>, step: Step<T>, rest: seq<Step<T>>)
    requires Enabled(s, step) && Feasible(Apply(s, step), rest)
    ensures Feasible(s, [step] + rest) && Run(s, [step] + rest) == Run(Apply(s, step), rest)
  {
    assert ([step] + rest)[0] == step && ([step] + rest)[1..] == rest;
  }

  /** A CACHED pool started with no workers, after worker 0 was spawned for
      task 5, ran it and started a timed wait, and task 7 then arrived
      without a spawn (one pending, one idle). */
  function StrandingRun(): seq<Step<int>>
  {
    [ModeSet(Cached), Started(0), Submitted(5), Took(0), Finished(0),
     IdleWaitEntered(0), Submitted(7)]
  }

  /** The first three steps of `StrandingRun`: the pool starts with no
      workers and spawns worker 0 for task 5. */
  lemma StrandingRunSpawns()
    ensures var s1 := SetMode(Initial<int>(0), Cached);
            && Enabled(s1, Started(0))
            && Start(s1, 0) == Pool(true, Cached, [], 0, 0, 0, 0, DefaultThreadCeiling, MaxTaskNum, {}, {}, {}, 0)
            && Submit(Start(s1, 0), 5).pool ==
               Pool(true, Cached, [5], 1, 1, 1, 0, DefaultThreadCeiling, MaxTaskNum, {0}, {}, {}, 1)
  {
    assert IdRange(0, 0) == {};
  }

  /** The last four steps of `StrandingRun`: worker 0 runs task 5, starts a
      timed wait, and task 7 arrives without a spawn. */
  lemma StrandingRunWaits()
    ensures var s3 := Pool(true, Cached, [5], 1, 1, 1, 0, DefaultThreadCeiling, MaxTaskNum, {0}, {}, {}, 1);
            var s5 := Pool(true, Cached, [], 0, 1, 1, 0, DefaultThreadCeiling, MaxTaskNum, {0}, {}, {}, 1);
            && CanTake(s3, 0) && Finish(Take(s3, 0), 0) == s5
            && CanEnterIdleWait(s5, 0)
            && Submit(EnterIdleWait(s5, 0), 7).pool ==
               Pool(true, Cached, [7], 1, 1, 1, 0, DefaultThreadCeiling, MaxTaskNum, {0}, {}, {0}, 1)
  {
  }

  /** The state `StrandingRun` reaches from a pool constructed at counter 0:
      running, CACHED, init 0, task 7 queued, worker 0 registered, idle and
      waiting. */
  lemma StrandingRunReaches()
    ensures Feasible(Initial<int>(0), StrandingRun())
    ensures Run(Initial<int>(0), StrandingRun()) ==
            Pool(true, Cached, [7], 1, 1, 1, 0, DefaultThreadCeiling, MaxTaskNum, {0}, {}, {0}, 1)
  {
    StrandingRunSpawns();
    StrandingRunWaits();
    var s0 := Initial<int>(0);
    var s1 := SetMode(s0, Cached);
    var s2 := Start(s1, 0);
    var s3 := Submit(s2, 5).pool;
    var s4 := Take(s3, 0);
    var s5 := Finish(s4, 0);
    var s6 := EnterIdleWait(s5, 0);
    var s7 := Submit(s6, 7).pool;
    var t7: seq<Step<int>> := [Submitted(7)];
    var t6 := [IdleWaitEntered(0)] + t7;
    var t5 := [Finished(0)] + t6;
    var t4 := [Took(0)] + t5;
    var t3 := [Submitted(5)] + t4;
    var t2 := [Started(0)] + t3;
    var t1 := [ModeSet(Cached)] + t2;
    RunCons(s6, Submitted(7), []);
    assert [Submitted(7)] + [] == t7;
    RunCons(s5, IdleWaitEntered(0), t7);
    RunCons(s4, Finished(0), t6);
    RunCons(s3, Took(0), t5);
    RunCons(s2, Submitted(5), t4);
    RunCons(s1, Started(0), t3);
    RunCons(s0, ModeSet(Cached), t2);
    assert t1 == StrandingRun();
  }

  /** The timed-out wait as written strands a task. In the state
      `StrandingRun` reaches, the invariant holds and task 7 is queued; the
      wait reports `timeout` after 6 idle seconds and worker 0 retires, so
      after the stop the destructor may return with task 7 never taken. Under
      the re-checked rule worker 0 stays and can take task 7. */
  lemma AsWrittenTimeoutStrandsTask()
    ensures Feasible(Initial<int>(0), StrandingRun())
    ensures var s := Run(Initial<int>(0), StrandingRun());
            && Inv(s) && s.queue == [7] && 0 in s.waiting
            && ShutdownComplete(Stop(IdleTimeout(s, 0, 6)))
            && Stop(IdleTimeout(s, 0, 6)).queue == [7]
            && IdleTimeoutRechecked(s, 0, 6).workers == {0}
            && CanTake(IdleTimeoutRechecked(s, 0, 6), 0)
  {
    StrandingRunReaches();
  }

  // ---------------------------------------------------------------------
  // Runs

  /** The invariant holds along every run that neither overwrites the
      pending count nor restarts the pool. */
  lemma {:induction false} RunPreservesInv<T>(s: Pool<T>, trace: seq<Step<T>>)
    requires Inv(s) && Feasible(s, trace)
    requires forall i | 0 <= i < |trace| :: !trace[i].TaskQueCurrentSizeSet? && !trace[i].Started?
    ensures Inv(Run(s, trace))
    decreases |trace|
  {
    if trace != [] {
      StepPreservesInv(s, trace[0]);
      RunPreservesInv(Apply(s, trace[0]), trace[1..]);
    }
  }

  /** A non-empty run is its first step followed by the rest. */
  lemma UnfoldRun<T>(s: Pool<T>, trace: seq<Step<T>>)
    requires Feasible(s, trace) && trace != []
    ensures Enabled(s, trace[0]) && Feasible(Apply(s, trace[0]), trace[1..])
    ensures Run(s, trace) == Run(Apply(s, trace[0]), trace[1..])
    ensures Served(s, trace) == Dequeued(s, trace[0]) + Served(Apply(s, trace[0]), trace[1..])
    ensures Admitted(s, trace) == Enqueued(s, trace[0]) + Admitted(Apply(s, trace[0]), trace[1..])
  {
  }

  /** FIFO: the tasks taken along any run, followed by what is still queued,
      are exactly what was queued before followed by the tasks admitted, in
      submission order. */
  lemma {:induction false} FifoService<T>(s: Pool<T>, trace: seq<Step<T>>)
    requires Feasible(s, trace)
    ensures Served(s, trace) + Run(s, trace).queue == s.queue + Admitted(s, trace)
    decreases |trace|
  {
    if trace != [] {
      UnfoldRun(s, trace);
      var s1, rest := Apply(s, trace[0]), trace[1..];
      StepFifo(s, trace[0]);
      FifoService(s1, rest);
      Regroup(Dequeued(s, trace[0]), Served(s1, rest), Run(s1, rest).queue,
              s1.queue, Admitted(s1, rest), s.queue, Enqueued(s, trace[0]));
    }
  }

  /** Sequence bookkeeping for one step of `FifoService`. */
  lemma Regroup<T>(taken: seq<T>, served: seq<T>, left: seq<T>, mid: seq<T>,
                   admitted: seq<T>, before: seq<T>, added: seq<T>)
    requires served + left == mid + admitted && taken + mid == before + added
    ensures (taken + served) + left == before + (added + admitted)
  {
    calc {
      (taken + served) + left;
      taken + (served + left);
      taken + (mid + admitted);
      (taken + mid) + admitted;
      (before + added) + admitted;
    }
  }

  /** In FIXED mode, with no worker left inside a CACHED timed wait (a pool
      FIXED since `start`), the thread count and the registry never grow:
      submissions never spawn and no worker can start a timed wait, so none
      retires on idleness. `ModeSwitchDuringWaitShrinksFixedPool` shows why
      the waiting set must be empty. */
  lemma {:induction false} FixedModeKeepsThreadCount<T>(s: Pool<T>, trace: seq<Step<T>>)
    requires s.mode == Fixed && s.waiting == {} && Feasible(s, trace)
    requires forall i | 0 <= i < |trace| ::
               !trace[i].ModeSet? && !trace[i].Started? && !trace[i].ThreadQueCurrentSizeSet?
    ensures Run(s, trace).mode == Fixed && Run(s, trace).waiting == {}
    ensures Run(s, trace).current == s.current && Run(s, trace).workers <= s.workers
    decreases |trace|
  {
    if trace != [] {
      var s1 := Apply(s, trace[0]);
      assert s1.mode == Fixed && s1.waiting == {} && s1.current == s.current && s1.workers <= s.workers by {
        match trace[0]
        case Submitted(t) =>
        case _ =>
      }
      FixedModeKeepsThreadCount(s1, trace[1..]);
    }
  }

  /** `setMode` is not guarded, so it can land while a CACHED worker waits.
      From the state `StrandingRun` reaches after `Finished(0)` (running,
      CACHED, init 0, worker 0 idle), worker 0 starts a timed wait and the
      pool is switched to FIXED; the invariant holds. The timeout as written
      then retires worker 0 and lowers the FIXED pool's thread count from 1 to
      0; the re-checked timeout keeps it at 1. */
  lemma ModeSwitchDuringWaitShrinksFixedPool()
    ensures var s5: Pool<int> := Pool(true, Cached, [], 0, 1, 1, 0, DefaultThreadCeiling, MaxTaskNum, {0}, {}, {}, 1);
            var s := SetMode(EnterIdleWait(s5, 0), Fixed);
            && CanEnterIdleWait(s5, 0) && Inv(s) && s.mode == Fixed && 0 in s.waiting
            && IdleTimeout(s, 0, 6).current == 0 && IdleTimeout(s, 0, 6).workers == {}
            && IdleTimeoutRechecked(s, 0, 6).current == 1
            && IdleTimeoutRechecked(s, 0, 6).workers == {0}
  {
    var s5: Pool<int> := Pool(true, Cached, [], 0, 1, 1, 0, DefaultThreadCeiling, MaxTaskNum, {0}, {}, {}, 1);
    var s := SetMode(EnterIdleWait(s5, 0), Fixed);
    assert s == Pool(true, Fixed, [], 0, 1, 1, 0, DefaultThreadCeiling, MaxTaskNum, {0}, {}, {0}, 1);
    assert |s.workers| == 1 && |s.busy| == 0;
    assert IdleRetires(s, 6);
    assert IdleTimeout(s, 0, 6).current == 0 && IdleTimeout(s, 0, 6).workers == {};
    assert IdleTimeoutRechecked(s, 0, 6) == Wake(s, 0);
  }

  /** CACHED growth and shrink stay in the band from `initThreadSize_` to
      `threadsQueSizeThreshold_`: spawning stops at the ceiling, idle
      retirement stops at the initial count. */
  lemma {:induction false} ThreadCountStaysInBand<T>(s: Pool<T>, trace: seq<Step<T>>)
    requires s.init <= s.current <= s.threadCeiling && Feasible(s, trace)
    requires forall i | 0 <= i < |trace| ::
               !trace[i].Started? && !trace[i].ThreadQueCurrentSizeSet? &&
               !trace[i].ThreadsQueThresholdSet?
    ensures Run(s, trace).init == s.init && Run(s, trace).threadCeiling == s.threadCeiling
    ensures s.init <= Run(s, trace).current <= s.threadCeiling
    decreases |trace|
  {
    if trace != [] {
      var s1 := Apply(s, trace[0]);
      assert s1.init == s.init && s1.threadCeiling == s.threadCeiling by {
        match trace[0]
        case Submitted(t) =>
        case _ =>
      }
      ThreadCountStaysInBand(s1, trace[1..]);
    }
  }

  /** Worker ids are never reused: the counter only grows, and every worker
      that joins the registry along a run has an id above all earlier ones. */
  lemma {:induction false} NewWorkersGetFreshIds<T>(s: Pool<T>, trace: seq<Step<T>>)
    requires Feasible(s, trace)
    ensures s.nextId <= Run(s, trace).nextId
    ensures forall w | w in Run(s, trace).workers - s.workers :: s.nextId <= w < Run(s, trace).nextId
    decreases |trace|
  {
    if trace != [] {
      var s1 := Apply(s, trace[0]);
      assert s.nextId <= s1.nextId;
      assert forall w | w in s1.workers - s.workers :: s.nextId <= w < s1.nextId by {
        match trace[0]
        case Started(n) => IdRangeContents(s.nextId, n);
        case Submitted(t) =>
        case _ =>
      }
      NewWorkersGetFreshIds(s1, trace[1..]);
      var r := Run(s1, trace[1..]);
      assert r == Run(s, trace);
      assert s1.nextId <= r.nextId;
      forall w | w in r.workers - s.workers ensures s.nextId <= w < r.nextId {
        if w in s1.workers {
          assert w in s1.workers - s.workers;
          assert s.nextId <= w < s1.nextId;
        } else {
          assert w in r.workers - s1.workers;
          assert s1.nextId <= w < r.nextId;
        }
      }
    }
  }

  /** The pending count is the queue length along every run that does not
      overwrite it. */
  lemma {:induction false} RunKeepsQueueCount<T>(s: Pool<T>, trace: seq<Step<T>>)
    requires s.pending == |s.queue| && Feasible(s, trace)
    requires forall i | 0 <= i < |trace| :: !trace[i].TaskQueCurrentSizeSet?
    ensures Run(s, trace).pending == |Run(s, trace).queue|
    decreases |trace|
  {
    if trace != [] {
      var s1 := Apply(s, trace[0]);
      assert s1.pending == |s1.queue| by {
        match trace[0]
        case Took(w) =>
        case Submitted(t) =>
        case _ =>
      }
      RunKeepsQueueCount(s1, trace[1..]);
    }
  }

  /** Without submissions nothing is admitted. */
  lemma {:induction false} NoSubmissionAdmitsNothing<T>(s: Pool<T>, trace: seq<Step<T>>)
    requires Feasible(s, trace)
    requires forall i | 0 <= i < |trace| :: !trace[i].Submitted?
    ensures Admitted(s, trace) == []
    decreases |trace|
  {
    if trace != [] {
      NoSubmissionAdmitsNothing(Apply(s, trace[0]), trace[1..]);
    }
  }

  /** With no new work, no restart and the re-checked timeout (the timeout as
      written breaks this, `AsWrittenTimeoutStrandsTask`), the registry can become empty only
      once nothing is pending: the last worker leaves through a retirement,
      which needs an empty queue, and an empty registry takes no tasks. */
  lemma {:induction false} RegistryEmptiesOnlyWhenDrained<T>(s: Pool<T>, trace: seq<Step<T>>)
    requires Feasible(s, trace) && (s.workers != {} || s.pending == 0)
    requires forall i | 0 <= i < |trace| ::
               !trace[i].Submitted? && !trace[i].Started? && !trace[i].TaskQueCurrentSizeSet? &&
               !trace[i].TimedOutAsWritten?
    ensures Run(s, trace).workers != {} || Run(s, trace).pending == 0
    decreases |trace|
  {
    if trace != [] {
      var s1 := Apply(s, trace[0]);
      if !(s.workers <= s1.workers) {
        WorkerLeavesOnlyWhenQueueEmpty(s, trace[0]);
      } else if s.workers == {} {
        assert s1.pending == s.pending by {
          match trace[0]
          case _ =>
        }
      }
      RegistryEmptiesOnlyWhenDrained(s1, trace[1..]);
    }
  }

  /** Shutdown drains, under the re-checked timeout: once the destructor may
      return (pool stopped, registry empty), every task that was queued when the run began has been taken,
      in queue order, and the queue is empty. */
  lemma ShutdownDrainsQueue<T>(s: Pool<T>, trace: seq<Step<T>>)
    requires s.pending == |s.queue| && s.workers != {} && Feasible(s, trace)
    requires forall i | 0 <= i < |trace| ::
               !trace[i].Submitted? && !trace[i].Started? && !trace[i].TaskQueCurrentSizeSet? &&
               !trace[i].TimedOutAsWritten?
    requires ShutdownComplete(Run(s, trace))
    ensures Served(s, trace) == s.queue && Run(s, trace).queue == []
  {
    RegistryEmptiesOnlyWhenDrained(s, trace);
    RunKeepsQueueCount(s, trace);
    NoSubmissionAdmitsNothing(s, trace);
    FifoService(s, trace);
    var served, left := Served(s, trace), Run(s, trace).queue;
    assert left == [];
    assert served + left == s.queue + [];
    assert served + left == served && s.queue + [] == s.queue;
  }
}
