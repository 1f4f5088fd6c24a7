// Runs from the start in which the kernel does not do what one might expect of it.
module KernelWitnesses {
  import opened KernelSpec
  import opened KernelTheorems

  lemma {:induction false} OneMoreStep(s: Sys, run: seq<Step>, e: Step)
    requires IsRun(s, run) && Enabled(After(s, run), e)
    ensures IsRun(s, run + [e]) && After(s, run + [e]) == Next(After(s, run), e)
    decreases |run|
  {
    if run == [] {
      assert [e][1..] == [];
      assert [] + [e] == [e];
    } else {
      assert (run + [e])[1..] == run[1..] + [e];
      OneMoreStep(Next(s, run[0]), run[1..], e);
    }
  }

  function T(state: State, base: int, inherited: int): Thread {
    Thread(state, base, inherited, 0)
  }

  function S(ts: seq<Thread>, ls: seq<Lock>, current: nat, ticks: nat): Sys {
    Sys(ts, ls, To(current), Npu(0, false, ticks))
  }

  lemma OnTo(run: seq<Step>, s: Sys, e: Step, r: Sys) returns (run': seq<Step>)
    requires IsRun(START, run) && After(START, run) == s && Enabled(s, e) && Next(s, e) == r
    ensures run' == run + [e] && IsRun(START, run') && After(START, run') == r
  {
    OneMoreStep(START, run, e);
    run' := run + [e];
  }

  /** A contended mutex_lock by the only thread that could run. */
  lemma NobodyElse(s: Sys, m: nat, r: Sys)
    requires m < |s.locks| && IsThread(s, s.current) && s.locks[m].owner != Null && !s.npu.is_locked
    requires var k := Contend(s, m);
             && NextNpu(k) == Null && (forall t :: 0 <= t < |k.threads| ==> k.threads[t].state != READY)
             && r == k.(npu := k.npu.(ticks_since_switch := k.npu.ticks_since_switch + 1))
    ensures LockMutex(s, m) == r
  {
  }

  /** One thread, running, that owns the only mutex. */
  lemma OwnerAlone() returns (run: seq<Step>)
    ensures IsRun(START, run) && After(START, run) == S([T(RUNNING, 10, -1)], [Lock(To(0), [])], 0, 1)
  {
    run := OnTo([], START, CreateStep, Sys([T(READY, 10, -1)], [], Null, Npu(0, false, 0)));
    run := OnTo(run, Sys([T(READY, 10, -1)], [], Null, Npu(0, false, 0)), TimerStep, S([T(RUNNING, 10, -1)], [], 0, 1));
    run := OnTo(run, S([T(RUNNING, 10, -1)], [], 0, 1), NewMutexStep, S([T(RUNNING, 10, -1)], [Lock(Null, [])], 0, 1));
    run := OnTo(run, S([T(RUNNING, 10, -1)], [Lock(Null, [])], 0, 1), LockStep(0), S([T(RUNNING, 10, -1)], [Lock(To(0), [])], 0, 1));
  }

  /** A thread that asks for the mutex it owns comes back from mutex_lock blocked, waiting for
      itself, and still current. */
  lemma LockReturnsToItsOwner() returns (run: seq<Step>)
    ensures IsRun(START, run) && run != [] && run[|run| - 1] == LockStep(0)
    ensures After(START, run) == S([T(BLOCKED, 10, -1)], [Lock(To(0), [0])], 0, 2)
  {
    run := OwnerAlone();
    var s, r := S([T(RUNNING, 10, -1)], [Lock(To(0), [])], 0, 1), S([T(BLOCKED, 10, -1)], [Lock(To(0), [0])], 0, 2);
    assert [] + [0] == [0];
    NobodyElse(s, 0, r);
    run := OnTo(run, s, LockStep(0), r);
  }

  /** The owner was created first; a second thread has taken over from it. */
  lemma SecondThread() returns (run: seq<Step>)
    ensures IsRun(START, run)
    ensures After(START, run) == S([T(READY, 10, -1), T(RUNNING, 10, -1)], [Lock(To(0), [])], 1, 2)
  {
    run := OwnerAlone();
    var ls := [Lock(To(0), [])];
    run := OnTo(run, S([T(RUNNING, 10, -1)], ls, 0, 1), CreateStep, S([T(RUNNING, 10, -1), T(READY, 10, -1)], ls, 0, 1));
    run := OnTo(run, S([T(RUNNING, 10, -1), T(READY, 10, -1)], ls, 0, 1), TimerStep,
                S([T(READY, 10, -1), T(RUNNING, 10, -1)], ls, 1, 2));
  }

  /** Thread 1 comes back from mutex_lock as the current thread, while thread 0, which waits for
      the NPU, has the mutex. */
  lemma LockReturnsWithoutTheMutex() returns (run: seq<Step>)
    ensures IsRun(START, run) && run != [] && run[|run| - 1] == LockStep(0)
    ensures After(START, run) == S([Thread(NPU_PENDING, 10, -1, 1), T(BLOCKED, 10, -1)], [Lock(To(0), [1])], 1, 3)
  {
    run := SecondThread();
    var s := S([Thread(NPU_PENDING, 10, -1, 1), T(RUNNING, 10, -1)], [Lock(To(0), [])], 1, 2);
    run := OnTo(run, S([T(READY, 10, -1), T(RUNNING, 10, -1)], [Lock(To(0), [])], 1, 2), NpuStep(0, 1), s);
    var r := S([Thread(NPU_PENDING, 10, -1, 1), T(BLOCKED, 10, -1)], [Lock(To(0), [1])], 1, 3);
    assert [] + [1] == [1];
    NobodyElse(s, 0, r);
    run := OnTo(run, s, LockStep(0), r);
  }

  /** If a blocked caller asked again it would be queued twice. */
  lemma BlockedCallerBreaks() returns (run: seq<Step>)
    ensures IsRun(START, run)
    ensures var s := After(START, run);
            Inv(s) && s == S([T(BLOCKED, 10, -1)], [Lock(To(0), [0])], 0, 2) && !Inv(Contend(s, 0))
  {
    run := LockReturnsToItsOwner();
    InvStart(run);
    ContendExact(After(START, run), 0);
  }

  /** The owner, of priority 10, has inherited from a waiter of priority 5. */
  lemma FirstWaiter() returns (run: seq<Step>)
    ensures IsRun(START, run)
    ensures After(START, run) == S([T(RUNNING, 10, 5), T(BLOCKED, 5, -1)], [Lock(To(0), [1])], 0, 3)
  {
    run := SecondThread();
    var s := S([T(READY, 10, -1), T(RUNNING, 5, -1)], [Lock(To(0), [])], 1, 2);
    run := OnTo(run, S([T(READY, 10, -1), T(RUNNING, 10, -1)], [Lock(To(0), [])], 1, 2), PriorityStep(1, 5), s);
    assert [] + [1] == [1];
    run := OnTo(run, s, LockStep(0), S([T(RUNNING, 10, 5), T(BLOCKED, 5, -1)], [Lock(To(0), [1])], 0, 3));
  }

  /** A third thread, of priority 8, is about to ask for the mutex. */
  lemma SecondWaiter() returns (run: seq<Step>)
    ensures IsRun(START, run)
    ensures After(START, run) == S([T(READY, 10, 5), T(BLOCKED, 5, -1), T(RUNNING, 8, -1)], [Lock(To(0), [1])], 2, 4)
  {
    run := FirstWaiter();
    var ls := [Lock(To(0), [1])];
    run := OnTo(run, S([T(RUNNING, 10, 5), T(BLOCKED, 5, -1)], ls, 0, 3), CreateStep,
                S([T(RUNNING, 10, 5), T(BLOCKED, 5, -1), T(READY, 10, -1)], ls, 0, 3));
    run := OnTo(run, S([T(RUNNING, 10, 5), T(BLOCKED, 5, -1), T(READY, 10, -1)], ls, 0, 3), TimerStep,
                S([T(READY, 10, 5), T(BLOCKED, 5, -1), T(RUNNING, 10, -1)], ls, 2, 4));
    run := OnTo(run, S([T(READY, 10, 5), T(BLOCKED, 5, -1), T(RUNNING, 10, -1)], ls, 2, 4), PriorityStep(2, 8),
                S([T(READY, 10, 5), T(BLOCKED, 5, -1), T(RUNNING, 8, -1)], ls, 2, 4));
  }

  lemma Overwritten()
    ensures LockMutex(S([T(READY, 10, 5), T(BLOCKED, 5, -1), T(RUNNING, 8, -1)], [Lock(To(0), [1])], 2, 4), 0)
         == S([T(RUNNING, 10, 8), T(BLOCKED, 5, -1), T(BLOCKED, 8, -1)], [Lock(To(0), [1, 2])], 0, 5)
  {
    var s := S([T(READY, 10, 5), T(BLOCKED, 5, -1), T(RUNNING, 8, -1)], [Lock(To(0), [1])], 2, 4);
    assert [1] + [2] == [1, 2];
    var k := S([T(READY, 10, 8), T(BLOCKED, 5, -1), T(BLOCKED, 8, -1)], [Lock(To(0), [1, 2])], 2, 4);
    assert Contend(s, 0) == k;
    assert NextNpu(k) == Null && Newest(k.threads, 3, Ready) == To(0);
  }

  /** Threads of priority 5 and 8 wait for the mutex of a thread of priority 10, which goes on
      at 8. */
  lemma WorseWaiterOverwrites() returns (run: seq<Step>)
    ensures IsRun(START, run)
    ensures var r := After(START, run);
            && r == S([T(RUNNING, 10, 8), T(BLOCKED, 5, -1), T(BLOCKED, 8, -1)], [Lock(To(0), [1, 2])], 0, 5)
            && Best(r, [1, 2], 10) == 5 && !InheritsBest(r, 0)
  {
    run := SecondWaiter();
    Overwritten();
    var r := S([T(RUNNING, 10, 8), T(BLOCKED, 5, -1), T(BLOCKED, 8, -1)], [Lock(To(0), [1, 2])], 0, 5);
    run := OnTo(run, S([T(READY, 10, 5), T(BLOCKED, 5, -1), T(RUNNING, 8, -1)], [Lock(To(0), [1])], 2, 4), LockStep(0), r);
    assert [1, 2][1..] == [2] && [2][1..] == [];
    assert Best(r, [], 10) == -1;
    assert Best(r, [2], 10) == 8;
  }
}
