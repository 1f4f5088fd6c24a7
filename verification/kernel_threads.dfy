// t_sync.c and nsas_scheduler.c as they are written: thread control blocks in a table, the
// run queue and the wait queues linked through them.
module KernelThreads {
  import opened KernelSpec
  import opened KernelTheorems

  /** mutex_t, without its spinlock. */
  datatype Mutex = Mutex(locked: bool, owner: Ptr, head: Ptr, tail: Ptr)

  /** The run queue of the n oldest threads: it begins with the newest of them. */
  function Link(n: nat): Ptr {
    if n == 0 then Null else To(n - 1)
  }

  /** The threads of q are linked one to the next, ended by a null link. */
  ghost predicate Chained(q: seq<nat>, wait_next: seq<Ptr>) {
    forall i :: 0 <= i < |q| ==> q[i] < |wait_next| && wait_next[q[i]] == Behind(q, i)
  }

  ghost function Behind(q: seq<nat>, i: int): Ptr
    requires 0 <= i < |q|
  {
    if i + 1 < |q| then To(q[i + 1]) else Null
  }

  /** The mutex fields agree with the lock, and its queue runs from head to tail. */
  ghost predicate Linked(x: Mutex, l: Lock, wait_next: seq<Ptr>) {
    && x.owner == l.owner && (x.locked <==> l.owner.To?) && (l.owner.To? ==> l.owner.i < |wait_next|)
    && (if l.queue == [] then x.head == Null && x.tail == Null
        else x.head == To(l.queue[0]) && x.tail == To(l.queue[|l.queue| - 1]))
    && Chained(l.queue, wait_next)
  }

  class Kernel {
    var threads: seq<Thread>
    var next: seq<Ptr>
    var wait_next: seq<Ptr>
    var mutexes: seq<Mutex>
    var global_runqueue: Ptr
    var current_tcb: Ptr
    var npu_queue: Npu

    /** The owners and wait queues. */
    ghost var locks: seq<Lock>

    constructor ()
      ensures Valid() && View() == START
    {
      threads, next, wait_next, mutexes, locks := [], [], [], [], [];
      global_runqueue, current_tcb := Null, Null;
      npu_queue := Npu(0, false, 0);
    }

    ghost function View(): Sys
      reads this
    {
      Sys(threads, locks, current_tcb, npu_queue)
    }

    /** The links: the run queue, and the wait queue of every mutex. */
    ghost predicate Shape()
      reads this
    {
      && |next| == |wait_next| == |threads| && |mutexes| == |locks|
      && (current_tcb.To? ==> IsThread(View(), current_tcb))
      && global_runqueue == Link(|threads|) && (forall i :: 0 <= i < |next| ==> next[i] == Link(i))
      && (forall m :: 0 <= m < |mutexes| ==> Linked(mutexes[m], locks[m], wait_next))
    }

    ghost predicate Valid()
      reads this
    {
      Shape() && Inv(View())
    }

    /** A new thread at the head of the run queue. */
    method AddThread() returns (t: Ptr)
      requires Shape()
      modifies this
      ensures Shape() && t == To(|old(threads)|) && View() == Next(old(View()), CreateStep)
    {
      t := To(|threads|);
      threads := threads + [Thread(READY, 10, -1, 0)];
      next := next + [global_runqueue];
      wait_next := wait_next + [Null];
      global_runqueue := t;
      forall m | 0 <= m < |mutexes| ensures Linked(mutexes[m], locks[m], wait_next) {
        assert Linked(mutexes[m], locks[m], old(wait_next));
      }
    }

    /** create_thread; `available` says whether there is memory. */
    method CreateThread(available: bool) returns (t: Ptr)
      requires Valid()
      modifies this
      ensures Valid() && t == if available then To(|old(threads)|) else Null
      ensures View() == if available then Next(old(View()), CreateStep) else old(View())
    {
      InvNext(View(), CreateStep);
      if !available { return Null; }
      t := AddThread();
    }

    /** The walk along the run queue. */
    method Search(w: Want) returns (t: Ptr)
      requires Shape()
      ensures t == Newest(threads, |threads|, w)
    {
      t := global_runqueue;
      ghost var n: nat := |threads|;
      while t != Null
        invariant n <= |threads| && t == Link(n) && Newest(threads, n, w) == Newest(threads, |threads|, w)
        decreases n
      {
        if Wants(w, threads[t.i]) { return t; }
        t := next[t.i];
        n := n - 1;
      }
    }

    /** select_next_cpu_thread */
    method SelectNextCpuThread() returns (t: Ptr)
      requires Shape()
      ensures t == Newest(threads, |threads|, Ready)
    {
      t := Search(Ready);
    }

    /** select_next_npu_thread */
    method SelectNextNpuThread() returns (t: Ptr)
      requires Shape()
      ensures t == NextNpu(View())
    {
      t := Search(OfModel(npu_queue.active_model_id));
      if t == Null && npu_queue.ticks_since_switch > NPU_AFFINITY_WINDOW {
        t := Search(AnyNpu);
      }
    }

    method SetThreadState(t: nat, state: State)
      requires t < |threads|
      modifies this`threads
      ensures threads == SetState(old(threads), t, state)
    {
      threads := threads[t := threads[t].(state := state)];
    }

    /** The NPU part of nsas_schedule. */
    method ScheduleNpu()
      requires Shape()
      modifies this`threads, this`npu_queue
      ensures Shape() && View() == NpuPart(old(View()))
    {
      var t := SelectNextNpuThread();
      if t.To? {
        if threads[t.i].model_id != npu_queue.active_model_id {
          npu_queue := npu_queue.(active_model_id := threads[t.i].model_id, ticks_since_switch := 0);
        }
        SetThreadState(t.i, NPU_BURST);
      }
    }

    /** The context switch. */
    method SwitchTo(t: nat)
      requires t < |threads| && (current_tcb.To? ==> IsThread(View(), current_tcb))
      modifies this`threads, this`current_tcb
      ensures current_tcb == To(t)
      ensures threads == SetState(
        if old(current_tcb).To? && old(threads)[old(current_tcb).i].state == RUNNING
        then SetState(old(threads), old(current_tcb).i, READY) else old(threads), t, RUNNING)
    {
      if current_tcb.To? && threads[current_tcb.i].state == RUNNING {
        SetThreadState(current_tcb.i, READY);
      }
      current_tcb := To(t);
      SetThreadState(t, RUNNING);
    }

    /** The CPU part of nsas_schedule. */
    method ScheduleCpu()
      requires Shape()
      modifies this`threads, this`current_tcb
      ensures Shape() && View() == CpuPart(old(View()))
    {
      var t := SelectNextCpuThread();
      if t.To? && t != current_tcb { SwitchTo(t.i); }
    }

    /** nsas_schedule */
    method Reschedule()
      requires Shape()
      modifies this`threads, this`current_tcb, this`npu_queue
      ensures Shape() && View() == Schedule(old(View()))
    {
      if npu_queue.is_locked { return; }
      ScheduleNpu();
      ScheduleCpu();
      npu_queue := npu_queue.(ticks_since_switch := npu_queue.ticks_since_switch + 1);
    }

    /** nsas_schedule, called by the timer. */
    method NsasSchedule()
      requires Valid()
      modifies this`threads, this`current_tcb, this`npu_queue
      ensures Valid() && View() == Schedule(old(View()))
    {
      ScheduleKeeps(View());
      Reschedule();
    }

    /** mutex_init of a new mutex. */
    method MutexInit() returns (m: nat)
      requires Valid()
      modifies this`mutexes, this`locks
      ensures Valid() && m == |old(mutexes)| && View() == Next(old(View()), NewMutexStep)
    {
      InvNext(View(), NewMutexStep);
      m := |mutexes|;
      mutexes := mutexes + [Mutex(false, Null, Null, Null)];
      locks := locks + [Lock(Null, [])];
    }

    /** Priority inheritance in mutex_lock. */
    method GivePriority(owner: Ptr)
      requires IsThread(View(), current_tcb) && (owner.To? ==> IsThread(View(), owner))
      modifies this`threads
      ensures threads == Inherit(old(threads), owner, current_tcb.i)
    {
      if owner.To? && threads[current_tcb.i].base_priority < threads[owner.i].base_priority {
        threads := threads[owner.i := threads[owner.i].(inherited_priority := threads[current_tcb.i].base_priority)];
      }
    }

    /** The current thread at the end of the wait queue of mutex m. */
    method Enqueue(m: nat)
      requires |wait_next| == |threads| && m < |mutexes| && IsThread(View(), current_tcb)
      requires mutexes[m].tail.To? ==> IsThread(View(), mutexes[m].tail)
      modifies this`mutexes, this`wait_next
      ensures wait_next == RelinkedNext(old(wait_next), old(mutexes[m]), current_tcb.i)
      ensures mutexes == old(mutexes)[m := Queued(old(mutexes[m]), current_tcb.i)]
    {
      var c, tail := current_tcb.i, mutexes[m].tail;
      if tail.To? {
        wait_next := wait_next[tail.i := current_tcb];
      } else {
        mutexes := mutexes[m := mutexes[m].(head := current_tcb)];
      }
      mutexes := mutexes[m := mutexes[m].(tail := current_tcb)];
      wait_next := wait_next[c := Null];
    }

    /** What mutex_lock does to the fields before it yields. */
    method EnqueueAndSleep(m: nat)
      requires |wait_next| == |threads| && m < |mutexes| && IsThread(View(), current_tcb)
      requires mutexes[m].tail.To? ==> IsThread(View(), mutexes[m].tail)
      requires mutexes[m].owner.To? ==> IsThread(View(), mutexes[m].owner)
      modifies this`threads, this`mutexes, this`wait_next
      ensures threads == SetState(Inherit(old(threads), old(mutexes[m].owner), current_tcb.i), current_tcb.i, BLOCKED)
      ensures wait_next == RelinkedNext(old(wait_next), old(mutexes[m]), current_tcb.i)
      ensures mutexes == old(mutexes)[m := Queued(old(mutexes[m]), current_tcb.i)]
    {
      GivePriority(mutexes[m].owner);
      SetThreadState(current_tcb.i, BLOCKED);
      Enqueue(m);
    }

    /** The part of mutex_lock for a mutex that is held, up to the yield. */
    method Block(m: nat)
      requires Shape() && Relinks(View(), mutexes, wait_next, m)
      modifies this`threads, this`mutexes, this`wait_next, this`locks
      ensures Shape() && View() == Contend(old(View()), m)
    {
      ghost var s := View();
      EnqueueAndSleep(m);
      locks := Contend(s, m).locks;
    }

    /** mutex_lock */
    method MutexLock(m: nat)
      requires Valid() && Enabled(View(), LockStep(m))
      modifies this
      ensures Valid() && View() == LockMutex(old(View()), m)
    {
      ghost var s := View();
      InvNext(s, LockStep(m));
      assert Linked(mutexes[m], locks[m], wait_next);
      if mutexes[m].locked {
        RelinkedAll(s, mutexes, wait_next, m);
        Wait(m);
      } else {
        Take(m);
      }
    }

    /** mutex_lock of a mutex that is held. */
    method Wait(m: nat)
      requires Shape() && Relinks(View(), mutexes, wait_next, m)
      modifies this
      ensures Shape() && View() == Schedule(Contend(old(View()), m))
    {
      Block(m);
      Reschedule();
    }

    /** mutex_lock of a mutex that is free. */
    method Take(m: nat)
      requires Shape() && m < |mutexes| && IsThread(View(), current_tcb) && locks[m].owner == Null
      modifies this`mutexes, this`locks
      ensures Shape() && View() == LockMutex(old(View()), m)
    {
      ghost var xs, ls := mutexes, locks;
      assert Linked(xs[m], ls[m], wait_next);
      mutexes := mutexes[m := mutexes[m].(locked := true, owner := current_tcb)];
      locks := locks[m := locks[m].(owner := current_tcb)];
      forall k | 0 <= k < |mutexes| ensures Linked(mutexes[k], locks[k], wait_next) {
        assert Linked(xs[k], ls[k], wait_next);
      }
    }

    /** The head of the wait queue of mutex m becomes its owner. */
    method HandOff(m: nat, x: Mutex) returns (x': Mutex)
      requires IsThread(View(), x.head) && |wait_next| == |threads|
      modifies this`threads
      ensures x' == HandedOver(x, wait_next) && threads == SetState(old(threads), x.head.i, READY)
    {
      var h := x.head.i;
      x' := x.(head := wait_next[h]);
      if x'.head == Null { x' := x'.(tail := Null); }
      SetThreadState(h, READY);
      x' := x'.(locked := true, owner := To(h));
    }

    /** What mutex_unlock does to the fields. */
    method Release(m: nat)
      requires m < |mutexes| && |wait_next| == |threads|
      requires mutexes[m].owner.To? ==> IsThread(View(), mutexes[m].owner)
      requires mutexes[m].head.To? ==> IsThread(View(), mutexes[m].head)
      modifies this`threads, this`mutexes
      ensures mutexes == old(mutexes)[m := ReleasedMutex(old(mutexes[m]), wait_next)]
      ensures threads == ReleasedThreads(old(threads), old(mutexes[m]))
    {
      var x := mutexes[m].(locked := false);
      if x.owner.To? {
        threads := threads[x.owner.i := threads[x.owner.i].(inherited_priority := -1)];
      }
      x := x.(owner := Null);
      if x.head.To? { x := HandOff(m, x); }
      mutexes := mutexes[m := x];
    }

    /** mutex_unlock, as far as the links are concerned. */
    method Unlink(m: nat)
      requires Shape() && m < |mutexes|
      modifies this`threads, this`mutexes, this`locks
      ensures Shape() && View() == UnlockMutex(old(View()), m)
    {
      ghost var s := View();
      assert Linked(mutexes[m], locks[m], wait_next);
      Released(s, m, mutexes[m], wait_next);
      Release(m);
      locks := UnlockMutex(s, m).locks;
    }

    /** mutex_unlock */
    method MutexUnlock(m: nat)
      requires Valid() && m < |mutexes|
      modifies this`threads, this`mutexes, this`locks
      ensures Valid() && View() == UnlockMutex(old(View()), m)
    {
      InvNext(View(), UnlockStep(m));
      Unlink(m);
    }
  }

  /** A mutex with thread c linked in at the end. */
  function Queued(x: Mutex, c: nat): Mutex {
    Mutex(x.locked, x.owner, if x.tail.To? then x.head else To(c), To(c))
  }

  function RelinkedNext(wn: seq<Ptr>, x: Mutex, c: nat): seq<Ptr>
    requires c < |wn| && (x.tail.To? ==> x.tail.i < |wn|)
  {
    (if x.tail.To? then wn[x.tail.i := To(c)] else wn)[c := Null]
  }

  /** A mutex handed to the thread at the head of its queue. */
  function HandedOver(x: Mutex, wait_next: seq<Ptr>): Mutex
    requires x.head.To? && x.head.i < |wait_next|
  {
    var h := x.head.i;
    Mutex(true, To(h), wait_next[h], if wait_next[h] == Null then Null else x.tail)
  }

  function ReleasedMutex(x: Mutex, wait_next: seq<Ptr>): Mutex
    requires x.head.To? ==> x.head.i < |wait_next|
  {
    if x.head.To? then HandedOver(x, wait_next) else Mutex(false, Null, x.head, x.tail)
  }

  function ReleasedThreads(ts: seq<Thread>, x: Mutex): seq<Thread>
    requires x.head.To? ==> x.head.i < |ts|
  {
    if x.head.To? then SetState(Uninherit(ts, x.owner), x.head.i, READY) else Uninherit(ts, x.owner)
  }

  lemma Released(s: Sys, m: nat, x: Mutex, wn: seq<Ptr>)
    requires m < |s.locks| && Linked(x, s.locks[m], wn) && |wn| == |s.threads|
    ensures x.owner.To? ==> IsThread(s, x.owner)
    ensures x.head.To? ==> IsThread(s, x.head)
    ensures Linked(ReleasedMutex(x, wn), UnlockMutex(s, m).locks[m], wn)
    ensures ReleasedThreads(s.threads, x) == UnlockMutex(s, m).threads
  {
    var q := s.locks[m].queue;
    if q != [] {
      assert wn[q[0]] == Behind(q, 0);
      forall i | 0 <= i < |q[1..]| ensures q[1..][i] < |wn| && wn[q[1..][i]] == Behind(q[1..], i) {
        assert q[1..][i] == q[i + 1] && Behind(q, i + 1) == Behind(q[1..], i);
      }
    }
  }

  lemma ChainAppended(q: seq<nat>, wn: seq<Ptr>, c: nat)
    requires Chained(q, wn) && c < |wn| && c !in q && forall i, j :: 0 <= i < j < |q| ==> q[i] != q[j]
    ensures Chained(q + [c], (if q == [] then wn else wn[q[|q| - 1] := To(c)])[c := Null])
  {
    var wn' := (if q == [] then wn else wn[q[|q| - 1] := To(c)])[c := Null];
    forall i | 0 <= i < |q + [c]| ensures (q + [c])[i] < |wn'| && wn'[(q + [c])[i]] == Behind(q + [c], i) {
      if i < |q| { assert wn[q[i]] == Behind(q, i); }
    }
  }

  lemma ChainElsewhere(q: seq<nat>, wn: seq<Ptr>, wn': seq<Ptr>)
    requires Chained(q, wn) && |wn| == |wn'|
    requires forall t :: t in q && t < |wn| ==> wn'[t] == wn[t]
    ensures Chained(q, wn')
  {
    forall i | 0 <= i < |q| ensures q[i] < |wn'| && wn'[q[i]] == Behind(q, i) {
      assert q[i] in q;
    }
  }

  /** Waiters of a mutex are distinct, not running, and wait for no other. */
  lemma WaitersApart(s: Sys, m: nat, k: nat, c: nat)
    requires Inv(s) && m < |s.locks| && k < |s.locks| && c < |s.threads| && s.threads[c].state != BLOCKED
    ensures c !in s.locks[m].queue
    ensures forall i, j :: 0 <= i < j < |s.locks[m].queue| ==> s.locks[m].queue[i] != s.locks[m].queue[j]
    ensures k != m ==> forall t :: t in s.locks[m].queue ==> t !in s.locks[k].queue
  {
    var q, p := s.locks[m].queue, s.locks[k].queue;
    forall i | 0 <= i < |q| ensures q[i] != c {
      assert Waiting(s, q[i], m, i);
      RunningIsFree(s, c, m, i);
    }
    forall i, j | 0 <= i < j < |q| ensures q[i] != q[j] {
      assert Waiting(s, q[i], m, i) && Waiting(s, q[j], m, j);
    }
    forall i, j | k != m && 0 <= i < |q| && 0 <= j < |p| ensures q[i] != p[j] {
      assert Waiting(s, q[i], m, i) && Waiting(s, p[j], k, j);
    }
  }

  /** Linking thread c behind the last waiter of mutex m leaves all lists intact. */
  lemma Relinked(s: Sys, xs: seq<Mutex>, wn: seq<Ptr>, m: nat, k: nat, c: nat)
    requires Inv(s) && |xs| == |s.locks| && |wn| == |s.threads| && m < |xs| && k < |xs| && c < |s.threads|
    requires s.threads[c].state != BLOCKED
    requires Linked(xs[m], s.locks[m], wn) && Linked(xs[k], s.locks[k], wn)
    ensures xs[m].tail.To? ==> xs[m].tail.i < |wn|
    ensures var wn' := RelinkedNext(wn, xs[m], c);
            if k == m then Linked(Queued(xs[m], c), s.locks[m].(queue := s.locks[m].queue + [c]), wn')
            else Linked(xs[k], s.locks[k], wn')
  {
    var q := s.locks[m].queue;
    WaitersApart(s, m, k, c);
    WaitersApart(s, k, m, c);
    var wn' := RelinkedNext(wn, xs[m], c);
    if k == m { ChainAppended(q, wn, c); } else { ChainElsewhere(s.locks[k].queue, wn, wn'); }
  }

  /** Queueing the current thread for mutex m leaves the lists of all mutexes intact. */
  ghost predicate Relinks(s: Sys, xs: seq<Mutex>, wn: seq<Ptr>, m: nat) {
    && m < |xs| == |s.locks| && |wn| == |s.threads| && IsThread(s, s.current)
    && xs[m].owner == s.locks[m].owner && IsThread(s, xs[m].owner)
    && (xs[m].tail.To? ==> IsThread(s, xs[m].tail))
    && var c := s.current.i;
       var wn', xs' := RelinkedNext(wn, xs[m], c), xs[m := Queued(xs[m], c)];
       forall k :: 0 <= k < |xs| ==> Linked(xs'[k], Contend(s, m).locks[k], wn')
  }

  lemma RelinkedAll(s: Sys, xs: seq<Mutex>, wn: seq<Ptr>, m: nat)
    requires Inv(s) && |xs| == |s.locks| && |wn| == |s.threads| && m < |xs| && IsThread(s, s.current)
    requires s.threads[s.current.i].state != BLOCKED && s.locks[m].owner.To?
    requires forall k :: 0 <= k < |xs| ==> Linked(xs[k], s.locks[k], wn)
    ensures Relinks(s, xs, wn, m)
  {
    var c := s.current.i;
    assert Linked(xs[m], s.locks[m], wn) && LockOk(s, s.locks[m]);
    forall k | 0 <= k < |xs|
      ensures Linked(xs[m := Queued(xs[m], c)][k], Contend(s, m).locks[k], RelinkedNext(wn, xs[m], c))
    {
      assert Linked(xs[k], s.locks[k], wn);
      Relinked(s, xs, wn, m, k, c);
    }
  }
}
