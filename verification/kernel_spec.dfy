// Threads, mutexes and the scheduler, as what they do: wait queues are sequences, and the
// run queue is the table of threads, newest first.
module KernelSpec {
  datatype State = READY | RUNNING | BLOCKED | NPU_PENDING | NPU_BURST | EXITED

  /** A thread, by its place in the table of threads. */
  datatype Ptr = Null | To(i: nat)

  datatype Thread = Thread(state: State, base_priority: int, inherited_priority: int, model_id: nat)

  datatype Lock = Lock(owner: Ptr, queue: seq<nat>)

  datatype Npu = Npu(active_model_id: nat, is_locked: bool, ticks_since_switch: nat)

  datatype Sys = Sys(threads: seq<Thread>, locks: seq<Lock>, current: Ptr, npu: Npu)

  const NPU_AFFINITY_WINDOW := 50

  predicate IsThread(s: Sys, p: Ptr) {
    p.To? && p.i < |s.threads|
  }

  function SetState(ts: seq<Thread>, t: nat, state: State): seq<Thread>
    requires t < |ts|
  {
    ts[t := ts[t].(state := state)]
  }

  // ---------------------------------------------------------------------------
  // Scheduling

  /** What the run queue is searched for. */
  datatype Want = Ready | OfModel(id: nat) | AnyNpu

  predicate Wants(w: Want, t: Thread) {
    match w
    case Ready => t.state == READY
    case OfModel(id) => t.state == NPU_PENDING && t.model_id == id
    case AnyNpu => t.state == NPU_PENDING
  }

  /** The newest of the first n threads that is wanted. */
  function Newest(ts: seq<Thread>, n: nat, w: Want): (p: Ptr)
    requires n <= |ts|
    ensures p.To? ==> p.i < n && Wants(w, ts[p.i]) && forall k :: p.i < k < n ==> !Wants(w, ts[k])
    ensures p.Null? ==> forall k :: 0 <= k < n ==> !Wants(w, ts[k])
  {
    if n == 0 then Null
    else if Wants(w, ts[n - 1]) then To(n - 1)
    else Newest(ts, n - 1, w)
  }

  function NextNpu(s: Sys): (p: Ptr)
    ensures p.To? ==> p.i < |s.threads| && s.threads[p.i].state == NPU_PENDING
  {
    var p := Newest(s.threads, |s.threads|, OfModel(s.npu.active_model_id));
    if p.To? then p
    else if s.npu.ticks_since_switch > NPU_AFFINITY_WINDOW then Newest(s.threads, |s.threads|, AnyNpu)
    else Null
  }

  function NpuPart(s: Sys): (r: Sys)
    ensures |r.threads| == |s.threads| && r.current == s.current && r.locks == s.locks
  {
    match NextNpu(s)
    case Null => s
    case To(t) =>
      var npu := if s.threads[t].model_id == s.npu.active_model_id then s.npu
                 else s.npu.(active_model_id := s.threads[t].model_id, ticks_since_switch := 0);
      s.(threads := SetState(s.threads, t, NPU_BURST), npu := npu)
  }

  function CpuPart(s: Sys): (r: Sys)
    ensures |r.threads| == |s.threads| && r.locks == s.locks && r.npu == s.npu
  {
    match Newest(s.threads, |s.threads|, Ready)
    case Null => s
    case To(t) =>
      if To(t) == s.current then s
      else
        var ts := if IsThread(s, s.current) && s.threads[s.current.i].state == RUNNING
                  then SetState(s.threads, s.current.i, READY) else s.threads;
        s.(threads := SetState(ts, t, RUNNING), current := To(t))
  }

  /** nsas_schedule */
  function Schedule(s: Sys): Sys {
    if s.npu.is_locked then s
    else
      var r := CpuPart(NpuPart(s));
      r.(npu := r.npu.(ticks_since_switch := r.npu.ticks_since_switch + 1))
  }

  // ---------------------------------------------------------------------------
  // Mutexes

  /** Priority inheritance as mutex_lock does it. */
  function Inherit(ts: seq<Thread>, owner: Ptr, c: nat): (r: seq<Thread>)
    requires c < |ts|
    ensures |r| == |ts|
    ensures forall k :: 0 <= k < |ts| ==> r[k] == ts[k].(inherited_priority := r[k].inherited_priority)
  {
    if owner.To? && owner.i < |ts| && ts[c].base_priority < ts[owner.i].base_priority
    then ts[owner.i := ts[owner.i].(inherited_priority := ts[c].base_priority)]
    else ts
  }

  /** Everything mutex_lock does before it yields. */
  function Contend(s: Sys, m: nat): (r: Sys)
    requires m < |s.locks| && IsThread(s, s.current)
    ensures |r.threads| == |s.threads| && |r.locks| == |s.locks| && r.current == s.current && r.npu == s.npu
  {
    var c, l := s.current.i, s.locks[m];
    s.(threads := SetState(Inherit(s.threads, l.owner, c), c, BLOCKED),
       locks := s.locks[m := l.(queue := l.queue + [c])])
  }

  /** mutex_lock */
  function LockMutex(s: Sys, m: nat): Sys
    requires m < |s.locks| && IsThread(s, s.current)
  {
    if s.locks[m].owner == Null then s.(locks := s.locks[m := s.locks[m].(owner := s.current)])
    else Schedule(Contend(s, m))
  }

  function Uninherit(ts: seq<Thread>, owner: Ptr): (r: seq<Thread>)
    ensures |r| == |ts|
    ensures forall k :: 0 <= k < |ts| ==> r[k] == ts[k].(inherited_priority := r[k].inherited_priority)
  {
    if owner.To? && owner.i < |ts| then ts[owner.i := ts[owner.i].(inherited_priority := -1)] else ts
  }

  /** mutex_unlock */
  function UnlockMutex(s: Sys, m: nat): Sys
    requires m < |s.locks|
  {
    var l := s.locks[m];
    var ts := Uninherit(s.threads, l.owner);
    if l.queue == [] || l.queue[0] >= |ts| then s.(threads := ts, locks := s.locks[m := Lock(Null, l.queue)])
    else
      var next := l.queue[0];
      s.(threads := SetState(ts, next, READY), locks := s.locks[m := Lock(To(next), l.queue[1..])])
  }

  // ---------------------------------------------------------------------------
  // Runs

  datatype Step =
    | LockStep(m: nat)
    | UnlockStep(m: nat)
    | TimerStep
    | CreateStep
    | NewMutexStep
    | PriorityStep(t: nat, base_priority: int)
    | NpuStep(t: nat, model_id: nat)      // a thread asks for the NPU
    | FinishStep(t: nat)                  // a burst is over
    | ExitStep(t: nat)

  /** mutex_lock is called by the current thread, in whatever state; only a blocked one may not
      call it for a mutex that is held.  What threads do otherwise never touches one that is
      blocked. */
  predicate Enabled(s: Sys, e: Step) {
    match e
    case LockStep(m) =>
      m < |s.locks| && IsThread(s, s.current) && (s.threads[s.current.i].state != BLOCKED || s.locks[m].owner == Null)
    case UnlockStep(m) => m < |s.locks|
    case TimerStep => true
    case CreateStep => true
    case NewMutexStep => true
    case PriorityStep(t, _) => t < |s.threads|
    case NpuStep(t, _) => t < |s.threads| && s.threads[t].state != BLOCKED
    case FinishStep(t) => t < |s.threads| && s.threads[t].state == NPU_BURST
    case ExitStep(t) => t < |s.threads| && s.threads[t].state != BLOCKED
  }

  /** A thread as create_thread makes it. */
  const FRESH := Thread(READY, 10, -1, 0)

  function Next(s: Sys, e: Step): Sys
    requires Enabled(s, e)
  {
    match e
    case LockStep(m) => LockMutex(s, m)
    case UnlockStep(m) => UnlockMutex(s, m)
    case TimerStep => Schedule(s)
    case CreateStep => s.(threads := s.threads + [FRESH])
    case NewMutexStep => s.(locks := s.locks + [Lock(Null, [])])
    case PriorityStep(t, b) => s.(threads := s.threads[t := s.threads[t].(base_priority := b)])
    case NpuStep(t, id) => s.(threads := s.threads[t := s.threads[t].(state := NPU_PENDING, model_id := id)])
    case FinishStep(t) => s.(threads := SetState(s.threads, t, READY))
    case ExitStep(t) => s.(threads := SetState(s.threads, t, EXITED))
  }

  const START := Sys([], [], Null, Npu(0, false, 0))

  predicate IsRun(s: Sys, run: seq<Step>)
    decreases |run|
  {
    run != [] ==> Enabled(s, run[0]) && IsRun(Next(s, run[0]), run[1..])
  }

  function After(s: Sys, run: seq<Step>): Sys
    requires IsRun(s, run)
    decreases |run|
  {
    if run == [] then s else After(Next(s, run[0]), run[1..])
  }

  // ---------------------------------------------------------------------------
  // The invariant

  predicate ThreadsOk(s: Sys) {
    && (s.current.To? ==> IsThread(s, s.current))
    && forall t :: 0 <= t < |s.threads| && s.threads[t].state == RUNNING ==> s.current == To(t)
  }

  predicate LockOk(s: Sys, l: Lock) {
    && (l.owner.To? ==> IsThread(s, l.owner))
    && (l.queue != [] ==> l.owner.To?)
    && (forall i :: 0 <= i < |l.queue| ==> l.queue[i] < |s.threads| && s.threads[l.queue[i]].state == BLOCKED)
  }

  predicate Waiting(s: Sys, t: nat, m: nat, i: nat) {
    m < |s.locks| && i < |s.locks[m].queue| && s.locks[m].queue[i] == t
  }

  /** No thread waits twice. */
  ghost predicate WaitOnce(s: Sys) {
    forall t: nat, m: nat, i: nat, m': nat, i': nat :: Waiting(s, t, m, i) && Waiting(s, t, m', i') ==> m == m' && i == i'
  }

  ghost predicate WaitsSomewhere(s: Sys, t: nat) {
    exists m: nat, i: nat :: Waiting(s, t, m, i)
  }

  /** Any running thread is the current one; queues hold exactly the blocked threads, each
      once; and only a mutex that is held has waiters. */
  ghost predicate Inv(s: Sys) {
    && ThreadsOk(s)
    && (forall m :: 0 <= m < |s.locks| ==> LockOk(s, s.locks[m]))
    && WaitOnce(s)
    && (forall t :: 0 <= t < |s.threads| && s.threads[t].state == BLOCKED ==> WaitsSomewhere(s, t))
  }
}
