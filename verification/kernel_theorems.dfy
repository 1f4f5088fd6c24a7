// What holds in every run of threads, mutexes and the scheduler.
module KernelTheorems {
  import opened KernelSpec

  // ---------------------------------------------------------------------------
  // The invariant

  /** Steps that change no queue and block or release nobody. */
  lemma NobodyWaits(s: Sys, r: Sys)
    requires Inv(s) && r.locks == s.locks && |r.threads| >= |s.threads| && ThreadsOk(r)
    requires forall t :: 0 <= t < |s.threads| ==> (r.threads[t].state == BLOCKED <==> s.threads[t].state == BLOCKED)
    requires forall t :: |s.threads| <= t < |r.threads| ==> r.threads[t].state != BLOCKED
    ensures Inv(r)
  {
    forall m | 0 <= m < |r.locks| ensures LockOk(r, r.locks[m]) {
      assert LockOk(s, s.locks[m]);
    }
    assert forall t: nat, m: nat, i: nat :: Waiting(r, t, m, i) == Waiting(s, t, m, i);
    assert WaitOnce(r);
    forall t | 0 <= t < |r.threads| && r.threads[t].state == BLOCKED ensures WaitsSomewhere(r, t) {
      assert WaitsSomewhere(s, t);
    }
  }

  lemma NpuKeeps(s: Sys)
    requires Inv(s)
    ensures Inv(NpuPart(s))
  {
    NobodyWaits(s, NpuPart(s));
  }

  lemma CpuKeeps(s: Sys)
    requires Inv(s)
    ensures Inv(CpuPart(s))
  {
    NobodyWaits(s, CpuPart(s));
  }

  lemma ScheduleKeeps(s: Sys)
    requires Inv(s)
    ensures Inv(Schedule(s))
  {
    NpuKeeps(s);
    CpuKeeps(NpuPart(s));
    NobodyWaits(CpuPart(NpuPart(s)), Schedule(s));
  }

  /** A running thread waits nowhere. */
  lemma RunningIsFree(s: Sys, t: nat, m: nat, i: nat)
    requires Inv(s) && t < |s.threads| && s.threads[t].state != BLOCKED
    ensures !Waiting(s, t, m, i)
  {
    assert m < |s.locks| ==> LockOk(s, s.locks[m]);
  }

  lemma ContendWaiting(s: Sys, m: nat, t: nat, m': nat, i: nat)
    requires m < |s.locks| && IsThread(s, s.current)
    ensures Waiting(Contend(s, m), t, m', i) <==>
      Waiting(s, t, m', i) || (t == s.current.i && m' == m && i == |s.locks[m].queue|)
  {
  }

  lemma ContendKeeps(s: Sys, m: nat)
    requires Inv(s) && m < |s.locks| && IsThread(s, s.current) && s.threads[s.current.i].state != BLOCKED
    requires s.locks[m].owner != Null
    ensures Inv(Contend(s, m))
  {
    var c, r, q := s.current.i, Contend(s, m), s.locks[m].queue;
    forall k | 0 <= k < |r.locks| ensures LockOk(r, r.locks[k]) {
      assert LockOk(s, s.locks[k]);
    }
    forall t: nat, m1: nat, i1: nat, m2: nat, i2: nat | Waiting(r, t, m1, i1) && Waiting(r, t, m2, i2)
      ensures m1 == m2 && i1 == i2
    {
      ContendWaiting(s, m, t, m1, i1);
      ContendWaiting(s, m, t, m2, i2);
      RunningIsFree(s, c, m1, i1);
      RunningIsFree(s, c, m2, i2);
    }
    forall t | 0 <= t < |r.threads| && r.threads[t].state == BLOCKED ensures WaitsSomewhere(r, t) {
      if t == c {
        assert Waiting(r, t, m, |q|);
      } else {
        assert WaitsSomewhere(s, t);
        var m1: nat, i1: nat :| Waiting(s, t, m1, i1);
        assert Waiting(r, t, m1, i1);
      }
    }
  }

  /** Only a thread that is not blocked may ask for a mutex that is held: one that already
      waits would be linked into a second queue. */
  lemma ContendExact(s: Sys, m: nat)
    requires Inv(s) && m < |s.locks| && IsThread(s, s.current) && s.locks[m].owner != Null
    ensures Inv(Contend(s, m)) <==> s.threads[s.current.i].state != BLOCKED
  {
    var c, r, q := s.current.i, Contend(s, m), s.locks[m].queue;
    if s.threads[c].state != BLOCKED {
      ContendKeeps(s, m);
    } else {
      assert WaitsSomewhere(s, c);
      var m1: nat, i1: nat :| Waiting(s, c, m1, i1);
      assert Waiting(r, c, m1, i1) && Waiting(r, c, m, |q|);
    }
  }

  lemma TakeKeeps(s: Sys, m: nat)
    requires Inv(s) && m < |s.locks| && IsThread(s, s.current) && s.locks[m].owner == Null
    ensures Inv(LockMutex(s, m))
  {
    var r := LockMutex(s, m);
    forall k | 0 <= k < |r.locks| ensures LockOk(r, r.locks[k]) {
      assert LockOk(s, s.locks[k]);
    }
    assert forall t: nat, k: nat, i: nat :: Waiting(r, t, k, i) == Waiting(s, t, k, i);
    forall t | 0 <= t < |r.threads| && r.threads[t].state == BLOCKED ensures WaitsSomewhere(r, t) {
      assert WaitsSomewhere(s, t);
    }
  }

  lemma UnlockWaiting(s: Sys, m: nat, t: nat, m': nat, i: nat)
    requires m < |s.locks| && s.locks[m].queue != [] && s.locks[m].queue[0] < |s.threads|
    ensures Waiting(UnlockMutex(s, m), t, m', i) <==> Waiting(s, t, m', if m' == m then i + 1 else i)
  {
  }

  lemma HandOffKeeps(s: Sys, m: nat)
    requires Inv(s) && m < |s.locks| && s.locks[m].queue != [] && s.locks[m].queue[0] < |s.threads|
    ensures Inv(UnlockMutex(s, m))
  {
    var r, next := UnlockMutex(s, m), s.locks[m].queue[0];
    assert Waiting(s, next, m, 0);
    forall k | 0 <= k < |r.locks| ensures LockOk(r, r.locks[k]) {
      assert LockOk(s, s.locks[k]);
      forall i | 0 <= i < |r.locks[k].queue| ensures r.locks[k].queue[i] != next {
        assert Waiting(s, s.locks[k].queue[if k == m then i + 1 else i], k, if k == m then i + 1 else i);
      }
    }
    forall t: nat, m1: nat, i1: nat, m2: nat, i2: nat | Waiting(r, t, m1, i1) && Waiting(r, t, m2, i2)
      ensures m1 == m2 && i1 == i2
    {
      UnlockWaiting(s, m, t, m1, i1);
      UnlockWaiting(s, m, t, m2, i2);
    }
    forall t | 0 <= t < |r.threads| && r.threads[t].state == BLOCKED ensures WaitsSomewhere(r, t) {
      assert WaitsSomewhere(s, t);
      var m1: nat, i1: nat :| Waiting(s, t, m1, i1);
      assert Waiting(r, t, m1, if m1 == m then i1 - 1 else i1);
    }
  }

  lemma FreeKeeps(s: Sys, m: nat)
    requires Inv(s) && m < |s.locks| && s.locks[m].queue == []
    ensures Inv(UnlockMutex(s, m))
  {
    var r := UnlockMutex(s, m);
    forall k | 0 <= k < |r.locks| ensures LockOk(r, r.locks[k]) {
      assert LockOk(s, s.locks[k]);
    }
    assert forall t: nat, k: nat, i: nat :: Waiting(r, t, k, i) == Waiting(s, t, k, i);
    forall t | 0 <= t < |r.threads| && r.threads[t].state == BLOCKED ensures WaitsSomewhere(r, t) {
      assert WaitsSomewhere(s, t);
    }
  }

  lemma NewMutexKeeps(s: Sys)
    requires Inv(s)
    ensures Inv(Next(s, NewMutexStep))
  {
    var r := Next(s, NewMutexStep);
    forall k | 0 <= k < |r.locks| ensures LockOk(r, r.locks[k]) {
      if k < |s.locks| { assert LockOk(s, s.locks[k]); }
    }
    assert forall t: nat, k: nat, i: nat :: Waiting(r, t, k, i) == Waiting(s, t, k, i);
    forall t | 0 <= t < |r.threads| && r.threads[t].state == BLOCKED ensures WaitsSomewhere(r, t) {
      assert WaitsSomewhere(s, t);
    }
  }

  /** Every step keeps the invariant. */
  lemma InvNext(s: Sys, e: Step)
    requires Inv(s) && Enabled(s, e)
    ensures Inv(Next(s, e))
  {
    match e
    case LockStep(m) =>
      if s.locks[m].owner == Null {
        TakeKeeps(s, m);
      } else {
        ContendKeeps(s, m);
        ScheduleKeeps(Contend(s, m));
      }
    case UnlockStep(m) =>
      assert LockOk(s, s.locks[m]);
      if s.locks[m].queue == [] { FreeKeeps(s, m); } else { HandOffKeeps(s, m); }
    case TimerStep => ScheduleKeeps(s);
    case NewMutexStep => NewMutexKeeps(s);
    case _ => NobodyWaits(s, Next(s, e));
  }

  lemma {:induction false} InvAlways(s: Sys, run: seq<Step>)
    requires Inv(s) && IsRun(s, run)
    ensures Inv(After(s, run))
    decreases |run|
  {
    if run != [] {
      InvNext(s, run[0]);
      InvAlways(Next(s, run[0]), run[1..]);
    }
  }

  lemma InvStart(run: seq<Step>)
    requires IsRun(START, run)
    ensures Inv(After(START, run))
  {
    InvAlways(START, run);
  }

  // ---------------------------------------------------------------------------
  // First come, first served

  function Queue(s: Sys, m: nat): seq<nat> {
    if m < |s.locks| then s.locks[m].queue else []
  }

  /** The thread that asks for mutex m in this step. */
  function Arrival(s: Sys, e: Step, m: nat): seq<nat>
    requires Enabled(s, e)
  {
    if e == LockStep(m) then [s.current.i] else []
  }

  /** The thread that becomes the owner of mutex m in this step. */
  function Grant(s: Sys, e: Step, m: nat): seq<nat>
    requires Enabled(s, e)
  {
    var r := Next(s, e);
    if (e == LockStep(m) || e == UnlockStep(m)) && m < |r.locks| && r.locks[m].owner.To? && r.locks[m] != s.locks[m]
       && (e == LockStep(m) ==> s.locks[m].owner == Null)
    then [r.locks[m].owner.i] else []
  }

  function Arrivals(s: Sys, run: seq<Step>, m: nat): seq<nat>
    requires IsRun(s, run)
    decreases |run|
  {
    if run == [] then [] else Arrival(s, run[0], m) + Arrivals(Next(s, run[0]), run[1..], m)
  }

  function Grants(s: Sys, run: seq<Step>, m: nat): seq<nat>
    requires IsRun(s, run)
    decreases |run|
  {
    if run == [] then [] else Grant(s, run[0], m) + Grants(Next(s, run[0]), run[1..], m)
  }

  lemma LockIsFifo(s: Sys, m: nat)
    requires Inv(s) && Enabled(s, LockStep(m))
    ensures var e := LockStep(m);
            Queue(s, m) + Arrival(s, e, m) == Grant(s, e, m) + Queue(Next(s, e), m)
  {
    assert LockOk(s, s.locks[m]);
  }

  lemma UnlockIsFifo(s: Sys, m: nat)
    requires Inv(s) && m < |s.locks|
    ensures var e := UnlockStep(m);
            Queue(s, m) == Grant(s, e, m) + Queue(Next(s, e), m)
  {
    assert LockOk(s, s.locks[m]);
    if Queue(s, m) != [] {
      assert Queue(s, m) == [Queue(s, m)[0]] + Queue(s, m)[1..];
    }
  }

  /** Steps that are not about mutex m leave it alone. */
  lemma ElsewhereIsFifo(s: Sys, e: Step, m: nat)
    requires Inv(s) && Enabled(s, e) && e != LockStep(m) && e != UnlockStep(m)
    ensures Arrival(s, e, m) == Grant(s, e, m) == [] && Queue(Next(s, e), m) == Queue(s, m)
  {
  }

  lemma StepIsFifo(s: Sys, e: Step, m: nat)
    requires Inv(s) && Enabled(s, e)
    ensures Queue(s, m) + Arrival(s, e, m) == Grant(s, e, m) + Queue(Next(s, e), m)
  {
    if e == LockStep(m) {
      LockIsFifo(s, m);
    } else if e == UnlockStep(m) {
      UnlockIsFifo(s, m);
      assert Queue(s, m) + [] == Queue(s, m);
    } else {
      ElsewhereIsFifo(s, e, m);
      assert Queue(s, m) + [] == [] + Queue(s, m);
    }
  }

  lemma Regroup(q: seq<nat>, a: seq<nat>, a': seq<nat>, g: seq<nat>, g': seq<nat>, q': seq<nat>, q'': seq<nat>)
    requires q + a == g + q' && q' + a' == g' + q''
    ensures q + (a + a') == (g + g') + q''
  {
    assert q + (a + a') == (q + a) + a';
    assert (g + q') + a' == g + (q' + a');
    assert g + (g' + q'') == (g + g') + q'';
  }

  /** No overtaking: in every run the mutex goes to threads in the order in which they asked
      for it, and those that have not got it yet are queued in that order. */
  lemma {:induction false} FirstComeFirstServed(s: Sys, run: seq<Step>, m: nat)
    requires Inv(s) && IsRun(s, run)
    ensures Queue(s, m) + Arrivals(s, run, m) == Grants(s, run, m) + Queue(After(s, run), m)
    decreases |run|
  {
    if run != [] {
      var e, r := run[0], Next(s, run[0]);
      InvNext(s, e);
      StepIsFifo(s, e, m);
      FirstComeFirstServed(r, run[1..], m);
      Regroup(Queue(s, m), Arrival(s, e, m), Arrivals(r, run[1..], m), Grant(s, e, m), Grants(r, run[1..], m),
              Queue(r, m), Queue(After(s, run), m));
    }
  }

  function Owner(s: Sys, m: nat): Ptr {
    if m < |s.locks| then s.locks[m].owner else Null
  }

  lemma StepOwner(s: Sys, e: Step, m: nat)
    requires Inv(s) && Enabled(s, e)
    ensures var g := Grant(s, e, m);
            if g != [] then Owner(Next(s, e), m) == To(g[0])
            else Owner(Next(s, e), m) == if e == UnlockStep(m) then Null else Owner(s, m)
  {
    if m < |s.locks| { assert LockOk(s, s.locks[m]); }
    match e
    case UnlockStep(m') => assert LockOk(s, s.locks[m']);
    case _ =>
  }

  /** Whoever holds a mutex is the last it was given to. */
  lemma {:induction false} OwnerIsLastGrant(s: Sys, run: seq<Step>, m: nat)
    requires Inv(s) && IsRun(s, run)
    ensures var g := Grants(s, run, m);
            Owner(After(s, run), m) == Null ||
            Owner(After(s, run), m) == if g == [] then Owner(s, m) else To(g[|g| - 1])
    decreases |run|
  {
    if run != [] {
      InvNext(s, run[0]);
      StepOwner(s, run[0], m);
      OwnerIsLastGrant(Next(s, run[0]), run[1..], m);
    }
  }

  // ---------------------------------------------------------------------------
  // What the scheduler selects, and what mutex_lock returns with

  lemma ScheduleSelects(s: Sys)
    requires Inv(s)
    ensures var r := Schedule(s);
            && (r.current != s.current ==>
                  IsThread(s, r.current) && s.threads[r.current.i].state == READY && r.threads[r.current.i].state == RUNNING)
            && (forall t :: 0 <= t < |s.threads| && s.threads[t].state == BLOCKED ==> r.threads[t] == s.threads[t])
  {
  }

  /** t is the newest thread that is wanted: the first of them in the run queue. */
  predicate IsNewest(s: Sys, t: nat, w: Want) {
    t < |s.threads| && Wants(w, s.threads[t]) && forall k :: t < k < |s.threads| ==> !Wants(w, s.threads[k])
  }

  predicate Nobody(s: Sys, w: Want) {
    forall k :: 0 <= k < |s.threads| ==> !Wants(w, s.threads[k])
  }

  lemma NewestIs(s: Sys, t: nat, w: Want)
    ensures IsNewest(s, t, w) <==> Newest(s.threads, |s.threads|, w) == To(t)
  {
  }

  /** With something ready, the newest ready thread is the current one afterwards: it runs, if
      it was not current, and the thread it takes over from is ready again.  With nothing
      ready the current thread stays. */
  lemma ScheduleSwitches(s: Sys, t: nat)
    requires Inv(s) && !s.npu.is_locked
    ensures var r := Schedule(s);
            && (IsNewest(s, t, Ready) ==>
                  && r.current == To(t)
                  && (s.current != To(t) ==> r.threads[t] == s.threads[t].(state := RUNNING))
                  && forall k :: 0 <= k < |s.threads| && s.threads[k].state == RUNNING ==>
                       r.threads[k] == s.threads[k].(state := READY))
            && (Nobody(s, Ready) ==>
                  && r.current == s.current
                  && forall k :: 0 <= k < |s.threads| && s.threads[k].state == RUNNING ==> r.threads[k] == s.threads[k])
  {
    ReadyThroughNpu(s);
    NewestIs(s, t, Ready);
  }

  /** The thread that gets the NPU: the newest that wants the active model; without one, and
      once the window has passed, the newest that wants any. */
  predicate Served(s: Sys, t: nat) {
    || IsNewest(s, t, OfModel(s.npu.active_model_id))
    || (Nobody(s, OfModel(s.npu.active_model_id)) && s.npu.ticks_since_switch > NPU_AFFINITY_WINDOW && IsNewest(s, t, AnyNpu))
  }

  lemma ServedIs(s: Sys, t: nat)
    ensures Served(s, t) <==> NextNpu(s) == To(t)
  {
    NewestIs(s, t, OfModel(s.npu.active_model_id));
    NewestIs(s, t, AnyNpu);
  }

  /** Of the threads that are pending for the NPU exactly that one gets it, and its model is
      the active one from then on; the window starts over if it was not before. */
  lemma NpuExact(s: Sys, t: nat)
    requires !s.npu.is_locked && t < |s.threads| && s.threads[t].state == NPU_PENDING
    ensures var r := Schedule(s);
            && r.threads[t] == s.threads[t].(state := if Served(s, t) then NPU_BURST else NPU_PENDING)
            && (Served(s, t) ==>
                  && r.npu.active_model_id == s.threads[t].model_id
                  && r.npu.ticks_since_switch ==
                       if s.threads[t].model_id == s.npu.active_model_id then s.npu.ticks_since_switch + 1 else 1)
  {
    ServedIs(s, t);
    assert NpuPart(s).threads[t] == s.threads[t].(state := if Served(s, t) then NPU_BURST else NPU_PENDING);
  }

  /** A pending thread of another model is served as soon as nobody wants the active one and
      the window has passed. */
  lemma NpuSwitches(s: Sys, t: nat)
    requires !s.npu.is_locked && IsNewest(s, t, AnyNpu)
    requires Nobody(s, OfModel(s.npu.active_model_id)) && s.npu.ticks_since_switch > NPU_AFFINITY_WINDOW
    ensures var r := Schedule(s);
            && r.threads[t].state == NPU_BURST && r.npu.active_model_id == s.threads[t].model_id
            && r.npu.ticks_since_switch == 1 && r.npu.active_model_id != s.npu.active_model_id
  {
    NpuExact(s, t);
    assert !Wants(OfModel(s.npu.active_model_id), s.threads[t]);
  }

  /** The NPU changes its model only when no pending thread wants the active one, and not
      before the window has passed; a thread that wants the active one is served at once. */
  lemma NpuAffinity(s: Sys)
    requires Inv(s) && !s.npu.is_locked
    ensures var r, id := Schedule(s), s.npu.active_model_id;
            && (r.npu.active_model_id != id ==>
                  s.npu.ticks_since_switch > NPU_AFFINITY_WINDOW
                  && forall t :: 0 <= t < |s.threads| ==> !Wants(OfModel(id), s.threads[t]))
            && ((exists t :: 0 <= t < |s.threads| && Wants(OfModel(id), s.threads[t])) ==>
                  exists t :: 0 <= t < |s.threads| && Wants(OfModel(id), s.threads[t]) && r.threads[t].state == NPU_BURST)
            && r.npu.ticks_since_switch == (if r.npu.active_model_id == id then s.npu.ticks_since_switch else 0) + 1
  {
    var p := NextNpu(s);
    if p.To? {
      var n := NpuPart(s);
      assert n.threads[p.i].state == NPU_BURST;
      assert Schedule(s).threads[p.i].state == NPU_BURST;
    }
  }

  /** The newest thread other than c that is ready. */
  function OtherReady(s: Sys, c: nat): Ptr
    requires c < |s.threads|
  {
    Newest(SetState(s.threads, c, BLOCKED), |s.threads|, Ready)
  }

  lemma {:induction false} SameNewest(ts: seq<Thread>, ts': seq<Thread>, n: nat, w: Want)
    requires n <= |ts| == |ts'| && forall k :: 0 <= k < n ==> Wants(w, ts[k]) == Wants(w, ts'[k])
    ensures Newest(ts, n, w) == Newest(ts', n, w)
  {
    if n > 0 { SameNewest(ts, ts', n - 1, w); }
  }

  lemma ReadyThroughNpu(s: Sys)
    ensures Newest(NpuPart(s).threads, |s.threads|, Ready) == Newest(s.threads, |s.threads|, Ready)
  {
    SameNewest(NpuPart(s).threads, s.threads, |s.threads|, Ready);
  }

  lemma ReadyThroughContend(s: Sys, m: nat)
    requires m < |s.locks| && IsThread(s, s.current)
    ensures Newest(Contend(s, m).threads, |s.threads|, Ready) == OtherReady(s, s.current.i)
  {
    SameNewest(Contend(s, m).threads, SetState(s.threads, s.current.i, BLOCKED), |s.threads|, Ready);
  }

  /** Calling mutex_lock ends in one of three ways.  The mutex was free: the caller has it, and
      no state changes.  The mutex was held, and another thread is ready: the caller waits,
      and the newest of these runs.  Otherwise the call returns to its caller, which is
      blocked, queued and without the mutex, but still current. */
  lemma LockOutcome(s: Sys, m: nat)
    requires Inv(s) && Enabled(s, LockStep(m))
    ensures var c, r := s.current.i, LockMutex(s, m);
            if s.locks[m].owner == Null then
              r.locks[m].owner == To(c) && r.current == To(c) && r.threads == s.threads
            else
              && r.locks[m] == Lock(s.locks[m].owner, s.locks[m].queue + [c]) && r.threads[c].state == BLOCKED
              && (r.current == To(c) <==>
                    s.npu.is_locked || forall t :: 0 <= t < |s.threads| && t != c ==> s.threads[t].state != READY)
              && (r.current != To(c) ==> r.current == OtherReady(s, c) && r.threads[r.current.i].state == RUNNING)
  {
    if s.locks[m].owner != Null {
      ContendKeeps(s, m);
      var k := Contend(s, m);
      ReadyThroughContend(s, m);
      ReadyThroughNpu(k);
      ScheduleSelects(k);
      var ts := SetState(s.threads, s.current.i, BLOCKED);
      assert forall t :: 0 <= t < |ts| && t != s.current.i ==> ts[t].state == s.threads[t].state;
    }
  }

  /** mutex_unlock hands the mutex to the thread that has waited longest. */
  lemma UnlockOutcome(s: Sys, m: nat)
    requires Inv(s) && m < |s.locks|
    ensures var l, r := s.locks[m], UnlockMutex(s, m);
            && r.current == s.current
            && (l.owner.To? && !(l.queue != [] && l.queue[0] == l.owner.i) ==>
                  r.threads[l.owner.i] == s.threads[l.owner.i].(inherited_priority := -1))
            && if l.queue == [] then r.locks[m] == Lock(Null, [])
               else r.locks[m] == Lock(To(l.queue[0]), l.queue[1..]) && r.threads[l.queue[0]].state == READY
  {
    assert LockOk(s, s.locks[m]);
  }

  // ---------------------------------------------------------------------------
  // Priority inheritance

  /** The best, lowest, priority that waiters give to the owner: -1 if none is better than
      the owner's own. */
  function Best(s: Sys, q: seq<nat>, own: int): int {
    if q == [] then -1
    else
      var rest, p := Best(s, q[1..], own), if q[0] < |s.threads| then s.threads[q[0]].base_priority else own;
      if p < own && (rest == -1 || p < rest) then p else rest
  }

  ghost predicate InheritsBest(s: Sys, m: nat)
    requires m < |s.locks|
  {
    var l := s.locks[m];
    IsThread(s, l.owner) ==>
      s.threads[l.owner.i].inherited_priority == Best(s, l.queue, s.threads[l.owner.i].base_priority)
  }

  lemma {:induction false} BestOfMore(s: Sys, r: Sys, q: seq<nat>, c: nat, own: int)
    requires |r.threads| == |s.threads| && c < |s.threads|
    requires forall t :: 0 <= t < |s.threads| ==> r.threads[t].base_priority == s.threads[t].base_priority >= 0
    ensures var p, b := s.threads[c].base_priority, Best(s, q, own);
            Best(r, q + [c], own) == if p < own && (b == -1 || p < b) then p else b
    ensures -1 <= Best(s, q, own)
  {
    if q == [] {
      assert q + [c] == [c];
    } else {
      assert (q + [c])[1..] == q[1..] + [c];
      BestOfMore(s, r, q[1..], c, own);
    }
  }

  /** mutex_lock overwrites what the owner has inherited: the owner goes on at the best
      waiting priority just if the new waiter is no worse than what was inherited before, or
      is no better than the owner itself. */
  lemma InheritanceExact(s: Sys, m: nat)
    requires Inv(s) && Enabled(s, LockStep(m)) && IsThread(s, s.locks[m].owner) && InheritsBest(s, m)
    requires forall t :: 0 <= t < |s.threads| ==> s.threads[t].base_priority >= 0
    ensures var c, o := s.threads[s.current.i], s.threads[s.locks[m].owner.i];
            InheritsBest(Contend(s, m), m) <==>
              c.base_priority >= o.base_priority || o.inherited_priority == -1 || c.base_priority <= o.inherited_priority
  {
    var l := s.locks[m];
    BestOfMore(s, Contend(s, m), l.queue, s.current.i, s.threads[l.owner.i].base_priority);
  }
}
