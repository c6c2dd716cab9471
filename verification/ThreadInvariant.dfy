/** What every reachable state of the step system satisfies, and that every event keeps it. */
module ThreadInvariant {
  import opened ThreadSteps

  predicate NoDuplicates(q: seq<Tid>) {
    forall i, j :: 0 <= i < j < |q| ==> q[i] != q[j]
  }

  /** The ready list holds the READY threads, each once, and only the current thread can be
      RUNNING.  This also holds inside schedule, where the current thread may have left RUNNING. */
  ghost predicate Queues(s: State) {
    && NoDuplicates(s.ready)
    && (forall t <- s.threads :: s.threads[t].status.Ready? <==> t in s.ready)
    && (forall t <- s.threads :: s.threads[t].status.Running? ==> t == s.current)
    && (forall t <- s.threads :: !s.threads[t].status.Died?)
  }

  predicate AtIdle(pc: Pc) {
    pc.IdleLoop? || pc.IdleHalt?
  }

  /** The idle thread runs its own loop and never sleeps anywhere else. */
  ghost predicate IdleOk(s: State) {
    && s.idle in s.threads
    && (forall t <- s.threads :: AtIdle(s.threads[t].pc) <==> t == s.idle)
    && (s.threads[s.idle].status.Running? || s.threads[s.idle].status.Ready? || s.threads[s.idle].status.Blocked?)
  }

  /** A thread popped from the waiter list of k that has not tested `value` again. */
  predicate Rechecking(th: Thread, k: Sid) {
    th.pc == SemLoop(k) && !th.status.Blocked?
  }

  /** The waiter list of a semaphore holds exactly the threads BLOCKED in its loop, each once; and
      a free semaphore with waiters has a popped thread that is yet to test it. */
  ghost predicate WaitersOk(s: State, k: Sid)
    requires k in s.sems
  {
    && s.sems[k].value <= 1
    && NoDuplicates(s.sems[k].waiters)
    && (forall t <- s.threads ::
          t in s.sems[k].waiters <==> s.threads[t].pc == SemLoop(k) && s.threads[t].status.Blocked?)
    && (s.sems[k].value == 1 && s.sems[k].waiters != [] ==>
          exists t :: t in s.threads && Rechecking(s.threads[t], k))
  }

  /** Who may be off the ready list, and where. */
  predicate StatusOk(th: Thread) {
    if th.pc.SemLoop? then !th.status.Waiting? && !th.status.Hanging?
    else th.pc.Parked? || AtIdle(th.pc) || th.status.Running? || th.status.Ready?
  }

  /** Where thread `th` stands with lock l: None when it is not between a completed sem_down and
      the matching sem_up; otherwise whether `holder` names it and what holder_repeat_num reads. */
  function Section(th: Thread, l: Sid): Option<(bool, nat)> {
    if th.pc.InLock? && th.pc.lock == l then Midway(th.pc.at, Depth(th, l)) else Nested(Depth(th, l))
  }

  function Nested(depth: nat): Option<(bool, nat)> {
    if depth > 0 then Some((true, depth)) else None
  }

  function Midway(at: Point, depth: nat): Option<(bool, nat)> {
    match at
    case AcqGot => Some((false, 0))
    case AcqCheck | AcqCount => Some((true, 0))
    case RelBranch | RelDec | RelLast => Some((true, depth + 1))
    case RelHolder => Some((true, 0))
    case RelZero | RelUp => Some((false, 0))
    case AcqNest | AcqDown | RelTest => Nested(depth)
  }

  /** What the program counter says about the nesting depth. */
  predicate DepthOk(th: Thread) {
    match th.pc
    case SemLoop(l) => Depth(th, l) == 0
    case InLock(at, l) => DepthAt(at, Depth(th, l))
    case _ => true
  }

  predicate DepthAt(at: Point, depth: nat) {
    if at.AcqNest? || at.RelDec? then depth > 0
    else at.RelTest? || at.RelBranch? || depth == 0
  }

  /** Lock l is free (owner None), or `owner` alone is inside and the lock's fields describe it. */
  ghost predicate LockAt(s: State, l: Sid, owner: Option<Tid>)
    requires l in s.locks && l in s.sems
  {
    && (forall t <- s.threads :: owner != Some(t) ==> Section(s.threads[t], l) == None)
    && match owner
       case None => s.sems[l].value == 1 && s.locks[l] == Lock(None, 0)
       case Some(o) =>
         && s.sems[l].value == 0
         && o in s.threads
         && Section(s.threads[o], l).Some?
         && s.locks[l].holder == (if Section(s.threads[o], l).value.0 then Some(o) else None)
         && s.locks[l].repeat == Section(s.threads[o], l).value.1
  }

  ghost predicate LockOk(s: State, l: Sid)
    requires l in s.locks && l in s.sems
  {
    exists owner: Option<Tid> :: LockAt(s, l, owner)
  }

  /** What holds of each thread by itself. */
  ghost predicate ThreadOk(s: State, th: Thread) {
    StatusOk(th) && DepthOk(th) && th.depth.Keys <= s.locks.Keys
  }

  ghost predicate ThreadsOk(s: State) {
    forall t <- s.threads :: ThreadOk(s, s.threads[t])
  }

  /** Queues, waiter lists and program counters; everything but the locks' own fields. */
  ghost predicate Base(s: State) {
    && WellTyped(s)
    && Queues(s)
    && IdleOk(s)
    && (forall k <- s.sems :: WaitersOk(s, k))
    && ThreadsOk(s)
  }

  ghost predicate LocksOk(s: State)
    requires forall l <- s.locks :: l in s.sems
  {
    forall l <- s.locks :: LockOk(s, l)
  }

  ghost predicate Inv(s: State) {
    Base(s) && LocksOk(s) && s.threads[s.current].status.Running?
  }

  // ----- scheduling: only statuses and queues change -----

  /** s and s' differ in statuses, slices and the ready list at most, and agree on which of the
      threads inside sem_down are BLOCKED. */
  ghost predicate SamePlaces(s: State, s': State) {
    && s'.threads.Keys == s.threads.Keys
    && (forall t <- s.threads ::
          && s'.threads[t].pc == s.threads[t].pc
          && s'.threads[t].depth == s.threads[t].depth
          && (s.threads[t].pc.SemLoop? ==> (s.threads[t].status.Blocked? <==> s'.threads[t].status.Blocked?)))
    && s'.sems == s.sems
    && s'.locks == s.locks
    && s'.idle == s.idle
  }

  /** One thread changes its status, its slice or its tick count, and the queues change with it. */
  lemma RestatusOk(s: State, s': State, t: Tid)
    requires Base(s) && t in s.threads && t in s'.threads
    requires s'.threads == s.threads[t := s'.threads[t]]
    requires s' == s.(threads := s'.threads, ready := s'.ready, current := s'.current)
    requires s'.threads[t].pc == s.threads[t].pc && s'.threads[t].depth == s.threads[t].depth
    requires s.threads[t].pc.SemLoop? ==> (s.threads[t].status.Blocked? <==> s'.threads[t].status.Blocked?)
    requires StatusOk(s'.threads[t])
    requires t == s.idle ==> var st := s'.threads[t].status; st.Running? || st.Ready? || st.Blocked?
    requires s'.current in s.threads && (forall u <- s'.ready :: u in s.threads)
    requires Queues(s')
    ensures Base(s') && SamePlaces(s, s')
  {
    hide DepthOk, WaitersOk, PcTyped, NoDuplicates, Queues, StatusOk;
    assert SamePlaces(s, s') by { hide WellTyped, IdleOk; }
    assert IdleOk(s') by { hide WellTyped; }
    SamePlacesTyped(s, s');
    hide IdleOk;
    forall k <- s'.sems ensures WaitersOk(s', k) {
      WaitersKept(s, s', k);
    }
    assert ThreadOk(s, s.threads[t]);
    SameDepthOk(s.threads[t], s'.threads[t]);
    ThreadsAfter(s, s', t);
  }

  lemma ThreadsAfter(s: State, s': State, t: Tid)
    requires ThreadsOk(s) && t in s'.threads && s'.threads == s.threads[t := s'.threads[t]]
    requires ThreadOk(s', s'.threads[t]) && s'.locks.Keys == s.locks.Keys
    ensures ThreadsOk(s')
  {
    hide StatusOk, DepthOk;
    forall u <- s'.threads ensures ThreadOk(s', s'.threads[u]) {
      assert u != t ==> ThreadOk(s, s.threads[u]);
    }
  }

  lemma SameDepthOk(th: Thread, th': Thread)
    requires DepthOk(th) && th'.pc == th.pc && th'.depth == th.depth
    ensures DepthOk(th')
  {
    assert forall l :: Depth(th', l) == Depth(th, l);
  }

  lemma SamePlacesTyped(s: State, s': State)
    requires WellTyped(s) && SamePlaces(s, s')
    requires s'.current in s'.threads && (forall t <- s'.ready :: t in s'.threads)
    ensures WellTyped(s')
  {
    forall t <- s'.threads ensures PcTyped(s', s'.threads[t].pc) {
      assert PcTyped(s, s.threads[t].pc);
    }
  }

  lemma WaitersKept(s: State, s': State, k: Sid)
    requires k in s.sems && k in s'.sems && s'.sems[k] == s.sems[k]
    requires WaitersOk(s, k)
    requires s.threads.Keys <= s'.threads.Keys
    requires forall t <- s.sems[k].waiters :: t in s.threads
    requires forall t <- s'.threads ::
               s'.threads[t].pc == SemLoop(k) || (t in s.threads && s.threads[t].pc == SemLoop(k)) ==>
                 && t in s.threads && s.threads[t].pc == SemLoop(k)
                 && s'.threads[t].pc == SemLoop(k)
                 && (s.threads[t].status.Blocked? <==> s'.threads[t].status.Blocked?)
    ensures WaitersOk(s', k)
  {
    if s.sems[k].value == 1 && s.sems[k].waiters != [] {
      var t :| t in s.threads && Rechecking(s.threads[t], k);
      assert Rechecking(s'.threads[t], k);
    }
  }

  /** The state of a lock is a matter of program counters, depths, the lock and its semaphore. */
  lemma LockKept(s: State, s': State, l: Sid)
    requires l in s.locks && l in s.sems && l in s'.locks && l in s'.sems
    requires LockOk(s, l)
    requires s'.locks[l] == s.locks[l] && s'.sems[l].value == s.sems[l].value
    requires s.threads.Keys <= s'.threads.Keys
    requires forall t <- s'.threads ::
               Section(s'.threads[t], l) == if t in s.threads then Section(s.threads[t], l) else None
    ensures LockOk(s', l)
  {
    hide Section;
    var owner: Option<Tid> :| LockAt(s, l, owner);
    assert LockAt(s', l, owner);
  }

  lemma LocksKept(s: State, s': State)
    requires Base(s) && LocksOk(s) && SamePlaces(s, s')
    requires forall l <- s'.locks :: l in s'.sems
    ensures LocksOk(s')
  {
    hide LockOk, Section, Queues, IdleOk, WaitersOk, StatusOk, DepthOk;
    forall l <- s'.locks ensures LockOk(s', l) {
      SameSections(s, s', l);
      LockKept(s, s', l);
    }
  }

  lemma SameSections(s: State, s': State, l: Sid)
    requires SamePlaces(s, s')
    ensures forall t <- s'.threads :: t in s.threads && Section(s'.threads[t], l) == Section(s.threads[t], l)
  {
    forall t <- s'.threads
      ensures t in s.threads && Section(s'.threads[t], l) == Section(s.threads[t], l)
    {
      assert Depth(s'.threads[t], l) == Depth(s.threads[t], l);
    }
  }

  /** The ready list after thread t, not on it, becomes READY at either end. */
  lemma QueuesAfterReady(s: State, s': State, t: Tid)
    requires Queues(s) && t in s.threads && t !in s.ready
    requires t in s'.threads && s'.threads == s.threads[t := s'.threads[t]]
    requires s'.threads[t].status.Ready? && s'.current == s.current
    requires s'.ready == s.ready + [t] || s'.ready == [t] + s.ready
    ensures Queues(s')
  {
  }

  lemma RequeueOk(s: State)
    requires Base(s)
    ensures !s.panicked ==> !Requeue(s).panicked
    ensures Base(Requeue(s)) && SamePlaces(s, Requeue(s))
    ensures forall t <- Requeue(s).threads :: !Requeue(s).threads[t].status.Running?
  {
    hide ThreadsOk, DepthOk, WaitersOk, PcTyped;
    if s.threads[s.current].status.Running? {
      assert s.current !in s.ready;
      QueuesAfterReady(s, Requeue(s), s.current);
      RestatusOk(s, Requeue(s), s.current);
    }
  }

  lemma UnlockIdleOk(s: State)
    requires Base(s) && s.ready == []
    requires forall t <- s.threads :: !s.threads[t].status.Running?
    ensures !s.panicked ==> !ThreadUnlock(s, s.idle).panicked
    ensures ThreadUnlock(s, s.idle).ready == [s.idle]
    ensures Base(ThreadUnlock(s, s.idle)) && SamePlaces(s, ThreadUnlock(s, s.idle))
    ensures forall t <- s.threads :: !ThreadUnlock(s, s.idle).threads[t].status.Running?
  {
    hide ThreadsOk, DepthOk, WaitersOk, PcTyped;
    assert s.idle !in s.ready;
    QueuesAfterReady(s, ThreadUnlock(s, s.idle), s.idle);
    RestatusOk(s, ThreadUnlock(s, s.idle), s.idle);
  }

  lemma DispatchOk(s: State)
    requires Base(s) && s.ready != []
    requires forall t <- s.threads :: !s.threads[t].status.Running?
    ensures Base(Dispatch(s)) && SamePlaces(s, Dispatch(s))
    ensures Dispatch(s).threads[Dispatch(s).current].status.Running?
  {
    hide ThreadsOk, DepthOk, WaitersOk, PcTyped;
    var s' := Dispatch(s);
    var next := s.ready[0];
    assert next in s.ready;
    assert s.threads[next].status.Ready?;
    forall t <- s'.threads ensures s'.threads[t].status.Ready? <==> t in s'.ready {
      assert t in s.ready <==> t == next || t in s'.ready;
    }
    RestatusOk(s, s', next);
  }

  /** schedule always dispatches: none of its assertions fires, and the idle thread is there to be
      unlocked when nothing else is ready. */
  lemma ScheduleOk(s: State)
    requires Base(s) && !s.panicked
    ensures !Schedule(s).panicked
    ensures Base(Schedule(s)) && SamePlaces(s, Schedule(s))
    ensures Schedule(s).threads[Schedule(s).current].status.Running?
  {
    hide ThreadsOk, DepthOk, WaitersOk, PcTyped, Queues, IdleOk, StatusOk, SamePlaces;
    RequeueOk(s);
    var s1 := Requeue(s);
    if s1.ready == [] {
      UnlockIdleOk(s1);
      DispatchOk(ThreadUnlock(s1, s1.idle));
      SamePlacesTransitive(s, s1, ThreadUnlock(s1, s1.idle));
      SamePlacesTransitive(s, ThreadUnlock(s1, s1.idle), Schedule(s));
    } else {
      DispatchOk(s1);
      SamePlacesTransitive(s, s1, Schedule(s));
    }
  }

  lemma SamePlacesTransitive(s: State, s': State, s'': State)
    requires SamePlaces(s, s') && SamePlaces(s', s'')
    ensures SamePlaces(s, s'')
  {
  }

  lemma TimerOk(s: State)
    requires Inv(s) && !s.panicked
    ensures !TimerHandler(s).panicked && Inv(TimerHandler(s))
  {
    hide LocksOk, ThreadsOk, DepthOk, WaitersOk, PcTyped, SamePlaces;
    if s.threads[s.current].ticks == 0 {
      var s1 := SetThread(s, s.current, Elapse(s.threads[s.current]));
      RestatusOk(s, s1, s.current);
      RescheduleOk(s, s1);
    } else {
      RestatusOk(s, TimerHandler(s), s.current);
      LocksKept(s, TimerHandler(s));
    }
  }

  /** schedule, called in s1, which differs from the state s before the call in statuses only. */
  lemma RescheduleOk(s: State, s1: State)
    requires Base(s) && LocksOk(s) && Base(s1) && SamePlaces(s, s1) && !s1.panicked
    ensures !Schedule(s1).panicked && Inv(Schedule(s1))
  {
    hide LocksOk, ThreadsOk, DepthOk, WaitersOk, PcTyped, SamePlaces, Queues, IdleOk, StatusOk;
    ScheduleOk(s1);
    SamePlacesTransitive(s, s1, Schedule(s1));
    LocksKept(s, Schedule(s1));
  }

  lemma YieldOk(s: State)
    requires Inv(s) && !s.panicked && s.threads[s.current].pc.User?
    ensures !ThreadYield(s).panicked && Inv(ThreadYield(s))
  {
    hide LocksOk, ThreadsOk, DepthOk, WaitersOk, PcTyped, SamePlaces;
    var s1 := SetThread(s, s.current, s.threads[s.current].(status := Ready)).(ready := s.ready + [s.current]);
    assert s.current !in s.ready;
    QueuesAfterReady(s, s1, s.current);
    RestatusOk(s, s1, s.current);
    RescheduleOk(s, s1);
  }

  /** Another record for the current thread, at a program point that exists. */
  lemma RecordTyped(s: State, s': State)
    requires WellTyped(s) && s.current in s'.threads && PcTyped(s, s'.threads[s.current].pc)
    requires s' == s.(threads := s.threads[s.current := s'.threads[s.current]])
    ensures WellTyped(s')
  {
    forall t <- s'.threads ensures PcTyped(s', s'.threads[t].pc) {
      assert t != s.current ==> PcTyped(s, s.threads[t].pc);
    }
  }
}
