/** Safety over whole runs: mutual exclusion with re-entrancy, no lost wakeup, the scheduler's
    queues, and the assertions of the code. */
module ThreadRuns {
  import opened ThreadSteps
  import opened ThreadInvariant
  import opened ThreadPreservation

  /** After system_thread_init: main runs, idle is ready, the locks are free. */
  ghost predicate Initial(s: State) {
    && s.current != s.idle
    && s.threads.Keys == {s.current, s.idle}
    && s.threads[s.current].status.Running? && s.threads[s.current].pc.User?
    && s.threads[s.current].depth == map[]
    && s.threads[s.idle].status.Ready? && s.threads[s.idle].pc.IdleLoop? && s.threads[s.idle].depth == map[]
    && s.ready == [s.idle]
    && (forall k <- s.sems :: s.sems[k].value <= 1 && s.sems[k].waiters == [])
    && (forall l <- s.locks :: l in s.sems && s.sems[l].value == 1 && s.locks[l] == Lock(None, 0))
    && !s.panicked
  }

  /** Consecutive states of one run from an initial state. */
  ghost predicate IsRun(states: seq<State>, events: seq<Event>) {
    && |states| == |events| + 1
    && Initial(states[0])
    && forall i :: 0 <= i < |events| ==> Enabled(states[i], events[i]) && states[i + 1] == Next(states[i], events[i])
  }

  lemma InitialOk(s: State)
    requires Initial(s)
    ensures Inv(s) && !s.panicked
  {
    forall l <- s.locks ensures LockOk(s, l) {
      assert LockAt(s, l, None);
    }
  }

  lemma {:induction false} RunInvariant(states: seq<State>, events: seq<Event>, i: nat)
    requires IsRun(states, events) && i < |states| && !states[i].panicked
    ensures Inv(states[i])
  {
    hide Inv, Initial, Enabled, Next, WellTyped;
    if i == 0 {
      InitialOk(states[0]);
    } else {
      RunStep(states, events, i);
      RunInvariant(states, events, i - 1);
      EventOk(states[i - 1], events[i - 1]);
    }
  }

  lemma RunLength(states: seq<State>, events: seq<Event>)
    requires IsRun(states, events)
    ensures |states| == |events| + 1
  {
  }

  lemma RunStep(states: seq<State>, events: seq<Event>, i: nat)
    requires IsRun(states, events) && 0 < i < |states|
    ensures Enabled(states[i - 1], events[i - 1]) && !states[i - 1].panicked
    ensures states[i] == Next(states[i - 1], events[i - 1])
  {
    hide WellTyped, Next;
    assert states[i - 1 + 1] == Next(states[i - 1], events[i - 1]);
  }

  /** The assertions in the scheduler, semaphore and lock code never fire in a run without misuse,
      and nothing stops such a run: schedule always finds a thread to dispatch. */
  lemma {:induction false} AssertionsHold(states: seq<State>, events: seq<Event>, i: nat)
    requires IsRun(states, events) && i < |states|
    requires forall j :: 0 <= j < |events| ==> !Misuse(states[j], events[j])
    ensures !states[i].panicked && Inv(states[i])
  {
    hide Inv, Initial, Enabled, Next, WellTyped;
    if i == 0 {
      InitialOk(states[0]);
    } else {
      RunStep(states, events, i);
      AssertionsHold(states, events, i - 1);
      EventOk(states[i - 1], events[i - 1]);
    }
  }

  /** Exactly one thread is RUNNING and it is the current one; the ready list holds exactly the
      READY threads; every semaphore waiter is BLOCKED; and the one general_tag of a thread is in at
      most one of these lists, at most once. */
  lemma SchedulerQueues(states: seq<State>, events: seq<Event>, i: nat)
    requires IsRun(states, events) && i < |states| && !states[i].panicked
    ensures var s := states[i];
      && WellTyped(s)
      && (forall t <- s.threads :: s.threads[t].status.Running? <==> t == s.current)
      && (forall t <- s.threads :: s.threads[t].status.Ready? <==> t in s.ready)
      && NoDuplicates(s.ready)
      && (forall k <- s.sems :: NoDuplicates(s.sems[k].waiters))
      && (forall k <- s.sems, t <- s.sems[k].waiters ::
            s.threads[t].status.Blocked? && t !in s.ready && t != s.idle)
      && (forall j <- s.sems, k <- s.sems, t <- s.sems[j].waiters :: t in s.sems[k].waiters ==> j == k)
  {
    RunInvariant(states, events, i);
    hide ThreadsOk, LocksOk, PcTyped;
    var s := states[i];
    forall k <- s.sems ensures WaitersOk(s, k) {}
  }

  /** No lost wakeup: a free semaphore with waiters has a thread that was popped from its waiter list,
      can run, and will test `value` before it does anything else. */
  lemma NoLostWakeup(states: seq<State>, events: seq<Event>, i: nat, k: Sid)
    requires IsRun(states, events) && i < |states| && !states[i].panicked && k in states[i].sems
    ensures var s := states[i];
      s.sems[k].value == 1 && s.sems[k].waiters != [] ==>
        exists t :: && t in s.threads && t !in s.sems[k].waiters && s.threads[t].pc == SemLoop(k)
                    && (t == s.current || t in s.ready)
  {
    RunInvariant(states, events, i);
    var s := states[i];
    assert WaitersOk(s, k);
    if s.sems[k].value == 1 && s.sems[k].waiters != [] {
      var t :| t in s.threads && Rechecking(s.threads[t], k);
      assert ThreadOk(s, s.threads[t]);
    }
  }

  /** Runs leave out no interleaving: before every statement of lock_acquire and lock_release, and outside
      of them, the timer can interrupt; a thread is out of its reach only on its way back from schedule, inside
      sem_down and thread_lock. */
  lemma Preemptible(states: seq<State>, events: seq<Event>, i: nat)
    requires IsRun(states, events) && i < |states| && !states[i].panicked
    ensures WellTyped(states[i])
    ensures var s := states[i];
            var pc := s.threads[s.current].pc;
            && (pc == User || pc == IdleLoop || pc == IdleHalt || pc.InLock? ==> Enabled(s, Timer))
            && (pc != User ==> Enabled(s, Continue))
  {
    RunInvariant(states, events, i);
    CurrentFacts(states[i]);
    hide IsRun, Inv, WellTyped;
  }

  // ----- mutual exclusion, in terms of what happened in the run -----

  /** Event e completes the sem_down inside a lock_acquire of l by thread t. */
  predicate Enters(s: State, e: Event, t: Tid, l: Sid)
    requires Enabled(s, e)
  {
    && e.Continue? && t == s.current && l in s.locks
    && (s.threads[t].pc == InLock(AcqDown, l) || s.threads[t].pc == SemLoop(l))
    && s.sems[l].value != 0
  }

  /** Event e is the sem_up inside a lock_release of l by thread t. */
  predicate Leaves(s: State, e: Event, t: Tid, l: Sid)
    requires Enabled(s, e)
  {
    e.Continue? && t == s.current && l in s.locks && s.threads[t].pc == InLock(RelUp, l)
  }

  /** Completed sem_downs minus sem_ups of thread t on lock l in the first i events. */
  ghost function Entries(states: seq<State>, events: seq<Event>, t: Tid, l: Sid, i: nat): int
    requires IsRun(states, events) && i <= |events|
  {
    if i == 0 then 0
    else
      Entries(states, events, t, l, i - 1)
      + (if Enters(states[i - 1], events[i - 1], t, l) then 1 else 0)
      - (if Leaves(states[i - 1], events[i - 1], t, l) then 1 else 0)
  }

  /** A thread is inside the section of a lock in state s. */
  ghost predicate Inside(s: State, t: Tid, l: Sid) {
    t in s.threads && Section(s.threads[t], l).Some?
  }

  /** Thread t, if it exists in s, is at the same place in s'. */
  ghost predicate Keeps(s: State, s': State, t: Tid) {
    t in s.threads ==>
      t in s'.threads && s'.threads[t].pc == s.threads[t].pc && s'.threads[t].depth == s.threads[t].depth
  }

  /** The states between which no thread appears. */
  ghost predicate KeepsAll(s: State, s': State, t: Tid) {
    Keeps(s, s', t) && s'.threads.Keys == s.threads.Keys
  }

  lemma UnlockKeeps(s: State, u: Tid, t: Tid)
    requires u in s.threads
    ensures KeepsAll(s, ThreadUnlock(s, u), t)
  {
  }

  lemma RequeueKeeps(s: State, t: Tid)
    requires s.current in s.threads
    ensures KeepsAll(s, Requeue(s), t)
  {
  }

  lemma DispatchKeeps(s: State, t: Tid)
    requires forall u <- s.ready :: u in s.threads
    ensures KeepsAll(s, Dispatch(s), t)
  {
  }

  lemma ScheduleKeeps(s: State, t: Tid)
    requires WellTyped(s)
    ensures KeepsAll(s, Schedule(s), t)
  {
    hide PcTyped;
    RequeueKeeps(s, t);
    var s1 := Requeue(s);
    var s2 := if s1.ready == [] then ThreadUnlock(s1, s1.idle) else s1;
    if s1.ready == [] {
      UnlockKeeps(s1, s1.idle, t);
    }
    assert forall u <- s2.ready :: u in s2.threads;
    DispatchKeeps(s2, t);
    hide WellTyped, Requeue, Dispatch, ThreadUnlock;
  }

  lemma LockKeeps(s: State, status: Status, pc: Pc, t: Tid)
    requires WellTyped(s) && PcTyped(s, pc)
    ensures s.threads.Keys == ThreadLock(s, status, pc).threads.Keys
    ensures t != s.current ==> Keeps(s, ThreadLock(s, status, pc), t)
    ensures Wakeable(status) ==> ThreadLock(s, status, pc).threads[s.current].pc == pc
    ensures Wakeable(status) ==> ThreadLock(s, status, pc).threads[s.current].depth == s.threads[s.current].depth
  {
    if Wakeable(status) {
      var s1 := SetThread(s, s.current, s.threads[s.current].(status := status, pc := pc));
      assert WellTyped(s1) by { RecordTyped(s, s1); }
      hide WellTyped;
      ScheduleKeeps(s1, t);
      ScheduleKeeps(s1, s.current);
    }
  }

  lemma DownKeeps(s: State, k: Sid, t: Tid)
    requires WellTyped(s) && k in s.sems && !SemDown(s, k).panicked
    ensures SemDown(s, k).threads.Keys == s.threads.Keys
    ensures t != s.current ==> Keeps(s, SemDown(s, k), t)
    ensures var th, th' := s.threads[s.current], SemDown(s, k).threads[s.current];
            th'.depth == th.depth && th'.pc == (if s.sems[k].value == 0 then SemLoop(k)
                                               else if k in s.locks then InLock(AcqGot, k) else User)
  {
    hide ThreadLock;
    if s.sems[k].value == 0 {
      var s1 := SetSem(s, k, s.sems[k].(waiters := s.sems[k].waiters + [s.current]));
      assert WellTyped(s1);
      hide WellTyped;
      LockKeeps(s1, Blocked, SemLoop(k), t);
    }
  }

  lemma UpKeeps(s: State, k: Sid, t: Tid)
    requires WellTyped(s) && k in s.sems && !SemUp(s, k).panicked
    ensures KeepsAll(s, SemUp(s, k), t)
  {
    hide PcTyped;
    var sem := s.sems[k];
    if sem.waiters != [] {
      assert sem.waiters[0] in sem.waiters;
      UnlockKeeps(SetSem(s, k, sem.(waiters := sem.waiters[1..])), sem.waiters[0], t);
    }
  }

  /** A thread that is not running does not move, and a thread that appears has not acquired. */
  lemma OthersStay(s: State, e: Event, t: Tid)
    requires Enabled(s, e) && !Next(s, e).panicked && t != s.current
    ensures Keeps(s, Next(s, e), t)
    ensures t in Next(s, e).threads && t !in s.threads ==>
              Next(s, e).threads[t].pc.User? && Next(s, e).threads[t].depth == map[]
  {
    hide WellTyped, Schedule, SemDown, SemUp, ThreadLock, Statement;
    match e
    case Timer => TimerKeeps(s, t);
    case DeviceUp(k) => UpKeeps(s, k, t);
    case Acquire(l) =>
    case Release(l) =>
    case Down(k) => DownKeeps(s, k, t);
    case Yield => YieldKeeps(s, t);
    case Park(status) => LockKeeps(s, status, Parked, t);
    case Wake(u) => UnlockKeeps(s, u, t);
    case Start(u, priority) =>
    case Continue => ContinueKeeps(s, t);
  }

  lemma TimerKeeps(s: State, t: Tid)
    requires WellTyped(s)
    ensures KeepsAll(s, TimerHandler(s), t)
  {
    var s1 := SetThread(s, s.current, Elapse(s.threads[s.current]));
    if s.threads[s.current].ticks == 0 {
      RecordTyped(s, s1);
      hide WellTyped, Schedule;
      ScheduleKeeps(s1, t);
    }
  }

  lemma YieldKeeps(s: State, t: Tid)
    requires WellTyped(s)
    ensures KeepsAll(s, ThreadYield(s), t)
  {
    var s1 := SetThread(s, s.current, s.threads[s.current].(status := Ready));
    RecordTyped(s, s1);
    hide Schedule;
    ScheduleKeeps(s1.(ready := s.ready + [s.current]), t);
  }

  lemma ContinueKeeps(s: State, t: Tid)
    requires WellTyped(s) && !s.threads[s.current].pc.User? && !RunStatement(s).panicked
    ensures RunStatement(s).threads.Keys == s.threads.Keys
    ensures t != s.current ==> Keeps(s, RunStatement(s), t)
  {
    hide Schedule, SemDown, SemUp, ThreadLock, Statement;
    match s.threads[s.current].pc
    case SemLoop(k) => DownKeeps(s, k, t);
    case InLock(at, l) =>
      if at.AcqDown? {
        DownKeeps(s, l, t);
      } else if at.RelUp? {
        UpKeeps(SetPc(s, User), l, t);
      }
    case Parked =>
    case IdleLoop => LockKeeps(s, Blocked, IdleHalt, t);
    case IdleHalt =>
  }

  /** Whether the current thread is inside a section of l after event e. */
  ghost predicate InsideAfter(s: State, e: Event, l: Sid)
    requires Enabled(s, e)
  {
    Enters(s, e, s.current, l) || (Inside(s, s.current, l) && !Leaves(s, e, s.current, l))
  }

  lemma SameSection(s: State, s': State, l: Sid)
    requires s.current in s.threads && Keeps(s, s', s.current)
    ensures Section(s'.threads[s.current], l) == Section(s.threads[s.current], l)
  {
  }

  /** Program points at which a thread is inside only by virtue of its depth. */
  lemma SectionByDepth(th: Thread, l: Sid)
    requires !th.pc.InLock? || th.pc.lock != l || th.pc.at.AcqNest? || th.pc.at.AcqDown? || th.pc.at.RelTest?
    ensures Section(th, l) == Nested(Depth(th, l))
  {
  }

  /** Events that leave the current thread's depth alone and its place outside the sections. */
  lemma OutsideFollows(s: State, s': State, e: Event, l: Sid)
    requires Enabled(s, e) && s.current in s'.threads && s'.threads[s.current].depth == s.threads[s.current].depth
    requires var pc := s.threads[s.current].pc;
             !e.Continue? || pc.Parked? || AtIdle(pc) || (pc.SemLoop? && s.sems[pc.sem].value == 0)
    requires !s.threads[s.current].pc.InLock?
    requires var pc := s'.threads[s.current].pc;
             !pc.InLock? || pc.at.AcqNest? || pc.at.AcqDown? || pc.at.RelTest?
    ensures Inside(s', s.current, l) <==> InsideAfter(s, e, l)
  {
    SectionByDepth(s.threads[s.current], l);
    SectionByDepth(s'.threads[s.current], l);
    assert Depth(s'.threads[s.current], l) == Depth(s.threads[s.current], l);
    hide Section, WellTyped;
  }

  lemma CurrentFollows(s: State, e: Event, l: Sid)
    requires Inv(s) && Enabled(s, e) && !Next(s, e).panicked
    ensures s.current in Next(s, e).threads
    ensures Inside(Next(s, e), s.current, l) <==> InsideAfter(s, e, l)
  {
    hide Inv, Next;
    if e.Continue? {
      ContinueFollows(s, l);
    } else if e.Timer? || e.DeviceUp? || e.Yield? || e.Wake? || e.Start? {
      CurrentKeeps(s, e);
      SameSection(s, Next(s, e), l);
    } else {
      CallFollows(s, e);
      OutsideFollows(s, Next(s, e), e, l);
    }
  }

  lemma CurrentKeeps(s: State, e: Event)
    requires Enabled(s, e) && !Next(s, e).panicked
    requires e.Timer? || e.DeviceUp? || e.Yield? || e.Wake? || e.Start?
    ensures Keeps(s, Next(s, e), s.current)
  {
    hide WellTyped, Schedule, SemUp, ThreadUnlock;
    match e
    case Timer => TimerKeeps(s, s.current);
    case DeviceUp(k) => UpKeeps(s, k, s.current);
    case Yield => YieldKeeps(s, s.current);
    case Wake(u) => UnlockKeeps(s, u, s.current);
    case Start(_, _) =>
  }

  lemma CallFollows(s: State, e: Event)
    requires Enabled(s, e) && !Next(s, e).panicked
    requires e.Acquire? || e.Release? || e.Down? || e.Park?
    ensures s.current in Next(s, e).threads
    ensures var th, th' := s.threads[s.current], Next(s, e).threads[s.current];
            && th'.depth == th.depth && !th.pc.InLock?
            && (!th'.pc.InLock? || th'.pc.at.AcqNest? || th'.pc.at.AcqDown? || th'.pc.at.RelTest?)
  {
    hide Schedule, SemDown;
    match e
    case Acquire(_) =>
    case Release(_) =>
    case Down(k) => DownKeeps(s, k, s.current);
    case Park(status) => LockKeeps(s, status, Parked, s.current);
  }

  lemma ContinueFollows(s: State, l: Sid)
    requires Inv(s) && Enabled(s, Continue) && !Next(s, Continue).panicked
    ensures s.current in Next(s, Continue).threads
    ensures Inside(Next(s, Continue), s.current, l) <==> InsideAfter(s, Continue, l)
  {
    CurrentFacts(s);
    hide Inv;
    var pc := s.threads[s.current].pc;
    if pc.InLock? {
      LockFollows(s, pc.at, pc.lock, l);
    } else if pc.SemLoop? && s.sems[pc.sem].value != 0 {
      GrabFollows(s, pc.sem, l);
    } else {
      AsideFollows(s);
      OutsideFollows(s, Next(s, Continue), Continue, l);
    }
  }

  /** A wakened thread finds the semaphore free. */
  lemma GrabFollows(s: State, k: Sid, l: Sid)
    requires Enabled(s, Continue) && !Next(s, Continue).panicked
    requires s.threads[s.current].pc == SemLoop(k) && s.sems[k].value != 0
    ensures s.current in Next(s, Continue).threads
    ensures Inside(Next(s, Continue), s.current, l) <==> InsideAfter(s, Continue, l)
  {
    DownKeeps(s, k, s.current);
    hide SemDown, WellTyped;
  }

  lemma AsideFollows(s: State)
    requires Enabled(s, Continue) && !Next(s, Continue).panicked
    requires var pc := s.threads[s.current].pc; !pc.InLock? && (pc.SemLoop? ==> s.sems[pc.sem].value == 0)
    ensures s.current in Next(s, Continue).threads
    ensures var th, th' := s.threads[s.current], Next(s, Continue).threads[s.current];
            th'.depth == th.depth && !th'.pc.InLock?
  {
    hide Schedule, SemDown, ThreadLock;
    match s.threads[s.current].pc
    case SemLoop(k) => DownKeeps(s, k, s.current);
    case Parked =>
    case IdleLoop => LockKeeps(s, Blocked, IdleHalt, s.current);
    case IdleHalt =>
  }

  lemma LockFollows(s: State, at: Point, k: Sid, l: Sid)
    requires Inv(s) && Enabled(s, Continue) && !Next(s, Continue).panicked
    requires s.threads[s.current].pc == InLock(at, k)
    ensures s.current in Next(s, Continue).threads
    ensures Inside(Next(s, Continue), s.current, l) <==> InsideAfter(s, Continue, l)
  {
    ThreadFacts(s, k);
    LockOf(s, k);
    hide Inv, SemDown, SemUp;
    if at.AcqDown? {
      DownFollows(s, k, l);
    } else if at.RelUp? {
      UpFollows(s, k, l);
    } else {
      StatementFollows(s, at, k, l);
    }
  }

  lemma DownFollows(s: State, k: Sid, l: Sid)
    requires Enabled(s, Continue) && !Next(s, Continue).panicked && s.threads[s.current].pc == InLock(AcqDown, k)
    ensures s.current in Next(s, Continue).threads
    ensures Inside(Next(s, Continue), s.current, l) <==> InsideAfter(s, Continue, l)
  {
    DownKeeps(s, k, s.current);
    hide SemDown, WellTyped, Statement;
  }

  lemma UpFollows(s: State, k: Sid, l: Sid)
    requires Enabled(s, Continue) && !Next(s, Continue).panicked && s.threads[s.current].pc == InLock(RelUp, k)
    requires ThreadOk(s, s.threads[s.current])
    ensures s.current in Next(s, Continue).threads
    ensures Inside(Next(s, Continue), s.current, l) <==> InsideAfter(s, Continue, l)
  {
    var s0 := SetPc(s, User);
    UpKeeps(s0, k, s.current);
    SameSection(s0, SemUp(s0, k), l);
    hide SemUp, WellTyped, Statement;
  }

  lemma StatementFollows(s: State, at: Point, k: Sid, l: Sid)
    requires Enabled(s, Continue) && !Next(s, Continue).panicked
    requires s.threads[s.current].pc == InLock(at, k) && !at.AcqDown? && !at.RelUp?
    requires k in s.locks && k in s.sems && LockOk(s, k) && DepthOk(s.threads[s.current])
    ensures s.current in Next(s, Continue).threads
    ensures Inside(Next(s, Continue), s.current, l) <==> InsideAfter(s, Continue, l)
  {
    LockFields(s, k);
    hide LockOk;
    TestPassed(s, at, k);
    StatementOk(at, k, s.current, s.threads[s.current], s.locks[k]);
    hide Section, DepthOk, WellTyped, Statement;
  }

  /** The assertion at the start of lock_release passes only for a thread inside the section. */
  lemma TestPassed(s: State, at: Point, k: Sid)
    requires k in s.locks && k in s.sems && s.current in s.threads
    requires Section(s.threads[s.current], k).None? ==> s.locks[k].holder != Some(s.current)
    requires s.threads[s.current].pc == InLock(at, k) && !at.AcqDown? && DepthOk(s.threads[s.current])
    requires !at.RelUp? && Statement(at, k, s.current, s.threads[s.current], s.locks[k]).Leaves?
    ensures Section(s.threads[s.current], k).Some?
  {
  }

  /** A thread enters from outside and leaves from inside. */
  lemma EntersFromOutside(s: State, e: Event, l: Sid)
    requires Inv(s) && Enabled(s, e)
    ensures Enters(s, e, s.current, l) ==> !Inside(s, s.current, l)
    ensures Leaves(s, e, s.current, l) ==> Inside(s, s.current, l)
  {
    hide Inv, WellTyped;
    CurrentFacts(s);
  }

  /** Entries counts 1 for a thread inside the section and 0 for any other. */
  lemma {:induction false} EntriesInside(states: seq<State>, events: seq<Event>, t: Tid, l: Sid, i: nat)
    requires IsRun(states, events) && i < |states| && !states[i].panicked
    ensures Entries(states, events, t, l, i) == if Inside(states[i], t, l) then 1 else 0
  {
    hide Inv, Initial, Inside, Enters, Leaves, Enabled, Next, WellTyped;
    if i == 0 {
      NobodyInside(states[0], t, l);
    } else {
      RunStep(states, events, i);
      EntriesInside(states, events, t, l, i - 1);
      RunInvariant(states, events, i - 1);
      EntriesStep(states[i - 1], events[i - 1], t, l);
    }
  }

  lemma NobodyInside(s: State, t: Tid, l: Sid)
    requires Initial(s)
    ensures !Inside(s, t, l)
  {
  }

  lemma EntriesStep(s: State, e: Event, t: Tid, l: Sid)
    requires Inv(s) && Enabled(s, e) && !Next(s, e).panicked
    ensures (if Inside(Next(s, e), t, l) then 1 else 0)
         == (if Inside(s, t, l) then 1 else 0) + (if Enters(s, e, t, l) then 1 else 0) - (if Leaves(s, e, t, l) then 1 else 0)
  {
    hide Inv, Next, Enabled;
    if t == s.current {
      hide Section;
      CurrentFacts(s);
      CurrentFollows(s, e, l);
      EntersFromOutside(s, e, l);
    } else {
      OthersStay(s, e, t);
    }
  }

  /** Mutual exclusion with re-entrancy.  At most one thread is between a completed sem_down and its
      sem_up on l; `value` is 0 exactly when there is one; `holder` is null or that thread, also in
      the gap before `holder` is written; and when the owner is in none of the calls on l, `holder`
      names it and holder_repeat_num is its nesting depth. */
  lemma MutualExclusion(states: seq<State>, events: seq<Event>, i: nat, l: Sid)
    requires IsRun(states, events) && i < |states| && !states[i].panicked && l in states[i].locks
    ensures l in states[i].sems
    ensures forall t: Tid, u: Tid ::
        Entries(states, events, t, l, i) > 0 && Entries(states, events, u, l, i) > 0 ==> t == u
    ensures states[i].sems[l].value == 0 <==> exists t: Tid :: Entries(states, events, t, l, i) > 0
    ensures states[i].locks[l].holder.Some? ==> Entries(states, events, states[i].locks[l].holder.value, l, i) == 1
    ensures forall t: Tid :: Entries(states, events, t, l, i) > 0 ==>
              && t in states[i].threads
              && var th := states[i].threads[t];
                 !(th.pc.InLock? && th.pc.lock == l) ==>
                   Depth(th, l) > 0 && states[i].locks[l] == Lock(Some(t), Depth(th, l))
  {
    hide IsRun, Section, Entries, LockAt;
    RunLength(states, events);
    var owner := OneOwner(states, events, i, l);
    OwnerFields(states[i], l, owner);
    match owner
    case None =>
      assert forall t: Tid :: Entries(states, events, t, l, i) == 0;
    case Some(o) =>
      assert Entries(states, events, o, l, i) > 0;
      forall t: Tid | Entries(states, events, t, l, i) > 0 ensures t == o {
        assert owner == Some(t);
      }
  }

  lemma OwnerFields(s: State, l: Sid, owner: Option<Tid>)
    requires l in s.locks && l in s.sems && LockAt(s, l, owner)
    ensures s.sems[l].value == (if owner.None? then 1 else 0)
    ensures s.locks[l].holder.Some? ==> owner.Some? && owner.value == s.locks[l].holder.value
    ensures owner.Some? ==>
              && owner.value in s.threads
              && var th := s.threads[owner.value];
                 !(th.pc.InLock? && th.pc.lock == l) ==> Depth(th, l) > 0 && s.locks[l] == Lock(Some(owner.value), Depth(th, l))
  {
  }

  lemma OneOwner(states: seq<State>, events: seq<Event>, i: nat, l: Sid) returns (owner: Option<Tid>)
    requires IsRun(states, events) && i < |states| && !states[i].panicked && l in states[i].locks
    ensures l in states[i].sems && LockAt(states[i], l, owner)
    ensures forall t: Tid :: Entries(states, events, t, l, i) == if owner == Some(t) then 1 else 0
  {
    hide IsRun, Inv, LockOk, LockAt, Inside, Entries;
    RunLength(states, events);
    RunInvariant(states, events, i);
    LockOf(states[i], l);
    assert exists o: Option<Tid> :: LockAt(states[i], l, o) by { LockWitness(states[i], l); }
    owner :| LockAt(states[i], l, owner);
    forall t: Tid ensures Entries(states, events, t, l, i) == if owner == Some(t) then 1 else 0 {
      EntriesInside(states, events, t, l, i);
      OwnerInside(states[i], l, owner, t);
    }
  }

  lemma LockWitness(s: State, l: Sid)
    requires l in s.locks && l in s.sems && LockOk(s, l)
    ensures exists owner: Option<Tid> :: LockAt(s, l, owner)
  {
  }

  lemma OwnerInside(s: State, l: Sid, owner: Option<Tid>, t: Tid)
    requires l in s.locks && l in s.sems && LockAt(s, l, owner)
    ensures Inside(s, t, l) <==> owner == Some(t)
  {
  }
}
