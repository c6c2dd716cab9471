/** How long a READY thread can wait, in timer interrupts. */
module BoundedWaiting {
  import opened ThreadSteps
  import opened ThreadInvariant
  import opened ThreadPreservation
  import opened ThreadRuns

  /** The slices of the threads ahead of t in q, one extra interrupt each for the switch. */
  ghost function Ahead(s: State, q: seq<Tid>, t: Tid): nat
    requires t in q && forall u <- q :: u in s.threads
  {
    if q[0] == t then 0 else s.threads[q[0]].ticks + 1 + Ahead(s, q[1..], t)
  }

  /** The number of timer interrupts until t runs, if nobody is unlocked meanwhile and nobody gives
      up the processor early. */
  ghost function Rank(s: State, t: Tid): nat
    requires WellTyped(s) && (t == s.current || t in s.ready)
  {
    if t == s.current then 0 else s.threads[s.current].ticks + 1 + Ahead(s, s.ready, t)
  }

  /** Event e calls thread_unlock. */
  predicate Unlocks(s: State, e: Event)
    requires Enabled(s, e)
  {
    match e
    case Wake(_) => true
    case DeviceUp(k) => s.sems[k].waiters != []
    case Continue =>
      var pc := s.threads[s.current].pc;
      pc.InLock? && pc.at.RelUp? && pc.lock in s.sems && s.sems[pc.lock].waiters != []
    case _ => false
  }

  lemma {:induction false} AheadSame(s: State, s': State, q: seq<Tid>, t: Tid)
    requires t in q && forall u <- q :: u in s.threads && u in s'.threads
    requires forall u <- q :: s'.threads[u].ticks == s.threads[u].ticks
    ensures Ahead(s', q, t) == Ahead(s, q, t)
  {
    if q[0] != t {
      AheadSame(s, s', q[1..], t);
    }
  }

  lemma {:induction false} AheadAppend(s: State, q: seq<Tid>, x: Tid, t: Tid)
    requires t in q && x in s.threads && forall u <- q :: u in s.threads
    ensures Ahead(s, q + [x], t) == Ahead(s, q, t)
  {
    if q[0] != t {
      assert (q + [x])[1..] == q[1..] + [x];
      AheadAppend(s, q[1..], x, t);
    }
  }

  /** s' is s after the current thread left the processor: at the end of its slice it went to the
      back of the queue, otherwise it is not in the queue any more. */
  ghost predicate Switches(s: State, s': State) {
    && s.ready != []
    && s.current !in s.ready
    && s'.current == s.ready[0]
    && (s'.ready == s.ready[1..] || (s.current in s'.threads && s'.ready == s.ready[1..] + [s.current]))
    && (forall u <- s.ready :: u in s.threads && u in s'.threads && s'.threads[u].ticks == s.threads[u].ticks)
  }

  lemma RankAfterSwitch(s: State, s': State, t: Tid)
    requires WellTyped(s) && WellTyped(s') && t in s.ready && t != s.current && Switches(s, s') && NoDuplicates(s.ready)
    ensures t == s'.current || t in s'.ready
    ensures Rank(s', t) + s.threads[s.current].ticks + 1 == Rank(s, t)
  {
    hide PcTyped;
    var q := s.ready[1..];
    if t != s.ready[0] {
      assert t in q;
      if s'.ready == q + [s.current] {
        AheadAppend(s', q, s.current, t);
      }
      AheadSame(s, s', q, t);
    }
  }

  /** s' is s with the current thread in place, the queue possibly longer, and no slice used. */
  ghost predicate Stays(s: State, s': State) {
    && s'.current == s.current
    && (s'.ready == s.ready || (|s'.ready| == |s.ready| + 1 && s'.ready[..|s.ready|] == s.ready))
    && (forall u <- s.ready :: u in s.threads && u in s'.threads && s'.threads[u].ticks == s.threads[u].ticks)
  }

  lemma RankAfterStay(s: State, s': State, t: Tid)
    requires WellTyped(s) && WellTyped(s') && t in s.ready && t != s.current && Stays(s, s')
    ensures t in s'.ready
    ensures Rank(s', t) + s.threads[s.current].ticks == Rank(s, t) + s'.threads[s'.current].ticks
  {
    hide PcTyped;
    if s'.ready != s.ready {
      assert s'.ready == s.ready + [s'.ready[|s.ready|]];
      AheadAppend(s', s.ready, s'.ready[|s.ready|], t);
    }
    AheadSame(s, s', s.ready, t);
  }

  /** With a thread ready, schedule switches to the head of the queue; s1 is the state in which it is
      called, s the state before the event. */
  lemma ScheduleSwitches(s: State, s1: State)
    requires WellTyped(s1) && !s1.panicked && s.ready != [] && s.current !in s.ready
    requires s1.current == s.current
    requires s1.ready == s.ready || (s1.ready == s.ready + [s.current] && !s1.threads[s1.current].status.Running?)
    requires forall u <- s.ready :: u in s.threads && s1.threads[u].ticks == s.threads[u].ticks
    ensures Switches(s, Schedule(s1))
  {
    hide PcTyped;
    assert s.ready[0] in s.ready;
    assert forall u :: u in s.ready[1..] ==> u in s.ready;
  }

  lemma LockSwitches(s: State, s1: State, status: Status, pc: Pc)
    requires WellTyped(s1) && PcTyped(s1, pc) && !s1.panicked && Wakeable(status)
    requires s.ready != [] && s.current !in s.ready && s1.current == s.current && s1.ready == s.ready
    requires forall u <- s.ready :: u in s.threads && s1.threads[u].ticks == s.threads[u].ticks
    ensures Switches(s, ThreadLock(s1, status, pc))
  {
    var s2 := SetThread(s1, s1.current, s1.threads[s1.current].(status := status, pc := pc));
    RecordTyped(s1, s2);
    hide Schedule, WellTyped, PcTyped;
    ScheduleSwitches(s, s2);
  }

  /** A switch before the end of the slice, or no switch and no slice used. */
  ghost predicate Quiet(s: State, s': State) {
    Switches(s, s') || (Stays(s, s') && s.current in s.threads && s.current in s'.threads &&
                        s'.threads[s.current].ticks == s.threads[s.current].ticks)
  }

  /** What the bound needs of the queue: nobody RUNNING is on it. */
  predicate Waits(s: State, t: Tid)
    requires WellTyped(s)
  {
    t in s.ready && s.current !in s.ready && NoDuplicates(s.ready)
  }

  lemma ReadyWaits(s: State, t: Tid)
    requires Inv(s) && t in s.ready
    ensures Waits(s, t) && t != s.current
  {
  }

  lemma DownQuiet(s: State, k: Sid, t: Tid)
    requires WellTyped(s) && Waits(s, t) && !s.panicked && k in s.sems && !SemDown(s, k).panicked
    ensures Quiet(s, SemDown(s, k))
  {
    hide ThreadLock;
    if s.sems[k].value == 0 {
      var s1 := SetSem(s, k, s.sems[k].(waiters := s.sems[k].waiters + [s.current]));
      assert WellTyped(s1);
      hide WellTyped;
      LockSwitches(s, s1, Blocked, SemLoop(k));
    }
  }

  lemma ContinueQuiet(s: State, t: Tid)
    requires Enabled(s, Continue) && Waits(s, t) && !Next(s, Continue).panicked && !Unlocks(s, Continue)
    ensures Quiet(s, Next(s, Continue))
  {
    hide Schedule, SemDown, ThreadLock, Switches;
    match s.threads[s.current].pc
    case SemLoop(k) => DownQuiet(s, k, t);
    case InLock(at, l) =>
      if at.AcqDown? {
        DownQuiet(s, l, t);
      } else if at.RelUp? {
        hide PcTyped;
      } else {
        StatementTicks(at, l, s.current, s.threads[s.current], s.locks[l]);
        hide Statement, PcTyped;
      }
    case Parked => hide PcTyped;
    case IdleLoop => LockSwitches(s, s, Blocked, IdleHalt);
    case IdleHalt => hide PcTyped;
  }

  lemma StatementTicks(at: Point, l: Sid, me: Tid, th: Thread, lock: Lock)
    requires !at.AcqDown? && !at.RelUp? && Statement(at, l, me, th, lock).Leaves?
    ensures Statement(at, l, me, th, lock).thread.ticks == th.ticks
  {
  }

  /** Without thread_unlock, only the timer uses up slices. */
  lemma EventQuiet(s: State, e: Event, t: Tid)
    requires Enabled(s, e) && Waits(s, t) && !Next(s, e).panicked && !Unlocks(s, e) && !e.Timer?
    ensures Quiet(s, Next(s, e))
  {
    hide Switches, Schedule, SemDown;
    match e
    case DeviceUp(k) => hide PcTyped;
    case Acquire(l) => hide PcTyped;
    case Release(l) => hide PcTyped;
    case Down(k) => DownQuiet(s, k, t);
    case Yield => YieldSwitches(s, t);
    case Park(status) => assert Wakeable(status); hide ThreadLock; LockSwitches(s, s, status, Parked);
    case Start(u, priority) => hide PcTyped;
    case Continue => ContinueQuiet(s, t);
  }

  lemma YieldSwitches(s: State, t: Tid)
    requires WellTyped(s) && Waits(s, t) && !s.panicked
    ensures Switches(s, ThreadYield(s))
  {
    var s1 := SetThread(s, s.current, s.threads[s.current].(status := Ready));
    RecordTyped(s, s1);
    hide Schedule, PcTyped;
    ScheduleSwitches(s, s1.(ready := s.ready + [s.current]));
  }

  lemma TimerEffect(s: State, t: Tid)
    requires WellTyped(s) && Waits(s, t) && !s.panicked
    ensures if s.threads[s.current].ticks == 0 then Switches(s, TimerHandler(s))
            else Stays(s, TimerHandler(s)) &&
                 TimerHandler(s).threads[s.current].ticks == s.threads[s.current].ticks - 1
  {
    if s.threads[s.current].ticks == 0 {
      var s1 := SetThread(s, s.current, Elapse(s.threads[s.current]));
      RecordTyped(s, s1);
      hide Schedule, PcTyped;
      ScheduleSwitches(s, s1);
    } else {
      hide PcTyped, Schedule;
    }
  }

  /** The rank of a waiting thread falls by exactly one at every timer interrupt and rises at no
      other event that is not a thread_unlock; the thread runs when the rank reaches zero. */
  lemma RankStep(s: State, e: Event, t: Tid)
    requires Inv(s) && Enabled(s, e) && !Next(s, e).panicked && !Unlocks(s, e) && t in s.ready
    ensures WellTyped(Next(s, e)) && (t == Next(s, e).current || t in Next(s, e).ready)
    ensures e.Timer? ==> Rank(Next(s, e), t) == Rank(s, t) - 1
    ensures Rank(Next(s, e), t) <= Rank(s, t)
    ensures Rank(Next(s, e), t) == 0 <==> t == Next(s, e).current
  {
    EventOk(s, e);
    var s' := Next(s, e);
    ReadyWaits(s, t);
    CurrentFacts(s);
    CurrentFacts(s');
    if e.Timer? {
      TimerEffect(s, t);
    } else {
      EventQuiet(s, e, t);
    }
    hide Inv, Enabled, Next, Unlocks, WellTyped, Ahead;
    if Switches(s, s') {
      RankAfterSwitch(s, s', t);
    } else {
      RankAfterStay(s, s', t);
    }
  }

  ghost function Timers(events: seq<Event>): nat {
    if events == [] then 0 else (if events[0].Timer? then 1 else 0) + Timers(events[1..])
  }

  /** Bounded waiting.  If t stays ready from state a to state b of a run and no thread_unlock happens
      in between, fewer timer interrupts than its rank in state a have passed. */
  lemma {:induction false} BoundedWait(states: seq<State>, events: seq<Event>, a: nat, b: nat, t: Tid)
    requires IsRun(states, events) && a <= b < |states| && !states[b].panicked
    requires forall i :: a <= i <= b ==> t in states[i].ready
    requires forall i :: a <= i < b ==> Enabled(states[i], events[i]) && !Unlocks(states[i], events[i])
    ensures WellTyped(states[a]) && WellTyped(states[b])
    ensures Timers(events[a..b]) + Rank(states[b], t) <= Rank(states[a], t)
    ensures Timers(events[a..b]) < Rank(states[a], t)
    decreases b - a
  {
    RunInvariant(states, events, b);
    ReadyWaits(states[b], t);
    CurrentFacts(states[b]);
    if a < b {
      RunStep(states, events, a + 1);
      RunInvariant(states, events, a);
      BoundedWait(states, events, a + 1, b, t);
      hide IsRun, Inv, Rank, Enabled, Next, WellTyped;
      RankStep(states[a], events[a], t);
      assert events[a..b][1..] == events[a + 1..b];
    }
  }
}
