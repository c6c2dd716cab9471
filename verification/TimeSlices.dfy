/** What a thread's clocks show: its time slice, and the ticks it has used. */
module TimeSlices {
  import opened ThreadSteps
  import opened ThreadInvariant
  import opened ThreadPreservation
  import opened ThreadRuns
  import opened BoundedWaiting

  /** The three clocks of a pcb. */
  datatype Clock = Clock(priority: Byte, ticks: Byte, elapsed: nat)

  function ClockOf(th: Thread): Clock {
    Clock(th.priority, th.ticks, th.elapsed)
  }

  /** No thread goes, and no clock moves. */
  ghost predicate SameClocks(s: State, s': State) {
    forall t :: t in s.threads ==> t in s'.threads && ClockOf(s'.threads[t]) == ClockOf(s.threads[t])
  }

  /** No clock but that of the current thread moves. */
  ghost predicate OthersClocks(s: State, s': State) {
    forall t :: t in s.threads && t != s.current ==> t in s'.threads && ClockOf(s'.threads[t]) == ClockOf(s.threads[t])
  }

  // ----- one event -----

  lemma RequeueClocks(s: State)
    requires s.current in s.threads && !Requeue(s).panicked
    ensures var s', c := Requeue(s), s.threads[s.current];
            && s'.threads.Keys == s.threads.Keys && OthersClocks(s, s') && s.current in s'.threads
            && ClockOf(s'.threads[s.current]) ==
               (if c.status.Running? then Clock(c.priority, c.priority, c.elapsed) else ClockOf(c))
            && s'.ready == if c.status.Running? then s.ready + [s.current] else s.ready
  {
  }

  lemma UnlockClocks(s: State, t: Tid)
    requires t in s.threads
    ensures SameClocks(s, ThreadUnlock(s, t))
  {
  }

  lemma DispatchClocks(s: State)
    requires (forall t <- s.ready :: t in s.threads) && s.ready != []
    ensures SameClocks(s, Dispatch(s)) && Dispatch(s).current == s.ready[0] && Dispatch(s).ready == s.ready[1..]
  {
    assert s.ready[0] in s.ready;
  }

  /** The state that schedule dispatches from. */
  lemma ScheduleParts(s: State) returns (s1: State, s2: State)
    requires WellTyped(s) && !Schedule(s).panicked
    ensures s1 == Requeue(s) && !s1.panicked && s1.current == s.current && s.idle in s1.threads && s1.idle == s.idle
    ensures s2 == if s1.ready == [] then ThreadUnlock(s1, s.idle) else s1
    ensures (forall t <- s2.ready :: t in s2.threads) && s2.ready != [] && Schedule(s) == Dispatch(s2)
  {
    hide PcTyped;
    s1 := Requeue(s);
    s2 := if s1.ready == [] then ThreadUnlock(s1, s.idle) else s1;
  }

  /** schedule gives the current thread a new slice if it is still RUNNING, and moves no other clock; a
      RUNNING thread goes behind those that are ready, the first of which runs. */
  lemma ScheduleClocks(s: State)
    requires WellTyped(s) && !Schedule(s).panicked
    ensures var s' := Schedule(s);
            var c := s.threads[s.current];
            && OthersClocks(s, s') && s.current in s'.threads
            && ClockOf(s'.threads[s.current]) ==
               (if c.status.Running? then Clock(c.priority, c.priority, c.elapsed) else ClockOf(c))
            && (c.status.Running? ==> s'.current == (s.ready + [s.current])[0] && s'.ready == (s.ready + [s.current])[1..])
  {
    hide PcTyped, Requeue, ThreadUnlock, Dispatch, Schedule, ClockOf;
    var s1, s2 := ScheduleParts(s);
    RequeueClocks(s);
    UnlockClocks(s1, s.idle);
    DispatchClocks(s2);
  }

  lemma LockClocks(s: State, s1: State, status: Status, pc: Pc)
    requires WellTyped(s1) && PcTyped(s1, pc) && !ThreadLock(s1, status, pc).panicked
    requires s1.current == s.current && SameClocks(s, s1)
    ensures SameClocks(s, ThreadLock(s1, status, pc))
  {
    var s2 := SetThread(s1, s1.current, s1.threads[s1.current].(status := status, pc := pc));
    RecordTyped(s1, s2);
    hide Schedule, WellTyped, PcTyped;
    ScheduleClocks(s2);
  }

  lemma DownClocks(s: State, k: Sid)
    requires WellTyped(s) && k in s.sems && !SemDown(s, k).panicked
    ensures SameClocks(s, SemDown(s, k))
  {
    hide ThreadLock, PcTyped;
    if s.sems[k].value == 0 {
      var s1 := SetSem(s, k, s.sems[k].(waiters := s.sems[k].waiters + [s.current]));
      TypedWith(s, s1);
      assert s1.current == s.current && SameClocks(s, s1);
      hide WellTyped;
      LockClocks(s, s1, Blocked, SemLoop(k));
    }
  }

  lemma TypedWith(s: State, s1: State)
    requires s.sems.Keys <= s1.sems.Keys && s.locks == s1.locks && WellTyped(s)
    requires s1 == s.(sems := s1.sems)
    requires forall k <- s1.sems, t <- s1.sems[k].waiters :: t in s.threads
    ensures WellTyped(s1) && forall j :: j in s1.sems ==> PcTyped(s1, SemLoop(j))
  {
  }

  lemma UpClocks(s: State, k: Sid)
    requires WellTyped(s) && k in s.sems && !SemUp(s, k).panicked
    ensures SameClocks(s, SemUp(s, k))
  {
    hide PcTyped;
  }

  lemma StatementClock(at: Point, l: Sid, me: Tid, th: Thread, lock: Lock)
    requires !at.AcqDown? && !at.RelUp? && Statement(at, l, me, th, lock).Leaves?
    ensures ClockOf(Statement(at, l, me, th, lock).thread) == ClockOf(th)
  {
  }

  lemma ContinueClocks(s: State)
    requires Enabled(s, Continue) && !Next(s, Continue).panicked
    ensures SameClocks(s, Next(s, Continue))
  {
    hide Schedule, SemDown, SemUp, ThreadLock;
    match s.threads[s.current].pc
    case SemLoop(k) => DownClocks(s, k);
    case InLock(at, l) =>
      if at.AcqDown? {
        DownClocks(s, l);
      } else if at.RelUp? {
        var s1 := SetPc(s, User);
        assert WellTyped(s1);
        hide WellTyped;
        UpClocks(s1, l);
      } else {
        StatementClock(at, l, s.current, s.threads[s.current], s.locks[l]);
        hide Statement, PcTyped;
      }
    case Parked => hide PcTyped;
    case IdleLoop => LockClocks(s, s, Blocked, IdleHalt);
    case IdleHalt => hide PcTyped;
  }

  /** Only the timer moves clocks. */
  lemma EventClocks(s: State, e: Event)
    requires Enabled(s, e) && !e.Timer? && !Next(s, e).panicked
    ensures SameClocks(s, Next(s, e))
  {
    hide Schedule, SemDown, SemUp, ThreadUnlock, RunStatement;
    match e
    case DeviceUp(k) => UpClocks(s, k);
    case Acquire(l) => hide PcTyped;
    case Release(l) => hide PcTyped;
    case Down(k) => DownClocks(s, k);
    case Yield =>
      YieldClocks(s);
    case Park(status) => hide ThreadLock; LockClocks(s, s, status, Parked);
    case Wake(t) => UnlockClocks(s, t);
    case Start(u, priority) => hide PcTyped;
    case Continue => ContinueClocks(s);
  }

  lemma YieldClocks(s: State)
    requires WellTyped(s) && !ThreadYield(s).panicked
    ensures SameClocks(s, ThreadYield(s))
  {
    hide Schedule;
    var s1 := SetThread(s, s.current, s.threads[s.current].(status := Ready));
    RecordTyped(s, s1);
    ScheduleClocks(s1.(ready := s.ready + [s.current]));
  }

  /** A new thread is ready, behind all others, with a whole slice and no tick used. */
  lemma StartClock(s: State, t: Tid, priority: Byte)
    requires Enabled(s, Start(t, priority))
    ensures var s' := Next(s, Start(t, priority));
            && t in s'.threads && ClockOf(s'.threads[t]) == Clock(priority, priority, 0)
            && s'.threads[t].status.Ready? && s'.ready == s.ready + [t]
  {
  }

  /** The slice of the current thread is over when the timer interrupts it with no ticks left. */
  predicate SliceEnds(s: State, e: Event) {
    e.Timer? && s.current in s.threads && s.threads[s.current].ticks == 0
  }

  /** A timer interrupt counts a tick for the current thread, modulo 2^32.  With ticks left it takes one and the
      thread runs on; without, the thread gets its priority as ticks and goes behind all that are ready. */
  lemma TimerClocks(s: State)
    requires Inv(s) && Enabled(s, Timer)
    ensures var s', c := Next(s, Timer), s.threads[s.current];
            && OthersClocks(s, s') && s.current in s'.threads
            && ClockOf(s'.threads[s.current]) ==
               Clock(c.priority, if c.ticks == 0 then c.priority else c.ticks - 1, (c.elapsed + 1) % 0x1_0000_0000)
            && (if c.ticks == 0 then s'.current == (s.ready + [s.current])[0] && s'.ready == (s.ready + [s.current])[1..]
                else s'.current == s.current && s'.ready == s.ready)
  {
    hide Inv, WellTyped, TimerHandler, ThreadOk;
    CurrentFacts(s);
    TimerOk(s);
    if s.threads[s.current].ticks == 0 { SliceOver(s); } else { SliceGoesOn(s); }
  }

  lemma SliceOver(s: State)
    requires WellTyped(s) && s.threads[s.current].status.Running? && s.threads[s.current].ticks == 0
    requires !TimerHandler(s).panicked
    ensures var s', c := TimerHandler(s), s.threads[s.current];
            && OthersClocks(s, s') && s.current in s'.threads
            && ClockOf(s'.threads[s.current]) == Clock(c.priority, c.priority, (c.elapsed + 1) % 0x1_0000_0000)
            && s'.current == (s.ready + [s.current])[0] && s'.ready == (s.ready + [s.current])[1..]
  {
    hide Schedule, PcTyped;
    var s1 := SetThread(s, s.current, Elapse(s.threads[s.current]));
    RecordTyped(s, s1);
    ScheduleClocks(s1);
  }

  lemma SliceGoesOn(s: State)
    requires WellTyped(s) && s.threads[s.current].ticks > 0
    ensures var s', c := TimerHandler(s), s.threads[s.current];
            && OthersClocks(s, s') && s.current in s'.threads
            && ClockOf(s'.threads[s.current]) == Clock(c.priority, c.ticks - 1, (c.elapsed + 1) % 0x1_0000_0000)
            && s'.current == s.current && s'.ready == s.ready
  {
    hide Schedule, PcTyped;
  }

  /** The current thread gives up the processor by itself. */
  predicate GivesUp(s: State, e: Event)
    requires Enabled(s, e)
  {
    match e
    case Yield => true
    case Park(_) => true
    case Down(k) => s.sems[k].value == 0
    case Continue =>
      (match s.threads[s.current].pc
       case SemLoop(k) => k in s.sems && s.sems[k].value == 0
       case InLock(at, l) => at.AcqDown? && l in s.sems && s.sems[l].value == 0
       case IdleLoop => true
       case _ => false)
    case _ => false
  }

  /** Otherwise it loses it only when its slice is over. */
  lemma RunsOn(s: State, e: Event)
    requires Inv(s) && Enabled(s, e) && !Next(s, e).panicked && !GivesUp(s, e) && !SliceEnds(s, e)
    ensures Next(s, e).current == s.current
  {
    if e.Timer? {
      TimerClocks(s);
    } else {
      StaysCurrent(s, e);
    }
  }

  lemma StaysCurrent(s: State, e: Event)
    requires Enabled(s, e) && !e.Timer? && !Next(s, e).panicked && !GivesUp(s, e)
    ensures Next(s, e).current == s.current
  {
    hide Schedule, Statement;
  }

  // ----- runs -----

  /** How many timer interrupts met thread t from state a to state b. */
  ghost function Hits(states: seq<State>, events: seq<Event>, t: Tid, a: nat, b: nat): nat
    requires a <= b <= |events| <= |states|
    decreases b
  {
    if a == b then 0
    else Hits(states, events, t, a, b - 1) + if events[b - 1].Timer? && states[b - 1].current == t then 1 else 0
  }

  lemma StepClock(states: seq<State>, events: seq<Event>, i: nat, t: Tid)
    requires IsRun(states, events) && i < |events| && !states[i + 1].panicked && t in states[i].threads
    ensures Enabled(states[i], events[i]) && Inv(states[i]) && states[i].current in states[i].threads
    ensures t in states[i + 1].threads
    ensures var th, th' := states[i].threads[t], states[i + 1].threads[t];
            ClockOf(th') == if !(events[i].Timer? && states[i].current == t) then ClockOf(th)
                            else Clock(th.priority, if th.ticks == 0 then th.priority else th.ticks - 1,
                                       (th.elapsed + 1) % 0x1_0000_0000)
  {
    hide IsRun, Inv, Enabled, Next, WellTyped, ThreadOk;
    RunLength(states, events);
    RunStep(states, events, i + 1);
    RunInvariant(states, events, i);
    CurrentFacts(states[i]);
    if events[i].Timer? { TimerClocks(states[i]); } else { EventClocks(states[i], events[i]); }
  }

  /** A state before one that has not stopped has not stopped either. */
  lemma {:induction false} NotStopped(states: seq<State>, events: seq<Event>, a: nat, b: nat)
    requires IsRun(states, events) && a <= b < |states| && !states[b].panicked
    ensures !states[a].panicked
    decreases b
  {
    if a < b {
      RunStep(states, events, b);
      hide IsRun, Enabled, Next;
      NotStopped(states, events, a, b - 1);
    }
  }

  /** elapsed_ticks counts the timer interrupts that met the thread. */
  lemma {:induction false} ElapsedCounts(states: seq<State>, events: seq<Event>, t: Tid, a: nat, b: nat)
    requires IsRun(states, events) && a <= b < |states| && !states[b].panicked && t in states[a].threads
    ensures |states| == |events| + 1 && t in states[b].threads
    ensures states[b].threads[t].priority == states[a].threads[t].priority
    ensures states[b].threads[t].elapsed % 0x1_0000_0000 ==
            (states[a].threads[t].elapsed + Hits(states, events, t, a, b)) % 0x1_0000_0000
    decreases b
  {
    hide IsRun, Inv, Enabled;
    RunLength(states, events);
    if a < b {
      NotStopped(states, events, b - 1, b);
      ElapsedCounts(states, events, t, a, b - 1);
      StepClock(states, events, b - 1, t);
      OneMore(states[b - 1].threads[t].elapsed, states[a].threads[t].elapsed + Hits(states, events, t, a, b - 1));
    }
  }

  lemma OneMore(x: nat, y: nat)
    requires x % 0x1_0000_0000 == y % 0x1_0000_0000
    ensures (x + 1) % 0x1_0000_0000 % 0x1_0000_0000 == (y + 1) % 0x1_0000_0000
  {
  }

  /** While no slice of t ends, each timer interrupt that meets it takes one of its ticks. */
  lemma {:induction false} TicksUsed(states: seq<State>, events: seq<Event>, t: Tid, a: nat, b: nat)
    requires IsRun(states, events) && a <= b < |states| && !states[b].panicked && t in states[a].threads
    requires |states| == |events| + 1
    requires forall i {:trigger events[i]} :: a <= i < b && states[i].current == t ==> !SliceEnds(states[i], events[i])
    ensures t in states[b].threads
    ensures states[b].threads[t].priority == states[a].threads[t].priority
    ensures states[a].threads[t].ticks == states[b].threads[t].ticks + Hits(states, events, t, a, b)
    decreases b
  {
    hide IsRun, Inv, Enabled;
    if a < b {
      NotStopped(states, events, b - 1, b);
      TicksUsed(states, events, t, a, b - 1);
      StepClock(states, events, b - 1, t);
      assert states[b - 1].current == t ==> !SliceEnds(states[b - 1], events[b - 1]);
    }
  }

  /** From the end of one slice of a thread to the end of its next, however often it gives up the processor in
      between, exactly priority + 1 timer interrupts meet it. */
  lemma SliceLength(states: seq<State>, events: seq<Event>, t: Tid, c: nat, b: nat)
    requires IsRun(states, events) && c < b < |events| && !states[b].panicked
    requires states[c].current == t && SliceEnds(states[c], events[c])
    requires states[b].current == t && SliceEnds(states[b], events[b])
    requires forall i {:trigger events[i]} :: c < i < b && states[i].current == t ==> !SliceEnds(states[i], events[i])
    ensures |states| == |events| + 1
    ensures Hits(states, events, t, c + 1, b + 1) == states[c].threads[t].priority + 1
  {
    hide IsRun, Inv, Enabled;
    RunLength(states, events);
    NotStopped(states, events, c + 1, b);
    StepClock(states, events, c, t);
    TicksUsed(states, events, t, c + 1, b);
  }

  /** While only t runs, every timer interrupt meets it. */
  lemma {:induction false} AllHit(states: seq<State>, events: seq<Event>, t: Tid, a: nat, b: nat)
    requires a <= b <= |events| <= |states| && forall i :: a <= i < b ==> states[i].current == t
    ensures Hits(states, events, t, a, b) == Timers(events[a..b])
    decreases b
  {
    if a < b {
      AllHit(states, events, t, a, b - 1);
      assert events[a..b] == events[a..b - 1] + [events[b - 1]];
      TimersMore(events[a..b - 1], events[b - 1]);
    }
  }

  lemma {:induction false} TimersMore(events: seq<Event>, e: Event)
    ensures Timers(events + [e]) == Timers(events) + if e.Timer? then 1 else 0
  {
    if events == [] {
      assert events + [e] == [e];
    } else {
      assert (events + [e])[1..] == events[1..] + [e];
      TimersMore(events[1..], e);
    }
  }

  /** While t is away, no timer interrupt meets it. */
  lemma {:induction false} NoneHit(states: seq<State>, events: seq<Event>, t: Tid, a: nat, b: nat)
    requires a <= b <= |events| <= |states| && forall i :: a <= i < b ==> states[i].current != t
    ensures Hits(states, events, t, a, b) == 0
    decreases b
  {
    if a < b { NoneHit(states, events, t, a, b - 1); }
  }

  lemma {:induction false} HitsSplit(states: seq<State>, events: seq<Event>, t: Tid, a: nat, m: nat, b: nat)
    requires a <= m <= b <= |events| <= |states|
    ensures Hits(states, events, t, a, b) == Hits(states, events, t, a, m) + Hits(states, events, t, m, b)
    decreases b
  {
    if m < b { HitsSplit(states, events, t, a, m, b - 1); }
  }

  /** A thread whose slice ended in state c, and which has the processor again from state a to state b, loses it in
      the next step.  If it did not give it up, this is after exactly priority + 1 timer interrupts; others
      were ready all the time. */
  lemma RunsItsSlice(states: seq<State>, events: seq<Event>, t: Tid, c: nat, a: nat, b: nat)
    requires IsRun(states, events) && c < a <= b < |events| && !states[b + 1].panicked
    requires states[c].current == t && SliceEnds(states[c], events[c])
    requires forall i :: c < i < a ==> states[i].current != t
    requires forall i :: a <= i <= b ==> states[i].current == t && states[i].ready != []
    requires states[b + 1].current != t
    requires Enabled(states[b], events[b]) && !GivesUp(states[b], events[b])
    ensures Timers(events[a..b + 1]) == states[c].threads[t].priority + 1
  {
    hide IsRun, Inv, Enabled, Next, GivesUp, Hits, Timers, WellTyped;
    RunLength(states, events);
    NotStopped(states, events, b, b + 1);
    RunStep(states, events, b + 1);
    RunInvariant(states, events, b);
    if !SliceEnds(states[b], events[b]) { RunsOn(states[b], events[b]); }
    forall i | c < i < b && states[i].current == t ensures !SliceEnds(states[i], events[i]) {
      EndsSwitch(states, events, i, b);
    }
    SliceLength(states, events, t, c, b);
    NoneHit(states, events, t, c + 1, a);
    AllHit(states, events, t, a, b + 1);
    HitsSplit(states, events, t, c + 1, a, b + 1);
  }

  /** With another thread ready the end of a slice takes the processor away. */
  lemma EndsSwitch(states: seq<State>, events: seq<Event>, i: nat, b: nat)
    requires IsRun(states, events) && i < b < |events| && !states[b].panicked
    requires states[i].ready != [] && states[i + 1].current == states[i].current
    ensures !SliceEnds(states[i], events[i])
  {
    hide IsRun, Inv, Enabled, Next, WellTyped;
    RunLength(states, events);
    NotStopped(states, events, i, b);
    RunStep(states, events, i + 1);
    RunInvariant(states, events, i);
    ReadyOthers(states[i]);
    if SliceEnds(states[i], events[i]) { TimerClocks(states[i]); }
  }

  lemma ReadyOthers(s: State)
    requires Inv(s) && s.ready != []
    ensures s.ready[0] != s.current
  {
    CurrentFacts(s);
  }
}
