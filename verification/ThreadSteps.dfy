/** The thread, semaphore and lock code as a step system.

    A region that runs with interrupts disabled is one step.  Everything else can be
    interrupted, so each thread carries a program counter that names the next statement of the
    call it is in; `lock_acquire` and `lock_release` get one program point per statement.
    `switch_to` is "the current thread changes".

    A failing `ASSERT` stops the machine with interrupts off: it becomes `panicked`, and no
    event is enabled in a panicked state. */
module ThreadSteps {

  type Tid = nat    // a thread: the address of its pcb
  type Sid = nat    // a semaphore; a lock is named by the semaphore inside it
  type Byte = x: int | 0 <= x < 256

  datatype Option<+T> = None | Some(value: T)

  datatype Status = Running | Ready | Blocked | Waiting | Hanging | Died

  /** The statements of lock_acquire (Acq) and lock_release (Rel); the comment gives the one that
      runs next. */
  datatype Point =
    | AcqNest     // ++holder_repeat_num
    | AcqDown     // sem_down
    | AcqGot      // holder = running_thread()
    | AcqCheck    // ASSERT(holder_repeat_num == 0)
    | AcqCount    // holder_repeat_num = 1
    | RelTest     // ASSERT(holder == running_thread())
    | RelBranch   // if (holder_repeat_num > 1)
    | RelDec      // --holder_repeat_num, return
    | RelLast     // --holder_repeat_num, fall through
    | RelHolder   // holder = 0
    | RelZero     // holder_repeat_num = 0
    | RelUp       // sem_up

  /** Where a thread is. */
  datatype Pc =
    | User                          // outside these calls
    | InLock(at: Point, lock: Sid)  // in lock_acquire or lock_release
    | SemLoop(sem: Sid)             // suspended in sem_down; next: test `value` again, interrupts off
    | Parked                        // suspended in thread_lock, called outside sem_down
    | IdleLoop                      // idle: thread_lock(TASK_BLOCKED)
    | IdleHalt                      // idle: sti; hlt

  /** `depth` is a history variable: the number of calls of `lock_acquire` that have returned
      minus the number of calls of `lock_release` that have passed their first assertion. */
  datatype Thread = Thread(status: Status, priority: Byte, ticks: Byte, elapsed: nat, pc: Pc,
                           depth: map<Sid, nat>)

  datatype Sem = Sem(value: nat, waiters: seq<Tid>)

  datatype Lock = Lock(holder: Option<Tid>, repeat: nat)

  datatype State = State(threads: map<Tid, Thread>, ready: seq<Tid>, current: Tid, idle: Tid,
                         sems: map<Sid, Sem>, locks: map<Sid, Lock>, panicked: bool)

  function Depth(th: Thread, l: Sid): nat {
    if l in th.depth then th.depth[l] else 0
  }

  /** Every thread and semaphore that is referred to exists. */
  predicate WellTyped(s: State) {
    && s.current in s.threads
    && s.idle in s.threads
    && (forall t <- s.ready :: t in s.threads)
    && (forall k <- s.sems, t <- s.sems[k].waiters :: t in s.threads)
    && (forall l <- s.locks :: l in s.sems)
    && (forall t <- s.threads :: PcTyped(s, s.threads[t].pc))
  }

  predicate PcTyped(s: State, pc: Pc) {
    match pc
    case SemLoop(k) => k in s.sems
    case InLock(_, l) => l in s.locks
    case _ => true
  }

  function Panic(s: State): State {
    s.(panicked := true)
  }

  function SetThread(s: State, t: Tid, th: Thread): State {
    s.(threads := s.threads[t := th])
  }

  function SetPc(s: State, pc: Pc): State
    requires s.current in s.threads
  {
    SetThread(s, s.current, s.threads[s.current].(pc := pc))
  }

  function SetLock(s: State, l: Sid, lock: Lock): State {
    s.(locks := s.locks[l := lock])
  }

  function SetSem(s: State, k: Sid, sem: Sem): State {
    s.(sems := s.sems[k := sem])
  }

  predicate Wakeable(status: Status) {
    status.Blocked? || status.Waiting? || status.Hanging?
  }

  /** thread_unlock: the thread becomes ready, at the front of the ready list. */
  function ThreadUnlock(s: State, t: Tid): State
    requires t in s.threads
  {
    if !Wakeable(s.threads[t].status) || t in s.ready then
      Panic(s)
    else
      SetThread(s, t, s.threads[t].(status := Ready)).(ready := [t] + s.ready)
  }

  /** The first part of schedule: a thread whose slice is over goes to the back. */
  function Requeue(s: State): State
    requires s.current in s.threads
  {
    var c := s.threads[s.current];
    if !c.status.Running? then s
    else if s.current in s.ready then Panic(s)
    else SetThread(s, s.current, c.(ticks := c.priority, status := Ready)).(ready := s.ready + [s.current])
  }

  /** The last part of schedule: the head of the ready list runs. */
  function Dispatch(s: State): State
    requires forall t <- s.ready :: t in s.threads
  {
    if s.ready == [] then Panic(s)
    else
      var next := s.ready[0];
      SetThread(s, next, s.threads[next].(status := Running)).(ready := s.ready[1..], current := next)
  }

  /** schedule, with idle_thread as the fallback when nothing is ready. */
  function Schedule(s: State): State
    requires WellTyped(s)
  {
    var s1 := Requeue(s);
    var s2 := if s1.ready == [] then ThreadUnlock(s1, s.idle) else s1;
    if s1.panicked || s2.panicked then Panic(s) else Dispatch(s2)
  }

  /** thread_lock: suspend the running thread, which will resume at `pc`. */
  function ThreadLock(s: State, status: Status, pc: Pc): State
    requires WellTyped(s) && PcTyped(s, pc)
  {
    if !Wakeable(status) then Panic(s)
    else Schedule(SetThread(s, s.current, s.threads[s.current].(status := status, pc := pc)))
  }

  /** One pass of the loop of sem_down, up to the context switch or the return. */
  function SemDown(s: State, k: Sid): State
    requires WellTyped(s) && k in s.sems
  {
    var sem := s.sems[k];
    if sem.value == 0 then
      if s.current in sem.waiters then Panic(s)
      else ThreadLock(SetSem(s, k, sem.(waiters := sem.waiters + [s.current])), Blocked, SemLoop(k))
    else if sem.value != 1 then Panic(s)
    else SetPc(SetSem(s, k, sem.(value := 0)), if k in s.locks then InLock(AcqGot, k) else User)
  }

  function SemUp(s: State, k: Sid): State
    requires WellTyped(s) && k in s.sems
  {
    var sem := s.sems[k];
    if sem.value != 0 then Panic(s)
    else
      var s1 := if sem.waiters == [] then s
                else ThreadUnlock(SetSem(s, k, sem.(waiters := sem.waiters[1..])), sem.waiters[0]);
      if s1.panicked then s1 else SetSem(s1, k, s1.sems[k].(value := 1))
  }

  /** elapsed_ticks is a 32-bit counter. */
  function Elapse(th: Thread): Thread {
    th.(elapsed := (th.elapsed + 1) % 0x1_0000_0000)
  }

  /** The timer interrupt. */
  function TimerHandler(s: State): State
    requires WellTyped(s)
  {
    var c := s.threads[s.current];
    var s1 := SetThread(s, s.current, Elapse(c));
    if c.ticks == 0 then Schedule(s1)
    else SetThread(s1, s.current, s1.threads[s.current].(ticks := c.ticks - 1))
  }

  function ThreadYield(s: State): State
    requires WellTyped(s)
  {
    Schedule(SetThread(s, s.current, s.threads[s.current].(status := Ready)).(ready := s.ready + [s.current]))
  }

  /** thread_start, at the moment the new thread enters the ready list. */
  function ThreadStart(s: State, t: Tid, priority: Byte): State
  {
    SetThread(s, t, Thread(Ready, priority, priority, 0, User, map[])).(ready := s.ready + [t])
  }

  datatype Event =
    | Timer                                // the timer interrupts the current thread
    | DeviceUp(sem: Sid)                   // an interrupt handler calls sem_up
    | Acquire(lock: Sid)                   // the current thread calls lock_acquire ...
    | Release(lock: Sid)                   // ... lock_release
    | Down(sem: Sid)                       // ... sem_down on a plain semaphore
    | Yield                                // ... thread_yield
    | Park(status: Status)                 // ... thread_lock
    | Wake(thread: Tid)                    // ... thread_unlock
    | Start(thread: Tid, priority: Byte)   // ... thread_start
    | Continue                             // ... runs the next statement of the call it is in

  predicate InterruptsOn(s: State)
    requires s.current in s.threads
  {
    !s.threads[s.current].pc.SemLoop? && !s.threads[s.current].pc.Parked?
  }

  /** A lock's own semaphore is touched by lock_acquire and lock_release alone, and thread_unlock
      is called on threads that suspended themselves, not on semaphore waiters. */
  predicate Enabled(s: State, e: Event) {
    && !s.panicked
    && WellTyped(s)
    && var pc := s.threads[s.current].pc;
       match e
       case Timer => InterruptsOn(s)
       case DeviceUp(k) => InterruptsOn(s) && k in s.sems && k !in s.locks
       case Acquire(l) => pc.User? && l in s.locks
       case Release(l) => pc.User? && l in s.locks
       case Down(k) => pc.User? && k in s.sems && k !in s.locks
       case Yield => pc.User?
       case Park(_) => pc.User?
       case Wake(t) => pc.User? && t in s.threads && t != s.idle && !s.threads[t].pc.SemLoop?
       case Start(t, _) => pc.User? && t !in s.threads
       case Continue => !pc.User?
  }

  /** Natural predecessor; `RelDec` and `RelLast` never meet a count of zero. */
  function Pred(n: nat): nat {
    if n == 0 then 0 else n - 1
  }

  function SetDepth(th: Thread, l: Sid, n: nat): Thread {
    th.(depth := th.depth[l := n])
  }

  /** What a statement leaves behind: a failed assertion, or the thread and the lock as updated. */
  datatype Effect = Fails | Leaves(thread: Thread, lock: Lock)

  /** The statements of lock_acquire and lock_release other than the two semaphore calls, run by
      thread `me` whose record is `th`. */
  function Statement(at: Point, l: Sid, me: Tid, th: Thread, lock: Lock): Effect
    requires at != AcqDown && at != RelUp
  {
    match at
    case AcqNest => Leaves(SetDepth(th, l, Depth(th, l) + 1).(pc := User), lock.(repeat := lock.repeat + 1))
    case AcqGot => Leaves(th.(pc := InLock(AcqCheck, l)), lock.(holder := Some(me)))
    case AcqCheck => if lock.repeat != 0 then Fails else Leaves(th.(pc := InLock(AcqCount, l)), lock)
    case AcqCount => Leaves(SetDepth(th, l, Depth(th, l) + 1).(pc := User), lock.(repeat := 1))
    case RelTest =>
      if lock.holder != Some(me) then Fails
      else Leaves(SetDepth(th, l, Pred(Depth(th, l))).(pc := InLock(RelBranch, l)), lock)
    case RelBranch => Leaves(th.(pc := InLock(if lock.repeat > 1 then RelDec else RelLast, l)), lock)
    case RelDec => Leaves(th.(pc := User), lock.(repeat := Pred(lock.repeat)))
    case RelLast => Leaves(th.(pc := InLock(RelHolder, l)), lock.(repeat := Pred(lock.repeat)))
    case RelHolder => Leaves(th.(pc := InLock(RelZero, l)), lock.(holder := None))
    case RelZero => Leaves(th.(pc := InLock(RelUp, l)), lock.(repeat := 0))
  }

  function LockStatement(s: State, at: Point, l: Sid): State
    requires WellTyped(s) && l in s.locks
  {
    if at.AcqDown? then SemDown(s, l)
    else if at.RelUp? then SemUp(SetPc(s, User), l)
    else
      match Statement(at, l, s.current, s.threads[s.current], s.locks[l])
      case Fails => Panic(s)
      case Leaves(th, lock) => SetLock(SetThread(s, s.current, th), l, lock)
  }

  /** The next statement of the call the current thread is in. */
  function RunStatement(s: State): State
    requires WellTyped(s) && !s.threads[s.current].pc.User?
  {
    match s.threads[s.current].pc
    case SemLoop(k) => SemDown(s, k)
    case InLock(at, l) => LockStatement(s, at, l)
    case Parked => SetPc(s, User)
    case IdleLoop => ThreadLock(s, Blocked, IdleHalt)
    case IdleHalt => SetPc(s, IdleLoop)
  }

  function Next(s: State, e: Event): State
    requires Enabled(s, e)
  {
    match e
    case Timer => TimerHandler(s)
    case DeviceUp(k) => SemUp(s, k)
    case Acquire(l) => SetPc(s, InLock(if s.locks[l].holder == Some(s.current) then AcqNest else AcqDown, l))
    case Release(l) => SetPc(s, InLock(RelTest, l))
    case Down(k) => SemDown(s, k)
    case Yield => ThreadYield(s)
    case Park(status) => ThreadLock(s, status, Parked)
    case Wake(t) => ThreadUnlock(s, t)
    case Start(t, priority) => ThreadStart(s, t, priority)
    case Continue => RunStatement(s)
  }
}
