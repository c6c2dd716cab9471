/** The scheduler, the semaphores and the lock as a machine with mutable state, down to the pointers of its
    lists.  Each method runs the statements of one region of the C code; it leaves the state that the step
    system prescribes, and lists that are well formed and hold just the queues of that state. */
module Kernel {
  import opened ThreadSteps
  import opened ThreadInvariant
  import opened ThreadPreservation
  import opened TagLists
  import Steps = ThreadSteps
  import ThreadRuns

  type Queues = map<Queue, seq<Tid>>

  /** The queues of the step system, and the values of its semaphores. */
  ghost predicate Shows(values: map<Sid, nat>, sems: map<Sid, Sem>, ready: seq<Tid>, queues: Queues) {
    && values.Keys == sems.Keys
    && ReadyList in queues && queues[ReadyList] == ready
    && (forall k {:trigger sems[k]} :: k in sems ==>
          WaiterList(k) in queues && queues[WaiterList(k)] == sems[k].waiters && values[k] == sems[k].value)
    && forall q {:trigger q in queues} :: q in queues ==> q == ReadyList || q.sem in sems
  }

  /** Thread t is in no waiter list. */
  ghost predicate NotWaiting(sems: map<Sid, Sem>, t: Tid) {
    forall k {:trigger sems[k]} :: k in sems ==> t !in sems[k].waiters
  }

  lemma LooseTag(values: map<Sid, nat>, sems: map<Sid, Sem>, ready: seq<Tid>, queues: Queues, t: Tid)
    requires Shows(values, sems, ready, queues) && t !in ready && NotWaiting(sems, t)
    ensures Loose(queues, t)
  {
    forall q | q in queues ensures t !in queues[q] {
      assert q.WaiterList? ==> q == WaiterList(q.sem) && queues[q] == sems[q.sem].waiters;
    }
  }

  lemma TagLoose(values: map<Sid, nat>, sems: map<Sid, Sem>, ready: seq<Tid>, queues: Queues, t: Tid)
    requires Shows(values, sems, ready, queues) && Loose(queues, t)
    ensures t !in ready && NotWaiting(sems, t)
  {
    assert ReadyList in queues && queues[ReadyList] == ready;
    forall k | k in sems ensures t !in sems[k].waiters {
      assert WaiterList(k) in queues && queues[WaiterList(k)] == sems[k].waiters;
    }
  }

  lemma ShowsReady(values: map<Sid, nat>, sems: map<Sid, Sem>, ready: seq<Tid>, queues: Queues, r: seq<Tid>)
    requires Shows(values, sems, ready, queues)
    ensures Shows(values, sems, r, queues[ReadyList := r])
  {
  }

  lemma ShowsWaiters(values: map<Sid, nat>, sems: map<Sid, Sem>, ready: seq<Tid>, queues: Queues, k: Sid, r: seq<Tid>)
    requires Shows(values, sems, ready, queues) && k in sems
    ensures Shows(values, sems[k := sems[k].(waiters := r)], ready, queues[WaiterList(k) := r])
  {
  }

  lemma ShowsValue(values: map<Sid, nat>, sems: map<Sid, Sem>, ready: seq<Tid>, queues: Queues, k: Sid, n: nat)
    requires Shows(values, sems, ready, queues) && k in sems
    ensures Shows(values[k := n], sems[k := sems[k].(value := n)], ready, queues)
  {
  }

  function Values(sems: map<Sid, Sem>): map<Sid, nat> {
    map k | k in sems :: sems[k].value
  }

  lemma EmptyLoose(queues: Queues, t: Tid)
    requires forall q {:trigger queues[q]} :: q in queues ==> queues[q] == []
    ensures Loose(queues, t)
  {
  }

  lemma StartParts(s: State)
    requires ThreadRuns.Initial(s)
    ensures s.current != s.idle && s.threads.Keys == {s.current, s.idle} && s.ready == [s.idle] && !s.panicked
  {
  }

  /** What the lists of the scheduler and of semaphore k hold. */
  lemma ListsOf(values: map<Sid, nat>, sems: map<Sid, Sem>, ready: seq<Tid>, queues: Queues)
    requires Shows(values, sems, ready, queues)
    ensures values.Keys == sems.Keys && ReadyList in queues && queues[ReadyList] == ready
    ensures forall k {:trigger sems[k]} :: k in sems ==>
              WaiterList(k) in queues && queues[WaiterList(k)] == sems[k].waiters && values[k] == sems[k].value
  {
  }

  lemma ShowsStart(s: State, queues: Queues)
    requires ThreadRuns.Initial(s)
    requires forall q {:trigger q in queues} :: q in queues <==> q == ReadyList || (q.WaiterList? && q.sem in s.sems)
    requires forall q {:trigger queues[q]} :: q in queues ==> queues[q] == if q == ReadyList then [s.idle] else []
    ensures Shows(Values(s.sems), s.sems, [s.idle], queues)
  {
  }

  class Machine {
    var threads: map<Tid, Thread>
    var current: Tid
    var idle: Tid
    var values: map<Sid, nat>      // of the semaphores
    var locks: map<Sid, Lock>
    var panicked: bool
    const tagged: Lists            // thread_ready_list and the waiter lists
    ghost var ready: seq<Tid>      // what they hold
    ghost var sems: map<Sid, Sem>

    ghost function View(): State
      reads this
    {
      State(threads, ready, current, idle, sems, locks, panicked)
    }

    /** The lists are well formed and apart, and they hold the queues. */
    ghost predicate Valid()
      reads this`threads, this`values, this`ready, this`sems, tagged, tagged.objects
    {
      && tagged.Valid() && tagged !in tagged.objects && this !in tagged.objects
      && (forall t {:trigger t in threads} {:trigger t in tagged.tags} :: t in threads <==> t in tagged.tags)
      && Shows(values, sems, ready, tagged.queues)
    }

    /** The machine is in state s, its lists in order, or both have stopped on a failed assertion. */
    ghost predicate Reaches(s: State)
      reads this, tagged, tagged.objects
    {
      if panicked then s.panicked else Valid() && View() == s
    }

    // ----- the fields, and the lists -----

    method Put(t: Tid, th: Thread)
      requires Valid() && t in threads
      modifies this`threads
      ensures Valid() && threads == old(threads)[t := th]
    {
      hide Lists.Valid, Shows;
      threads := threads[t := th];
    }

    /** elem_find in the ready list. */
    method InReady(t: Tid) returns (found: bool)
      requires Valid() && t in threads
      ensures found <==> t in ready
    {
      hide Lists.Valid;
      tagged.Keys();
      found := tagged.Find(ReadyList, t);
    }

    /** elem_find in the waiter list of semaphore k. */
    method InWaiters(k: Sid, t: Tid) returns (found: bool)
      requires Valid() && t in threads && k in sems
      ensures found <==> t in sems[k].waiters
    {
      hide Lists.Valid;
      tagged.Keys();
      found := tagged.Find(WaiterList(k), t);
    }

    method NoneReady() returns (empty: bool)
      requires Valid()
      ensures empty <==> ready == []
    {
      hide Lists.Valid;
      tagged.Keys();
      empty := tagged.Empty(ReadyList);
    }

    method NoWaiters(k: Sid) returns (empty: bool)
      requires Valid() && k in sems
      ensures empty <==> sems[k].waiters == []
    {
      hide Lists.Valid;
      tagged.Keys();
      empty := tagged.Empty(WaiterList(k));
    }

    /** list_push to the ready list. */
    method PushReady(t: Tid)
      requires Valid() && t in threads && t !in ready && NotWaiting(sems, t)
      modifies this`ready, tagged`queues, tagged.objects
      ensures Valid() && ready == [t] + old(ready) && tagged.objects == old(tagged.objects)
    {
      hide Lists.Valid, Shows, Loose, NotWaiting;
      tagged.Keys();
      ListsOf(values, sems, ready, tagged.queues);
      ShowsReady(values, sems, ready, tagged.queues, [t] + ready);
      LooseTag(values, sems, ready, tagged.queues, t);
      tagged.Push(ReadyList, t);
      ready := [t] + ready;
    }

    /** list_append to the ready list. */
    method AppendReady(t: Tid)
      requires Valid() && t in threads && t !in ready && NotWaiting(sems, t)
      modifies this`ready, tagged`queues, tagged.objects
      ensures Valid() && ready == old(ready) + [t] && tagged.objects == old(tagged.objects)
    {
      hide Lists.Valid, Shows, Loose, NotWaiting;
      tagged.Keys();
      ListsOf(values, sems, ready, tagged.queues);
      ShowsReady(values, sems, ready, tagged.queues, ready + [t]);
      LooseTag(values, sems, ready, tagged.queues, t);
      tagged.Append(ReadyList, t);
      ready := ready + [t];
    }

    /** list_pop of the ready list. */
    method PopReady() returns (t: Tid)
      requires Valid() && ready != []
      modifies this`ready, tagged`queues, tagged.objects
      ensures Valid() && t in threads && t == old(ready)[0] && ready == old(ready)[1..]
      ensures tagged.objects == old(tagged.objects)
    {
      hide Lists.Valid, Shows, Loose;
      tagged.Keys();
      ListsOf(values, sems, ready, tagged.queues);
      ShowsReady(values, sems, ready, tagged.queues, ready[1..]);
      t := tagged.Pop(ReadyList);
      ready := ready[1..];
    }

    /** list_append to the waiter list of semaphore k. */
    method AppendWaiter(k: Sid, t: Tid)
      requires Valid() && t in threads && k in sems && t !in ready && NotWaiting(sems, t)
      modifies this`sems, tagged`queues, tagged.objects
      ensures Valid() && sems == old(sems)[k := old(sems)[k].(waiters := old(sems)[k].waiters + [t])]
      ensures tagged.objects == old(tagged.objects)
    {
      hide Lists.Valid, Shows, Loose, NotWaiting;
      tagged.Keys();
      ListsOf(values, sems, ready, tagged.queues);
      ShowsWaiters(values, sems, ready, tagged.queues, k, sems[k].waiters + [t]);
      LooseTag(values, sems, ready, tagged.queues, t);
      tagged.Append(WaiterList(k), t);
      sems := sems[k := sems[k].(waiters := sems[k].waiters + [t])];
    }

    /** list_pop of the waiter list of semaphore k; the tag is in no list then. */
    method PopWaiter(k: Sid) returns (t: Tid)
      requires Valid() && k in sems && sems[k].waiters != []
      modifies this`sems, tagged`queues, tagged.objects
      ensures Valid() && t in threads && t == old(sems)[k].waiters[0]
      ensures sems == old(sems)[k := old(sems)[k].(waiters := old(sems)[k].waiters[1..])]
      ensures t !in ready && NotWaiting(sems, t)
      ensures tagged.objects == old(tagged.objects)
    {
      hide Lists.Valid, Shows, Loose, NotWaiting;
      tagged.Keys();
      ListsOf(values, sems, ready, tagged.queues);
      ShowsWaiters(values, sems, ready, tagged.queues, k, sems[k].waiters[1..]);
      t := tagged.Pop(WaiterList(k));
      sems := sems[k := sems[k].(waiters := sems[k].waiters[1..])];
      TagLoose(values, sems, ready, tagged.queues, t);
    }

    method SetValue(k: Sid, n: nat)
      requires Valid() && k in sems
      modifies this`values, this`sems
      ensures Valid() && sems == old(sems)[k := old(sems)[k].(value := n)] && values == old(values)[k := n]
    {
      hide Lists.Valid, Shows;
      ShowsValue(values, sems, ready, tagged.queues, k, n);
      values := values[k := n];
      sems := sems[k := sems[k].(value := n)];
    }

    lemma ValueOf(k: Sid)
      requires Valid() && k in sems
      ensures k in values && values[k] == sems[k].value
    {
      hide Lists.Valid;
    }

    lemma Owns()
      requires Valid()
      ensures this !in tagged.objects && tagged !in tagged.objects
    {
    }

    // ----- thread.c and sync.c -----

    /** A machine in state s, whose lists hold the queues of s. */
    constructor (s: State, tagged: Lists)
      requires !s.panicked && tagged.Valid() && tagged !in tagged.objects && tagged.tags.Keys == s.threads.Keys
      requires Shows(Values(s.sems), s.sems, s.ready, tagged.queues)
      ensures Reaches(s) && this.tagged == tagged
    {
      threads, current, idle := s.threads, s.current, s.idle;
      values, locks, panicked := Values(s.sems), s.locks, false;
      ready, sems := s.ready, s.sems;
      this.tagged := tagged;
      new;
      hide Lists.Valid, Shows;
    }

    method ThreadUnlock(t: Tid)
      requires Valid() && t in threads && !panicked && NotWaiting(sems, t)
      modifies this`threads, this`ready, this`panicked, tagged`queues, tagged.objects
      ensures Reaches(Steps.ThreadUnlock(old(View()), t)) && tagged.objects == old(tagged.objects)
    {
      hide Lists.Valid, Shows, NotWaiting;
      var status := threads[t].status;
      if !Wakeable(status) { panicked := true; return; }
      if status != Ready {
        var found := InReady(t);
        if found { panicked := true; return; }
        Put(t, threads[t].(status := Ready));
        PushReady(t);
      }
    }

    /** The first part of schedule. */
    method Requeue()
      requires Valid() && current in threads && !panicked
      requires threads[current].status.Running? ==> NotWaiting(sems, current)
      modifies this`threads, this`ready, this`panicked, tagged`queues, tagged.objects
      ensures Reaches(Steps.Requeue(old(View()))) && tagged.objects == old(tagged.objects)
    {
      hide Valid, NotWaiting;
      Owns();
      var curr := current;
      if threads[curr].status.Running? {
        var found := InReady(curr);
        if found { panicked := true; return; }
        Put(curr, threads[curr].(ticks := threads[curr].priority));
        Put(curr, threads[curr].(status := Ready));
        AppendReady(curr);
      }
    }

    /** The last part of schedule. */
    method Dispatch()
      requires Valid() && !panicked && forall t <- ready :: t in threads
      modifies this`threads, this`ready, this`current, this`panicked, tagged`queues, tagged.objects
      ensures Reaches(Steps.Dispatch(old(View()))) && tagged.objects == old(tagged.objects)
    {
      hide Valid;
      Owns();
      var empty := NoneReady();
      if empty { panicked := true; return; }
      var next := PopReady();
      Put(next, threads[next].(status := Running));
      current := next;
    }

    method Schedule()
      requires Valid() && WellTyped(View()) && !panicked && NotWaiting(sems, idle)
      requires threads[current].status.Running? ==> NotWaiting(sems, current)
      modifies this`threads, this`ready, this`current, this`panicked, tagged`queues, tagged.objects
      ensures Reaches(Steps.Schedule(old(View()))) && tagged.objects == old(tagged.objects)
    {
      hide Valid, PcTyped, NotWaiting, Wakeable;
      Owns();
      Requeue();
      if panicked { return; }
      var empty := NoneReady();
      if empty {
        ThreadUnlock(idle);
        if panicked { return; }
      }
      hide Steps.Dispatch;
      Dispatch();
    }

    method ThreadLock(status: Status, pc: Pc)
      requires Valid() && WellTyped(View()) && PcTyped(View(), pc) && !panicked && NotWaiting(sems, idle)
      modifies this`threads, this`ready, this`current, this`panicked, tagged`queues, tagged.objects
      ensures Reaches(Steps.ThreadLock(old(View()), status, pc)) && tagged.objects == old(tagged.objects)
    {
      hide Valid, NotWaiting, Steps.Schedule;
      Owns();
      if !Wakeable(status) { panicked := true; return; }
      Put(current, threads[current].(status := status, pc := pc));
      Schedule();
    }

    method ThreadYield()
      requires Valid() && WellTyped(View()) && !panicked && NotWaiting(sems, idle)
      requires NotWaiting(sems, current) && current !in ready
      modifies this`threads, this`ready, this`current, this`panicked, tagged`queues, tagged.objects
      ensures Reaches(Steps.ThreadYield(old(View()))) && tagged.objects == old(tagged.objects)
    {
      hide Valid, NotWaiting, Steps.Schedule;
      Owns();
      AppendReady(current);
      Put(current, threads[current].(status := Ready));
      Schedule();
    }

    method TimerHandler()
      requires Valid() && WellTyped(View()) && !panicked && NotWaiting(sems, idle)
      requires threads[current].status.Running? ==> NotWaiting(sems, current)
      modifies this`threads, this`ready, this`current, this`panicked, tagged`queues, tagged.objects
      ensures Reaches(Steps.TimerHandler(old(View()))) && tagged.objects == old(tagged.objects)
    {
      hide Valid, NotWaiting, Steps.Schedule;
      Owns();
      Put(current, Elapse(threads[current]));
      if threads[current].ticks == 0 {
        Schedule();
      } else {
        Put(current, threads[current].(ticks := threads[current].ticks - 1));
      }
    }

    /** The pcb of a new thread, with its tag. */
    method NewThread(t: Tid, th: Thread)
      requires Valid() && t !in threads
      modifies this`threads, tagged`tags, tagged`objects
      ensures Valid() && threads == old(threads)[t := th]
      ensures old(tagged.objects) <= tagged.objects && fresh(tagged.objects - old(tagged.objects))
    {
      hide Lists.Valid, Shows;
      tagged.AddTag(t);
      threads := threads[t := th];
    }

    method ThreadStart(t: Tid, priority: Byte)
      requires Valid() && WellTyped(View()) && !panicked && t !in threads
      modifies this`threads, this`ready, tagged, tagged.objects
      ensures Reaches(Steps.ThreadStart(old(View()), t, priority))
      ensures fresh(tagged.objects - old(tagged.objects))
    {
      hide Valid, PcTyped;
      Owns();
      NewThread(t, Thread(Ready, priority, priority, 0, User, map[]));
      Owns();
      AppendReady(t);
    }

    /** One pass of the loop of sem_down: block and switch, or take the semaphore. */
    method SemDown(k: Sid)
      requires Valid() && WellTyped(View()) && k in sems && !panicked && NotWaiting(sems, idle)
      requires current !in ready && current != idle && forall j :: j in sems && j != k ==> current !in sems[j].waiters
      modifies this`threads, this`ready, this`current, this`values, this`sems, this`panicked
      modifies tagged`queues, tagged.objects
      ensures Reaches(Steps.SemDown(old(View()), k)) && tagged.objects == old(tagged.objects)
    {
      hide Valid, Steps.ThreadLock;
      Owns();
      ValueOf(k);
      if values[k] == 0 {
        var found := InWaiters(k, current);
        if found { panicked := true; return; }
        AppendWaiter(k, current);
        ThreadLock(Blocked, SemLoop(k));
      } else {
        hide PcTyped;
        SetValue(k, values[k] - 1);
        if values[k] != 0 { panicked := true; return; }
        Put(current, threads[current].(pc := if k in locks then InLock(AcqGot, k) else User));
      }
    }

    method SemUp(k: Sid)
      requires Valid() && WellTyped(View()) && k in sems && !panicked
      modifies this`threads, this`ready, this`values, this`sems, this`panicked, tagged`queues, tagged.objects
      ensures Reaches(Steps.SemUp(old(View()), k)) && tagged.objects == old(tagged.objects)
    {
      hide Valid, PcTyped, NotWaiting, Wakeable;
      Owns();
      ValueOf(k);
      if values[k] != 0 { panicked := true; return; }
      var empty := NoWaiters(k);
      if !empty {
        var popped := PopWaiter(k);
        ThreadUnlock(popped);
        if panicked { return; }
      }
      SetValue(k, values[k] + 1);
    }

    method Move(pc: Pc)
      requires Valid() && current in threads
      modifies this`threads
      ensures Valid() && View() == SetPc(old(View()), pc)
    {
      hide Valid;
      Put(current, threads[current].(pc := pc));
    }

    method SetLock(l: Sid, lock: Lock)
      requires Valid()
      modifies this`locks
      ensures Valid() && View() == Steps.SetLock(old(View()), l, lock)
    {
      hide Valid;
      Owns();
      locks := locks[l := lock];
    }

    /** The same, with the history count. */
    method CountDepth(l: Sid, n: nat, pc: Pc)
      requires Valid() && current in threads
      modifies this`threads
      ensures Valid() && threads == old(threads)[current := SetDepth(old(threads)[current], l, n).(pc := pc)]
    {
      hide Valid;
      Put(current, SetDepth(threads[current], l, n).(pc := pc));
    }

    /** The statement of lock_acquire or lock_release at which the current thread stands, unless it
        is a call of sem_down or sem_up. */
    method LockField(at: Point, l: Sid)
      requires Valid() && current in threads && l in locks && !panicked && !at.AcqDown? && !at.RelUp?
      modifies this`threads, this`locks, this`panicked
      ensures match Statement(at, l, old(current), old(threads[current]), old(locks[l]))
              case Fails => panicked
              case Leaves(th, lock) => Valid() && View() == Steps.SetLock(SetThread(old(View()), old(current), th), l, lock)
    {
      hide Valid;
      var th, lock := threads[current], locks[l];
      match at
      case AcqNest => SetLock(l, lock.(repeat := lock.repeat + 1)); CountDepth(l, Depth(th, l) + 1, User);
      case AcqGot => SetLock(l, lock.(holder := Some(current))); Move(InLock(AcqCheck, l));
      case AcqCheck =>
        if lock.repeat != 0 { panicked := true; } else { Move(InLock(AcqCount, l)); }
      case AcqCount => SetLock(l, lock.(repeat := 1)); CountDepth(l, Depth(th, l) + 1, User);
      case RelTest =>
        if lock.holder != Some(current) {
          panicked := true;
        } else {
          CountDepth(l, Pred(Depth(th, l)), InLock(RelBranch, l));
        }
      case RelBranch => Move(InLock(if lock.repeat > 1 then RelDec else RelLast, l));
      case RelDec => SetLock(l, lock.(repeat := Pred(lock.repeat))); Move(User);
      case RelLast => SetLock(l, lock.(repeat := Pred(lock.repeat))); Move(InLock(RelHolder, l));
      case RelHolder => SetLock(l, lock.(holder := None)); Move(InLock(RelZero, l));
      case RelZero => SetLock(l, lock.(repeat := 0)); Move(InLock(RelUp, l));
    }

    method LockStatement(at: Point, l: Sid)
      requires Valid() && WellTyped(View()) && l in locks && !panicked && NotWaiting(sems, idle)
      requires current !in ready && current != idle && NotWaiting(sems, current)
      modifies this`threads, this`ready, this`current, this`values, this`sems, this`locks, this`panicked
      modifies tagged`queues, tagged.objects
      ensures Reaches(Steps.LockStatement(old(View()), at, l)) && tagged.objects == old(tagged.objects)
    {
      hide Valid, Steps.SemDown, Steps.SemUp, Statement;
      if at.AcqDown? {
        SemDown(l);
      } else if at.RelUp? {
        ghost var s := View();
        Move(User);
        RecordTyped(s, View());
        hide PcTyped;
        SemUp(l);
      } else {
        hide PcTyped, NotWaiting;
        LockField(at, l);
      }
    }

    /** One event of the machine, in a state that a run can reach.  It stops the machine exactly when it is
        a misuse of the interface; otherwise the invariant is kept, and every list is well formed again, shares
        no node with another, and holds the queue of the new state. */
    method HandleEvent(e: Event)
      requires Valid() && Enabled(View(), e) && Inv(View())
      modifies this, tagged, tagged.objects
      ensures Reaches(Next(old(View()), e))
      ensures panicked <==> old(Misuse(View(), e))
      ensures !panicked ==> Inv(View())
      ensures fresh(tagged.objects - old(tagged.objects))
    {
      hide Valid, Inv, Misuse, Next, Enabled;
      ghost var s := View();
      EventOk(s, e);
      RunEvent(e);
    }

    method RunEvent(e: Event)
      requires Valid() && Enabled(View(), e) && Inv(View())
      modifies this, tagged, tagged.objects
      ensures Reaches(Next(old(View()), e)) && fresh(tagged.objects - old(tagged.objects))
    {
      hide Valid, Reaches, Inv, NotWaiting, WellTyped, PcTyped, Enabled, Next, SetPc, FirstPoint, Steps.TimerHandler,
           Steps.SemUp, Steps.SemDown, Steps.ThreadYield, Steps.ThreadLock, Steps.ThreadUnlock, Steps.ThreadStart,
           RunStatement;
      QueuesApart(View());
      EventCase(View(), e);
      match e {
        case Timer => TimerHandler();
        case DeviceUp(k) => SemUp(k);
        case Acquire(l) => LockAcquire(l);
        case Release(l) => EnterLock(RelTest, l);
        case Down(k) => PlainDown(k);
        case Yield => ThreadYield();
        case Park(status) => Suspend(status);
        case Wake(t) => ThreadUnlock(t);
        case Start(t, priority) => ThreadStart(t, priority);
        case Continue => Proceed();
      }
    }

    method LockAcquire(l: Sid)
      requires Valid() && current in threads && !panicked && l in locks
      modifies this`threads
      ensures Reaches(SetPc(old(View()), InLock(FirstPoint(old(View()), l), l)))
    {
      hide Valid, SetPc;
      if locks[l].holder == Some(current) {
        EnterLock(AcqNest, l);
      } else {
        EnterLock(AcqDown, l);
      }
    }

    /** The call of lock_acquire or lock_release, up to the statement that is named. */
    method EnterLock(at: Point, l: Sid)
      requires Valid() && current in threads && !panicked
      modifies this`threads
      ensures Reaches(SetPc(old(View()), InLock(at, l)))
    {
      hide Valid, SetPc;
      Move(InLock(at, l));
    }

    /** thread_lock, called from outside sem_down. */
    method Suspend(status: Status)
      requires Valid() && WellTyped(View()) && !panicked && NotWaiting(sems, idle)
      modifies this`threads, this`ready, this`current, this`panicked, tagged`queues, tagged.objects
      ensures Reaches(Steps.ThreadLock(old(View()), status, Parked)) && tagged.objects == old(tagged.objects)
    {
      hide Valid, NotWaiting, WellTyped, Steps.ThreadLock;
      ThreadLock(status, Parked);
    }

    method PlainDown(k: Sid)
      requires Valid() && WellTyped(View()) && k in sems && !panicked && NotWaiting(sems, idle)
      requires current !in ready && current != idle && NotWaiting(sems, current)
      modifies this`threads, this`ready, this`current, this`values, this`sems, this`panicked
      modifies tagged`queues, tagged.objects
      ensures Reaches(Steps.SemDown(old(View()), k)) && tagged.objects == old(tagged.objects)
    {
      hide Valid, WellTyped, Steps.SemDown;
      SemDown(k);
    }

    /** The next statement of the call that the current thread is in. */
    method Proceed()
      requires Valid() && WellTyped(View()) && !panicked && !threads[current].pc.User?
      requires NotWaiting(sems, idle) && (current == idle ==> AtIdle(threads[current].pc))
      requires current !in ready && NotWaiting(sems, current)
      modifies this`threads, this`ready, this`current, this`values, this`sems, this`locks, this`panicked
      modifies tagged`queues, tagged.objects
      ensures Reaches(RunStatement(old(View()))) && tagged.objects == old(tagged.objects)
    {
      hide Valid, NotWaiting, Steps.SemDown, Steps.ThreadLock, Steps.LockStatement;
      Owns();
      match threads[current].pc
      case SemLoop(k) => PlainDown(k);
      case InLock(at, l) => LockStatement(at, l);
      case Parked => Move(User);
      case IdleLoop => ThreadLock(Blocked, IdleHalt);
      case IdleHalt => Move(IdleLoop);
    }
  }

  /** Where lock_acquire goes: a holder only counts. */
  function FirstPoint(s: State, l: Sid): Point
    requires l in s.locks
  {
    if s.locks[l].holder == Some(s.current) then AcqNest else AcqDown
  }

  /** What an event that is enabled finds, and does. */
  lemma EventCase(s: State, e: Event)
    requires Enabled(s, e)
    ensures WellTyped(s) && !s.panicked && s.current in s.threads
    ensures var pc := s.threads[s.current].pc;
            match e
            case Timer => Next(s, e) == Steps.TimerHandler(s)
            case DeviceUp(k) => k in s.sems && Next(s, e) == Steps.SemUp(s, k)
            case Acquire(l) => l in s.locks && Next(s, e) == SetPc(s, InLock(FirstPoint(s, l), l))
            case Release(l) => Next(s, e) == SetPc(s, InLock(RelTest, l))
            case Down(k) => pc.User? && k in s.sems && Next(s, e) == Steps.SemDown(s, k)
            case Yield => Next(s, e) == Steps.ThreadYield(s)
            case Park(status) => Next(s, e) == Steps.ThreadLock(s, status, Parked)
            case Wake(t) => t in s.threads && !s.threads[t].pc.SemLoop? && Next(s, e) == Steps.ThreadUnlock(s, t)
            case Start(t, priority) => t !in s.threads && Next(s, e) == Steps.ThreadStart(s, t, priority)
            case Continue => !pc.User? && Next(s, e) == RunStatement(s)
  {
    hide PcTyped, Steps.TimerHandler, Steps.SemUp, Steps.SemDown, Steps.ThreadYield, Steps.ThreadLock, RunStatement,
         Steps.ThreadUnlock, Steps.ThreadStart, SetPc;
  }

  /** In a reachable state the running thread is in no list, and a thread outside the loop of sem_down, the
      idle thread among them, is in no waiter list. */
  lemma QueuesApart(s: State)
    requires Inv(s)
    ensures s.current !in s.ready && NotWaiting(s.sems, s.current) && NotWaiting(s.sems, s.idle)
    ensures s.current == s.idle ==> AtIdle(s.threads[s.current].pc)
    ensures forall t {:trigger s.threads[t]} :: t in s.threads && !s.threads[t].pc.SemLoop? ==> NotWaiting(s.sems, t)
  {
    hide LocksOk, ThreadsOk, PcTyped;
    forall k, t | k in s.sems && t in s.sems[k].waiters
      ensures t in s.threads && s.threads[t].pc.SemLoop? && s.threads[t].status.Blocked?
    {
      assert WaitersOk(s, k);
    }
  }

  /** system_thread_init: the main thread runs, the idle thread is ready, and nobody waits. */
  method Start(s: State) returns (m: Machine)
    requires ThreadRuns.Initial(s)
    ensures m.Reaches(s) && !m.panicked && fresh(m) && fresh(m.tagged) && fresh(m.tagged.objects)
  {
    hide Lists.Valid, ThreadRuns.Initial, Shows, Loose;
    StartParts(s);
    var tagged := new Lists(s.sems.Keys);
    tagged.Keys();
    EmptyLoose(tagged.queues, s.idle);
    tagged.AddTag(s.current);
    tagged.AddTag(s.idle);
    tagged.Append(ReadyList, s.idle);
    ShowsStart(s, tagged.queues);
    m := new Machine(s, tagged);
  }
}
