/** Every enabled event keeps the invariant, and an assertion of the code fails exactly when the
    event is a misuse of the interface. */
module ThreadPreservation {
  import opened ThreadSteps
  import opened ThreadInvariant

  // ----- sem_down and sem_up -----

  /** s' is s with the current thread blocked at the end of the waiter list of k. */
  ghost predicate Blocks(s: State, s': State, k: Sid) {
    && s.current in s.threads
    && k in s.sems
    && s' == s.(threads := s'.threads, sems := s'.sems)
    && s'.threads == s.threads[s.current := s.threads[s.current].(status := Blocked, pc := SemLoop(k))]
    && s'.sems == s.sems[k := s.sems[k].(waiters := s.sems[k].waiters + [s.current])]
  }

  /** The current thread joins the waiter list of k, before it calls schedule. */
  lemma BlockOk(s: State, s': State, k: Sid)
    requires Base(s) && k in s.sems && s.sems[k].value == 0
    requires s.threads[s.current].status.Running? && s.current != s.idle
    requires Depth(s.threads[s.current], k) == 0
    requires !s.threads[s.current].pc.SemLoop? || s.threads[s.current].pc.sem == k
    requires Blocks(s, s', k)
    ensures Base(s')
  {
    assert WaitersOk(s, k);
    BlockQueues(s, s', k);
    BlockTyped(s, s', k);
    assert ThreadOk(s, s.threads[s.current]);
    ThreadsAfter(s, s', s.current);
    hide ThreadsOk, ThreadOk, StatusOk, DepthOk, PcTyped, Queues, IdleOk, WaitersOk, NoDuplicates, WellTyped;
    forall j <- s'.sems ensures WaitersOk(s', j) {
      BlockWaiters(s, s', k, j);
    }
  }

  lemma BlockWaiters(s: State, s': State, k: Sid, j: Sid)
    requires WellTyped(s) && k in s.sems && j in s.sems && WaitersOk(s, k) && WaitersOk(s, j)
    requires s.sems[k].value == 0 && s.threads[s.current].status.Running?
    requires !s.threads[s.current].pc.SemLoop? || s.threads[s.current].pc.sem == k
    requires Blocks(s, s', k)
    ensures WaitersOk(s', j)
  {
    if j == k {
      JoinWaiters(s, s', k);
    } else {
      hide WaitersOk;
      WaitersKept(s, s', j);
    }
  }

  lemma BlockTyped(s: State, s': State, k: Sid)
    requires WellTyped(s) && k in s.sems
    requires Blocks(s, s', k)
    ensures WellTyped(s')
  {
    forall t <- s'.threads ensures PcTyped(s', s'.threads[t].pc) {
      assert PcTyped(s, s.threads[t].pc);
    }
  }

  lemma BlockQueues(s: State, s': State, k: Sid)
    requires s.current in s.threads && Queues(s) && IdleOk(s) && k in s.sems
    requires s.threads[s.current].status.Running? && s.current != s.idle
    requires Blocks(s, s', k)
    ensures Queues(s') && IdleOk(s')
  {
  }

  lemma JoinWaiters(s: State, s': State, k: Sid)
    requires k in s.sems && WaitersOk(s, k) && s.sems[k].value == 0
    requires s.current in s.threads && s.current !in s.sems[k].waiters
    requires s'.threads == s.threads[s.current := s.threads[s.current].(status := Blocked, pc := SemLoop(k))]
    requires k in s'.sems && s'.sems[k] == Sem(0, s.sems[k].waiters + [s.current])
    ensures WaitersOk(s', k)
  {
  }

  /** Where sem_down may be called from, by the current thread. */
  ghost predicate AtDown(s: State, k: Sid)
    requires s.current in s.threads
  {
    var pc := s.threads[s.current].pc;
    pc == SemLoop(k) || pc == InLock(AcqDown, k) || (pc.User? && k !in s.locks)
  }

  lemma SectionsAfter(s: State, s': State, l: Sid)
    requires s.current in s.threads && s.current in s'.threads
    requires s'.threads == s.threads[s.current := s'.threads[s.current]]
    requires Section(s'.threads[s.current], l) == Section(s.threads[s.current], l)
    ensures forall t <- s'.threads ::
        Section(s'.threads[t], l) == if t in s.threads then Section(s.threads[t], l) else None
  {
  }

  lemma DepthAtDown(s: State, k: Sid)
    requires Base(s) && k in s.sems && AtDown(s, k)
    ensures Depth(s.threads[s.current], k) == 0
    ensures s.current != s.idle
  {
    assert ThreadOk(s, s.threads[s.current]);
  }

  lemma LocksAfterBlock(s: State, s': State, k: Sid)
    requires Base(s) && LocksOk(s) && AtDown(s, k) && Blocks(s, s', k)
    requires forall l <- s'.locks :: l in s'.sems
    ensures LocksOk(s')
  {
    hide LockOk, ThreadsOk, WaitersOk, Queues, IdleOk;
    forall l <- s'.locks ensures LockOk(s', l) {
      SectionsAfter(s, s', l);
      LockKept(s, s', l);
    }
  }

  lemma DownBlockedOk(s: State, k: Sid)
    requires Inv(s) && !s.panicked && k in s.sems && AtDown(s, k) && s.sems[k].value == 0
    ensures !SemDown(s, k).panicked && Inv(SemDown(s, k))
  {
    hide LocksOk, ThreadsOk, PcTyped, Queues;
    var me := s.current;
    DepthAtDown(s, k);
    assert WaitersOk(s, k);
    var s1 := SetSem(s, k, s.sems[k].(waiters := s.sems[k].waiters + [me]));
    var s2 := SetThread(s1, me, s1.threads[me].(status := Blocked, pc := SemLoop(k)));
    BlockOk(s, s2, k);
    assert LocksOk(s2) by { LocksAfterBlock(s, s2, k); }
    hide WaitersOk, IdleOk, WellTyped;
    RescheduleOk(s2, s2);
  }

  // ----- steps that move only the current thread -----

  /** s' is s after the current thread moved from one program point to another, touching at most
      the fields of lock l and taking at most the semaphore l. */
  ghost predicate Moves(s: State, s': State, l: Sid) {
    && s.current in s.threads && s.current in s'.threads
    && s' == s.(threads := s'.threads, locks := s'.locks, sems := s'.sems)
    && s'.threads == s.threads[s.current := s'.threads[s.current]]
    && s'.threads[s.current].status == s.threads[s.current].status
    && l in s.sems && l in s'.sems
    && s'.sems == s.sems[l := s'.sems[l]]
    && (s'.sems[l] == s.sems[l] || s'.sems[l] == s.sems[l].(value := 0))
    && s'.locks.Keys == s.locks.Keys
    && (forall m <- s.locks :: m != l ==>
          && s'.locks[m] == s.locks[m]
          && Section(s'.threads[s.current], m) == Section(s.threads[s.current], m))
  }

  /** The program counters a move may start from and end at. */
  ghost predicate MovePcs(s: State, s': State, l: Sid)
    requires Moves(s, s', l)
  {
    var pc, pc' := s.threads[s.current].pc, s'.threads[s.current].pc;
    && !AtIdle(pc) && !AtIdle(pc') && !pc'.SemLoop?
    && (pc.SemLoop? ==> pc.sem == l && s'.sems[l].value == 0)
    && PcTyped(s', pc')
  }

  lemma MoveOk(s: State, s': State, l: Sid)
    requires Inv(s) && Moves(s, s', l) && MovePcs(s, s', l)
    requires ThreadOk(s', s'.threads[s.current])
    requires l in s.locks ==> LockOk(s', l)
    ensures Inv(s')
  {
    MoveBase(s, s', l);
    MoveLocks(s, s', l);
  }

  lemma MoveBase(s: State, s': State, l: Sid)
    requires Base(s) && s.threads[s.current].status.Running?
    requires Moves(s, s', l) && MovePcs(s, s', l)
    requires ThreadOk(s', s'.threads[s.current])
    ensures Base(s')
  {
    hide StatusOk, DepthOk, Section, NoDuplicates, PcTyped, ThreadOk, WaitersOk;
    ThreadsAfter(s, s', s.current);
    MoveTyped(s, s', l);
    forall k <- s'.sems ensures WaitersOk(s', k) {
      MoveWaiters(s, s', l, k);
    }
  }

  lemma MoveTyped(s: State, s': State, l: Sid)
    requires WellTyped(s) && Moves(s, s', l) && PcTyped(s', s'.threads[s.current].pc)
    ensures WellTyped(s')
  {
    hide Section;
    forall t <- s'.threads ensures PcTyped(s', s'.threads[t].pc) {
      assert PcTyped(s, s.threads[t].pc);
    }
  }

  lemma MoveWaiters(s: State, s': State, l: Sid, k: Sid)
    requires WellTyped(s) && Moves(s, s', l) && MovePcs(s, s', l) && k in s.sems
    requires WaitersOk(s, k) && s.threads[s.current].status.Running?
    ensures WaitersOk(s', k)
  {
    hide Section, PcTyped;
    if s.sems[k].value == 1 && s.sems[k].waiters != [] {
      var t :| t in s.threads && Rechecking(s.threads[t], k);
      assert s'.sems[k].value == 1 ==> Rechecking(s'.threads[t], k);
    }
  }

  lemma MoveLocks(s: State, s': State, l: Sid)
    requires Base(s) && LocksOk(s) && Moves(s, s', l)
    requires l in s.locks ==> LockOk(s', l)
    requires forall m <- s'.locks :: m in s'.sems
    ensures LocksOk(s')
  {
    hide LockOk, ThreadsOk, WaitersOk, Queues, IdleOk, Section;
    forall m <- s'.locks ensures LockOk(s', m) {
      if m != l {
        SectionsAfter(s, s', m);
        LockKept(s, s', m);
      }
    }
  }

  /** A free lock is taken: the thread that completes sem_down is the owner. */
  lemma LockGrabbed(s: State, s': State, k: Sid)
    requires k in s.locks && k in s.sems && k in s'.sems && k in s'.locks
    requires LockOk(s, k) && s.sems[k].value != 0
    requires s'.locks[k] == s.locks[k] && s'.sems[k].value == 0
    requires s.current in s.threads && s.current in s'.threads
    requires s'.threads == s.threads[s.current := s'.threads[s.current]]
    requires s'.threads[s.current].pc == InLock(AcqGot, k)
    ensures LockOk(s', k)
  {
    var owner: Option<Tid> :| LockAt(s, k, owner);
    assert LockAt(s', k, Some(s.current));
  }

  lemma DownFreeOk(s: State, k: Sid)
    requires Inv(s) && !s.panicked && k in s.sems && AtDown(s, k) && s.sems[k].value != 0
    ensures !SemDown(s, k).panicked && Inv(SemDown(s, k))
  {
    CurrentFacts(s);
    DepthAtDown(s, k);
    SemValue(s, k);
    hide Inv, WellTyped, ThreadOk, Section, LockOk, Moves, MovePcs;
    DownFreeMoves(s, k);
    DownFreeThread(s, k);
    if k in s.locks {
      LockOf(s, k);
      LockGrabbed(s, SemDown(s, k), k);
    }
    MoveOk(s, SemDown(s, k), k);
  }

  lemma DownFreeMoves(s: State, k: Sid)
    requires WellTyped(s) && k in s.sems && AtDown(s, k) && s.sems[k].value == 1 && !s.panicked
    requires Depth(s.threads[s.current], k) == 0
    requires AtIdle(s.threads[s.current].pc) <==> s.current == s.idle
    requires s.current != s.idle
    ensures !SemDown(s, k).panicked
    ensures Moves(s, SemDown(s, k), k) && MovePcs(s, SemDown(s, k), k)
  {
    DownSections(s, k);
    hide Section, Depth;
  }

  lemma DownFreeThread(s: State, k: Sid)
    requires s.current in s.threads && k in s.sems && AtDown(s, k) && s.sems[k].value == 1
    requires WellTyped(s) && ThreadOk(s, s.threads[s.current])
    requires Depth(s.threads[s.current], k) == 0 && s.threads[s.current].status.Running?
    ensures var s' := SemDown(s, k);
            && s.current in s'.threads && ThreadOk(s', s'.threads[s.current])
            && s'.threads == s.threads[s.current := s'.threads[s.current]]
            && k in s'.sems && s'.sems[k].value == 0 && s'.locks == s.locks
            && (k in s.locks ==> s'.threads[s.current].pc == InLock(AcqGot, k))
  {
    hide PcTyped;
    var th, th' := s.threads[s.current], SemDown(s, k).threads[s.current];
    assert forall l :: Depth(th', l) == Depth(th, l);
  }

  lemma LockOf(s: State, l: Sid)
    requires Inv(s) && l in s.locks
    ensures l in s.sems && LockOk(s, l)
  {
  }

  lemma DownSections(s: State, k: Sid)
    requires WellTyped(s) && k in s.sems && AtDown(s, k) && s.sems[k].value == 1
    ensures forall m <- s.locks :: m != k ==>
              Section(SemDown(s, k).threads[s.current], m) == Section(s.threads[s.current], m)
  {
  }

  // ----- sem_up -----

  /** s' is s after sem_up(k): the first waiter, if any, is READY at the front of the queue. */
  ghost predicate Raises(s: State, s': State, k: Sid) {
    && k in s.sems
    && s' == s.(threads := s'.threads, ready := s'.ready, sems := s'.sems)
    && if s.sems[k].waiters == [] then
         s'.threads == s.threads && s'.ready == s.ready && s'.sems == s.sems[k := Sem(1, [])]
       else
         var w := s.sems[k].waiters[0];
         && w in s.threads
         && s'.threads == s.threads[w := s.threads[w].(status := Ready)]
         && s'.ready == [w] + s.ready
         && s'.sems == s.sems[k := Sem(1, s.sems[k].waiters[1..])]
  }

  lemma SemUpRaises(s: State, k: Sid)
    requires Base(s) && k in s.sems && s.sems[k].value == 0 && !s.panicked
    ensures !SemUp(s, k).panicked && Raises(s, SemUp(s, k), k)
  {
    hide ThreadsOk, IdleOk, PcTyped, NoDuplicates;
    var q := s.sems[k].waiters;
    if q != [] {
      assert q[0] in q;
      assert WaitersOk(s, k);
      assert s.threads[q[0]].status.Blocked? && q[0] !in s.ready;
    }
  }

  lemma RaiseOk(s: State, s': State, k: Sid)
    requires Base(s) && Raises(s, s', k) && s.sems[k].value == 0
    ensures Base(s')
  {
    hide NoDuplicates, PcTyped, StatusOk, DepthOk;
    RaiseTyped(s, s', k);
    forall j <- s'.sems ensures WaitersOk(s', j) {
      RaiseWaiters(s, s', k, j);
    }
    var q := s.sems[k].waiters;
    if q != [] {
      assert q[0] in q;
      assert WaitersOk(s, k);
      RaiseQueues(s, s', q[0]);
      hide Queues, WaitersOk, WellTyped, IdleOk;
      assert ThreadOk(s, s.threads[q[0]]);
      RaisedThread(s, s.threads[q[0]]);
      ThreadsAfter(s, s', q[0]);
    }
  }

  lemma RaisedThread(s: State, th: Thread)
    requires ThreadOk(s, th)
    ensures ThreadOk(s, th.(status := Ready))
  {
    SameDepthOk(th, th.(status := Ready));
  }

  lemma RaiseTyped(s: State, s': State, k: Sid)
    requires WellTyped(s) && Raises(s, s', k)
    ensures WellTyped(s')
  {
    forall t <- s'.threads ensures PcTyped(s', s'.threads[t].pc) {
      assert PcTyped(s, s.threads[t].pc);
    }
  }

  lemma RaiseQueues(s: State, s': State, w: Tid)
    requires s.current in s.threads && Queues(s) && IdleOk(s) && w in s.threads
    requires s.threads[w].status.Blocked? && s.threads[w].pc.SemLoop?
    requires s' == s.(threads := s'.threads, ready := s'.ready, sems := s'.sems)
    requires s'.threads == s.threads[w := s.threads[w].(status := Ready)] && s'.ready == [w] + s.ready
    ensures Queues(s') && IdleOk(s')
  {
    assert w !in s.ready;
    QueuesAfterReady(s, s', w);
  }

  lemma RaiseWaiters(s: State, s': State, k: Sid, j: Sid)
    requires WellTyped(s) && Raises(s, s', k) && j in s.sems && WaitersOk(s, k) && WaitersOk(s, j)
    requires s.sems[k].value == 0
    ensures WaitersOk(s', j)
  {
    var q := s.sems[k].waiters;
    if q != [] {
      assert q[0] in q;
      if j == k {
        assert Rechecking(s'.threads[q[0]], k);
        assert forall t :: t in q <==> t == q[0] || t in q[1..];
      } else if s.sems[j].value == 1 && s.sems[j].waiters != [] {
        var t :| t in s.threads && Rechecking(s.threads[t], j);
        assert Rechecking(s'.threads[t], j);
      }
    }
  }

  lemma DeviceUpOk(s: State, k: Sid)
    requires Inv(s) && !s.panicked && k in s.sems && k !in s.locks && s.sems[k].value == 0
    ensures !SemUp(s, k).panicked && Inv(SemUp(s, k))
  {
    hide LockOk, ThreadsOk, PcTyped;
    var s' := SemUp(s, k);
    SemUpRaises(s, k);
    RaiseOk(s, s', k);
    RaiseLocks(s, s', k);
    assert s.threads[s.current].status.Running?;
    RaiseCurrent(s, s', k);
  }

  lemma RaiseCurrent(s: State, s': State, k: Sid)
    requires WellTyped(s) && Raises(s, s', k) && WaitersOk(s, k) && s.threads[s.current].status.Running?
    ensures s'.current in s'.threads && s'.threads[s'.current] == s.threads[s.current]
  {
    if s.sems[k].waiters != [] {
      assert s.sems[k].waiters[0] in s.sems[k].waiters;
    }
  }

  lemma RaiseLocks(s: State, s': State, k: Sid)
    requires WellTyped(s) && Raises(s, s', k)
    requires forall l <- s.locks :: l != k ==> LockOk(s, l)
    requires k in s.locks ==> LockOk(s', k)
    requires forall l <- s'.locks :: l in s'.sems
    ensures LocksOk(s')
  {
    hide PcTyped;
    forall l <- s'.locks ensures LockOk(s', l) {
      if l != k {
        hide LockOk;
        RaiseSections(s, s', k, l);
        LockKept(s, s', l);
      }
    }
  }

  lemma RaiseSections(s: State, s': State, k: Sid, l: Sid)
    requires Raises(s, s', k)
    ensures forall t <- s'.threads :: t in s.threads && Section(s'.threads[t], l) == Section(s.threads[t], l)
  {
    forall t <- s'.threads
      ensures t in s.threads && Section(s'.threads[t], l) == Section(s.threads[t], l)
    {
      assert t in s.threads && s'.threads[t].pc == s.threads[t].pc && s'.threads[t].depth == s.threads[t].depth;
      assert Depth(s'.threads[t], l) == Depth(s.threads[t], l);
    }
  }

  lemma LeaveBase(s: State, s0: State, l: Sid)
    requires Inv(s) && l in s.locks && s.threads[s.current].pc == InLock(RelUp, l)
    requires s0 == SetPc(s, User)
    ensures Base(s0) && s0.threads[s0.current].status.Running?
  {
    hide LocksOk, WaitersOk, LockOk;
    assert ThreadOk(s, s.threads[s.current]);
    assert forall m <- s.locks :: m != l ==> Section(s0.threads[s.current], m) == Section(s.threads[s.current], m);
    hide Section, ThreadsOk, PcTyped;
    MoveBase(s, s0, l);
  }

  lemma LeaveOwner(s: State, l: Sid)
    requires Inv(s) && l in s.locks && s.threads[s.current].pc == InLock(RelUp, l)
    ensures l in s.sems && Depth(s.threads[s.current], l) == 0
    ensures LockAt(s, l, Some(s.current))
  {
    hide LocksOk, LockOk, WaitersOk, Queues, IdleOk, PcTyped;
    LockOf(s, l);
    assert ThreadOk(s, s.threads[s.current]);
    hide ThreadsOk;
    OwnerIs(s, l);
  }

  lemma LeaveLocks(s: State, s0: State, l: Sid)
    requires Inv(s) && l in s.locks && s.threads[s.current].pc == InLock(RelUp, l)
    requires s0 == SetPc(s, User)
    ensures forall m <- s0.locks :: m in s0.sems && (m != l ==> LockOk(s0, m))
  {
    forall m <- s0.locks ensures m in s0.sems && (m != l ==> LockOk(s0, m)) {
      if m != l {
        SectionsAfter(s, s0, m);
        LockOf(s, m);
        LockKept(s, s0, m);
      }
    }
  }

  /** The last statement of lock_release: the owner leaves and the lock is free. */
  lemma RelUpOk(s: State, s0: State, l: Sid)
    requires Inv(s) && !s.panicked && l in s.locks && s.threads[s.current].pc == InLock(RelUp, l)
    requires s0 == SetPc(s, User)
    ensures WellTyped(s0) && l in s0.sems && !SemUp(s0, l).panicked && Inv(SemUp(s0, l))
  {
    LeaveBase(s, s0, l);
    LeaveOwner(s, l);
    LeaveLocks(s, s0, l);
    hide LockOk, LocksOk, WaitersOk, PcTyped, ThreadsOk, Queues, IdleOk, Section, SemUp;
    SemUpRaises(s0, l);
    LeaveRaised(s, s0, SemUp(s0, l), l);
  }

  lemma LeaveRaised(s: State, s0: State, s': State, l: Sid)
    requires Base(s0) && Raises(s0, s', l) && s0.threads[s0.current].status.Running?
    requires l in s.locks && l in s.sems && LockAt(s, l, Some(s.current)) && s.current in s.threads
    requires s.threads[s.current].pc == InLock(RelUp, l) && Depth(s.threads[s.current], l) == 0
    requires s0 == SetPc(s, User)
    requires forall m <- s0.locks :: m != l ==> LockOk(s0, m)
    ensures Inv(s')
  {
    hide LockOk, WaitersOk, PcTyped, ThreadsOk, Queues, IdleOk, Section, Depth;
    assert s0.sems[l].value == 0;
    RaiseOk(s0, s', l);
    assert WaitersOk(s0, l);
    RaiseCurrent(s0, s', l);
    LockReleased(s, s0, s', l);
    RaiseLocks(s0, s', l);
  }

  lemma OwnerIs(s: State, l: Sid)
    requires l in s.locks && l in s.sems && LockOk(s, l)
    requires s.current in s.threads && Section(s.threads[s.current], l).Some?
    ensures LockAt(s, l, Some(s.current))
  {
    hide Section;
    var owner: Option<Tid> :| LockAt(s, l, owner);
  }

  lemma LockReleased(s: State, s0: State, s': State, l: Sid)
    requires l in s.locks && l in s.sems && l in s'.sems && s'.sems[l].value == 1
    requires s.current in s.threads && s.threads[s.current].pc == InLock(RelUp, l)
    requires Depth(s.threads[s.current], l) == 0
    requires LockAt(s, l, Some(s.current))
    requires s0 == SetPc(s, User) && Raises(s0, s', l)
    ensures LockOk(s', l)
  {
    RaiseSections(s0, s', l, l);
    forall t <- s'.threads ensures Section(s'.threads[t], l) == None {
      assert t != s.current ==> s0.threads[t] == s.threads[t];
    }
    assert LockAt(s', l, None);
  }

  // ----- the other statements -----

  /** What the fields of a lock say to the current thread. */
  lemma LockFields(s: State, l: Sid)
    requires l in s.locks && l in s.sems && LockOk(s, l) && s.current in s.threads
    ensures match Section(s.threads[s.current], l)
            case None => s.locks[l].holder != Some(s.current)
            case Some(sec) => s.locks[l] == Lock(if sec.0 then Some(s.current) else None, sec.1)
  {
    hide Section;
    var owner: Option<Tid> :| LockAt(s, l, owner);
  }

  /** The owner of l moves on inside its section. */
  lemma OwnerMoveOk(s: State, s': State, l: Sid)
    requires Inv(s) && Moves(s, s', l) && MovePcs(s, s', l) && l in s.locks && s'.sems == s.sems
    requires ThreadOk(s', s'.threads[s.current])
    requires Section(s.threads[s.current], l).Some? && Section(s'.threads[s.current], l).Some?
    requires var sec := Section(s'.threads[s.current], l).value;
             s'.locks[l] == Lock(if sec.0 then Some(s.current) else None, sec.1)
    ensures Inv(s')
  {
    hide Inv, Section, ThreadOk, LockOk;
    LockOf(s, l);
    OwnerIs(s, l);
    OwnerStays(s, s', l);
    MoveOk(s, s', l);
  }

  lemma OwnerStays(s: State, s': State, l: Sid)
    requires l in s.locks && l in s.sems && LockAt(s, l, Some(s.current))
    requires s.current in s'.threads && s'.threads == s.threads[s.current := s'.threads[s.current]]
    requires l in s'.locks && l in s'.sems && s'.sems[l] == s.sems[l]
    requires Section(s'.threads[s.current], l).Some?
    requires var sec := Section(s'.threads[s.current], l).value;
             s'.locks[l] == Lock(if sec.0 then Some(s.current) else None, sec.1)
    ensures LockOk(s', l)
  {
    hide Section;
    assert LockAt(s', l, Some(s.current));
  }

  /** What a statement of lock_acquire or lock_release may assume of the thread that executes it. */
  lemma ThreadFacts(s: State, l: Sid)
    requires Inv(s) && s.threads[s.current].pc.InLock? && s.threads[s.current].pc.lock == l
    ensures WellTyped(s) && l in s.locks && s.current != s.idle
    ensures ThreadOk(s, s.threads[s.current]) && s.threads[s.current].status.Running?
  {
  }

  /** A statement between a completed sem_down and the next sem_up: no assertion fails, and the
      lock describes the thread afterwards as it did before. */
  lemma StatementOk(at: Point, l: Sid, me: Tid, th: Thread, lock: Lock)
    requires !at.AcqDown? && !at.RelUp? && th.pc == InLock(at, l) && DepthAt(at, Depth(th, l))
    requires Section(th, l).Some?
    requires var sec := Section(th, l).value; lock == Lock(if sec.0 then Some(me) else None, sec.1)
    ensures var e := Statement(at, l, me, th, lock);
            && e.Leaves?
            && (e.thread.pc.User? || (e.thread.pc.InLock? && e.thread.pc.lock == l))
            && e.thread.status == th.status
            && DepthOk(e.thread)
            && e.thread.depth.Keys <= th.depth.Keys + {l}
            && Section(e.thread, l).Some?
            && var sec := Section(e.thread, l).value; e.lock == Lock(if sec.0 then Some(me) else None, sec.1)
    ensures forall m :: m != l ==> Section(Statement(at, l, me, th, lock).thread, m) == Section(th, m)
  {
  }

  /** s' is s after the current thread executed a statement on lock l that left `th` and `lock`. */
  lemma StatementMoves(s: State, s': State, at: Point, l: Sid, th: Thread, lock: Lock)
    requires s.current in s.threads && l in s.locks && l in s.sems
    requires s.threads[s.current].pc == InLock(at, l)
    requires th.pc.User? || (th.pc.InLock? && th.pc.lock == l)
    requires th.status == s.threads[s.current].status
    requires forall m :: m != l ==> Section(th, m) == Section(s.threads[s.current], m)
    requires s' == SetLock(SetThread(s, s.current, th), l, lock)
    ensures Moves(s, s', l) && MovePcs(s, s', l)
    ensures s'.threads[s.current] == th && s'.locks[l] == lock && s'.sems == s.sems
  {
    hide Section;
  }

  lemma SectionStatementOk(s: State, s': State, at: Point, l: Sid)
    requires Inv(s) && l in s.locks && s.threads[s.current].pc == InLock(at, l)
    requires !at.AcqDown? && !at.RelUp? && (at.RelTest? ==> Depth(s.threads[s.current], l) > 0)
    requires s' == LockStatement(s, at, l)
    ensures s'.panicked == s.panicked && Inv(s')
  {
    hide Inv, LockOk, LocksOk, WellTyped;
    ThreadFacts(s, l);
    LockOf(s, l);
    LockFields(s, l);
    var me, th := s.current, s.threads[s.current];
    StatementOk(at, l, me, th, s.locks[l]);
    var e := Statement(at, l, me, th, s.locks[l]);
    hide Section, DepthOk, Statement;
    StatementMoves(s, s', at, l, e.thread, e.lock);
    assert ThreadOk(s', e.thread);
    OwnerMoveOk(s, s', l);
  }

  lemma LockStatementOk(s: State, at: Point, l: Sid)
    requires Inv(s) && !s.panicked && l in s.locks && s.threads[s.current].pc == InLock(at, l)
    requires at.RelTest? ==> Depth(s.threads[s.current], l) > 0
    ensures !LockStatement(s, at, l).panicked && Inv(LockStatement(s, at, l))
  {
    ThreadFacts(s, l);
    LockOf(s, l);
    hide Inv, LocksOk, LockOk, WellTyped, ThreadOk, Statement, Section, SemDown, SemUp;
    if at.AcqDown? {
      if s.sems[l].value == 0 { DownBlockedOk(s, l); } else { DownFreeOk(s, l); }
    } else if at.RelUp? {
      RelUpOk(s, SetPc(s, User), l);
      assert LockStatement(s, at, l) == SemUp(SetPc(s, User), l);
    } else {
      SectionStatementOk(s, LockStatement(s, at, l), at, l);
    }
  }

  /** s' is s with another record for the current thread, which is not inside sem_down. */
  ghost predicate Replaces(s: State, s': State) {
    && s.current in s.threads && s.current in s'.threads
    && s' == s.(threads := s'.threads)
    && s'.threads == s.threads[s.current := s'.threads[s.current]]
    && !s.threads[s.current].pc.SemLoop? && !s'.threads[s.current].pc.SemLoop?
  }

  lemma ReplaceBase(s: State, s': State)
    requires Base(s) && Replaces(s, s') && Queues(s') && IdleOk(s')
    requires PcTyped(s', s'.threads[s.current].pc) && ThreadOk(s', s'.threads[s.current])
    ensures Base(s')
  {
    hide Queues, IdleOk, NoDuplicates, WaitersOk, StatusOk, DepthOk;
    assert ThreadsOk(s') by { ThreadsAfter(s, s', s.current); }
    hide ThreadsOk, ThreadOk;
    assert WellTyped(s') by { ReplaceTyped(s, s'); }
    hide PcTyped;
    forall k <- s'.sems ensures WaitersOk(s', k) {
      WaitersKept(s, s', k);
    }
  }

  lemma ReplaceTyped(s: State, s': State)
    requires WellTyped(s) && Replaces(s, s') && PcTyped(s', s'.threads[s.current].pc)
    ensures WellTyped(s')
  {
    forall t <- s'.threads ensures PcTyped(s', s'.threads[t].pc) {
      assert PcTyped(s, s.threads[t].pc);
    }
  }

  lemma ReplaceLocks(s: State, s': State)
    requires Base(s) && LocksOk(s) && Replaces(s, s')
    requires forall l :: Section(s'.threads[s.current], l) == Section(s.threads[s.current], l)
    ensures forall l <- s'.locks :: l in s'.sems
    ensures LocksOk(s')
  {
    hide LockOk, ThreadsOk, Queues, WaitersOk, PcTyped, IdleOk, Section;
    forall l <- s'.locks ensures LockOk(s', l) {
      SectionsAfter(s, s', l);
      LockKept(s, s', l);
    }
  }

  lemma CurrentFacts(s: State)
    requires Inv(s)
    ensures WellTyped(s) && s.current in s.threads
    ensures AtIdle(s.threads[s.current].pc) <==> s.current == s.idle
    ensures ThreadOk(s, s.threads[s.current]) && s.threads[s.current].status.Running?
  {
  }

  /** Program points between which a thread may move without any lock or semaphore seeing it. */
  predicate MovesAside(s: State, th: Thread, pc: Pc) {
    match th.pc
    case User =>
      && pc.InLock? && pc.lock in s.locks
      && (pc.at.RelTest? || (pc.at.AcqNest? && Depth(th, pc.lock) > 0) || (pc.at.AcqDown? && Depth(th, pc.lock) == 0))
    case Parked => pc.User? && th.status.Running?
    case IdleHalt => pc.IdleLoop?
    case _ => false
  }

  lemma AsideThread(s: State, th: Thread, pc: Pc)
    requires ThreadOk(s, th) && MovesAside(s, th, pc)
    ensures ThreadOk(s, th.(pc := pc)) && PcTyped(s, pc)
    ensures !th.pc.SemLoop? && !pc.SemLoop? && (AtIdle(pc) <==> AtIdle(th.pc))
    ensures forall l :: Section(th.(pc := pc), l) == Section(th, l)
  {
    assert forall l :: Depth(th.(pc := pc), l) == Depth(th, l);
  }

  /** The queues and the idle thread do not see where the current thread is. */
  lemma AsideQueues(s: State, s': State, pc: Pc)
    requires s.current in s.threads && Queues(s) && IdleOk(s)
    requires s' == SetPc(s, pc) && (AtIdle(pc) <==> AtIdle(s.threads[s.current].pc))
    ensures Queues(s') && IdleOk(s')
  {
  }

  lemma MoveAsideOk(s: State, pc: Pc)
    requires Inv(s) && MovesAside(s, s.threads[s.current], pc)
    ensures Inv(SetPc(s, pc))
  {
    CurrentFacts(s);
    hide LocksOk, MovesAside;
    var s' := SetPc(s, pc);
    AsideThread(s, s.threads[s.current], pc);
    AsideQueues(s, s', pc);
    hide IdleOk, Queues, WaitersOk, WellTyped, ThreadsOk, Section, AtIdle;
    assert PcTyped(s', pc);
    assert ThreadOk(s', s'.threads[s.current]);
    hide PcTyped, ThreadOk;
    ReplaceBase(s, s');
    ReplaceLocks(s, s');
  }

  lemma CallOk(s: State, at: Point, l: Sid)
    requires Inv(s) && l in s.locks && s.threads[s.current].pc.User?
    requires at.RelTest? || at == (if s.locks[l].holder == Some(s.current) then AcqNest else AcqDown)
    ensures Inv(SetPc(s, InLock(at, l)))
  {
    hide Inv, LockOk, WellTyped, ThreadOk;
    CurrentFacts(s);
    LockOf(s, l);
    LockFields(s, l);
    MoveAsideOk(s, InLock(at, l));
  }

  lemma SuspendQueues(s: State, s1: State)
    requires s.current in s.threads && Queues(s) && IdleOk(s)
    requires s.current in s1.threads && s1 == SetThread(s, s.current, s1.threads[s.current])
    requires !s1.threads[s.current].status.Ready? && !s1.threads[s.current].status.Died?
    requires s.threads[s.current].status.Running?
    requires s.current == s.idle ==> s1.threads[s.current].pc.IdleHalt? && s1.threads[s.current].status.Blocked?
    requires s.current != s.idle ==> !AtIdle(s1.threads[s.current].pc)
    ensures IdleOk(s1) && Queues(s1)
  {
    hide NoDuplicates;
  }

  /** The current thread suspends itself outside sem_down. */
  lemma SuspendOk(s: State, status: Status, pc: Pc)
    requires Inv(s) && !s.panicked && PcTyped(s, pc)
    requires if s.current == s.idle then pc.IdleHalt? && status.Blocked?
             else pc.Parked? && Wakeable(status) && s.threads[s.current].pc.User?
    ensures !ThreadLock(s, status, pc).panicked && Inv(ThreadLock(s, status, pc))
  {
    CurrentFacts(s);
    var s1 := SetThread(s, s.current, s.threads[s.current].(status := status, pc := pc));
    hide LocksOk, WaitersOk, WellTyped, ThreadsOk;
    SuspendQueues(s, s1);
    hide IdleOk, Queues;
    ReplaceBase(s, s1);
    ReplaceLocks(s, s1);
    RescheduleOk(s1, s1);
  }

  lemma WakeOk(s: State, t: Tid)
    requires Inv(s) && !s.panicked && t in s.threads && t != s.idle && !s.threads[t].pc.SemLoop?
    requires Wakeable(s.threads[t].status)
    ensures !ThreadUnlock(s, t).panicked && Inv(ThreadUnlock(s, t))
  {
    hide LocksOk, ThreadsOk, WaitersOk, PcTyped;
    var s' := ThreadUnlock(s, t);
    assert t !in s.ready;
    QueuesAfterReady(s, s', t);
    RestatusOk(s, s', t);
    LocksKept(s, s');
  }

  lemma StartOk(s: State, t: Tid, priority: Byte)
    requires Inv(s) && !s.panicked && t !in s.threads
    ensures !ThreadStart(s, t, priority).panicked && Inv(ThreadStart(s, t, priority))
  {
    var s' := ThreadStart(s, t, priority);
    assert t !in s.ready;
    StartBase(s, s', t);
    StartLocks(s, s', t);
  }

  /** s' is s with a thread that has not run yet, at the end of the ready list. */
  ghost predicate Starts(s: State, s': State, t: Tid) {
    && t !in s.threads && t in s'.threads
    && s' == s.(threads := s'.threads, ready := s.ready + [t])
    && s'.threads == s.threads[t := s'.threads[t]]
    && s'.threads[t].pc.User? && s'.threads[t].status.Ready? && s'.threads[t].depth == map[]
  }

  lemma StartBase(s: State, s': State, t: Tid)
    requires Base(s) && Starts(s, s', t)
    ensures Base(s')
  {
    assert forall u <- s.ready :: u in s.threads;
    hide WaitersOk, ThreadsOk;
    StartQueues(s, s', t);
    hide Queues, IdleOk, NoDuplicates;
    assert ThreadsOk(s') by { ThreadsAfter(s, s', t); }
    hide ThreadsOk, ThreadOk;
    assert WellTyped(s') by { StartTyped(s, s', t); }
    hide PcTyped;
    forall k <- s'.sems ensures WaitersOk(s', k) {
      WaitersKept(s, s', k);
    }
  }

  lemma StartQueues(s: State, s': State, t: Tid)
    requires Queues(s) && IdleOk(s) && Starts(s, s', t) && forall u <- s.ready :: u in s.threads
    requires s.current in s.threads
    ensures Queues(s') && IdleOk(s')
  {
    assert t !in s.ready;
  }

  lemma StartTyped(s: State, s': State, t: Tid)
    requires WellTyped(s) && Starts(s, s', t)
    ensures WellTyped(s')
  {
    forall u <- s'.threads ensures PcTyped(s', s'.threads[u].pc) {
      assert u != t ==> PcTyped(s, s.threads[u].pc);
    }
  }

  lemma StartLocks(s: State, s': State, t: Tid)
    requires Base(s) && LocksOk(s) && Starts(s, s', t)
    ensures forall l <- s'.locks :: l in s'.sems
    ensures LocksOk(s')
  {
    hide LockOk, ThreadsOk, Queues, WaitersOk, PcTyped, IdleOk;
    forall l <- s'.locks ensures LockOk(s', l) {
      LockKept(s, s', l);
    }
  }

  // ----- every event -----

  /** The calls the interface forbids: raising a semaphore that is already up, suspending in a state
      that is not a suspended one, waking a thread that is not suspended, and releasing a lock the
      caller does not hold. */
  predicate Misuse(s: State, e: Event)
    requires Enabled(s, e)
  {
    match e
    case DeviceUp(k) => s.sems[k].value == 1
    case Park(status) => !(status == Blocked || status == Waiting || status == Hanging)
    case Wake(t) =>
      var status := s.threads[t].status;
      status == Running || status == Ready || status == Died
    case Continue =>
      var th := s.threads[s.current];
      th.pc.InLock? && th.pc.at.RelTest? && Depth(th, th.pc.lock) == 0
    case _ => false
  }

  lemma ContinueOk(s: State)
    requires Inv(s) && Enabled(s, Continue) && !Misuse(s, Continue)
    ensures !Next(s, Continue).panicked && Inv(Next(s, Continue))
  {
    CurrentFacts(s);
    hide Inv, WellTyped, ThreadOk, LockStatement, SemDown;
    match s.threads[s.current].pc
    case SemLoop(k) =>
      if s.sems[k].value == 0 { DownBlockedOk(s, k); } else { DownFreeOk(s, k); }
    case InLock(at, l) => LockStatementOk(s, at, l);
    case Parked => MoveAsideOk(s, User);
    case IdleLoop => SuspendOk(s, Blocked, IdleHalt);
    case IdleHalt => MoveAsideOk(s, IdleLoop);
  }

  lemma MisuseFails(s: State, e: Event)
    requires Inv(s) && Enabled(s, e) && Misuse(s, e)
    ensures Next(s, e).panicked
  {
    hide Inv;
    CurrentFacts(s);
    hide ThreadOk, PcTyped;
    if e.Continue? {
      var l := s.threads[s.current].pc.lock;
      LockOf(s, l);
      hide WellTyped, LockOk;
      LockFields(s, l);
    }
  }

  /** Every event keeps the invariant; and an assertion of the code fails exactly on misuse. */
  lemma EventOk(s: State, e: Event)
    requires Inv(s) && Enabled(s, e)
    ensures Next(s, e).panicked <==> Misuse(s, e)
    ensures !Next(s, e).panicked ==> Inv(Next(s, e))
  {
    if Misuse(s, e) {
      MisuseFails(s, e);
    } else {
      CurrentFacts(s);
      match e
      case Timer => TimerOk(s);
      case DeviceUp(k) => SemValue(s, k); DeviceUpOk(s, k);
      case Acquire(l) => CallOk(s, if s.locks[l].holder == Some(s.current) then AcqNest else AcqDown, l);
      case Release(l) => CallOk(s, RelTest, l);
      case Down(k) => if s.sems[k].value == 0 { DownBlockedOk(s, k); } else { DownFreeOk(s, k); }
      case Yield => YieldOk(s);
      case Park(status) => SuspendOk(s, status, Parked);
      case Wake(t) => WakeOk(s, t);
      case Start(t, priority) => StartOk(s, t, priority);
      case Continue => ContinueOk(s);
    }
  }

  lemma SemValue(s: State, k: Sid)
    requires Inv(s) && k in s.sems
    ensures s.sems[k].value <= 1
  {
    assert WaitersOk(s, k);
  }
}
