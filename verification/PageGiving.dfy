/** free_pages of a live allocation: how it ends, and that it keeps the invariant and the account. */
module PageGiving {
  import opened Paging
  import opened PageBooks
  import opened PageRelease
  import opened PageStates
  import UP = UserProcess
  import PM = PageManager

  // ----- how it ends -----

  /** The run starts with the frame that pfree and free_pages take for one of the kernel. */
  predicate StartsWithFirst(e: Setting, frames: seq<FrameNo>) {
    e.pf.User? && frames != [] && frames[0] == e.c.uStart
  }

  lemma HeldOccupied(e: Setting, s: State, q: nat, frames: seq<FrameNo>)
    requires Ready(e, s) && Held(e, s, q, frames) && !StartsWithFirst(e, frames)
    ensures Occupied(e.c, s.b, e.d, e.pf, q, frames)
  {
    GoodParts(e.c, s.b, e.d);
    hide Good, RunMapped, OwnTables, TablesOutside, UP.FreeBitsUnmapped, Free, NotATable, KernelReady;
    forall f | f in frames ensures Homeward(e.c, e.pf, f) {
      assert HeldFrame(e, s.b, f);
      var j :| 0 <= j < |frames| && frames[j] == f;
    }
  }

  lemma HeldFirst(e: Setting, s: State, q: nat, frames: seq<FrameNo>)
    requires Held(e, s, q, frames)
    ensures HasTable(s.b.mem, e.d, q) && FrameFor(s.b.mem, e.d, q) == frames[0] && frames[0] >= 0x102
    ensures !StartsWithFirst(e, frames) ==> (frames[0] > e.c.uStart <==> e.pf.User?)
  {
    hide RunMapped, Free, NotATable, HasTable, FrameFor;
    PageHasTable(s.b.mem, e.d, q, frames, 0);
    assert frames[0] in frames;
  }

  /** free_pages of an allocation stops on a failed assertion if it starts with the first user frame;
      otherwise it gets to its end exactly when the page behind it has a page table, and takes away exactly that
      allocation.  Without that table it faults. */
  lemma ReleaseOutcome(e: Setting, s: State, q: nat)
    requires Inv(e, s) && q in s.live
    ensures Allocated(e, s, q)
    ensures var n := |s.live[q]|;
            var r := FreePages(e.c, s.b, e.d, q, n);
            if StartsWithFirst(e, s.live[q]) then r.Stopped?
            else if HasTable(s.b.mem, e.d, q + n) then
              r.Done? && Returned(e.c, s.b, r.b, e.d, e.pf, q, s.live[q], n)
            else r.Fault?
  {
    var frames := s.live[q];
    HeldParts(e, s, q);
    hide Good, UP.FreeBitsUnmapped, KernelReady, LostKept, AllHeld, Held, Occupied, HasTable, FrameFor, Shrink, Returned;
    GoodParts(e.c, s.b, e.d);
    HeldFirst(e, s, q, frames);
    if StartsWithFirst(e, frames) {
      ShrinkStops(e.c, s.b, e.d, q, |frames|);
    } else {
      HeldOccupied(e, s, q, frames);
      hide Ready, Inv, StartsWithFirst;
      ShrinkReturns(e.c, s.b, e.d, e.pf, q, frames, |frames|);
    }
  }

  lemma ReleaseAnswers(e: Setting, s: State, q: nat)
    requires Inv(e, s) && Releases(e, s, q)
    ensures !StartsWithFirst(e, s.live[q]) && HasTable(s.b.mem, e.d, q + |s.live[q]|)
  {
    ReleaseOutcome(e, s, q);
    hide Inv, FreePages, Returned, HasTable, StartsWithFirst;
  }

  lemma HeldParts(e: Setting, s: State, q: nat)
    requires Inv(e, s) && q in s.live
    ensures Held(e, s, q, s.live[q]) && Allocated(e, s, q) && s.live[q] != [] && q + |s.live[q]| <= 1023 * 1024
  {
    hide Good, UP.FreeBitsUnmapped, KernelReady, LostKept, RunMapped, HeldFrame;
  }

  /** For the kernel pool it always gets to its end. */
  lemma KernelReleases(e: Setting, s: State, q: nat)
    requires Inv(e, s) && e.pf.Kernel? && q in s.live
    ensures Releases(e, s, q)
  {
    ReleaseOutcome(e, s, q);
    HeldParts(e, s, q);
    KernelHasTable(e, s, q + |s.live[q]|);
    hide Inv, FreePages, HasTable, Returned;
  }

  lemma KernelHasTable(e: Setting, s: State, r: PageNo)
    requires Ready(e, s) && e.pf.Kernel? && e.first <= r <= 1023 * 1024
    ensures HasTable(s.b.mem, e.d, r)
  {
    hide Free, UP.FreeBitsUnmapped, OwnTables, FrameOf;
  }

  // ----- the state afterwards -----

  /** The allocation at q is gone, and nothing else. */
  ghost predicate Freed(e: Setting, s: State, q: nat, s': State) {
    && Allocated(e, s, q)
    && Returned(e.c, s.b, s'.b, e.d, e.pf, q, s.live[q], |s.live[q]|)
    && s'.bits == PM.RunSet(s.bits, q - e.first, |s.live[q]|, false)
    && s'.live == s.live - {q} && s'.lostPages == s.lostPages && s'.lostFrames == s.lostFrames && s'.tables == s.tables
  }

  lemma ReleaseFrees(e: Setting, s: State, q: nat)
    requires Inv(e, s) && Releases(e, s, q)
    ensures Freed(e, s, q, AfterRelease(e, s, q))
  {
    ReleaseOutcome(e, s, q);
    hide Inv, FreePages, Returned, HasTable;
  }

  lemma FreedGives(e: Setting, s: State, q: nat, s': State)
    requires Freed(e, s, q, s')
    ensures PoolsOk(e.c) && Sized(e.c, s.b) && Sized(e.c, s'.b) && Given(e.c, s.b, s'.b, e.pf, s.live[q])
    ensures SameDirectory(s.b.mem, s'.b.mem, e.d) && StaysOpen(s.b.mem, s'.b.mem, e.d)
    ensures forall r: PageNo {:trigger PageAt(s'.b.mem, e.d, r)} :: Ordinary(r) ==>
              PageAt(s'.b.mem, e.d, r) == if InRun(r, q, |s.live[q]|) then None else PageAt(s.b.mem, e.d, r)
  {
    assert s.live[q][..|s.live[q]|] == s.live[q];
    hide PageAt, SameDirectory;
  }

  /** A frame that was not free and is not given back is not free. */
  lemma StillTaken(e: Setting, s: State, q: nat, s': State, f: FrameNo)
    requires Freed(e, s, q, s') && f !in s.live[q]
    ensures PoolsOk(e.c) && Sized(e.c, s.b) && Sized(e.c, s'.b) && (Free(e.c, s'.b, f) ==> Free(e.c, s.b, f))
  {
    FreedGives(e, s, q, s');
    hide Freed;
    forall pg ensures FreeIn(e.c, s'.b, pg, f) ==> FreeIn(e.c, s.b, pg, f) {
      if StartOf(e.c, pg) <= f < StartOf(e.c, pg) + LenOf(e.c, pg) {
        var x := f - StartOf(e.c, pg);
        assert BitsFor(s'.b, pg)[x] <==> BitsFor(s.b, pg)[x] && !(pg == e.pf && f in s.live[q]);
      }
    }
  }

  lemma StillNoTable(mem: Phys, mem2: Phys, d: FrameNo, f: FrameNo)
    requires SameDirectory(mem, mem2, d) && NotATable(mem, d, f)
    ensures NotATable(mem2, d, f)
  {
    hide At, Present, FrameOf;
  }

  lemma FreedGood(e: Setting, s: State, q: nat, s': State)
    requires Good(e.c, s.b, e.d) && Freed(e, s, q, s') && Held(e, s, q, s.live[q])
    ensures Good(e.c, s'.b, e.d)
  {
    FreedGives(e, s, q, s');
    DirectoryShape(s.b.mem, s'.b.mem, e.d);
    HeldNoTables(e, s, q, s.live[q]);
    hide Freed, Held, Given, At, Present, FrameOf, OwnTables, SelfMapped, Free, NotATable;
    NoTableIsNot(s.b.mem, e.d, s.live[q]);
    StillTaken(e, s, q, s', e.d);
    forall k | 0 <= k < 1023 && Present(At(s'.b.mem, e.d, k))
      ensures FrameOf(At(s'.b.mem, e.d, k)) != e.d && !Free(e.c, s'.b, FrameOf(At(s'.b.mem, e.d, k)))
    {
      assert InFrame(k) && At(s'.b.mem, e.d, k) == At(s.b.mem, e.d, k);
      StillTaken(e, s, q, s', FrameOf(At(s.b.mem, e.d, k)));
    }
  }

  lemma HeldNoTables(e: Setting, s: State, q: nat, frames: seq<FrameNo>)
    requires Held(e, s, q, frames)
    ensures forall f :: f in frames ==> NotATable(s.b.mem, e.d, f)
  {
    hide RunMapped, Free, NotATable;
    assert forall f :: f in frames ==> HeldFrame(e, s.b, f);
  }

  lemma NoTableIsNot(mem: Phys, d: FrameNo, frames: seq<FrameNo>)
    requires forall f :: f in frames ==> NotATable(mem, d, f)
    ensures d !in frames
    ensures forall k :: InFrame(k) && Present(At(mem, d, k)) ==> FrameOf(At(mem, d, k)) !in frames
  {
    hide At, Present, FrameOf;
  }

  lemma FreedFreeBits(e: Setting, s: State, q: nat, s': State)
    requires OrdinaryRun(e.first, |s.bits|) && Freed(e, s, q, s')
    requires UP.FreeBitsUnmapped(s.b.mem, e.d, e.first, s.bits)
    ensures UP.FreeBitsUnmapped(s'.b.mem, e.d, e.first, s'.bits)
  {
    FreedGives(e, s, q, s');
    hide PageAt, Given, SameDirectory, Returned;
    forall r: PageNo | e.first <= r < e.first + |s'.bits| && !s'.bits[r - e.first]
      ensures PageAt(s'.b.mem, e.d, r) == None
    {
      assert Ordinary(r);
      if !InRun(r, q, |s.live[q]|) { assert !s.bits[r - e.first]; }
    }
  }

  lemma FreedReady(e: Setting, s: State, q: nat, s': State)
    requires Ready(e, s) && Freed(e, s, q, s') && Held(e, s, q, s.live[q])
    ensures Ready(e, s')
  {
    FreedGood(e, s, q, s');
    FreedFreeBits(e, s, q, s');
    FreedGives(e, s, q, s');
    hide Good, UP.FreeBitsUnmapped, Held, Given, Returned, PageAt, At, Present;
    assert forall k :: 768 <= k < 1023 ==> InFrame(k);
  }

  /** Another allocation stays. */
  lemma OtherHeld(e: Setting, s: State, q: nat, s': State, p: nat, frames: seq<FrameNo>)
    requires OrdinaryRun(e.first, |s.bits|) && Freed(e, s, q, s') && Held(e, s, p, frames)
    requires (p + |frames| <= q || q + |s.live[q]| <= p) && forall f :: f in frames ==> f !in s.live[q]
    ensures Held(e, s', p, frames)
  {
    FreedGives(e, s, q, s');
    hide Freed, Given, SameDirectory, Free, NotATable, PageAt;
    forall f | f in frames ensures HeldFrame(e, s'.b, f) {
      assert HeldFrame(e, s.b, f);
      StillTaken(e, s, q, s', f);
      StillNoTable(s.b.mem, s'.b.mem, e.d, f);
    }
    forall j | 0 <= j < |frames| ensures PageAt(s'.b.mem, e.d, p + j) == Some(frames[j]) {
      var r: PageNo := p + j;
      assert PageAt(s.b.mem, e.d, r) == Some(frames[j]);
      assert Ordinary(r) && !InRun(r, q, |s.live[q]|);
    }
    FreedBits(e, s, q, s');
  }

  lemma FreedBits(e: Setting, s: State, q: nat, s': State)
    requires Freed(e, s, q, s')
    ensures |s'.bits| == |s.bits|
    ensures forall x {:trigger s'.bits[x]} :: 0 <= x < |s.bits| ==>
              (s'.bits[x] <==> s.bits[x] && !InRun(e.first + x, q, |s.live[q]|))
  {
    hide Returned;
  }

  /** What the release takes from the account. */
  ghost predicate Takes(s: State, q: nat, s': State)
    requires q in s.live
  {
    && (forall x :: LivePage(s', x) <==> LivePage(s, x) && !InRun(x, q, |s.live[q]|))
    && (forall f :: LiveFrame(s', f) <==> LiveFrame(s, f) && f !in s.live[q])
  }

  lemma ReleaseTakes(e: Setting, s: State, q: nat, s': State)
    requires AllHeld(e, s) && q in s.live && s'.live == s.live - {q}
    ensures Takes(s, q, s')
  {
    forall x: int ensures LivePage(s', x) <==> LivePage(s, x) && !InRun(x, q, |s.live[q]|) {
      TakesPage(e, s, q, s', x);
    }
    forall f: FrameNo ensures LiveFrame(s', f) <==> LiveFrame(s, f) && f !in s.live[q] {
      TakesFrame(e, s, q, s', f);
    }
    hide AllHeld, LivePage, LiveFrame;
  }

  lemma TakesPage(e: Setting, s: State, q: nat, s': State, x: int)
    requires AllHeld(e, s) && q in s.live && s'.live == s.live - {q}
    ensures LivePage(s', x) <==> LivePage(s, x) && !InRun(x, q, |s.live[q]|)
  {
    hide AllHeld;
    if LivePage(s, x) {
      var p :| p in s.live && InRun(x, p, |s.live[p]|);
      if p != q {
        assert p in s'.live && s'.live[p] == s.live[p];
        TwoApart(e, s, p, q);
      }
    }
    if LivePage(s', x) {
      var p :| p in s'.live && InRun(x, p, |s'.live[p]|);
      assert p in s.live && s.live[p] == s'.live[p] && p != q;
      TwoApart(e, s, p, q);
    }
  }

  lemma TakesFrame(e: Setting, s: State, q: nat, s': State, f: FrameNo)
    requires AllHeld(e, s) && q in s.live && s'.live == s.live - {q}
    ensures LiveFrame(s', f) <==> LiveFrame(s, f) && f !in s.live[q]
  {
    hide AllHeld;
    if LiveFrame(s, f) {
      var p :| p in s.live && f in s.live[p];
      if p != q {
        assert p in s'.live && s'.live[p] == s.live[p];
        TwoApart(e, s, p, q);
      }
    }
    if LiveFrame(s', f) {
      var p :| p in s'.live && f in s'.live[p];
      assert p in s.live && s.live[p] == s'.live[p] && p != q;
      TwoApart(e, s, p, q);
    }
  }

  lemma TwoApart(e: Setting, s: State, p: nat, q: nat)
    requires AllHeld(e, s) && p in s.live && q in s.live && p != q
    ensures (p + |s.live[p]| <= q || q + |s.live[q]| <= p) && FramesApart(s.live[p], s.live[q])
  {
    hide Held;
    if p > q { assert FramesApart(s.live[q], s.live[p]); }
  }

  lemma FreedLost(e: Setting, s: State, q: nat, s': State)
    requires LostKept(e, s) && Freed(e, s, q, s') && Takes(s, q, s')
    ensures LostKept(e, s')
  {
    FreedGives(e, s, q, s');
    FreedBits(e, s, q, s');
    assert forall x :: InRun(x, q, |s.live[q]|) ==> LivePage(s, x);
    assert forall f :: f in s.live[q] ==> LiveFrame(s, f);
    LostSame(e, s, q, s');
    hide Free, NotATable, LivePage, LiveFrame, Returned, Given, SameDirectory, PageAt, PM.RunSet;
    forall f | f in s.lostFrames ensures HeldFrame(e, s'.b, f) {
      StillTaken(e, s, q, s', f);
      StillNoTable(s.b.mem, s'.b.mem, e.d, f);
    }
  }

  lemma LostSame(e: Setting, s: State, q: nat, s': State)
    requires Freed(e, s, q, s')
    ensures s'.lostPages == s.lostPages && s'.lostFrames == s.lostFrames
  {
    hide Returned;
  }

  lemma FreedHeld(e: Setting, s: State, q: nat, s': State)
    requires OrdinaryRun(e.first, |s.bits|) && AllHeld(e, s) && Freed(e, s, q, s') && s'.live == s.live - {q}
    ensures AllHeld(e, s')
  {
    hide Held, Freed;
    forall p | p in s'.live ensures Held(e, s', p, s'.live[p]) {
      assert s'.live[p] == s.live[p] && q in s.live by { FreedLive(e, s, q, s'); }
      TwoApart(e, s, p, q);
      OtherHeld(e, s, q, s', p, s.live[p]);
    }
    forall p, r | p in s'.live && r in s'.live && p < r
      ensures p + |s'.live[p]| <= r && FramesApart(s'.live[p], s'.live[r])
    {
      assert s'.live[p] == s.live[p] && s'.live[r] == s.live[r];
    }
  }

  lemma FreedLive(e: Setting, s: State, q: nat, s': State)
    requires Freed(e, s, q, s')
    ensures q in s.live && s'.live == s.live - {q}
  {
    hide Returned;
  }

  lemma ReleaseInv(e: Setting, s: State, q: nat)
    requires Inv(e, s) && Releases(e, s, q)
    ensures Inv(e, AfterRelease(e, s, q))
  {
    var s' := AfterRelease(e, s, q);
    ReleaseFrees(e, s, q);
    HeldParts(e, s, q);
    hide Releases, AfterRelease, Freed, Held, LostKept, AllHeld, Takes, Good, UP.FreeBitsUnmapped, KernelReady;
    FreedLive(e, s, q, s');
    ReleaseTakes(e, s, q, s');
    FreedReady(e, s, q, s');
    FreedLost(e, s, q, s');
    FreedHeld(e, s, q, s');
  }

  // ----- the account -----

  /** The pages and frames of a live allocation are taken. */
  lemma LiveTaken(s: State, q: nat)
    requires q in s.live
    ensures forall x :: InRun(x, q, |s.live[q]|) ==> TakenPage(s, x)
    ensures forall f :: f in s.live[q] ==> TakenFrame(s, f)
  {
  }

  lemma TakesTaken(e: Setting, s: State, q: nat, s': State)
    requires LostKept(e, s) && q in s.live && Takes(s, q, s')
    requires s'.lostPages == s.lostPages && s'.lostFrames == s.lostFrames
    ensures forall x :: TakenPage(s', x) <==> TakenPage(s, x) && !InRun(x, q, |s.live[q]|)
    ensures forall f :: TakenFrame(s', f) <==> TakenFrame(s, f) && f !in s.live[q]
  {
    assert forall x :: InRun(x, q, |s.live[q]|) ==> LivePage(s, x);
    assert forall f :: f in s.live[q] ==> LiveFrame(s, f);
    hide LivePage, LiveFrame, Free, NotATable;
  }

  lemma BitsReturned(e: Setting, s0: State, s: State, q: nat, s': State)
    requires BitsSince(e, s0, s) && Freed(e, s, q, s')
    requires forall x :: TakenPage(s', x) <==> TakenPage(s, x) && !InRun(x, q, |s.live[q]|)
    ensures BitsSince(e, s0, s')
  {
    FreedBits(e, s, q, s');
    FreedLive(e, s, q, s');
    LiveTaken(s, q);
    hide Freed, TakenPage, TakenFrame;
    forall x | 0 <= x < |s'.bits| ensures s'.bits[x] <==> s0.bits[x] || TakenPage(s', e.first + x) {
      assert s.bits[x] <==> s0.bits[x] || TakenPage(s, e.first + x);
    }
  }

  lemma PoolBack(start: FrameNo, v0: seq<bool>, v: seq<bool>, v2: seq<bool>, s: State, s': State, mine: bool,
                 frames: seq<FrameNo>, tables: seq<FrameNo>)
    requires PoolSince(start, v0, v, s, mine, tables) && BitsGiven(start, v, v2, if mine then frames else [])
    requires forall f :: TakenFrame(s', f) <==> TakenFrame(s, f) && f !in frames
    requires forall f: FrameNo :: f in frames && mine && start <= f < start + |v0| ==> !v0[f - start] && f !in tables
    ensures PoolSince(start, v0, v2, s', mine, tables)
  {
    hide TakenFrame;
    forall x | 0 <= x < |v0| ensures v2[x] <==> v0[x] || Gone(s', start + x, mine, tables) {
      assert v[x] <==> v0[x] || Gone(s, start + x, mine, tables);
    }
  }

  lemma FramesBack(e: Setting, s0: State, s: State, q: nat, s': State)
    requires FramesSince(e, s0, s) && Freed(e, s, q, s') && s'.tables == s.tables
    requires forall f :: TakenFrame(s', f) <==> TakenFrame(s, f) && f !in s.live[q]
    ensures FramesSince(e, s0, s')
  {
    FreedGives(e, s, q, s');
    FreedLive(e, s, q, s');
    LiveTaken(s, q);
    hide Freed, TakenPage, TakenFrame, PoolSince, BitsGiven;
    var none: seq<FrameNo> := [];
    PoolBack(e.c.kStart, s0.b.kernel, s.b.kernel, s'.b.kernel, s, s', e.pf.Kernel?, s.live[q], s.tables);
    PoolBack(e.c.uStart, s0.b.user, s.b.user, s'.b.user, s, s', e.pf.User?, s.live[q], none);
  }

  lemma PagesBack(e: Setting, s0: State, s: State, q: nat, s': State)
    requires OrdinaryRun(e.first, |s0.bits|) && UP.FreeBitsUnmapped(s0.b.mem, e.d, e.first, s0.bits)
    requires BitsSince(e, s0, s) && PagesSince(e, s0, s) && Freed(e, s, q, s') && s'.tables == s.tables
    requires forall x :: TakenPage(s', x) <==> TakenPage(s, x) && !InRun(x, q, |s.live[q]|)
    ensures PagesSince(e, s0, s')
  {
    FreedGives(e, s, q, s');
    FreedLive(e, s, q, s');
    LiveTaken(s, q);
    InPool(e, s, q, s');
    hide Freed, TakenPage, TakenFrame, Given, PageAt, StaysOpen, At, Present, EntryFor, FrameOf;
    forall r: PageNo | Ordinary(r) && !TakenPage(s', r) ensures PageAt(s'.b.mem, e.d, r) == PageAt(s0.b.mem, e.d, r) {
      if InRun(r, q, |s.live[q]|) {
        assert !s0.bits[r - e.first];
        assert PageAt(s0.b.mem, e.d, r) == None;
      } else {
        assert PageAt(s.b.mem, e.d, r) == PageAt(s0.b.mem, e.d, r);
      }
    }
    SameGrown(s0.b.mem, s.b.mem, s'.b.mem, e.d, s.tables);
    OpenTwice(s0.b.mem, s.b.mem, s'.b.mem, e.d);
  }

  lemma InPool(e: Setting, s: State, q: nat, s': State)
    requires Freed(e, s, q, s')
    ensures q in s.live && e.first <= q && q - e.first + |s.live[q]| <= |s.bits|
  {
    hide Returned;
  }

  lemma SameGrown(m0: Phys, m1: Phys, m2: Phys, d: FrameNo, tables: seq<FrameNo>)
    requires DirectoryGrown(m0, m1, d, tables) && SameDirectory(m1, m2, d)
    ensures DirectoryGrown(m0, m2, d, tables)
  {
    hide At, Present, FrameOf, EntryFor;
    forall t | t in tables ensures exists k :: InFrame(k) && !Present(At(m0, d, k)) && At(m2, d, k) == EntryFor(t) {
      var k :| InFrame(k) && !Present(At(m0, d, k)) && At(m1, d, k) == EntryFor(t);
      assert At(m2, d, k) == At(m1, d, k);
    }
  }

  lemma ReleaseSince(e: Setting, s0: State, s: State, q: nat)
    requires Ready(e, s0) && Inv(e, s) && Releases(e, s, q) && Since(e, s0, s)
    ensures Since(e, s0, AfterRelease(e, s, q))
  {
    var s' := AfterRelease(e, s, q);
    ReleaseFrees(e, s, q);
    hide Releases, AfterRelease, Held, LostKept, AllHeld, Takes, Good, UP.FreeBitsUnmapped, KernelReady, BitsSince,
         FramesSince, PagesSince, Returned;
    ReleaseTakes(e, s, q, s');
    TakesTaken(e, s, q, s');
    BitsReturned(e, s0, s, q, s');
    FramesBack(e, s0, s, q, s');
    PagesBack(e, s0, s, q, s');
  }
}
