/** Runs of malloc_pages and free_pages in one address space: allocations never share a page or a frame, and
    at every moment exactly what is accounted for is set, taken and mapped. */
module PageRuns {
  import opened Paging
  import opened PageBooks
  import opened PageCounts
  import opened PageRelease
  import opened PageStates
  import opened PageTaking
  import opened PageGiving
  import A = AddressSpaces
  import UP = UserProcess

  datatype Op = Malloc(start: nat, n: nat) | Release(q: nat)

  ghost predicate Steps(e: Setting, s: State, op: Op, s': State) {
    match op
    case Malloc(start, n) => Mallocs(e, s, start, n) && s' == AfterMalloc(e, s, start, n)
    case Release(q) => Releases(e, s, q) && s' == AfterRelease(e, s, q)
  }

  /** The entries behind the pages of the pool, as far as there are any, are open to the user. */
  ghost predicate PoolOpen(e: Setting, s: State) {
    forall r: PageNo {:trigger OpenAt(s.b.mem, e.d, r)} :: e.first <= r < e.first + |s.bits| ==> OpenAt(s.b.mem, e.d, r)
  }

  /** Nothing has been taken yet. */
  ghost predicate Starts(e: Setting, s: State) {
    Ready(e, s) && NothingTaken(s) && s.tables == [] && PoolOpen(e, s)
  }

  ghost predicate IsRun(e: Setting, run: seq<State>, ops: seq<Op>) {
    && |run| == |ops| + 1 && Starts(e, run[0])
    && forall i :: 0 <= i < |ops| ==> Steps(e, run[i], ops[i], run[i + 1])
  }

  lemma StartInv(e: Setting, s: State)
    requires Starts(e, s)
    ensures Inv(e, s) && Since(e, s, s)
  {
    GoodParts(e.c, s.b, e.d);
    hide Good, UP.FreeBitsUnmapped, KernelReady;
  }

  lemma StepInv(e: Setting, s0: State, s: State, op: Op, s': State)
    requires Ready(e, s0) && Inv(e, s) && Since(e, s0, s) && Steps(e, s, op, s')
    ensures Inv(e, s') && Since(e, s0, s')
  {
    hide AfterMalloc, AfterRelease, Mallocs, Releases, Ready, Inv, Since;
    match op
    case Malloc(start, n) =>
      MallocInv(e, s, start, n);
      MallocSince(e, s0, s, start, n);
    case Release(q) =>
      ReleaseInv(e, s, q);
      ReleaseSince(e, s0, s, q);
  }

  /** Over every run of allocations and releases, in any order: the invariant, and the account. */
  lemma {:induction false} RunInvariant(e: Setting, run: seq<State>, ops: seq<Op>, n: nat)
    requires IsRun(e, run, ops) && n < |run|
    ensures Inv(e, run[n]) && Since(e, run[0], run[n])
    decreases n
  {
    hide Inv, Since, Ready;
    if n == 0 {
      StartInv(e, run[0]);
    } else {
      RunInvariant(e, run, ops, n - 1);
      assert Steps(e, run[n - 1], ops[n - 1], run[n]);
      hide Steps;
      StepInv(e, run[0], run[n - 1], ops[n - 1], run[n]);
    }
  }

  // ----- what follows -----

  /** A bit is set exactly when it was set at the start or its page is taken; a frame is free exactly when it
      was free at the start and is neither taken nor a new page table. */
  lemma Account(e: Setting, run: seq<State>, ops: seq<Op>, n: nat)
    requires IsRun(e, run, ops) && n < |run|
    ensures var s0, s := run[0], run[n];
            && PoolsOk(e.c) && Sized(e.c, s0.b) && Sized(e.c, s.b) && |s.bits| == |s0.bits|
            && (forall x {:trigger s.bits[x]} :: 0 <= x < |s.bits| ==>
                  (s.bits[x] <==> s0.bits[x] || TakenPage(s, e.first + x)))
            && (forall pg, f {:trigger FreeIn(e.c, s.b, pg, f)} ::
                  FreeIn(e.c, s.b, pg, f) <==> FreeIn(e.c, s0.b, pg, f) && !TakenFrame(s, f) && f !in s.tables)
  {
    RunInvariant(e, run, ops, n);
    hide IsRun, Inv;
    FramesAccount(e, run[0], run[n]);
  }

  lemma FramesAccount(e: Setting, s0: State, s: State)
    requires Since(e, s0, s)
    ensures PoolsOk(e.c) && Sized(e.c, s0.b) && Sized(e.c, s.b)
    ensures forall pg, f {:trigger FreeIn(e.c, s.b, pg, f)} ::
              FreeIn(e.c, s.b, pg, f) <==> FreeIn(e.c, s0.b, pg, f) && !TakenFrame(s, f) && f !in s.tables
  {
    hide TakenPage, TakenFrame, PagesSince, BitsSince;
    forall pg, f: FrameNo
      ensures FreeIn(e.c, s.b, pg, f) <==> FreeIn(e.c, s0.b, pg, f) && !TakenFrame(s, f) && f !in s.tables
    {
      if TakenFrame(s, f) { assert FreeIn(e.c, s0.b, e.pf, f); }
      if StartOf(e.c, pg) <= f < StartOf(e.c, pg) + LenOf(e.c, pg) {
        var x := f - StartOf(e.c, pg);
        if pg.Kernel? {
          assert s.b.kernel[x] <==> s0.b.kernel[x] || Gone(s, e.c.kStart + x, e.pf.Kernel?, s.tables);
        } else {
          assert s.b.user[x] <==> s0.b.user[x] || Gone(s, e.c.uStart + x, e.pf.User?, []);
        }
      }
    }
  }

  /** With everything returned, and nothing lost on the way, all bits, all frames and all pages are as at the
      start, but for the new page tables; in the kernel heap there are none. */
  lemma AllReturned(e: Setting, run: seq<State>, ops: seq<Op>, n: nat)
    requires IsRun(e, run, ops) && n < |run| && NothingTaken(run[n])
    ensures run[n].bits == run[0].bits
    ensures Restored(e.c, run[0].b, run[n].b, e.d, run[n].tables)
    ensures e.pf.Kernel? ==> run[n].b.kernel == run[0].b.kernel
  {
    RunInvariant(e, run, ops, n);
    hide IsRun, Inv;
    SinceRestored(e, run[0], run[n]);
  }

  lemma SinceRestored(e: Setting, s0: State, s: State)
    requires Since(e, s0, s) && NothingTaken(s)
    ensures s.bits == s0.bits && Restored(e.c, s0.b, s.b, e.d, s.tables)
    ensures e.pf.Kernel? ==> s.b.kernel == s0.b.kernel
  {
    hide PageAt, DirectoryGrown;
    assert forall x :: !TakenPage(s, x);
    assert forall f :: !TakenFrame(s, f);
  }

  lemma HeldPage(e: Setting, s: State, q: nat, frames: seq<FrameNo>, i: nat)
    requires Held(e, s, q, frames) && i < |frames|
    ensures q + i < 0x10_0000 && PageAt(s.b.mem, e.d, q + i) == Some(frames[i]) && PageBooks.Distinct(frames)
  {
  }

  /** Two pages of live allocations, of one or of two, never lie in the same frame. */
  lemma NoSharing(e: Setting, run: seq<State>, ops: seq<Op>, n: nat, p: nat, i: nat, q: nat, j: nat)
    requires IsRun(e, run, ops) && n < |run|
    requires p in run[n].live && i < |run[n].live[p]| && q in run[n].live && j < |run[n].live[q]| && (p, i) != (q, j)
    ensures var s := run[n];
            && p + i < 0x10_0000 && q + j < 0x10_0000 && p + i != q + j
            && PageAt(s.b.mem, e.d, p + i).Some? && PageAt(s.b.mem, e.d, p + i) != PageAt(s.b.mem, e.d, q + j)
  {
    RunInvariant(e, run, ops, n);
    hide IsRun, Since, Ready, LostKept, AllHeld, PageAt;
    PagesDiffer(e, run[n], p, i, q, j);
  }

  lemma PagesDiffer(e: Setting, s: State, p: nat, i: nat, q: nat, j: nat)
    requires AllHeld(e, s) && p in s.live && i < |s.live[p]| && q in s.live && j < |s.live[q]| && (p, i) != (q, j)
    ensures p + i < 0x10_0000 && q + j < 0x10_0000 && p + i != q + j
    ensures PageAt(s.b.mem, e.d, p + i) == Some(s.live[p][i]) && PageAt(s.b.mem, e.d, q + j) == Some(s.live[q][j])
    ensures s.live[p][i] != s.live[q][j]
  {
    hide Held, PageAt;
    assert Held(e, s, p, s.live[p]) && Held(e, s, q, s.live[q]);
    if p != q { TwoApart(e, s, p, q); }
    hide AllHeld;
    HeldPage(e, s, p, s.live[p], i);
    HeldPage(e, s, q, s.live[q], j);
    assert s.live[p][i] in s.live[p] && s.live[q][j] in s.live[q];
  }

  /** At any time of any run user mode can read and write every byte of a live allocation. */
  lemma LiveUsable(e: Setting, run: seq<State>, ops: seq<Op>, n: nat, q: nat, i: nat, o: int, write: bool)
    requires IsRun(e, run, ops) && n < |run| && q in run[n].live && i < |run[n].live[q]| && 0 <= o < PAGE_SIZE
    ensures q + i < 0x10_0000
    ensures UserWalk(run[n].b.mem, e.d, 0x1000 * (q + i) + o, write) == Some(0x1000 * run[n].live[q][i] + o)
  {
    hide IsRun, Since, Inv, PoolOpen, OpenAt, PageAt, UserWalk;
    RunInvariant(e, run, ops, n);
    RunOpen(e, run, ops);
    var r := LivePageOpen(e, run[0], run[n], q, i);
    OpenPage(run[n].b.mem, e.d, r, o, write);
  }

  lemma RunOpen(e: Setting, run: seq<State>, ops: seq<Op>)
    requires IsRun(e, run, ops)
    ensures |run| > 0 && PoolOpen(e, run[0])
  {
    hide Ready, NothingTaken, PoolOpen, Steps;
  }

  lemma LivePageOpen(e: Setting, s0: State, s: State, q: nat, i: nat) returns (r: PageNo)
    requires PoolOpen(e, s0) && Since(e, s0, s) && Inv(e, s) && q in s.live && i < |s.live[q]|
    ensures r == q + i && OpenAt(s.b.mem, e.d, r) && PageAt(s.b.mem, e.d, r) == Some(s.live[q][i])
  {
    hide OpenAt, PageAt, Good, UP.FreeBitsUnmapped, KernelReady, LostKept, FramesSince, HeldFrame;
    assert Held(e, s, q, s.live[q]);
    HeldPage(e, s, q, s.live[q], i);
    r := q + i;
    assert Ordinary(r) && OpenAt(s0.b.mem, e.d, r);
  }

  /** When free_pages of a live allocation gets to its end. */
  lemma Releasable(e: Setting, run: seq<State>, ops: seq<Op>, n: nat, q: nat)
    requires IsRun(e, run, ops) && n < |run| && q in run[n].live
    ensures q + |run[n].live[q]| < 0x10_0000
    ensures var s, frames := run[n], run[n].live[q];
            && (Releases(e, s, q) <==> !StartsWithFirst(e, frames) && HasTable(s.b.mem, e.d, q + |frames|))
            && (e.pf.Kernel? ==> Releases(e, s, q))
  {
    RunInvariant(e, run, ops, n);
    hide IsRun, Since, Inv, HasTable, FreePages;
    ReleaseOutcome(e, run[n], q);
    if e.pf.Kernel? { KernelReleases(e, run[n], q); }
  }

  // ----- where runs start -----

  /** The kernel heap as the loader leaves it, with the pools behind the boot tables. */
  lemma BootStarts(sp: A.Spaces, c: Pools, b: Books, bits: seq<bool>)
    requires A.Booted(sp) && b.mem == sp.mem && PoolsOk(c) && 0x200 <= c.kStart && Sized(c, b)
    requires OrdinaryRun(0xc_0100, |bits|)
    ensures Starts(Setting(c, A.BOOT, Kernel, 0xc_0100), State(b, bits, map[], {}, {}, []))
  {
    hide A.Booted, Free, Good, UP.FreeBitsUnmapped, OrdinaryRun, Sized, PoolOpen;
    A.BootInv(sp);
    BootFrames(sp, c, b);
    UP.SpaceIsGood(sp, c, b, A.BOOT);
    BootUnmapped(sp, bits);
    BootOpen(sp, Setting(c, A.BOOT, Kernel, 0xc_0100), State(b, bits, map[], {}, {}, []));
  }

  lemma BootOpen(sp: A.Spaces, e: Setting, s: State)
    requires A.Booted(sp) && s.b.mem == sp.mem && e.d == A.BOOT && 0xc_0100 <= e.first && OrdinaryRun(e.first, |s.bits|)
    ensures PoolOpen(e, s)
  {
    hide A.Booted;
    forall r: PageNo | e.first <= r < e.first + |s.bits| ensures OpenAt(sp.mem, A.BOOT, r) {
      BootPage(sp, r);
      BootSlot(sp, r);
    }
  }

  lemma BootSlot(sp: A.Spaces, r: PageNo)
    requires A.Booted(sp) && 0xc_0100 <= r < 1023 * 1024
    ensures Open(Pde(sp.mem, A.BOOT, Addr(r)))
  {
    var k := r / 1024;
    assert InFrame(k) && 768 <= k < 1023 && At(sp.mem, A.BOOT, k) == A.BootEntry(k);
    EntryBits(if k == 768 then A.BOOT + 1 else A.BOOT + 2 + (k - 769));
  }

  lemma BootFrames(sp: A.Spaces, c: Pools, b: Books)
    requires A.Booted(sp) && PoolsOk(c) && 0x200 <= c.kStart && Sized(c, b)
    ensures A.BOOT in sp.dirs && !Free(c, b, A.BOOT)
    ensures forall k {:trigger At(sp.mem, A.BOOT, k)} ::
        0 <= k < A.SELF_SLOT && Present(At(sp.mem, A.BOOT, k)) ==> !Free(c, b, FrameOf(At(sp.mem, A.BOOT, k)))
  {
    forall k | 0 <= k < A.SELF_SLOT && Present(At(sp.mem, A.BOOT, k)) ensures FrameOf(At(sp.mem, A.BOOT, k)) < 0x200 {
      assert InFrame(k);
    }
  }

  lemma BootUnmapped(sp: A.Spaces, bits: seq<bool>)
    requires A.Booted(sp) && OrdinaryRun(0xc_0100, |bits|)
    ensures UP.FreeBitsUnmapped(sp.mem, A.BOOT, 0xc_0100, bits)
  {
    forall r: PageNo | 0xc_0100 <= r < 0xc_0100 + |bits| ensures PageAt(sp.mem, A.BOOT, r) == None {
      BootPage(sp, r);
    }
  }

  lemma BootPage(sp: A.Spaces, r: PageNo)
    requires A.Booted(sp) && 0xc_0100 <= r < 1023 * 1024
    ensures PageAt(sp.mem, A.BOOT, r) == None
  {
    var k, i := r / 1024, r % 1024;
    assert InFrame(k) && InFrame(i) && 768 <= k < 1023 && (k == 768 ==> i >= 256);
    assert At(sp.mem, A.BOOT, k) == A.BootEntry(k);
    assert At(sp.mem, FrameOf(A.BootEntry(k)), i) == 0;
  }

  /** The heap of a process of which nothing is mapped yet. */
  lemma ProcessStarts(sp: A.Spaces, c: Pools, b: Books, d: FrameNo, first: nat, bits: seq<bool>)
    requires A.Inv(sp) && d in sp.dirs && b.mem == sp.mem && PoolsOk(c) && Sized(c, b) && d != 0 && !Free(c, b, d)
    requires forall k {:trigger At(sp.mem, d, k)} ::
        0 <= k < A.SELF_SLOT && Present(At(sp.mem, d, k)) ==> !Free(c, b, FrameOf(At(sp.mem, d, k)))
    requires forall k {:trigger At(sp.mem, d, k)} :: 0 <= k < A.KERNEL_SLOT ==> !Present(At(sp.mem, d, k))
    requires 1024 <= first && first + |bits| <= 1024 * A.KERNEL_SLOT
    ensures Starts(Setting(c, d, User, first), State(b, bits, map[], {}, {}, []))
  {
    UP.SpaceIsGood(sp, c, b, d);
    hide Good, A.Inv, Free;
    forall r: PageNo | first <= r < first + |bits| ensures OpenAt(b.mem, d, r) {
      assert !Present(At(sp.mem, d, r / 1024));
    }
  }

  const STACK_PAGE: PageNo := 0xb_ffff

  /** And once start_process has mapped its stack, in the last page below 0xc0000000, by get_a_page. */
  lemma StackStarts(e: Setting, s: State)
    requires Starts(e, s) && e.pf.User? && e.first <= STACK_PAGE < e.first + |s.bits| && !s.bits[STACK_PAGE - e.first]
    requires PoolsOk(e.c) && Sized(e.c, s.b)
    requires 1 <= FreeFrames(e.c, s.b, User) && TablesSuffice(e.c, s.b, e.d, User, STACK_PAGE, 1)
    ensures var o := Grow(e.c, s.b, e.d, User, STACK_PAGE, 1);
            && o.Going? && Starts(e, s.(b := o.b, bits := s.bits[STACK_PAGE - e.first := true]))
            && forall v: Word :: 0xbfff_f000 <= v < 0xc000_0000 ==> UserWalk(o.b.mem, e.d, v, true).Some?
  {
    hide Good, Grow, Progress, UP.FreeBitsUnmapped, RunUnmapped, FreeFrames, TablesSuffice;
    FreePageUnmapped(e, s, STACK_PAGE);
    GrowExactly(e.c, s.b, e.d, User, STACK_PAGE, 1);
    var o := Grow(e.c, s.b, e.d, User, STACK_PAGE, 1);
    ProgressGood(e.c, s.b, o, e.d, User, STACK_PAGE);
    OnePageMore(e, s, o, STACK_PAGE);
    OnePageOpen(e, s, o, STACK_PAGE);
    StackUsable(e, s.(b := o.b, bits := s.bits[STACK_PAGE - e.first := true]), o);
  }

  lemma StackUsable(e: Setting, s: State, o: Growth)
    requires PoolOpen(e, s) && e.first <= STACK_PAGE < e.first + |s.bits| && o.Going? && |o.frames| == 1
    requires RunMapped(s.b.mem, e.d, STACK_PAGE, o.frames)
    ensures forall v: Word :: 0xbfff_f000 <= v < 0xc000_0000 ==> UserWalk(s.b.mem, e.d, v, true).Some?
  {
    hide PageAt, UserWalk;
    assert PageAt(s.b.mem, e.d, STACK_PAGE + 0) == Some(o.frames[0]);
    assert OpenAt(s.b.mem, e.d, STACK_PAGE);
    forall v: Word | 0xbfff_f000 <= v < 0xc000_0000 ensures UserWalk(s.b.mem, e.d, v, true).Some? {
      OpenPage(s.b.mem, e.d, STACK_PAGE, v - 0xbfff_f000, true);
    }
  }

  lemma FreePageUnmapped(e: Setting, s: State, q: PageNo)
    requires OrdinaryRun(e.first, |s.bits|) && UP.FreeBitsUnmapped(s.b.mem, e.d, e.first, s.bits)
    requires e.first <= q < e.first + |s.bits| && !s.bits[q - e.first]
    ensures RunUnmapped(s.b.mem, e.d, q, 1)
  {
    hide PageAt;
    assert PageAt(s.b.mem, e.d, q) == None;
  }

  lemma OnePageOpen(e: Setting, s: State, o: Growth, q: PageNo)
    requires OrdinaryRun(e.first, |s.bits|) && PoolOpen(e, s) && PoolsOk(e.c) && Sized(e.c, s.b)
    requires e.first <= q < e.first + |s.bits| && Progress(e.c, s.b, o, e.d, User, q)
    ensures PoolOpen(e, s.(b := o.b, bits := s.bits[q - e.first := true]))
  {
    hide Good, WereFree, Taken, RunMapped, OthersSame, DirectoryGrown, SlotsWithin, OpenAt;
    assert forall r: PageNo :: e.first <= r < e.first + |s.bits| ==> Ordinary(r);
  }

  lemma OnePageMore(e: Setting, s: State, o: Growth, q: PageNo)
    requires OrdinaryRun(e.first, |s.bits|) && UP.FreeBitsUnmapped(s.b.mem, e.d, e.first, s.bits)
    requires e.first <= q < e.first + |s.bits| && PoolsOk(e.c) && Sized(e.c, s.b)
    requires Progress(e.c, s.b, o, e.d, User, q) && |o.frames| == 1
    ensures UP.FreeBitsUnmapped(o.b.mem, e.d, e.first, s.bits[q - e.first := true])
  {
    hide Good, WereFree, Taken, RunMapped, DirectoryGrown, SlotsWithin, PageAt;
    var bits := s.bits[q - e.first := true];
    forall r: PageNo | e.first <= r < e.first + |bits| && !bits[r - e.first] ensures PageAt(o.b.mem, e.d, r) == None {
      assert Ordinary(r) && r != q && !s.bits[r - e.first];
      assert PageAt(s.b.mem, e.d, r) == None;
    }
  }
}
