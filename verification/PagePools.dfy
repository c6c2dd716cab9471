/** malloc_pages and free_pages of one address space, with the account of what they handed out. */
module PagePools {
  import opened Paging
  import opened PageBooks
  import opened PageCounts
  import opened PageShortage
  import opened PageRelease
  import opened PageManager
  import opened PageStates
  import opened PageTaking
  import opened PageGiving
  import PageRuns
  import Bitmaps
  import UP = UserProcess

  /** What becomes of a request for n pages when bitmap_scan answers start: a failed assertion; no run of
      free bits; a second page table in frame 0; not enough frames for the pages; or the pages. */
  datatype Answer = Stops | NothingFree | Short | NoFrames | Serves

  /** Which of them it is, in the state before the call. */
  function AnswerTo(e: Setting, s: State, n: nat, start: int): Answer {
    if !(0 < n < 3840) || !Sized(e.c, s.b) then Stops
    else if start == -1 then NothingFree
    else if e.pf.User? && e.first + start >= 0xb_ffff then Stops
    else if !TablesSuffice(e.c, s.b, e.d, e.pf, e.first + start, n) then Short
    else if n <= FreeFrames(e.c, s.b, e.pf) then Serves
    else NoFrames
  }

  /** A live allocation that free_pages can return, as ReleaseAnswer has it. */
  predicate Returnable(e: Setting, s: State, q: nat) {
    Allocated(e, s, q) && !StartsWithFirst(e, s.live[q]) && HasTable(s.b.mem, e.d, q + |s.live[q]|)
  }

  /** How free_pages of the live allocation at q ends. */
  function ReleaseAnswer(e: Setting, s: State, q: nat): Outcome
    requires Allocated(e, s, q)
  {
    if StartsWithFirst(e, s.live[q]) then Failed
    else if HasTable(s.b.mem, e.d, q + |s.live[q]|) then Completed
    else Faulted
  }

  /** The bits that can be in a run: those of the bitmap, and the one behind it unless the last of the bitmap
      is set from the start. */
  predicate Spans(bits: seq<bool>, total: nat) {
    |bits| == total + 1 || (|bits| == total >= 1 && bits[total - 1])
  }

  /** State s2 is s after a request for n pages that had its page tables. */
  ghost predicate Went(e: Setting, s: State, s2: State, n: nat, start: int) {
    start >= 0 && Mallocs(e, s, start, n) && s2 == AfterMalloc(e, s, start, n)
  }

  /** The virtual bitmap is another, and the books are, unless there was no frame. */
  ghost predicate Lost(e: Setting, s: State, s2: State) {
    s2.bits != s.bits && Sized(e.c, s.b) && (s2.b == s.b <==> FreeFrames(e.c, s.b, e.pf) == 0)
  }

  class PagePool {
    const manager: Manager
    const pf: PoolFlag
    ghost const e: Setting
    ghost const s0: State
    ghost var s: State

    ghost function Footprint(): set<object> {
      {this, manager.memory, manager.kernelPool.bitmap.bits, manager.userPool.bitmap.bits, manager.Vaddrs(pf).bitmap.bits}
    }

    ghost predicate Wired() {
      && manager.Wired()
      && e == Setting(manager.Config(), e.d, pf, manager.Vaddrs(pf).vaddrStart / 0x1000)
      && PageRuns.Starts(e, s0) && Spans(s0.bits, 8 * manager.Vaddrs(pf).bitmap.bitmapLen)
    }

    ghost predicate Tied()
      requires Wired()
      reads Footprint()
    {
      && manager.memory.cr3 == e.d && s.b == manager.Book() && |s.bits| == |s0.bits|
      && s.bits == manager.Vaddrs(pf).bitmap.Memory()[..|s.bits|]
    }

    ghost predicate Valid()
      reads Footprint()
    {
      Wired() && Tied() && Inv(e, s) && Since(e, s0, s)
    }

    /** A manager whose pools are ready; `span` is how many bits can be in a run. */
    constructor (manager: Manager, pf: PoolFlag, ghost span: nat)
      requires manager.Wired() && span <= |manager.Vaddrs(pf).bitmap.Memory()|
      requires Spans(manager.Vaddrs(pf).bitmap.Memory()[..span], 8 * manager.Vaddrs(pf).bitmap.bitmapLen)
      requires PageRuns.Starts(
                 Setting(manager.Config(), manager.memory.cr3, pf, manager.Vaddrs(pf).vaddrStart / 0x1000),
                 State(manager.Book(), manager.Vaddrs(pf).bitmap.Memory()[..span], map[], {}, {}, []))
      ensures Valid() && this.manager == manager && this.pf == pf && s == s0 && fresh(this)
      ensures s.b == manager.Book() && s.bits == manager.Vaddrs(pf).bitmap.Memory()[..span] && NothingTaken(s)
    {
      this.manager, this.pf := manager, pf;
      e := Setting(manager.Config(), manager.memory.cr3, pf, manager.Vaddrs(pf).vaddrStart / 0x1000);
      s0 := State(manager.Book(), manager.Vaddrs(pf).bitmap.Memory()[..span], map[], {}, {}, []);
      s := State(manager.Book(), manager.Vaddrs(pf).bitmap.Memory()[..span], map[], {}, {}, []);
      new;
      PageRuns.StartInv(e, s);
      hide PageRuns.Starts, Inv, Since, Bitmaps.BitsOf;
    }

    /** malloc_pages.  It is short when frame 0 became the page table of a second slot: then two pages of the
        address space are one, unless an assertion failed. */
    method Malloc(n: nat) returns (r: Allocation, short: bool, ghost start: int)
      requires Valid()
      modifies Footprint()
      ensures 0 < n < 3840 ==> old(manager.Vaddrs(pf).Finds(n, start))
      ensures match AnswerTo(e, old(s), n, start)
              case Stops => r == AssertionFailed
              case NothingFree => r == Address(0) && Valid() && s == old(s)
              case Short => r == AssertionFailed || Shared(manager.memory.mem, e.d)
              case NoFrames => r == Address(0) && Valid() && Went(e, old(s), s, n, start) && Lost(e, old(s), s)
              case Serves =>
                Valid() && Went(e, old(s), s, n, start) && r.Address? && r.addr == 0x1000 * (e.first + start)
      ensures short <==> AnswerTo(e, old(s), n, start).Short?
      ensures AnswerTo(e, old(s), n, start).Stops? <==>
                !(0 < n < 3840) || (pf.User? && start != -1 && e.first + start >= 0xb_ffff)
      ensures pf.Kernel? ==> !short
    {
      hide Inv, Since, Grow, Bitmaps.FirstFit, Bitmaps.FreeRun, Bitmaps.BitsOf, PageManager.RunSet, Reachable,
           PageRuns.Starts, TablesSuffice, FreeFrames, ZeroTable, Shared, Zeros, Mallocs;
      ghost var was, bits := s, manager.Vaddrs(pf).bitmap.Memory();
      InvParts(e, s);
      var spare := Spare(manager.memory.mem, manager.memory.cr3);
      var zeros;
      r, zeros, start := manager.MallocPages(pf, n);
      short := zeros > spare;
      if 0 < n < 3840 && start != -1 {
        FoundRun(e, s0, was, bits, 8 * manager.Vaddrs(pf).bitmap.bitmapLen, n, start);
        if AnswerTo(e, was, n, start).NoFrames? || AnswerTo(e, was, n, start).Serves? {
          PrefixSet(bits, |was.bits|, start, n, true);
          MallocRecorded(e, s0, was, n, start);
          s := AfterMalloc(e, was, start, n);
        }
      }
    }

    /** free_pages. */
    method Free(q: nat, n: nat) returns (r: Outcome)
      requires Valid() && q in s.live && n == |s.live[q]|
      modifies Footprint()
      ensures Allocated(e, old(s), q) && r == ReleaseAnswer(e, old(s), q)
      ensures r.Completed? ==> Valid() && Releases(e, old(s), q) && s == AfterRelease(e, old(s), q)
      ensures pf.Kernel? ==> r.Completed?
    {
      hide Inv, Since, FreePages, Bitmaps.BitsOf, PageManager.RunSet, Reachable, HasTable, Returned, PageRuns.Starts,
           Ready;
      ghost var was, bits := s, manager.Vaddrs(pf).bitmap.Memory();
      StartsReady(e, s0);
      InvParts(e, s);
      ReleaseOutcome(e, s, q);
      LiveRun(e, s, q);
      r := manager.ReleasePages(pf, n, 0x1000 * q);
      if r.Completed? {
        PrefixSet(bits, |was.bits|, q - e.first, n, false);
        ReleaseInv(e, was, q);
        ReleaseSince(e, s0, was, q);
        s := AfterRelease(e, was, q);
      }
      if pf.Kernel? { KernelReleases(e, was, q); }
    }

    lemma Facts()
      requires Valid()
      ensures Inv(e, s) && Since(e, s0, s) && |s.bits| <= 8 * manager.Vaddrs(pf).bitmap.bitmapLen + 1
    {
    }
  }

  lemma InvParts(e: Setting, s: State)
    requires Inv(e, s)
    ensures PoolsOk(e.c) && Sized(e.c, s.b) && Reachable(e.c, s.b, e.d) && OrdinaryRun(e.first, |s.bits|)
  {
    GoodReachable(e.c, s.b, e.d);
    hide Good, UP.FreeBitsUnmapped, LostKept, AllHeld, KernelReady, Reachable;
    GoodParts(e.c, s.b, e.d);
  }

  lemma StartsReady(e: Setting, s: State)
    requires PageRuns.Starts(e, s)
    ensures Ready(e, s)
  {
    hide Ready;
  }

  lemma LiveRun(e: Setting, s: State, q: nat)
    requires Inv(e, s) && q in s.live
    ensures OrdinaryRun(q, |s.live[q]|) && e.first <= q && q - e.first + |s.live[q]| <= |s.bits| && s.live[q] != []
  {
    HeldParts(e, s, q);
    hide Good, UP.FreeBitsUnmapped, LostKept, AllHeld, KernelReady, Held;
  }

  lemma PrefixSet(v: seq<bool>, k: nat, start: nat, n: nat, value: bool)
    requires start + n <= k <= |v|
    ensures RunSet(v, start, n, value)[..k] == RunSet(v[..k], start, n, value)
  {
  }

  /** What bitmap_scan finds is a run of the pool, and malloc_pages goes to work on it. */
  lemma FoundRun(e: Setting, s0: State, s: State, bits: seq<bool>, total: nat, n: nat, start: int)
    requires Inv(e, s) && Since(e, s0, s) && Spans(s0.bits, total) && total + 1 <= |bits| && s.bits == bits[..|s.bits|]
    requires n >= 1 && start != -1
    requires if n == 1 then Bitmaps.FirstFit(bits[..total], 1, start) else Bitmaps.FirstFit(bits[..total + 1], n, start)
    ensures PoolsOk(e.c) && Sized(e.c, s.b) && 0 <= start && start + n <= |s.bits| && e.first + start + n <= 0x10_0000
    ensures Works(e, s, n, start)
  {
    hide Ready, LostKept, AllHeld, FramesSince, PagesSince, BitsSince, Bitmaps.FreeRun, Bitmaps.FirstFit, Works;
    FoundFree(e, s0, s, bits, total, n, start);
    InvParts(e, s);
    FreeRunFits(s.bits, start, n);
    hide Since, Inv;
    RunWorks(e, s, n, start);
  }

  /** How the loop ends, by what there was before it. */
  ghost predicate Works(e: Setting, s: State, n: nat, start: nat)
    requires PoolsOk(e.c) && Sized(e.c, s.b) && n >= 1 && e.first + start + n <= 0x10_0000
  {
    var o, q := Grow(e.c, s.b, e.d, e.pf, e.first + start, n), e.first + start;
    && (TablesSuffice(e.c, s.b, e.d, e.pf, q, n) <==> Zeros(o.tables) <= Spare(s.b.mem, e.d))
    && (e.pf.Kernel? ==> TablesSuffice(e.c, s.b, e.d, e.pf, q, n))
    && (if TablesSuffice(e.c, s.b, e.d, e.pf, q, n) then
          !o.AssertFailed? && (o.Going? <==> n <= FreeFrames(e.c, s.b, e.pf)) && Mallocs(e, s, start, n)
        else o.AssertFailed? || Shared(o.b.mem, e.d))
  }

  lemma RunWorks(e: Setting, s: State, n: nat, start: nat)
    requires Ready(e, s) && n >= 1 && Bitmaps.FreeRun(s.bits, start, n)
    ensures PoolsOk(e.c) && Sized(e.c, s.b) && e.first + start + n <= 0x10_0000 && Works(e, s, n, start)
  {
    hide Good, KernelReady, Bitmaps.FreeRun, Grow, Progress, UP.FreeBitsUnmapped, RunUnmapped, TablesSuffice, FreeFrames,
         ZeroTable, Shared;
    GoodParts(e.c, s.b, e.d);
    FreeRunFits(s.bits, start, n);
    FreeRunUnmapped(e, s, start, n);
    var q: PageNo := e.first + start;
    if e.pf.Kernel? {
      KernelRun(e, s, n, q);
    } else {
      UserCounts(e.c, s.b, e.d, q, n);
      PagesKeptIff(e.c, s.b, e.d, q, n);
    }
    if TablesSuffice(e.c, s.b, e.d, e.pf, q, n) { GrowExactly(e.c, s.b, e.d, e.pf, q, n); }
  }

  lemma KernelRun(e: Setting, s: State, n: nat, q: PageNo)
    requires Good(e.c, s.b, e.d) && KernelReady(e, s) && e.pf.Kernel? && e.first <= q && OrdinaryRun(q, n)
    requires RunUnmapped(s.b.mem, e.d, q, n)
    ensures PoolsOk(e.c) && Sized(e.c, s.b) && TablesSuffice(e.c, s.b, e.d, e.pf, q, n)
    ensures Zeros(Grow(e.c, s.b, e.d, e.pf, q, n).tables) == 0
  {
    hide Good, UP.KernelTables, Grow, Progress, RunUnmapped, TablesSuffice, FreeFrames;
    GoodParts(e.c, s.b, e.d);
    UP.KernelNeedsNoTable(e.c, s.b, e.d, q, n);
  }

  lemma FoundFree(e: Setting, s0: State, s: State, bits: seq<bool>, total: nat, n: nat, start: int)
    requires BitsSince(e, s0, s) && Spans(s0.bits, total) && total + 1 <= |bits| && s.bits == bits[..|s.bits|]
    requires n >= 1 && start != -1
    requires if n == 1 then Bitmaps.FirstFit(bits[..total], 1, start) else Bitmaps.FirstFit(bits[..total + 1], n, start)
    ensures start >= 0 && Bitmaps.FreeRun(s.bits, start, n)
  {
    hide TakenPage;
    LastFree(bits, total, n, start);
    if |s.bits| == total {
      assert s0.bits[total - 1];
      assert s.bits[total - 1] && bits[total - 1];
    }
    var v := if n == 1 then bits[..total] else bits[..total + 1];
    assert Bitmaps.FreeRun(v, start, n);
    forall j | start <= j < start + n ensures j < |s.bits| && !s.bits[j] {
      assert !v[j];
    }
  }

  /** A run that takes the bit behind the bitmap takes the last bit of the bitmap. */
  lemma LastFree(bits: seq<bool>, total: nat, n: nat, start: int)
    requires total + 1 <= |bits| && start != -1 && n >= 1
    requires if n == 1 then Bitmaps.FirstFit(bits[..total], 1, start) else Bitmaps.FirstFit(bits[..total + 1], n, start)
    ensures start + n == total + 1 ==> total >= 1 && !bits[total - 1]
  {
    if n > 1 {
      var v := bits[..total + 1];
      assert Bitmaps.FreeRun(v, start, n);
      if start + n == total + 1 { assert !v[total - 1]; }
    }
  }

  /** The account after a request that had its page tables. */
  lemma MallocRecorded(e: Setting, s0: State, s: State, n: nat, start: nat)
    requires Inv(e, s) && Since(e, s0, s) && Mallocs(e, s, start, n) && start + n <= |s.bits|
    requires !Grow(e.c, s.b, e.d, e.pf, e.first + start, n).AssertFailed?
    ensures var s' := AfterMalloc(e, s, start, n);
            && Inv(e, s') && Since(e, s0, s')
            && s'.b == Grow(e.c, s.b, e.d, e.pf, e.first + start, n).b && s'.bits == RunSet(s.bits, start, n, true)
            && (n > FreeFrames(e.c, s.b, e.pf) ==> s'.bits != s.bits && (s'.b == s.b <==> FreeFrames(e.c, s.b, e.pf) == 0))
  {
    MallocInv(e, s, start, n);
    MallocSince(e, s0, s, start, n);
    AfterMallocIs(e, s, start, n);
    if n > FreeFrames(e.c, s.b, e.pf) { RefusedTakesAll(e, s, start, n); }
  }

  lemma AfterMallocIs(e: Setting, s: State, start: nat, n: nat)
    requires Mallocs(e, s, start, n) && start + n <= |s.bits| && !Grow(e.c, s.b, e.d, e.pf, e.first + start, n).AssertFailed?
    ensures AfterMalloc(e, s, start, n).b == Grow(e.c, s.b, e.d, e.pf, e.first + start, n).b
    ensures AfterMalloc(e, s, start, n).bits == RunSet(s.bits, start, n, true)
  {
    hide Grow, Bitmaps.FreeRun;
  }
}
