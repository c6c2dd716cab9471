/** Requests of a process that do not go as its program would expect: allocations that free_pages cannot return, one
    that loses its first page, and one that is refused and keeps what it took. */
module PageExamples {
  import opened Paging
  import opened PageBooks
  import opened PageCounts
  import opened PageShortage
  import opened PageRelease
  import opened PageStates
  import opened PageTaking
  import opened PagePools
  import Bitmaps
  import PG = PageGiving
  import PM = PageManager
  import Runs = PageRuns
  import UP = UserProcess

  // ----- two requests of a process -----

  /** A process of which no page is mapped asks for n pages, the first bits being free; there are frames for the
      pages and for the page tables. */
  ghost predicate FirstRequest(e: Setting, s: State, n: nat) {
    && Runs.Starts(e, s) && e.pf.User? && PoolsOk(e.c) && Sized(e.c, s.b)
    && 1 <= n < 3840 && n <= |s.bits| && Bitmaps.FreeRun(s.bits, 0, n) && e.first < 0xb_ffff
    && n <= FreeFrames(e.c, s.b, User) && TablesSuffice(e.c, s.b, e.d, User, e.first, n)
  }

  /** malloc_pages serves it. */
  lemma FirstServed(e: Setting, s: State, n: nat) returns (k: Extent)
    requires FirstRequest(e, s, n)
    ensures Sized(e.c, s.b)
    ensures Bitmaps.FirstFit(s.bits, n, 0) && AnswerTo(e, s, n, 0).Serves? && Mallocs(e, s, 0, n)
    ensures k.start == 0 && k.n == n == |k.frames| && Grown(e, s, k) && Malloced(e, s, k, AfterMalloc(e, s, 0, n))
  {
    hide Good, Grow, Progress, RunUnmapped, FreeFrames, TablesSuffice, Bitmaps.FreeRun, Grown, Malloced, AfterMalloc,
         NothingTaken, KernelReady;
    NoneBefore(s.bits, n);
    k := MallocGrows(e, s, 0, n);
  }

  lemma NoneBefore(bits: seq<bool>, n: nat)
    requires Bitmaps.FreeRun(bits, 0, n)
    ensures Bitmaps.FirstFit(bits, n, 0)
  {
  }

  /** With the first user frame still in the pool the allocation starts with it, and free_pages stops. */
  lemma FirstStops(e: Setting, s: State, n: nat)
    requires FirstRequest(e, s, n) && FreeIn(e.c, s.b, User, e.c.uStart)
    ensures Mallocs(e, s, 0, n)
    ensures var s' := AfterMalloc(e, s, 0, n); Allocated(e, s', e.first) && ReleaseAnswer(e, s', e.first) == PM.Failed
  {
    var k := FirstServed(e, s, n);
    FirstOfRun(e, s, k);
    hide FirstRequest, Grow, Grown, AfterMalloc, FreeIn, Palloc, Mallocs, HasTable, Bitmaps.FirstFit, AnswerTo, PM.RunSet;
    FirstFrameNext(e.c, s.b);
    MallocInvs(e, s, n);
    PG.HeldParts(e, AfterMalloc(e, s, 0, n), e.first);
  }

  lemma FirstOfRun(e: Setting, s: State, k: Extent)
    requires Grown(e, s, k) && k.frames != [] && e.pf.User?
    ensures PoolsOk(e.c) && Sized(e.c, s.b) && k.frames[0] == Palloc(e.c, s.b, User) && FreeIn(e.c, s.b, User, k.frames[0])
  {
    hide Taken, Good, RunMapped, OthersSame, SlotsWithin, DirectoryGrown, FreeIn, Palloc, Bitmaps.FreeRun;
  }

  lemma MallocInvs(e: Setting, s: State, n: nat)
    requires Runs.Starts(e, s) && Mallocs(e, s, 0, n)
    ensures Inv(e, AfterMalloc(e, s, 0, n))
  {
    hide Ready, Mallocs, AfterMalloc, Inv, Since, NothingTaken;
    Runs.StartInv(e, s);
    MallocInv(e, s, 0, n);
  }

  /** With that frame gone, and the pages filling the 4 MB up to its end, free_pages faults behind them when
      nothing is mapped there. */
  lemma FirstFaults(e: Setting, s: State, n: nat)
    requires FirstRequest(e, s, n) && !FreeIn(e.c, s.b, User, e.c.uStart)
    requires (e.first + n) % 1024 == 0 && !HasTable(s.b.mem, e.d, e.first + n)
    ensures Mallocs(e, s, 0, n)
    ensures var s' := AfterMalloc(e, s, 0, n); Allocated(e, s', e.first) && ReleaseAnswer(e, s', e.first) == PM.Faulted
  {
    hide FirstRequest, Runs.Starts, Grown, Malloced, AfterMalloc, FreeIn, Mallocs, HasTable, Bitmaps.FirstFit, AnswerTo,
         Held, Inv;
    RequestParts(e, s, n);
    var k := FirstServed(e, s, n);
    SlotBehind(e, s, k);
    FirstOfRun(e, s, k);
    MallocInvs(e, s, n);
    RunIsLive(e, s, k, AfterMalloc(e, s, 0, n));
    PG.HeldParts(e, AfterMalloc(e, s, 0, n), e.first);
  }

  lemma RequestParts(e: Setting, s: State, n: nat)
    requires FirstRequest(e, s, n)
    ensures Runs.Starts(e, s) && e.pf.User? && n >= 1 && e.first + n <= 1023 * 1024
  {
    hide Good, KernelReady, NothingTaken, FreeFrames, TablesSuffice, Bitmaps.FreeRun;
  }

  lemma RunIsLive(e: Setting, s: State, k: Extent, s': State)
    requires Malloced(e, s, k, s') && |k.frames| == k.n
    ensures s'.b == k.b && e.first + k.start in s'.live && s'.live[e.first + k.start] == k.frames
  {
    hide PM.RunSet;
  }

  lemma SlotBehind(e: Setting, s: State, k: Extent)
    requires Grown(e, s, k) && (e.first + k.start + k.n) % 1024 == 0 && e.first + k.start + k.n < 0x10_0000
    requires |k.frames| == k.n
    ensures HasTable(k.b.mem, e.d, e.first + k.start + k.n) == HasTable(s.b.mem, e.d, e.first + k.start + k.n)
  {
    hide Taken, Good, RunMapped, OthersSame, WereFree, DirectoryGrown, FreeIn, Bitmaps.FreeRun;
    var j := (e.first + k.start + k.n) / 1024;
    assert InFrame(j) && e.first + k.start + k.n <= 1024 * j;
    assert At(k.b.mem, e.d, j) == At(s.b.mem, e.d, j);
  }

  // ----- and two states that they meet -----

  const DIR: FrameNo := 0x100
  const POOLS := Pools(0x200, 8, 0x208, 960)
  const EXAMPLE := Setting(POOLS, DIR, User, 0x8048)

  /** A directory that holds nothing but itself. */
  function BareMemory(): Phys {
    var zero: Phys := seq(0x10_0000, _ => seq(1024, _ => 0));
    Poke(zero, DIR, 1023, EntryFor(DIR))
  }

  /** A process with that directory, and the bits of the two pools. */
  function BareProcess(kernel: seq<bool>, user: seq<bool>): State {
    State(Books(BareMemory(), kernel, user), seq(1000, _ => false), map[], {}, {}, [])
  }

  /** All frames free, or all but the first of the user pool. */
  function BareState(firstTaken: bool): State {
    BareProcess(seq(16, _ => false), seq(960, x => x == 0 && firstTaken))
  }

  lemma BareEntries(g: FrameNo, k: int)
    requires InFrame(k)
    ensures At(BareMemory(), g, k) == if g == DIR && k == 1023 then EntryFor(DIR) else 0
  {
    var zero: Phys := seq(0x10_0000, _ => seq(1024, _ => 0));
    assert At(zero, g, k) == 0;
  }

  lemma BareSlots()
    ensures forall k :: 0 <= k < 1023 ==> !Present(At(BareMemory(), DIR, k))
    ensures At(BareMemory(), DIR, 1023) == EntryFor(DIR)
  {
    hide BareMemory;
    forall k | 0 <= k < 1023 ensures !Present(At(BareMemory(), DIR, k)) {
      BareEntries(DIR, k);
    }
    BareEntries(DIR, 1023);
  }

  /** All of them are states to start from. */
  lemma BareStarts(kernel: seq<bool>, user: seq<bool>, first: nat)
    requires |kernel| == 16 && |user| == 960 && 1024 <= first <= 0x8_0000
    ensures Runs.Starts(Setting(POOLS, DIR, User, first), BareProcess(kernel, user))
  {
    hide BareMemory;
    BareSlots();
  }

  predicate Within(f: int, lo: int, n: nat) {
    lo <= f < lo + n
  }

  /** n frames in a row are n frames. */
  lemma {:induction false} RowCounts(fs: set<FrameNo>, lo: FrameNo, n: nat)
    requires lo + n <= 0x10_0000
    requires forall f: FrameNo {:trigger Within(f, lo, n)} :: Within(f, lo, n) ==> f in fs
    ensures n <= |fs|
    decreases n
  {
    if n > 0 {
      var last: FrameNo := lo + n - 1;
      assert Within(last, lo, n);
      forall f: FrameNo | Within(f, lo, n - 1) ensures f in fs - {last} {
        assert Within(f, lo, n);
      }
      RowCounts(fs - {last}, lo, n - 1);
    }
  }

  /** A few pages within one 4 MB lack at most one page table, and one can be had. */
  lemma OneTableEnough(c: Pools, b: Books, d: FrameNo, q: PageNo, n: nat)
    requires PoolsOk(c) && Sized(c, b) && n >= 1 && q / 1024 == (q + n - 1) / 1024
    ensures FreeFrames(c, b, Kernel) > 0 ==> TablesSuffice(c, b, d, User, q, n)
  {
    hide Present, FreeFrames;
    var s := LackingSlots(b.mem, d, q, Min(n, FreeFrames(c, b, User)));
    assert s <= {q / 1024};
    Subset(s, {q / 1024});
  }

  lemma Subset(a: set<int>, b: set<int>)
    requires a <= b
    ensures |a| <= |b|
  {
    assert b == a + (b - a);
  }

  lemma BareRequest(firstTaken: bool)
    ensures FirstRequest(EXAMPLE, BareState(firstTaken), 952)
    ensures !HasTable(BareState(firstTaken).b.mem, DIR, 0x8400)
    ensures FreeIn(POOLS, BareState(firstTaken).b, User, 0x208) <==> !firstTaken
  {
    hide BareMemory, Runs.Starts, TablesSuffice;
    BareStarts(seq(16, _ => false), seq(960, x => x == 0 && firstTaken), 0x8048);
    BareEntries(DIR, 33);
    var b := BareState(firstTaken).b;
    assert forall f: FrameNo :: Within(f, 0x209, 952) ==> FreeIn(POOLS, b, User, f);
    RowCounts(FreeSet(POOLS, b, User), 0x209, 952);
    assert 0x200 in FreeSet(POOLS, b, Kernel);
    OneTableEnough(POOLS, b, DIR, 0x8048, 952);
  }

  /** The first 952 pages of a process, 0x8048 to 0x83ff: free_pages stops on its assertion if they start with
      the first user frame, and otherwise faults on page 0x8400. */
  lemma Examples()
    ensures Mallocs(EXAMPLE, BareState(false), 0, 952) && Mallocs(EXAMPLE, BareState(true), 0, 952)
    ensures var s := AfterMalloc(EXAMPLE, BareState(false), 0, 952);
            Allocated(EXAMPLE, s, 0x8048) && ReleaseAnswer(EXAMPLE, s, 0x8048) == PM.Failed
    ensures var s := AfterMalloc(EXAMPLE, BareState(true), 0, 952);
            Allocated(EXAMPLE, s, 0x8048) && ReleaseAnswer(EXAMPLE, s, 0x8048) == PM.Faulted
  {
    hide FirstRequest, BareMemory, Mallocs, AfterMalloc, HasTable, FreeIn, BareState, ReleaseAnswer, Allocated;
    BareRequest(false);
    BareRequest(true);
    FirstStops(EXAMPLE, BareState(false), 952);
    FirstFaults(EXAMPLE, BareState(true), 952);
  }

  // ----- a page that is lost -----

  const ACROSS := Setting(POOLS, DIR, User, 0x83ff)

  /** Without a frame for a page table. */
  function NoTableState(): State {
    BareProcess(seq(16, _ => true), seq(960, _ => false))
  }

  /** The first two pages of a process, 0x83ff and 0x8400, without a frame for their page tables: malloc_pages answers
      with an address, at which nothing is mapped. */
  lemma LostExample()
    ensures Runs.Starts(ACROSS, NoTableState()) && Bitmaps.FirstFit(NoTableState().bits, 2, 0)
    ensures AcrossEnd(POOLS, NoTableState().b, DIR, 0x83ff) && AnswerTo(ACROSS, NoTableState(), 2, 0).Short?
    ensures var o := Grow(POOLS, NoTableState().b, DIR, User, 0x83ff, 2);
            o.Going? && PageAt(o.b.mem, DIR, 0x83ff) == None
  {
    hide BareMemory, Good, AcrossEnd, Grow, RunUnmapped, UP.FreeBitsUnmapped, FreeFrames, Progress, PageAt;
    var s := NoTableState();
    BareStarts(seq(16, _ => true), seq(960, _ => false), 0x83ff);
    NoTableFrames();
    NoneBefore(s.bits, 2);
    FirstPageLost(POOLS, s.b, DIR, 0x83ff);
    FreeRunUnmapped(ACROSS, s, 0, 2);
    UserCounts(POOLS, s.b, DIR, 0x83ff, 2);
  }

  lemma NoTableFrames()
    requires Good(POOLS, NoTableState().b, DIR)
    ensures AcrossEnd(POOLS, NoTableState().b, DIR, 0x83ff)
  {
    hide BareMemory, Good;
    BareSlots();
    var b := NoTableState().b;
    assert FreeSet(POOLS, b, Kernel) == {};
    assert forall f: FrameNo :: Within(f, 0x208, 2) ==> FreeIn(POOLS, b, User, f);
    RowCounts(FreeSet(POOLS, b, User), 0x208, 2);
  }

  // ----- a request that is refused -----

  /** With one frame for pages. */
  function OneFrameState(): State {
    BareProcess(seq(16, _ => false), seq(960, x => x != 1))
  }

  /** Two pages are asked for and there is one frame: malloc_pages answers 0, and frame and pages are gone. */
  lemma RefusedExample()
    ensures Runs.Starts(EXAMPLE, OneFrameState()) && Bitmaps.FirstFit(OneFrameState().bits, 2, 0)
    ensures AnswerTo(EXAMPLE, OneFrameState(), 2, 0).NoFrames? && Mallocs(EXAMPLE, OneFrameState(), 0, 2)
    ensures var s := AfterMalloc(EXAMPLE, OneFrameState(), 0, 2);
            && s.live == map[] && s.lostPages == {0x8048, 0x8049} && |s.lostFrames| == 1
            && Sized(POOLS, s.b) && FreeFrames(POOLS, s.b, User) == 0
  {
    hide BareMemory, Inv, Since, Ready, AfterMalloc, TablesSuffice, FreeFrames;
    var s := OneFrameState();
    BareStarts(seq(16, _ => false), seq(960, x => x != 1), 0x8048);
    Runs.StartInv(EXAMPLE, s);
    OneFrame();
    NoneBefore(s.bits, 2);
    RefusedTakesAll(EXAMPLE, s, 0, 2);
    var s' := AfterMalloc(EXAMPLE, s, 0, 2);
    assert s'.lostFrames - {} == s'.lostFrames;
    assert PageRange(0x8048, 2) == {0x8048, 0x8049};
  }

  lemma OneFrame()
    ensures FreeFrames(POOLS, OneFrameState().b, User) == 1
    ensures TablesSuffice(POOLS, OneFrameState().b, DIR, User, 0x8048, 2)
  {
    hide BareMemory;
    var b := OneFrameState().b;
    assert FreeSet(POOLS, b, User) == {0x209};
    assert 0x200 in FreeSet(POOLS, b, Kernel);
    OneTableEnough(POOLS, b, DIR, 0x8048, 2);
  }
}
