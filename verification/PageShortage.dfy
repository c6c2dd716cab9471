/** malloc_pages of a process that is short of page tables: the second page table that page_table_add puts into
    frame 0 wipes the first, and the pages of both are one. */
module PageShortage {
  import opened Paging
  import opened PageBooks
  import opened PageCounts

  /** Frame 0 is the page table of slots j and k. */
  ghost predicate TwoSlots(mem: Phys, d: FrameNo, j: int, k: int) {
    && 1 <= j < k < 1023 && Present(At(mem, d, j)) && Present(At(mem, d, k))
    && FrameOf(At(mem, d, j)) == 0 && FrameOf(At(mem, d, k)) == 0
  }

  /** Frame 0 is the page table of two slots, and translates some page. */
  ghost predicate Twice(mem: Phys, d: FrameNo) {
    (exists i :: InFrame(i) && Present(At(mem, 0, i))) && exists j, k :: TwoSlots(mem, d, j, k)
  }

  /** Two pages of the address space are in one frame. */
  ghost predicate Shared(mem: Phys, d: FrameNo) {
    exists r1: PageNo, r2: PageNo {:trigger PageAt(mem, d, r1), PageAt(mem, d, r2)} ::
      Ordinary(r1) && Ordinary(r2) && r1 != r2 && PageAt(mem, d, r1).Some? && PageAt(mem, d, r1) == PageAt(mem, d, r2)
  }

  lemma TwiceShares(mem: Phys, d: FrameNo)
    requires Twice(mem, d)
    ensures Shared(mem, d) && !OwnTables(mem, d)
  {
    var i :| InFrame(i) && Present(At(mem, 0, i));
    var j, k :| TwoSlots(mem, d, j, k);
    hide Present, FrameOf, At;
    var r1: PageNo, r2: PageNo := 1024 * j + i, 1024 * k + i;
    assert r1 / 1024 == j && r1 % 1024 == i && r2 / 1024 == k && r2 % 1024 == i;
    assert PageAt(mem, d, r1) == Some(FrameOf(At(mem, 0, i)));
    assert PageAt(mem, d, r2) == Some(FrameOf(At(mem, 0, i)));
  }

  /** What page_table_add does to frame 0 as a page table. */
  lemma TurnZero(mem: Phys, d: FrameNo, v: Word, p: FrameNo, made: FrameNo)
    requires TablesOutside(mem, d) && d != 0 && 1 <= Slot(v) < 1023
    requires !Present(Pde(mem, d, v)) ==> made != d
    ensures var mem2 := Mapped(mem, d, v, p, made);
            && (ZeroTable(mem, d) || (!Present(Pde(mem, d, v)) && made == 0) ==> ZeroTable(mem2, d))
            && (Twice(mem, d) || (!Present(Pde(mem, d, v)) && made == 0 && ZeroTable(mem, d)) ==> Twice(mem2, d))
  {
    var mem2 := Mapped(mem, d, v, p, made);
    var had := Present(Pde(mem, d, v));
    forall k | InFrame(k) ensures At(mem2, d, k) == if k == Slot(v) && !had then EntryFor(made) else At(mem, d, k) {
      AddDirectory(mem, d, v, p, made, k);
    }
    WordsOfZero(mem, d, v, p, made);
    hide Mapped, Present, FrameOf, At, EntryFor, Slot;
    if ZeroTable(mem, d) {
      var j :| 1 <= j < 1023 && Present(At(mem, d, j)) && FrameOf(At(mem, d, j)) == 0;
      assert InFrame(j) && At(mem2, d, j) == At(mem, d, j);
      if !had && made == 0 {
        var k := Slot(v);
        assert j != k && At(mem2, d, k) == EntryFor(0);
        assert Present(At(mem2, 0, Index(v)));
        assert if j < k then TwoSlots(mem2, d, j, k) else TwoSlots(mem2, d, k, j);
      }
    }
    if Twice(mem, d) {
      var i :| InFrame(i) && Present(At(mem, 0, i));
      var j, k :| TwoSlots(mem, d, j, k);
      assert InFrame(j) && InFrame(k);
      assert TwoSlots(mem2, d, j, k);
      assert Present(At(mem2, 0, i)) || Present(At(mem2, 0, Index(v)));
    }
  }

  /** The word of the page is set if its table is frame 0, and otherwise frame 0 is left alone. */
  lemma WordsOfZero(mem: Phys, d: FrameNo, v: Word, p: FrameNo, made: FrameNo)
    requires d != 0
    ensures var mem2 := Mapped(mem, d, v, p, made);
            if TableOf(mem, d, v, made) == 0 then Present(At(mem2, 0, Index(v)))
            else forall i :: InFrame(i) ==> At(mem2, 0, i) == At(mem, 0, i)
  {
    hide Index, Slot, At, Poke, Cleared;
  }

  lemma OnePageMemory(c: Pools, o: Growth, d: FrameNo, pf: PoolFlag, q: PageNo)
    requires PoolsOk(c) && o.Going? && Sized(c, o.b) && OnePage(c, o, d, pf, q).Going?
    ensures var r := OnePage(c, o, d, pf, q);
            var t := Palloc(c, AfterPalloc(c, o.b, pf), Kernel);
            var p := Palloc(c, o.b, pf);
            if Present(Pde(o.b.mem, d, Addr(q))) then
              r.b.mem == Mapped(o.b.mem, d, Addr(q), p, 0) && Zeros(r.tables) == Zeros(o.tables)
            else
              r.b.mem == Mapped(o.b.mem, d, Addr(q), p, t) && Zeros(r.tables) == Zeros(o.tables) + if t == 0 then 1 else 0
  {
    hide Mapped, Full, Palloc, AfterPalloc;
    var t := Palloc(c, AfterPalloc(c, o.b, pf), Kernel);
    assert multiset(o.tables + [t]) == multiset(o.tables) + multiset{t};
  }

  lemma OnePageReachable(c: Pools, o: Growth, d: FrameNo, pf: PoolFlag, q: PageNo)
    requires o.Going? && Reachable(c, o.b, d) && Ordinary(q)
    ensures PoolsOk(c) && Sized(c, o.b) && Palloc(c, AfterPalloc(c, o.b, pf), Kernel) != d
    ensures var r := OnePage(c, o, d, pf, q); !r.AssertFailed? ==> Reachable(c, r.b, d)
  {
    ReachableTurn(c, o.b, d, pf, q);
    hide Full, Palloc, AfterPalloc, PageTableAdd, Reachable;
    ReachableParts(c, o.b, d);
    ReachableParts(c, AfterPalloc(c, o.b, pf), d);
  }

  /** Frame 0 holds a page table once there was none for it, and two when that happened again. */
  lemma {:induction false} ShortRun(c: Pools, b: Books, d: FrameNo, pf: PoolFlag, q: PageNo, n: nat)
    requires Reachable(c, b, d) && OrdinaryRun(q, n)
    ensures PoolsOk(c) && Sized(c, b)
    ensures var o := Grow(c, b, d, pf, q, n);
            !o.AssertFailed? ==>
              && Reachable(c, o.b, d)
              && (ZeroTable(b.mem, d) || Zeros(o.tables) > 0 ==> ZeroTable(o.b.mem, d))
              && (Zeros(o.tables) > Spare(b.mem, d) ==> Twice(o.b.mem, d))
    decreases n
  {
    hide Reachable, Grow, OnePage, ZeroTable, Twice, TablesOutside, Mapped, Present, Palloc, AfterPalloc;
    ReachableParts(c, b, d);
    if n == 0 {
      GrowNone(c, b, d, pf, q);
    } else {
      ShortRun(c, b, d, pf, q, n - 1);
      GrowUnfold(c, b, d, pf, q, n);
      var o := Grow(c, b, d, pf, q, n - 1);
      if o.Going? {
        var at: PageNo := q + n - 1;
        OnePageReachable(c, o, d, pf, at);
        OnePageParts(c, o, d, pf, at);
        if OnePage(c, o, d, pf, at).Going? {
          ShortTurn(c, b, o, d, pf, at);
        }
      }
    }
  }

  lemma ShortTurn(c: Pools, b: Books, o: Growth, d: FrameNo, pf: PoolFlag, q: PageNo)
    requires o.Going? && Reachable(c, o.b, d) && Ordinary(q) && PoolsOk(c) && Sized(c, o.b)
    requires OnePage(c, o, d, pf, q).Going?
    requires ZeroTable(b.mem, d) || Zeros(o.tables) > 0 ==> ZeroTable(o.b.mem, d)
    requires Zeros(o.tables) > Spare(b.mem, d) ==> Twice(o.b.mem, d)
    ensures var r := OnePage(c, o, d, pf, q);
            && (ZeroTable(b.mem, d) || Zeros(r.tables) > 0 ==> ZeroTable(r.b.mem, d))
            && (Zeros(r.tables) > Spare(b.mem, d) ==> Twice(r.b.mem, d))
  {
    hide OnePage, ZeroTable, Twice, TablesOutside, Mapped, Present, Palloc, AfterPalloc, SelfMapped, Free;
    OnePageMemory(c, o, d, pf, q);
    OnePageReachable(c, o, d, pf, q);
    var had := Present(Pde(o.b.mem, d, Addr(q)));
    TurnZero(o.b.mem, d, Addr(q), Palloc(c, o.b, pf), if had then 0 else Palloc(c, AfterPalloc(c, o.b, pf), Kernel));
  }

  /** For a process, what GrowProgress says of the pages holds if and only if the page tables suffice.  When they do
      not, an assertion fails, or two pages of the address space lie in one frame in the end. */
  lemma PagesKeptIff(c: Pools, b: Books, d: FrameNo, q: PageNo, n: nat)
    requires Good(c, b, d) && OrdinaryRun(q, n) && RunUnmapped(b.mem, d, q, n)
    ensures var o := Grow(c, b, d, User, q, n);
            && (TablesSuffice(c, b, d, User, q, n) <==> !o.AssertFailed? && Progress(c, b, Kept(o), d, User, q))
            && (!TablesSuffice(c, b, d, User, q, n) ==> o.AssertFailed? || Shared(o.b.mem, d))
  {
    hide Good, RunUnmapped, Grow, Progress, TablesSuffice, ZeroTable, Reachable, Twice, Shared, OwnTables;
    GoodParts(c, b, d);
    GoodReachable(c, b, d);
    GrowProgress(c, b, d, User, q, n);
    UserCounts(c, b, d, q, n);
    ShortRun(c, b, d, User, q, n);
    var o := Grow(c, b, d, User, q, n);
    if !TablesSuffice(c, b, d, User, q, n) && !o.AssertFailed? {
      TwiceShares(o.b.mem, d);
      if Progress(c, b, Kept(o), d, User, q) { ProgressOwn(c, b, Kept(o), d, User, q); }
    }
  }

  lemma ProgressOwn(c: Pools, b: Books, o: Growth, d: FrameNo, pf: PoolFlag, q: PageNo)
    requires PoolsOk(c) && Sized(c, b) && Progress(c, b, o, d, pf, q)
    ensures OwnTables(o.b.mem, d)
  {
    hide WereFree, Taken, OthersSame, DirectoryGrown, SlotsWithin, RunMapped;
    GoodParts(c, o.b, d);
  }

  // ----- an input -----

  /** A run over the end of a 4 MB, no page table on either side, none to be had, and two frames for its pages. */
  ghost predicate AcrossEnd(c: Pools, b: Books, d: FrameNo, q: PageNo) {
    && Good(c, b, d) && Sized(c, b)
    && q % 1024 == 1023 && OrdinaryRun(q, 2)
    && !Present(Pde(b.mem, d, Addr(q))) && !Present(Pde(b.mem, d, Addr(q + 1)))
    && FreeFrames(c, b, Kernel) == 0 && FreeFrames(c, b, User) >= 2
  }

  /** malloc_pages of these two pages gets to its end, and the first of them is not mapped. */
  lemma FirstPageLost(c: Pools, b: Books, d: FrameNo, q: PageNo)
    requires AcrossEnd(c, b, d, q)
    ensures PoolsOk(c) && Sized(c, b) && q + 2 <= 0x10_0000
    ensures var o := Grow(c, b, d, User, q, 2);
            o.Going? && o.tables == [0, 0] && PageAt(o.b.mem, d, q) == None
  {
    hide Grow, FreeFrames, Free, Mapped, Present, Pde, Addr, OnePage, OwnTables;
    GrowNone(c, b, d, User, q);
    GrowUnfold(c, b, d, User, q, 1);
    GrowUnfold(c, b, d, User, q, 2);
    var o0 := Going(b, [], []);
    TableInZero(c, o0, d, q);
    var o1 := OnePage(c, o0, d, User, q);
    LateSlot(b.mem, d, q, Palloc(c, b, User));
    TableInZero(c, o1, d, q + 1);
    Wiped(o1.b.mem, d, q, Palloc(c, o1.b, User));
  }

  /** A page without a page table, and none to be had. */
  lemma TableInZero(c: Pools, o: Growth, d: FrameNo, q: PageNo)
    requires PoolsOk(c) && o.Going? && Sized(c, o.b) && !Present(Pde(o.b.mem, d, Addr(q)))
    requires FreeFrames(c, o.b, Kernel) == 0 && FreeFrames(c, o.b, User) > 0
    ensures var r := OnePage(c, o, d, User, q);
            && r.Going? && r.b.mem == Mapped(o.b.mem, d, Addr(q), Palloc(c, o.b, User), 0)
            && r.tables == o.tables + [0] && Sized(c, r.b)
            && FreeFrames(c, r.b, Kernel) == 0 && FreeFrames(c, r.b, User) == FreeFrames(c, o.b, User) - 1
  {
    hide FreeFrames, Mapped, Present, Pde, Addr, FirstFree;
    FullIsNone(c, o.b, User);
    var b1 := AfterPalloc(c, o.b, User);
    PallocCounts(c, o.b, User, Kernel);
    FullIsNone(c, b1, Kernel);
    OnePageCounts(c, o, d, User, q);
  }

  /** The next slot still has no page table. */
  lemma LateSlot(mem: Phys, d: FrameNo, q: PageNo, p: FrameNo)
    requires q % 1024 == 1023 && q < 0xf_ffff && d != 0 && !Present(Pde(mem, d, Addr(q)))
    ensures var mem1 := Mapped(mem, d, Addr(q), p, 0);
            && Pde(mem1, d, Addr(q)) == EntryFor(0) && Pde(mem1, d, Addr(q + 1)) == Pde(mem, d, Addr(q + 1))
  {
    AddDirectory(mem, d, Addr(q), p, 0, Slot(Addr(q)));
    AddDirectory(mem, d, Addr(q), p, 0, Slot(Addr(q + 1)));
    assert Slot(Addr(q)) != Slot(Addr(q + 1));
    hide Mapped, Present, FrameOf, Addr, Slot, EntryFor, At;
  }

  /** Another page table in frame 0 wipes the first. */
  lemma Wiped(mem: Phys, d: FrameNo, q: PageNo, p: FrameNo)
    requires q % 1024 == 1023 && q < 0xf_ffff && d != 0
    requires Pde(mem, d, Addr(q)) == EntryFor(0) && !Present(Pde(mem, d, Addr(q + 1)))
    ensures PageAt(Mapped(mem, d, Addr(q + 1), p, 0), d, q) == None
  {
    var v := Addr(q + 1);
    var mem2 := Mapped(mem, d, v, p, 0);
    AddDirectory(mem, d, v, p, 0, Slot(Addr(q)));
    assert Slot(Addr(q)) != Slot(v) && Index(Addr(q)) != Index(v);
    assert !Present(0);
    hide Present, Addr, Slot, Index, At, Poke, Cleared;
    assert Pde(mem2, d, Addr(q)) == EntryFor(0);
    assert Pte(mem2, d, Addr(q)) == 0;
  }
}
