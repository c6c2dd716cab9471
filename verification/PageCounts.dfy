/** When malloc_pages gets what it needs: frames and page tables counted in the state before the call, and what
    becomes of the pages when there are too few page tables. */
module PageCounts {
  import opened Paging
  import opened PageBooks

  // ----- free frames -----

  function FreeSet(c: Pools, b: Books, pf: PoolFlag): (r: set<FrameNo>)
    requires Sized(c, b)
    ensures forall f :: f in r <==> FreeIn(c, b, pf, f)
  {
    set f: FrameNo | 0 <= f < 0x10_0000 && FreeIn(c, b, pf, f)
  }

  /** How many frames of the pool can be handed out. */
  function FreeFrames(c: Pools, b: Books, pf: PoolFlag): nat
    requires Sized(c, b)
  {
    |FreeSet(c, b, pf)|
  }

  lemma FullIsNone(c: Pools, b: Books, pf: PoolFlag)
    requires PoolsOk(c) && Sized(c, b)
    ensures Full(c, b, pf) <==> FreeFrames(c, b, pf) == 0
  {
    hide FirstFree;
    var v := BitsFor(b, pf)[..LenOf(c, pf)];
    if Full(c, b, pf) {
      forall f: FrameNo | StartOf(c, pf) <= f < StartOf(c, pf) + LenOf(c, pf) ensures !FreeIn(c, b, pf, f) {
        assert v[f - StartOf(c, pf)];
      }
    } else {
      PallocTakes(c, b, pf);
      assert Palloc(c, b, pf) in FreeSet(c, b, pf);
    }
  }

  /** A palloc takes one frame from its pool. */
  lemma PallocCounts(c: Pools, b: Books, pf: PoolFlag, pg: PoolFlag)
    requires PoolsOk(c) && Sized(c, b)
    ensures var n := FreeFrames(c, b, pg);
            FreeFrames(c, AfterPalloc(c, b, pf), pg) == if pf == pg && n > 0 then n - 1 else n
  {
    FullIsNone(c, b, pf);
    if !Full(c, b, pf) {
      PallocTakes(c, b, pf);
      var f, r := Palloc(c, b, pf), AfterPalloc(c, b, pf);
      hide Full, Palloc, AfterPalloc, PallocBit;
      if pf == pg {
        assert FreeSet(c, r, pg) == FreeSet(c, b, pg) - {f};
      } else {
        assert FreeSet(c, r, pg) == FreeSet(c, b, pg);
      }
    }
  }

  lemma SameBooksCount(c: Pools, b: Books, mem: Phys, pg: PoolFlag)
    requires Sized(c, b)
    ensures FreeFrames(c, b.(mem := mem), pg) == FreeFrames(c, b, pg)
  {
    assert FreeSet(c, b.(mem := mem), pg) == FreeSet(c, b, pg);
  }

  // ----- page tables that are not there -----

  /** Some page of the run is in the 4 MB of slot k. */
  predicate SlotOfRun(k: int, q: int, n: nat) {
    n > 0 && q / 1024 <= k <= (q + n - 1) / 1024
  }

  function LackingSlots(mem: Phys, d: FrameNo, q: int, n: nat): set<int> {
    set k | 0 <= k < 1024 && SlotOfRun(k, q, n) && !Present(At(mem, d, k))
  }

  /** How many page tables are not there for the n pages from q on. */
  function Lacking(mem: Phys, d: FrameNo, q: int, n: nat): nat {
    |LackingSlots(mem, d, q, n)|
  }

  lemma LackingMore(mem: Phys, d: FrameNo, q: nat, n: nat)
    requires q + n < 0x10_0000
    ensures var s := (q + n) / 1024;
            && InFrame(s)
            && Lacking(mem, d, q, n + 1) ==
               Lacking(mem, d, q, n) + if SlotOfRun(s, q, n) || Present(At(mem, d, s)) then 0 else 1
  {
    var s := (q + n) / 1024;
    assert InFrame(s);
    hide At, Present;
    forall k | 0 <= k < 1024 ensures SlotOfRun(k, q, n + 1) <==> SlotOfRun(k, q, n) || k == s {
      SlotMore(k, q, n);
    }
    hide SlotOfRun;
    if SlotOfRun(s, q, n) || Present(At(mem, d, s)) {
      assert LackingSlots(mem, d, q, n + 1) == LackingSlots(mem, d, q, n);
    } else {
      assert LackingSlots(mem, d, q, n + 1) == LackingSlots(mem, d, q, n) + {s};
    }
  }

  lemma SlotMore(k: int, q: nat, n: nat)
    ensures SlotOfRun(k, q, n + 1) <==> SlotOfRun(k, q, n) || k == (q + n) / 1024
  {
  }

  lemma LackingNone(mem: Phys, d: FrameNo, q: int)
    ensures Lacking(mem, d, q, 0) == 0
  {
    assert LackingSlots(mem, d, q, 0) == {};
  }

  /** A longer run lacks no fewer tables. */
  lemma {:induction false} LackingGrows(mem: Phys, d: FrameNo, q: nat, m: nat, n: nat)
    requires m <= n && q + n <= 0x10_0000
    ensures Lacking(mem, d, q, m) <= Lacking(mem, d, q, n)
    decreases n
  {
    hide Lacking, SlotOfRun, At, Present;
    if m < n {
      LackingGrows(mem, d, q, m, n - 1);
      LackingMore(mem, d, q, n - 1);
    }
  }

  function Min(a: nat, b: nat): nat {
    if a < b then a else b
  }

  /** What is left of the first number beyond the second. */
  function Excess(a: nat, b: nat): nat {
    if a > b then a - b else 0
  }

  /** malloc_pages of n pages from q on never makes frame 0 a page table that is one already.  For a process: the
      pages that there are frames for lack at most one page table more than the kernel pool has frames, and
      that one only if frame 0 is no page table yet.  The kernel half has all its page tables. */
  predicate TablesSuffice(c: Pools, b: Books, d: FrameNo, pf: PoolFlag, q: int, n: nat)
    requires Sized(c, b)
  {
    if pf.Kernel? then Lacking(b.mem, d, q, n) == 0
    else Lacking(b.mem, d, q, Min(n, FreeFrames(c, b, User))) <= FreeFrames(c, b, Kernel) + Spare(b.mem, d)
  }

  // ----- the loop, counted -----

  /** The slot of the next page has a table exactly when it had one, or an earlier page of the run is in it. */
  lemma SlotPresent(c: Pools, b: Books, o: Growth, d: FrameNo, pf: PoolFlag, q: PageNo)
    requires PoolsOk(c) && Sized(c, b) && Progress(c, b, o, d, pf, q) && OrdinaryRun(q, |o.frames|)
    requires o.frames == [] ==> o.b == b
    ensures var s := (q + |o.frames|) / 1024;
            InFrame(s) && (Present(At(o.b.mem, d, s)) <==> Present(At(b.mem, d, s)) || SlotOfRun(s, q, |o.frames|))
  {
    hide Good, WereFree, Taken, OthersSame, FrameOf;
    var n := |o.frames|;
    var s := (q + n) / 1024;
    assert InFrame(s);
    if n > 0 {
      assert PageAt(o.b.mem, d, q + (n - 1)) == Some(o.frames[n - 1]);
      assert SlotOfRun(s, q, n) ==> (q + (n - 1)) / 1024 == s;
      hide RunMapped;
      assert !SlotOfRun(s, q, n) ==> q + n <= 1024 * s;
    }
  }

  /** The numbers while no second page table gets into frame 0. */
  ghost predicate Counted(c: Pools, b: Books, o: Growth, d: FrameNo, q: int)
    requires PoolsOk(c) && Sized(c, b)
  {
    && !o.AssertFailed? && Sized(c, o.b)
    && |o.frames| + FreeFrames(c, o.b, User) == FreeFrames(c, b, User)
    && |o.tables| == Lacking(b.mem, d, q, |o.frames|)
    && Zeros(o.tables) == Excess(|o.tables|, FreeFrames(c, b, Kernel))
    && FreeFrames(c, o.b, Kernel) == Excess(FreeFrames(c, b, Kernel), |o.tables|)
  }

  lemma CountNone(c: Pools, b: Books, d: FrameNo, q: int)
    requires PoolsOk(c) && Sized(c, b)
    ensures Counted(c, b, Going(b, [], []), d, q)
  {
    LackingNone(b.mem, d, q);
    hide Lacking, FreeFrames;
  }

  /** One page more. */
  lemma OnePageCounts(c: Pools, o: Growth, d: FrameNo, pf: PoolFlag, q: PageNo)
    requires PoolsOk(c) && o.Going? && Sized(c, o.b) && OnePage(c, o, d, pf, q).Going?
    ensures var r := OnePage(c, o, d, pf, q);
            var had := Present(Pde(o.b.mem, d, Addr(q)));
            var u, k := FreeFrames(c, o.b, pf), FreeFrames(c, o.b, Kernel);
            && u > 0 && FreeFrames(c, r.b, pf) == (u - 1) - (if pf.Kernel? && !had && u > 1 then 1 else 0)
            && |r.frames| == |o.frames| + 1
            && |r.tables| == |o.tables| + (if had then 0 else 1)
            && (pf.User? ==>
                  && Zeros(r.tables) == Zeros(o.tables) + (if had || k > 0 then 0 else 1)
                  && FreeFrames(c, r.b, Kernel) == if had || k == 0 then k else k - 1)
  {
    hide FreeFrames, FirstFree, Mapped, AfterPalloc, Palloc, Full, Pde, Pte, Present;
    var r, b1 := OnePage(c, o, d, pf, q), AfterPalloc(c, o.b, pf);
    var had := Present(Pde(o.b.mem, d, Addr(q)));
    var b2 := if had then b1 else AfterPalloc(c, b1, Kernel);
    FullIsNone(c, o.b, pf);
    PallocCounts(c, o.b, pf, User);
    PallocCounts(c, o.b, pf, Kernel);
    PallocCounts(c, b1, Kernel, User);
    PallocCounts(c, b1, Kernel, Kernel);
    assert r.b == b2.(mem := r.b.mem);
    SameBooksCount(c, b2, r.b.mem, User);
    SameBooksCount(c, b2, r.b.mem, Kernel);
    if !had {
      TableBits(c, b1, pf);
      FullIsNone(c, b1, Kernel);
      var t := Palloc(c, b1, Kernel);
      assert multiset(o.tables + [t]) == multiset(o.tables) + multiset{t};
    }
  }

  lemma CountTurn(c: Pools, b: Books, o: Growth, d: FrameNo, q: PageNo)
    requires PoolsOk(c) && Sized(c, b) && Progress(c, b, o, d, User, q) && OrdinaryRun(q, |o.frames| + 1)
    requires o.Going? && (o.frames == [] ==> o.b == b)
    requires Counted(c, b, o, d, q) && OnePage(c, o, d, User, q + |o.frames|).Going?
    ensures var r := OnePage(c, o, d, User, q + |o.frames|);
            Counted(c, b, r, d, q) && |r.frames| == |o.frames| + 1
  {
    hide Progress, OnePage, FreeFrames, Lacking, At, Present, SlotOfRun;
    var n := |o.frames|;
    SlotPresent(c, b, o, d, User, q);
    LackingMore(b.mem, d, q, n);
    OnePageCounts(c, o, d, User, q + n);
  }

  /** For a process: no second page table gets into frame 0 if and only if the tables suffice, and then the
      numbers are these. */
  lemma {:induction false} UserCounts(c: Pools, b: Books, d: FrameNo, q: PageNo, n: nat)
    requires Good(c, b, d) && OrdinaryRun(q, n) && RunUnmapped(b.mem, d, q, n)
    ensures var o := Grow(c, b, d, User, q, n);
            && (Zeros(o.tables) <= Spare(b.mem, d) <==> TablesSuffice(c, b, d, User, q, n))
            && (TablesSuffice(c, b, d, User, q, n) ==>
                  Counted(c, b, o, d, q) && |o.frames| == Min(n, FreeFrames(c, b, User)))
    decreases n
  {
    hide Good, RunUnmapped, Grow, OnePage, Progress, FreeFrames, Lacking, Full, ZeroTable, Counted;
    GoodParts(c, b, d);
    if n == 0 {
      StartSuffices(c, b, d, q);
    } else {
      RunUnmappedPart(b.mem, d, q, n);
      UserCounts(c, b, d, q, n - 1);
      GrowProgress(c, b, d, User, q, n - 1);
      GrowProgress(c, b, d, User, q, n);
      GrowUnfold(c, b, d, User, q, n);
      GrowNone(c, b, d, User, q);
      var o, r := Grow(c, b, d, User, q, n - 1), Grow(c, b, d, User, q, n);
      LackingGrows(b.mem, d, q, Min(n - 1, FreeFrames(c, b, User)), Min(n, FreeFrames(c, b, User)));
      if Zeros(o.tables) <= Spare(b.mem, d) {
        CountedParts(c, b, o, d, q);
        FullIsNone(c, o.b, User);
        if o.Going? {
          OnePageParts(c, o, d, User, q + n - 1);
          assert o.frames == [] ==> o.b == b;
          if !Full(c, o.b, User) {
            OnePageGoes(c, b, o, d, q);
            CountTurn(c, b, o, d, q);
            CountedParts(c, b, r, d, q);
          } else {
            CountedSame(c, b, o, r, d, q);
          }
        }
      } else if o.Going? {
        OnePageParts(c, o, d, User, q + n - 1);
      }
    }
  }

  lemma StartSuffices(c: Pools, b: Books, d: FrameNo, q: PageNo)
    requires PoolsOk(c) && Sized(c, b)
    ensures Grow(c, b, d, User, q, 0) == Going(b, [], []) && Counted(c, b, Going(b, [], []), d, q)
    ensures TablesSuffice(c, b, d, User, q, 0)
  {
    CountNone(c, b, d, q);
    LackingNone(b.mem, d, q);
    hide Lacking, FreeFrames, ZeroTable, Counted;
  }

  lemma CountedParts(c: Pools, b: Books, o: Growth, d: FrameNo, q: int)
    requires PoolsOk(c) && Sized(c, b) && Counted(c, b, o, d, q)
    ensures !o.AssertFailed? && Sized(c, o.b) && |o.frames| + FreeFrames(c, o.b, User) == FreeFrames(c, b, User)
    ensures Zeros(o.tables) == Excess(Lacking(b.mem, d, q, |o.frames|), FreeFrames(c, b, Kernel))
  {
    hide FreeFrames, Lacking;
  }

  lemma CountedSame(c: Pools, b: Books, o: Growth, r: Growth, d: FrameNo, q: int)
    requires PoolsOk(c) && Sized(c, b) && Counted(c, b, o, d, q) && r == OutOfFrames(o.b, o.frames, o.tables)
    ensures Counted(c, b, r, d, q)
  {
    hide FreeFrames, Lacking;
  }

  /** The next page is not mapped yet, so that no assertion fails. */
  lemma OnePageGoes(c: Pools, b: Books, o: Growth, d: FrameNo, q: PageNo)
    requires PoolsOk(c) && Sized(c, b) && Progress(c, b, o, d, User, q) && OrdinaryRun(q, |o.frames| + 1)
    requires PageAt(b.mem, d, q + |o.frames|) == None && !Full(c, o.b, User) && o.Going? && Sized(c, o.b)
    ensures OnePage(c, o, d, User, q + |o.frames|).Going?
  {
    var at: PageNo := q + |o.frames|;
    hide Good, WereFree, Taken, RunMapped, DirectoryGrown, SlotsWithin, FirstFree, Palloc, AfterPalloc, Mapped;
    assert PageAt(o.b.mem, d, at) == PageAt(b.mem, d, at);
  }

  /** The kernel half: no page table is made. */
  lemma {:induction false} KernelCounts(c: Pools, b: Books, d: FrameNo, q: PageNo, n: nat)
    requires Good(c, b, d) && OrdinaryRun(q, n) && RunUnmapped(b.mem, d, q, n) && TablesSuffice(c, b, d, Kernel, q, n)
    ensures var o := Grow(c, b, d, Kernel, q, n);
            && !o.AssertFailed? && Sized(c, o.b) && o.tables == []
            && |o.frames| == Min(n, FreeFrames(c, b, Kernel))
            && |o.frames| + FreeFrames(c, o.b, Kernel) == FreeFrames(c, b, Kernel)
    decreases n
  {
    hide Good, RunUnmapped, Grow, OnePage, Progress, FreeFrames, Lacking, Full, ZeroTable, SlotOfRun, At, Present;
    GoodParts(c, b, d);
    GrowNone(c, b, d, Kernel, q);
    if n > 0 {
      RunUnmappedPart(b.mem, d, q, n);
      LackingMore(b.mem, d, q, n - 1);
      KernelCounts(c, b, d, q, n - 1);
      GrowProgress(c, b, d, Kernel, q, n - 1);
      GrowProgress(c, b, d, Kernel, q, n);
      GrowUnfold(c, b, d, Kernel, q, n);
      var o, r := Grow(c, b, d, Kernel, q, n - 1), Grow(c, b, d, Kernel, q, n);
      if o.Going? {
        FullIsNone(c, o.b, Kernel);
        OnePageParts(c, o, d, Kernel, q + n - 1);
        if !Full(c, o.b, Kernel) {
          SlotPresent(c, b, o, d, Kernel, q);
          assert Present(Pde(o.b.mem, d, Addr(q + n - 1)));
          OnePageWithTable(c, o, d, Kernel, q + n - 1);
          OnePageCounts(c, o, d, Kernel, q + n - 1);
        }
      }
    }
  }

  lemma OnePageWithTable(c: Pools, o: Growth, d: FrameNo, pf: PoolFlag, q: PageNo)
    requires PoolsOk(c) && o.Going? && Sized(c, o.b) && Present(Pde(o.b.mem, d, Addr(q)))
    ensures OnePage(c, o, d, pf, q).tables == o.tables
  {
    hide Mapped, Full, Palloc, AfterPalloc;
  }

  /** When the tables suffice, malloc_pages fails no assertion, the pages it got to are as GrowProgress says, and
      it gets to the end if and only if n frames are free; otherwise it takes all there are. */
  lemma GrowExactly(c: Pools, b: Books, d: FrameNo, pf: PoolFlag, q: PageNo, n: nat)
    requires Good(c, b, d) && OrdinaryRun(q, n) && RunUnmapped(b.mem, d, q, n)
    requires TablesSuffice(c, b, d, pf, q, n)
    ensures var o := Grow(c, b, d, pf, q, n);
            && !o.AssertFailed? && Progress(c, b, Kept(o), d, pf, q)
            && |o.frames| == Min(n, FreeFrames(c, b, pf))
            && |o.frames| + FreeFrames(c, o.b, pf) == FreeFrames(c, b, pf)
            && (o.Going? <==> n <= FreeFrames(c, b, pf))
            && |o.tables| == Lacking(b.mem, d, q, |o.frames|)
            && Zeros(o.tables) == if pf.Kernel? then 0 else Excess(|o.tables|, FreeFrames(c, b, Kernel))
  {
    GoodParts(c, b, d);
    GrowProgress(c, b, d, pf, q, n);
    hide Good, RunUnmapped, Grow, Progress, FreeFrames, Lacking, ZeroTable, Full;
    var o := Grow(c, b, d, pf, q, n);
    if pf.Kernel? {
      KernelCounts(c, b, d, q, n);
      LackingGrows(b.mem, d, q, |o.frames|, n);
    } else {
      UserCounts(c, b, d, q, n);
    }
    if o.OutOfFrames? { FullIsNone(c, o.b, pf); }
  }
}
