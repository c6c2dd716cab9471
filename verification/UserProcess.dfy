/** create_page_dir: the address space of a new process. */
module UserProcess {
  import opened Paging
  import opened PageBooks
  import opened PageCounts
  import opened PageManager
  import opened AddressSpaces
  import Bitmaps

  /** All slots from 768 on have page tables. */
  ghost predicate KernelTables(mem: Phys, d: FrameNo) {
    forall k {:trigger At(mem, d, k)} :: KERNEL_SLOT <= k < SELF_SLOT ==> Present(At(mem, d, k))
  }

  /** What AddressSpaces keeps in every reachable state is what the page allocator needs of a directory,
      once the pools hold back the directory and its tables. */
  lemma SpaceIsGood(s: Spaces, c: Pools, b: Books, d: FrameNo)
    requires Inv(s) && d in s.dirs && b.mem == s.mem && PoolsOk(c) && Sized(c, b)
    requires d != 0 && !Free(c, b, d)
    requires forall k {:trigger At(s.mem, d, k)} ::
        0 <= k < SELF_SLOT && Present(At(s.mem, d, k)) ==> !Free(c, b, FrameOf(At(s.mem, d, k)))
    ensures Good(c, b, d) && KernelTables(b.mem, d)
  {
    hide At, Present, FrameOf, FreeIn;
    forall j, k | 1 <= j < k < SELF_SLOT && Present(At(s.mem, d, j)) && Present(At(s.mem, d, k))
      ensures FrameOf(At(s.mem, d, j)) != FrameOf(At(s.mem, d, k))
    {
      TablesOnce(s, d, j, k);
    }
    assert forall k :: KERNEL_SLOT <= k < SELF_SLOT ==> At(s.mem, d, k) == BootEntry(k);
  }

  /** Pages of the kernel half never need a new page table, and malloc_pages of n of them gets to its end if and
      only if n frames are free. */
  lemma KernelNeedsNoTable(c: Pools, b: Books, d: FrameNo, q: PageNo, n: nat)
    requires Good(c, b, d) && KernelTables(b.mem, d) && 1024 * KERNEL_SLOT <= q && OrdinaryRun(q, n)
    requires RunUnmapped(b.mem, d, q, n)
    ensures PoolsOk(c) && Sized(c, b) && TablesSuffice(c, b, d, Kernel, q, n)
    ensures var o := Grow(c, b, d, Kernel, q, n);
            && !o.AssertFailed? && o.tables == [] && Progress(c, b, Kept(o), d, Kernel, q)
            && |o.frames| == Min(n, FreeFrames(c, b, Kernel))
            && (o.Going? <==> n <= FreeFrames(c, b, Kernel))
  {
    hide Good, Progress, RunUnmapped, Grow, FreeFrames, Present;
    GoodParts(c, b, d);
    assert LackingSlots(b.mem, d, q, n) == {};
    GrowExactly(c, b, d, Kernel, q, n);
    KernelCounts(c, b, d, q, n);
  }

  /** The frames that malloc_pages hands out are no page tables. */
  lemma FramesAreData(c: Pools, b: Books, o: Growth, d: FrameNo, pf: PoolFlag, q: PageNo, f: FrameNo)
    requires Good(c, b, d) && Progress(c, b, o, d, pf, q) && f in o.frames
    ensures NotATable(o.b.mem, d, f)
  {
    hide Taken, RunMapped, OthersSame, FreeIn, At, Present, FrameOf, OwnTables;
    assert FreeIn(c, b, pf, f);
    assert Good(c, o.b, d);
    forall k | InFrame(k) && Present(At(o.b.mem, d, k)) ensures FrameOf(At(o.b.mem, d, k)) != f {
      assert k < 1023 || k == 1023;
    }
  }

  /** Writing to a page of data changes one word of its frame, and no translation. */
  method StoreInPage(m: Memory, q: PageNo, i: int, w: Word, ghost f: FrameNo)
    requires InFrame(i) && PageAt(m.mem, m.cr3, q) == Some(f) && NotATable(m.mem, m.cr3, f)
    modifies m`mem
    ensures m.mem == Poke(old(m.mem), f, i, w)
    ensures PageAt(m.mem, m.cr3, q) == Some(f) && NotATable(m.mem, m.cr3, f)
    ensures SelfMapped(old(m.mem), m.cr3) ==> SelfMapped(m.mem, m.cr3)
  {
    ghost var was := m.mem;
    var v: Word := 0x1000 * q + 4 * i;
    WordAddr(q, i);
    WordInFrame(f, i);
    WalkByPage(was, m.cr3, v);
    hide Walk, PageAt, FrameOf, Offset, At, Poke, NotATable;
    m.Store(v, w);
    PokeData(was, m.cr3, q, f, i, w);
  }

  lemma WordAddr(q: PageNo, i: int)
    requires InFrame(i)
    ensures var v: Word := 0x1000 * q + 4 * i; v / 0x1000 == q && Offset(v) == 4 * i && v % 4 == 0
  {
  }

  lemma PokeData(mem: Phys, d: FrameNo, q: PageNo, f: FrameNo, i: int, w: Word)
    requires InFrame(i) && NotATable(mem, d, f)
    ensures PageAt(Poke(mem, f, i, w), d, q) == PageAt(mem, d, q) && NotATable(Poke(mem, f, i, w), d, f)
    ensures SelfMapped(mem, d) ==> SelfMapped(Poke(mem, f, i, w), d)
  {
    hide Present, FrameOf, At, Poke;
    assert InFrame(1023);
  }

  /** The three writes of create_page_dir to its new page: zeros, the kernel half of the current
      directory, and the frame of the page itself. */
  method FillPageDir(m: Memory, q: PageNo, ghost f: FrameNo)
    requires SelfMapped(m.mem, m.cr3) && PageAt(m.mem, m.cr3, q) == Some(f) && NotATable(m.mem, m.cr3, f)
    modifies m`mem
    ensures m.mem == Installed(old(m.mem), m.cr3, f)
    ensures var self := At(m.mem, f, SELF_SLOT); Present(self) && Open(self) && FrameOf(self) == f
  {
    EntryBits(f);
    hide Present, FrameOf, At, Poke, Pde, Pte, NotATable, PageAt, Installed;
    ghost var was, d := m.mem, m.cr3;
    assert f != d by { NotTheDirectory(was, d, f); }
    for i := 0 to 1024
      invariant SelfMapped(m.mem, d) && PageAt(m.mem, d, q) == Some(f) && NotATable(m.mem, d, f)
      invariant forall g: FrameNo, k {:trigger At(m.mem, g, k)} :: InFrame(k) ==>
                  At(m.mem, g, k) == if g == f && k < i then 0 else At(was, g, k)
    {
      StoreInPage(m, q, i, 0, f);
    }
    for k := KERNEL_SLOT to 1024
      invariant SelfMapped(m.mem, d) && PageAt(m.mem, d, q) == Some(f) && NotATable(m.mem, d, f)
      invariant forall g: FrameNo, j {:trigger At(m.mem, g, j)} :: InFrame(j) ==>
                  At(m.mem, g, j) == if g != f then At(was, g, j) else if KERNEL_SLOT <= j < k then At(was, d, j) else 0
    {
      var word := m.LoadPde(0x40_0000 * k);
      assert word == At(was, d, k) by { SlotWord(m.mem, d, k); }
      StoreInPage(m, q, k, word, f);
    }
    PageHasFrame(m.mem, d, q, f);
    var self := m.AddrVirtualToPhy(Addr(q));
    StoreInPage(m, q, SELF_SLOT, EntryFor(self / 0x1000), f);
    SameWords(m.mem, Installed(was, d, f));
  }

  lemma NotTheDirectory(mem: Phys, d: FrameNo, f: FrameNo)
    requires NotATable(mem, d, f)
    ensures f != d
  {
  }

  lemma SlotWord(mem: Phys, d: FrameNo, k: int)
    requires InFrame(k)
    ensures Pde(mem, d, 0x40_0000 * k) == At(mem, d, k)
  {
  }

  lemma PageHasFrame(mem: Phys, d: FrameNo, q: PageNo, f: FrameNo)
    requires PageAt(mem, d, q) == Some(f)
    ensures Present(Pde(mem, d, Addr(q))) && FrameOf(Pte(mem, d, Addr(q))) == f
  {
  }

  /** Free bits of the kernel's virtual pool stand for pages that are not mapped. */
  ghost predicate FreeBitsUnmapped(mem: Phys, d: FrameNo, first: int, bits: seq<bool>)
    requires OrdinaryRun(first, |bits|)
  {
    forall r: PageNo {:trigger PageAt(mem, d, r)} ::
        first <= r < first + |bits| && !bits[r - first] ==> PageAt(mem, d, r) == None
  }

  /** create_page_dir.  With every frame that the new page could get fresh, memory becomes that of
      AddressSpaces: the page mapped, and then made a directory. */
  method CreatePageDir(m: Manager) returns (a: Allocation, ghost f: FrameNo)
    requires m.Wired() && Good(m.Config(), m.Book(), m.memory.cr3) && KernelTables(m.memory.mem, m.memory.cr3)
    requires m.kernelVaddr.vaddrStart >= 0xc000_0000
    requires FreeBitsUnmapped(m.memory.mem, m.memory.cr3, m.kernelVaddr.vaddrStart / 0x1000, m.kernelVaddr.bitmap.View())
    modifies m.memory`mem, m.kernelPool.bitmap.bits, m.userPool.bitmap.bits, m.kernelVaddr.bitmap.bits
    ensures a.Address?
    ensures a.addr != 0 ==>
              && FreeIn(m.Config(), old(m.Book()), Kernel, f)
              && a.addr >= 0xc000_0000 && OrdinaryRun(a.addr / 0x1000, 1)
              && m.memory.mem == Installed(Mapped(old(m.memory.mem), m.memory.cr3, a.addr, f, 0), m.memory.cr3, f)
  {
    hide Good, KernelTables, Reachable, Grow, Zeros, FreeBitsUnmapped, RunSet, Installed, Mapped, FreeIn, PageAt, NotATable, Bitmaps.BitsOf, Bitmaps.FreeRun,
         SelfMapped, Pde;
    ghost var start;
    ghost var b, c, d, bits := m.Book(), m.Config(), m.memory.cr3, m.kernelVaddr.bitmap.View();
    GoodReachable(c, b, d);
    f := 0;
    var zeros;
    a, zeros, start := m.MallocPages(Kernel, 1);
    ghost var first := m.kernelVaddr.vaddrStart / 0x1000;
    if start != -1 {
      FoundFree(bits, start);
      FreePage(b.mem, d, first, bits, start);
      OneKernelPage(c, b, d, first + start);
    }
    if a == Address(0) { return; }
    f := Grow(c, b, d, Kernel, first + start, 1).frames[0];
    assert Addr(a.addr / 0x1000) == a.addr;
    FillPageDir(m.memory, a.addr / 0x1000, f);
  }

  lemma FoundFree(bits: seq<bool>, start: int)
    requires Bitmaps.FirstFit(bits, 1, start) && start != -1
    ensures 0 <= start < |bits| && !bits[start]
  {
    assert Bitmaps.FreeRun(bits, start, 1);
  }

  lemma FreePage(mem: Phys, d: FrameNo, first: nat, bits: seq<bool>, start: nat)
    requires OrdinaryRun(first, |bits|) && FreeBitsUnmapped(mem, d, first, bits) && start < |bits| && !bits[start]
    ensures PageAt(mem, d, first + start) == None
  {
    var r: PageNo := first + start;
    assert PageAt(mem, d, r) == None;
  }

  /** One page of the kernel half: a frame that was free, and no other change than its table entry. */
  lemma OneKernelPage(c: Pools, b: Books, d: FrameNo, q: PageNo)
    requires Good(c, b, d) && KernelTables(b.mem, d) && 1024 * KERNEL_SLOT <= q < 1024 * SELF_SLOT
    requires PageAt(b.mem, d, q) == None
    ensures PoolsOk(c) && Sized(c, b)
    ensures var o := Grow(c, b, d, Kernel, q, 1);
            && !o.AssertFailed?
            && (o.Going? ==>
                  |o.frames| == 1 && var f := o.frames[0];
                  && FreeIn(c, b, Kernel, f) && o.b.mem == Mapped(b.mem, d, Addr(q), f, 0)
                  && PageAt(o.b.mem, d, q) == Some(f) && NotATable(o.b.mem, d, f) && SelfMapped(o.b.mem, d))
  {
    hide Good, KernelTables, Mapped, FreeIn, NotATable, SelfMapped, PageAt, Grow, Progress, FreeFrames, TablesSuffice;
    GoodParts(c, b, d);
    assert RunUnmapped(b.mem, d, q, 1);
    KernelNeedsNoTable(c, b, d, q, 1);
    GrowNone(c, b, d, Kernel, q);
    GrowUnfold(c, b, d, Kernel, q, 0 + 1);
    OneKernelPageUnfold(c, b, d, q);
    var o := Grow(c, b, d, Kernel, q, 1);
    if o.Going? {
      ProgressOne(c, b, o, d, q);
      FramesAreData(c, b, o, d, Kernel, q, o.frames[0]);
    }
  }

  lemma ProgressOne(c: Pools, b: Books, o: Growth, d: FrameNo, q: PageNo)
    requires PoolsOk(c) && Sized(c, b) && Progress(c, b, o, d, Kernel, q) && |o.frames| == 1
    ensures PageAt(o.b.mem, d, q) == Some(o.frames[0]) && SelfMapped(o.b.mem, d) && FreeIn(c, b, Kernel, o.frames[0])
  {
    hide PageAt, SelfMapped, FreeIn, Taken, OthersSame, DirectoryGrown, OwnTables;
    assert o.frames[0] in o.frames;
  }

  lemma OneKernelPageUnfold(c: Pools, b: Books, d: FrameNo, q: PageNo)
    requires PoolsOk(c) && Sized(c, b) && KernelTables(b.mem, d) && 1024 * KERNEL_SLOT <= q < 1024 * SELF_SLOT
    requires PageAt(b.mem, d, q) == None
    ensures var o := OnePage(c, Going(b, [], []), d, Kernel, q);
            && !o.AssertFailed?
            && (o.Going? ==> |o.frames| == 1 && o.b.mem == Mapped(b.mem, d, Addr(q), o.frames[0], 0))
  {
    hide Mapped;
    assert Present(At(b.mem, d, q / 1024));
  }

  /** The new address space among the others: all invariants hold again, its kernel half shows what the others
      show, and below 0xc0000000 it is empty. */
  lemma NewProcess(mem: Phys, dirs: set<FrameNo>, d: FrameNo, v: Word, f: FrameNo)
    requires Inv(Spaces(mem, dirs)) && d in dirs && Fresh(Spaces(mem, dirs), f) && KERNEL_SLOT <= Slot(v) < SELF_SLOT
    ensures var s := Spaces(Installed(Mapped(mem, d, v, f, 0), d, f), dirs + {f});
            && Inv(s)
            && forall w: Word :: if Slot(w) < KERNEL_SLOT then Walk(s.mem, f, w) == None
                                 else Slot(w) < SELF_SLOT ==> Walk(s.mem, f, w) == Walk(s.mem, d, w)
  {
    var s0 := Spaces(mem, dirs);
    var op := Map(d, v, f, 0);
    assert At(mem, d, Slot(v)) == BootEntry(Slot(v));
    hide At, Present, FrameOf, Mapped, Installed, Slot, Inv, Fresh;
    StepInv(s0, op);
    var s1 := Step(s0, op);
    MapFresh(mem, dirs, d, v, f);
    StepInv(s1, Create(d, f));
    var s := Step(s1, Create(d, f));
    forall w: Word
      ensures if Slot(w) < KERNEL_SLOT then Walk(s.mem, f, w) == None
              else Slot(w) < SELF_SLOT ==> Walk(s.mem, f, w) == Walk(s.mem, d, w)
    {
      if Slot(w) < KERNEL_SLOT {
        NothingBelow(s1.mem, d, f, w);
      } else if Slot(w) < SELF_SLOT {
        KernelSeenAlike(s, f, d, w);
      }
    }
  }

  lemma NothingBelow(mem: Phys, d: FrameNo, f: FrameNo, w: Word)
    requires Slot(w) < KERNEL_SLOT
    ensures Walk(Installed(mem, d, f), f, w) == None
  {
  }

  lemma MapFresh(mem: Phys, dirs: set<FrameNo>, d: FrameNo, v: Word, f: FrameNo)
    requires Inv(Spaces(mem, dirs)) && d in dirs && Fresh(Spaces(mem, dirs), f) && Present(Pde(mem, d, v))
    requires Slot(v) < SELF_SLOT
    ensures Fresh(Spaces(Mapped(mem, d, v, f, 0), dirs), f)
  {
    hide At, Present, FrameOf, Index, Poke;
    assert forall e: FrameNo, k {:trigger At(Mapped(mem, d, v, f, 0), e, k)} :: e in dirs && InFrame(k) ==>
             At(Mapped(mem, d, v, f, 0), e, k) == At(mem, e, k);
    assert forall k :: 0 <= k < 1023 ==> InFrame(k);
  }
}
