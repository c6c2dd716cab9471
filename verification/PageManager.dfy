/** The page allocator as kernel/memory.c runs it: bitmaps, and page tables edited through the self-map. */
module PageManager {
  import opened Paging
  import opened PageBooks
  import opened PageRelease
  import opened Bitmaps

  /** The word that the processor reaches at pde_addr(v), and at pte_addr(v). */
  lemma ReachPde(mem: Phys, d: FrameNo, v: Word)
    requires SelfMapped(mem, d)
    ensures var a := PdeAddr(v);
            a % 4 == 0 && Walk(mem, d, a).Some? && FrameOf(Walk(mem, d, a).value) == d && Offset(a) / 4 == Slot(v)
  {
    hide PdeAddr, Slot, SelfMapped, Walk, FrameOf, Offset, At;
    SelfMapPde(mem, d, v);
    PdeAddrParts(v);
    EntryAddrAligned(v);
    WordInFrame(d, Slot(v));
  }

  lemma ReachPte(mem: Phys, d: FrameNo, v: Word)
    requires SelfMapped(mem, d) && Present(Pde(mem, d, v))
    ensures var a := PteAddr(v);
            a % 4 == 0 && Walk(mem, d, a).Some? && FrameOf(Walk(mem, d, a).value) == FrameOf(Pde(mem, d, v)) && Offset(a) / 4 == Index(v)
  {
    hide PteAddr, Index, SelfMapped, Walk, Pde, FrameOf, Offset, At;
    SelfMapPte(mem, d, v);
    PteAddrParts(v);
    EntryAddrAligned(v);
    WordInFrame(FrameOf(Pde(mem, d, v)), Index(v));
  }

  /** Frame and word of the physical address of v. */
  lemma WalkWord(mem: Phys, d: FrameNo, v: Word)
    requires v % 4 == 0 && Walk(mem, d, v).Some?
    ensures var a := Walk(mem, d, v).value;
            a / 0x1000 == FrameOf(a) && a % 0x1000 / 4 == Offset(v) / 4 && InFrame(a % 0x1000 / 4)
  {
    hide Pte, Pde, Present;
    PageOffset(FrameOf(Pte(mem, d, v)), Offset(v));
  }

  lemma PageOffset(f: FrameNo, o: int)
    requires 0 <= o < 0x1000
    ensures (f * 0x1000 + o) % 0x1000 == o
  {
  }

  /** Physical memory behind the paging unit. */
  class Memory {
    var mem: Phys
    var cr3: FrameNo

    constructor (mem: Phys, cr3: FrameNo)
      ensures this.mem == mem && this.cr3 == cr3
    {
      this.mem, this.cr3 := mem, cr3;
    }

    /** The word at a virtual address. */
    method Load(v: Word) returns (w: Word)
      requires v % 4 == 0 && Walk(mem, cr3, v).Some?
      ensures w == At(mem, FrameOf(Walk(mem, cr3, v).value), Offset(v) / 4)
    {
      WalkWord(mem, cr3, v);
      hide Walk, Offset, FrameOf;
      var a := Walk(mem, cr3, v).value;
      w := At(mem, a / 0x1000, a % 0x1000 / 4);
    }

    method Store(v: Word, w: Word)
      requires v % 4 == 0 && Walk(mem, cr3, v).Some?
      modifies this`mem
      ensures mem == Poke(old(mem), FrameOf(Walk(old(mem), cr3, v).value), Offset(v) / 4, w)
    {
      WalkWord(mem, cr3, v);
      hide Walk, Offset, FrameOf, Poke;
      var a := Walk(mem, cr3, v).value;
      mem := Poke(mem, a / 0x1000, a % 0x1000 / 4, w);
    }

    /** *pde_addr(v) */
    method LoadPde(v: Word) returns (w: Word)
      requires SelfMapped(mem, cr3)
      ensures w == Pde(mem, cr3, v)
    {
      ReachPde(mem, cr3, v);
      hide PdeAddr, Slot, Index, Offset, FrameOf, Present, SelfMapped, At, Walk;
      w := Load(PdeAddr(v));
    }

    method StorePde(v: Word, w: Word)
      requires SelfMapped(mem, cr3)
      modifies this`mem
      ensures mem == Poke(old(mem), cr3, Slot(v), w)
    {
      ReachPde(mem, cr3, v);
      hide PdeAddr, Slot, Index, Offset, FrameOf, Present, SelfMapped, At, Walk;
      Store(PdeAddr(v), w);
    }

    /** *pte_addr(v) */
    method LoadPte(v: Word) returns (w: Word)
      requires SelfMapped(mem, cr3) && Present(Pde(mem, cr3, v))
      ensures w == Pte(mem, cr3, v)
    {
      ReachPte(mem, cr3, v);
      hide PteAddr, Slot, Index, Offset, FrameOf, Present, SelfMapped, At, Walk;
      w := Load(PteAddr(v));
    }

    method StorePte(v: Word, w: Word)
      requires SelfMapped(mem, cr3) && Present(Pde(mem, cr3, v))
      modifies this`mem
      ensures mem == Poke(old(mem), FrameOf(Pde(old(mem), cr3, v)), Index(v), w)
    {
      ReachPte(mem, cr3, v);
      hide PteAddr, Slot, Index, Offset, FrameOf, Present, SelfMapped, At, Walk;
      Store(PteAddr(v), w);
    }

    /** memset((void *)((uint32_t)pte_ptr & 0xfffff000), 0, PAGE_SIZE), word by word: the page table of v,
        which must not be the directory itself. */
    method ClearTable(v: Word)
      requires SelfMapped(mem, cr3) && Present(Pde(mem, cr3, v)) && FrameOf(Pde(mem, cr3, v)) != cr3
      modifies this`mem
      ensures mem == Cleared(old(mem), FrameOf(Pde(old(mem), cr3, v)))
    {
      ghost var was, t := mem, FrameOf(Pde(mem, cr3, v));
      var table := PteAddr(v) / 0x1000 * 0x1000;
      hide At, Poke, Cleared, Present, FrameOf;
      for i := 0 to 1024
        invariant forall g: FrameNo, j {:trigger At(mem, g, j)} ::
            InFrame(j) ==> At(mem, g, j) == if g == t && j < i then 0 else At(was, g, j)
      {
        ghost var w: Word := v / 0x40_0000 * 0x40_0000 + 0x1000 * i;
        WordOfTable(v, i);
        assert Pde(mem, cr3, w) == Pde(was, cr3, v);
        assert SelfMapped(mem, cr3) by { assert InFrame(1023); }
        SelfMapPte(mem, cr3, w);
        PteAddrParts(w);
        assert InFrame(i);
        WordInFrame(t, i);
        Store(table + 4 * i, 0);
      }
      SameWords(mem, Cleared(was, t));
    }

    /** Whether reading *pte_addr(v) is not a page fault. */
    predicate CanRead(v: Word)
      reads this
    {
      Walk(mem, cr3, PteAddr(v)).Some?
    }

    method AddrVirtualToPhy(v: Word) returns (a: Word)
      requires SelfMapped(mem, cr3) && Present(Pde(mem, cr3, v))
      ensures a == 0x1000 * FrameOf(Pte(mem, cr3, v)) + Offset(v)
      ensures Walk(mem, cr3, v).Some? ==> Walk(mem, cr3, v) == Some(a)
    {
      var pte := LoadPte(v);
      a := pte / 0x1000 * 0x1000 + v % 0x1000;
    }

    /** page_table_pte_remove */
    method PageTablePteRemove(v: Word)
      requires SelfMapped(mem, cr3) && Present(Pde(mem, cr3, v))
      modifies this`mem
      ensures mem == PteRemoved(old(mem), cr3, v)
      ensures var t, i, e := FrameOf(Pde(old(mem), cr3, v)), Index(v), Pte(old(mem), cr3, v);
              && !Present(At(mem, t, i)) && At(mem, t, i) / 2 == e / 2
              && forall g: FrameNo, j {:trigger At(mem, g, j)} ::
                   InFrame(j) && !(g == t && j == i) ==> At(mem, g, j) == At(old(mem), g, j)
    {
      var pte := LoadPte(v);
      StorePte(v, WithoutP(pte));
    }
  }

  /** Word i of the page table of v, seen through the self-map. */
  lemma WordOfTable(v: Word, i: int)
    requires InFrame(i)
    ensures var w: Word := v / 0x40_0000 * 0x40_0000 + 0x1000 * i;
            Slot(w) == Slot(v) && Index(w) == i && PteAddr(w) == PteAddr(v) / 0x1000 * 0x1000 + 4 * i
  {
  }

  lemma WordInFrame(t: FrameNo, i: int)
    requires InFrame(i)
    ensures FrameOf(0x1000 * t + 4 * i) == t
  {
  }

  // ----- pools -----

  lemma FirstFitOne(v: seq<bool>, r: int)
    requires FirstFit(v, 1, r)
    ensures r == if FirstFree(v) == |v| then -1 else FirstFree(v)
  {
    var k := FirstFree(v);
    if k < |v| {
      assert FreeRun(v, k, 1);
    }
    if r != -1 {
      assert FreeRun(v, r, 1) && !v[r];
    }
  }

  /** struct pool */
  class Pool {
    const bitmap: Bitmap
    const phyStartAddr: Word

    constructor (bitmap: Bitmap, phyStartAddr: Word)
      ensures this.bitmap == bitmap && this.phyStartAddr == phyStartAddr
    {
      this.bitmap, this.phyStartAddr := bitmap, phyStartAddr;
    }

    ghost predicate Valid() {
      bitmap.Valid() && phyStartAddr % 0x1000 == 0 && phyStartAddr + 0x1000 * (8 * bitmap.bitmapLen) <= 0x1_0000_0000
    }

    /** palloc: the first free frame, or 0. */
    method Palloc() returns (addr: Word)
      requires Valid()
      modifies bitmap.bits
      ensures var k := FirstFree(old(bitmap.View()));
              if k == 8 * bitmap.bitmapLen then addr == 0 && bitmap.Memory() == old(bitmap.Memory())
              else addr == phyStartAddr + 0x1000 * k && bitmap.Memory() == old(bitmap.Memory())[k := true]
    {
      var bitIndex := bitmap.Scan(1);
      FirstFitOne(bitmap.View(), bitIndex);
      if bitIndex == -1 { return 0; }
      bitmap.Set(bitIndex, true);
      addr := phyStartAddr + 0x1000 * bitIndex;
    }
  }

  /** struct virtual_addrs */
  class VirtualAddrs {
    const bitmap: Bitmap
    const vaddrStart: Word

    constructor (bitmap: Bitmap, vaddrStart: Word)
      ensures this.bitmap == bitmap && this.vaddrStart == vaddrStart
    {
      this.bitmap, this.vaddrStart := bitmap, vaddrStart;
    }

    /** The pages, with the one that bitmap_scan may reach behind the bitmap, are ordinary pages. */
    ghost predicate Valid() {
      bitmap.Valid() && vaddrStart % 0x1000 == 0 && OrdinaryRun(vaddrStart / 0x1000, 8 * bitmap.bitmapLen + 1)
    }

    /** What bitmap_scan answers when asked for cnt pages. */
    ghost predicate Finds(cnt: nat, start: int)
      requires Valid()
      reads bitmap.bits
    {
      if cnt == 1 then FirstFit(bitmap.View(), 1, start) else FirstFit(bitmap.Scanned(), cnt, start)
    }

    /** The n bits from start on take the value. */
    method SetRun(start: nat, n: nat, value: bool)
      requires Valid() && start + n <= 8 * bitmap.bits.Length
      modifies bitmap.bits
      ensures bitmap.Memory() == RunSet(old(bitmap.Memory()), start, n, value)
    {
      ghost var was := bitmap.Memory();
      var counter := 0;
      while counter < n
        invariant 0 <= counter <= n
        invariant bitmap.Memory() == RunSet(was, start, counter, value)
      {
        bitmap.Set(start + counter, value);
        counter := counter + 1;
      }
    }
  }

  function RunSet(v: seq<bool>, start: nat, n: nat, value: bool): (r: seq<bool>)
    requires start + n <= |v|
    ensures |r| == |v| && forall i :: 0 <= i < |v| ==> r[i] == if start <= i < start + n then value else v[i]
  {
    v[..start] + seq(n, _ => value) + v[start + n..]
  }

  /** Clearing the bits of a run that was free and then set brings the bitmap back. */
  lemma RunSetBack(v: seq<bool>, start: nat, n: nat)
    requires FreeRun(v, start, n)
    ensures RunSet(RunSet(v, start, n, true), start, n, false) == v
  {
  }

  // ----- the allocator -----

  datatype Allocation = Address(addr: Word) | AssertionFailed

  /** How free_pages ends: it gets to its end, it fails an assertion, it faults, or it clears a bit behind the
      user bitmap. */
  datatype Outcome = Completed | Failed | Faulted | Strayed

  class Manager {
    const memory: Memory
    const kernelPool: Pool
    const userPool: Pool
    const kernelVaddr: VirtualAddrs
    const userVaddr: VirtualAddrs    // of the running thread

    constructor (memory: Memory, kernelPool: Pool, userPool: Pool, kernelVaddr: VirtualAddrs, userVaddr: VirtualAddrs)
      ensures this.memory == memory && this.kernelPool == kernelPool && this.userPool == userPool
      ensures this.kernelVaddr == kernelVaddr && this.userVaddr == userVaddr
    {
      this.memory, this.kernelPool, this.userPool := memory, kernelPool, userPool;
      this.kernelVaddr, this.userVaddr := kernelVaddr, userVaddr;
    }

    /** The four bitmaps are four places in memory. */
    ghost predicate Wired() {
      && kernelPool.Valid() && userPool.Valid() && kernelVaddr.Valid() && userVaddr.Valid()
      && kernelPool.bitmap.bits != userPool.bitmap.bits
      && kernelVaddr.bitmap.bits != userVaddr.bitmap.bits
      && kernelPool.bitmap.bits != kernelVaddr.bitmap.bits && kernelPool.bitmap.bits != userVaddr.bitmap.bits
      && userPool.bitmap.bits != kernelVaddr.bitmap.bits && userPool.bitmap.bits != userVaddr.bitmap.bits
      && PoolsOk(Config())
    }

    ghost function Config(): Pools
      requires kernelPool.Valid() && userPool.Valid()
    {
      Pools(kernelPool.phyStartAddr / 0x1000, 8 * kernelPool.bitmap.bitmapLen,
            userPool.phyStartAddr / 0x1000, 8 * userPool.bitmap.bitmapLen)
    }

    ghost function Book(): Books
      reads memory, kernelPool.bitmap.bits, userPool.bitmap.bits
    {
      Books(memory.mem, kernelPool.bitmap.Memory(), userPool.bitmap.Memory())
    }

    function Vaddrs(pf: PoolFlag): VirtualAddrs {
      if pf.Kernel? then kernelVaddr else userVaddr
    }

    function PoolOf(pf: PoolFlag): Pool {
      if pf.Kernel? then kernelPool else userPool
    }

    method PallocFrom(pf: PoolFlag) returns (addr: Word)
      requires Wired() && Sized(Config(), Book())
      modifies PoolOf(pf).bitmap.bits
      ensures Book() == AfterPalloc(Config(), old(Book()), pf)
      ensures addr == 0x1000 * Palloc(Config(), old(Book()), pf)
    {
      hide BitsOf, FirstFree;
      addr := PoolOf(pf).Palloc();
    }

    /** The part of page_table_add that makes a page table; it is short when palloc has no frame, and frame 0
        becomes one. */
    method AddTable(v: Word) returns (short: bool)
      requires Wired() && Sized(Config(), Book()) && SelfMapped(memory.mem, memory.cr3) && Slot(v) < 1023
      requires !Present(Pde(memory.mem, memory.cr3, v)) && Palloc(Config(), Book(), Kernel) != memory.cr3
      modifies memory`mem, kernelPool.bitmap.bits
      ensures var made := Palloc(Config(), old(Book()), Kernel);
              && Book() == AfterPalloc(Config(), old(Book()), Kernel).(mem := WithTable(old(memory.mem), memory.cr3, v, made))
              && SelfMapped(memory.mem, memory.cr3) && Pde(memory.mem, memory.cr3, v) == EntryFor(made)
              && Pte(memory.mem, memory.cr3, v) == 0
      ensures short <==> Full(Config(), old(Book()), Kernel)
    {
      hide At, Poke, Cleared, Present, FrameOf, Slot, Index, Palloc, AfterPalloc, SelfMapped, Full;
      ghost var mem, d := memory.mem, memory.cr3;
      FullIsZero(Config(), Book());
      ghost var made := Palloc(Config(), Book(), Kernel);
      var allocPde := PallocFrom(Kernel);
      NewTable(mem, d, v, made);
      memory.StorePde(v, EntryFor(allocPde / 0x1000));
      memory.ClearTable(v);
      short := allocPde == 0;
    }

    /** page_table_add, every access to a page table going through the self-map.  It stops on its first
        assertion exactly when the page is mapped already; the second assertion always holds.  Afterwards user mode
        can write the page, unless the directory entry that was there says otherwise. */
    method AddPage(v: Word, p: Word) returns (ok: bool, short: bool)
      requires Wired() && Reachable(Config(), Book(), memory.cr3) && Slot(v) < 1023 && p % 0x1000 == 0
      modifies memory`mem, kernelPool.bitmap.bits
      ensures var r := PageTableAdd(Config(), old(Book()), memory.cr3, v, p / 0x1000);
              if r.Some? then ok && Book() == r.value else !ok && !short && Book() == old(Book())
      ensures short <==> !Present(Pde(old(memory.mem), memory.cr3, v)) && Full(Config(), old(Book()), Kernel)
      ensures ok <==> Walk(old(memory.mem), memory.cr3, v) == None
      ensures ok ==> var pde := Pde(old(memory.mem), memory.cr3, v);
                     (Usable(memory.mem, memory.cr3, v, p / 0x1000) <==> (Present(pde) ==> Open(pde)))
    {
      AddUsable(Config(), Book(), memory.cr3, v, p / 0x1000);
      ReachableParts(Config(), Book(), memory.cr3);
      NotPresentZero();
      hide At, Poke, Cleared, Present, FrameOf, Slot, Index, Palloc, AfterPalloc, Free, TablesOutside, SelfMapped,
           Reachable, Full, Usable, Open;
      short := false;
      var pde := memory.LoadPde(v);
      if Present(pde) {
        var pte := memory.LoadPte(v);
        if Present(pte) { return false, short; }
        memory.StorePte(v, EntryFor(p / 0x1000));
      } else {
        short := AddTable(v);
        var pte := memory.LoadPte(v);
        if Present(pte) { return false, short; }
        memory.StorePte(v, EntryFor(p / 0x1000));
      }
      ok := true;
    }

    /** vaddr_get_pages: the first run of free pages, or 0; a process must stay below its stack. */
    method VaddrGetPages(pf: PoolFlag, pageCnt: nat) returns (addr: Word, ok: bool, ghost start: int)
      requires Wired() && pageCnt >= 1
      modifies Vaddrs(pf).bitmap.bits
      ensures old(Vaddrs(pf).Finds(pageCnt, start))
      ensures start == -1 ==> addr == 0 && ok && Vaddrs(pf).bitmap.Memory() == old(Vaddrs(pf).bitmap.Memory())
      ensures start != -1 ==>
                && 0 <= start && start + pageCnt <= 8 * Vaddrs(pf).bitmap.bitmapLen + 1
                && addr == Vaddrs(pf).vaddrStart + 0x1000 * start
                && Vaddrs(pf).bitmap.Memory() == RunSet(old(Vaddrs(pf).bitmap.Memory()), start, pageCnt, true)
                && (ok <==> pf.Kernel? || addr < 0xbfff_f000)
    {
      var bitstart := Vaddrs(pf).bitmap.Scan(pageCnt);
      start := bitstart;
      if bitstart == -1 { return 0, true, start; }
      Vaddrs(pf).SetRun(bitstart, pageCnt, true);
      addr := Vaddrs(pf).vaddrStart + 0x1000 * bitstart;
      ok := pf == Kernel || addr < 0xbfff_f000;
    }

    /** malloc_pages.  The pages are the first run of free bits; memory and the pools become what the loop of
        PageBooks makes of them.  `zeros` counts the page tables for which palloc had no frame. */
    method MallocPages(pf: PoolFlag, cntPages: nat) returns (r: Allocation, zeros: nat, ghost start: int)
      requires Wired() && Reachable(Config(), Book(), memory.cr3)
      modifies memory`mem, kernelPool.bitmap.bits, userPool.bitmap.bits, Vaddrs(pf).bitmap.bits
      ensures !(0 < cntPages < 3840) ==> r == AssertionFailed && zeros == 0 && start == -1
      ensures start == -1 ==> Book() == old(Book()) && Vaddrs(pf).bitmap.Memory() == old(Vaddrs(pf).bitmap.Memory())
      ensures 0 < cntPages < 3840 ==> old(Vaddrs(pf).Finds(cntPages, start))
      ensures 0 < cntPages < 3840 && start == -1 ==> r == Address(0) && zeros == 0
      ensures start != -1 ==>
                && 0 <= start && start + cntPages <= 8 * Vaddrs(pf).bitmap.bitmapLen + 1
                && Vaddrs(pf).bitmap.Memory() == RunSet(old(Vaddrs(pf).bitmap.Memory()), start, cntPages, true)
                && var q: PageNo := Vaddrs(pf).vaddrStart / 0x1000 + start;
                   if pf.User? && q >= 0xb_ffff then r == AssertionFailed && zeros == 0
                   else match Grow(Config(), old(Book()), memory.cr3, pf, q, cntPages)
                        case Going(b, _, tables) => r == Address(0x1000 * q) && Book() == b && zeros == Zeros(tables)
                        case OutOfFrames(b, _, tables) => r == Address(0) && Book() == b && zeros == Zeros(tables)
                        case AssertFailed(tables) => r == AssertionFailed && zeros == Zeros(tables)
    {
      hide Reachable, Grow, RunSet, BitsOf, FreeRun, Palloc, AfterPalloc;
      start := -1;
      zeros := 0;
      if !(0 < cntPages < 3840) { return AssertionFailed, zeros, start; }
      var virAllocAddr, ok;
      virAllocAddr, ok, start := VaddrGetPages(pf, cntPages);
      assert Book() == old(Book());
      if !ok { return AssertionFailed, zeros, start; }
      if virAllocAddr == 0 { return Address(0), zeros, start; }
      r, zeros := MapRun(pf, virAllocAddr, cntPages);
    }

    /** The loop of malloc_pages. */
    method MapRun(pf: PoolFlag, v: Word, cntPages: nat) returns (r: Allocation, zeros: nat)
      requires Wired() && Reachable(Config(), Book(), memory.cr3)
      requires v % 0x1000 == 0 && OrdinaryRun(v / 0x1000, cntPages)
      modifies memory`mem, kernelPool.bitmap.bits, userPool.bitmap.bits
      ensures match Grow(Config(), old(Book()), memory.cr3, pf, v / 0x1000, cntPages)
              case Going(b, _, tables) => r == Address(v) && Book() == b && zeros == Zeros(tables)
              case OutOfFrames(b, _, tables) => r == Address(0) && Book() == b && zeros == Zeros(tables)
              case AssertFailed(tables) => r == AssertionFailed && zeros == Zeros(tables)
    {
      hide Reachable, PageTableAdd, Palloc, AfterPalloc, Grow, BitsOf, Usable, Open, Walk;
      ghost var q: PageNo := v / 0x1000;
      ghost var d, c, b0 := memory.cr3, Config(), Book();
      var virAllocAddr := v;
      zeros := 0;
      ReachableParts(c, b0, d);
      GrowNone(c, b0, d, pf, q);
      for i := 0 to cntPages
        invariant virAllocAddr == v + 0x1000 * i
        invariant Reachable(c, Book(), d)
        invariant Grow(c, b0, d, pf, q, i).Going? && Grow(c, b0, d, pf, q, i).b == Book()
        invariant zeros == Zeros(Grow(c, b0, d, pf, q, i).tables)
      {
        ghost var b := Book();
        TurnUnfold(c, b0, d, pf, q, i);
        ReachableTurn(c, b, d, pf, q + i);
        var phyAllocAddr := PallocFrom(pf);
        if phyAllocAddr == 0 {
          GrowStuck(c, b0, d, pf, q, i + 1, cntPages);
          return Address(0), zeros;
        }
        assert Addr(q + i) == virAllocAddr;
        var ok, short := AddPage(virAllocAddr, phyAllocAddr);
        if short { zeros := zeros + 1; }
        if !ok {
          GrowStuck(c, b0, d, pf, q, i + 1, cntPages);
          return AssertionFailed, zeros;
        }
        virAllocAddr := virAllocAddr + 0x1000;
      }
      r := Address(v);
    }

    /** pfree */
    method PfreeFrame(phyAddr: Word)
      requires Wired() && Sized(Config(), Book()) && phyAddr % 0x1000 == 0 && InPools(Config(), phyAddr / 0x1000)
      modifies kernelPool.bitmap.bits, userPool.bitmap.bits
      ensures Book() == Pfree(Config(), old(Book()), phyAddr / 0x1000)
    {
      hide BitsOf;
      if phyAddr > userPool.phyStartAddr {
        var poolIdx := (phyAddr - userPool.phyStartAddr) / 0x1000;
        userPool.bitmap.Set(poolIdx, false);
      } else {
        var poolIdx := (phyAddr - kernelPool.phyStartAddr) / 0x1000;
        kernelPool.bitmap.Set(poolIdx, false);
      }
    }

    /** free_pages, of a run of ordinary pages. */
    method ReleasePages(pf: PoolFlag, cntPages: nat, v: Word) returns (r: Outcome)
      requires Wired() && Reachable(Config(), Book(), memory.cr3) && OrdinaryRun(v / 0x1000, cntPages)
      requires Vaddrs(pf).vaddrStart <= v
      requires (v - Vaddrs(pf).vaddrStart) / 0x1000 + cntPages <= 8 * Vaddrs(pf).bitmap.bits.Length
      modifies memory`mem, kernelPool.bitmap.bits, userPool.bitmap.bits, Vaddrs(pf).bitmap.bits
      ensures v % 0x1000 != 0 || cntPages == 0 ==> r == Failed
      ensures v % 0x1000 == 0 ==>
                match FreePages(Config(), old(Book()), memory.cr3, v / 0x1000, cntPages)
                case Done(b) =>
                  && r == Completed && Book() == b
                  && Vaddrs(pf).bitmap.Memory() ==
                     RunSet(old(Vaddrs(pf).bitmap.Memory()), (v - Vaddrs(pf).vaddrStart) / 0x1000, cntPages, false)
                case Stopped => r == Failed
                case Fault => r == Faulted
                case Stray => r == Strayed
    {
      hide Shrink, At, FrameOf, Present, TablesOutside, SelfMapped, Free, BitsOf, RunSet, Pde, Pte, PteAddr;
      if cntPages < 1 || v % 0x1000 != 0 { return Failed; }
      assert Reachable(Config(), Book(), memory.cr3) ==> SelfMapped(memory.mem, memory.cr3);
      assert Addr(v / 0x1000) == v;
      CanReadPte(memory.mem, memory.cr3, v);
      if !memory.CanRead(v) { return Faulted; }
      var phyAddr := memory.AddrVirtualToPhy(v);
      if phyAddr < 0x10_2000 { return Failed; }
      r := ReleaseRun(phyAddr > userPool.phyStartAddr, cntPages, v, phyAddr);
      if r == Completed {
        Vaddrs(pf).SetRun((v - Vaddrs(pf).vaddrStart) / 0x1000, cntPages, false);
      }
    }

    /** One frame goes back to its pool and page q is no longer present. */
    method ReleaseOne(ghost q: PageNo, v: Word, phyAddr: Word)
      requires Wired() && Sized(Config(), Book()) && SelfMapped(memory.mem, memory.cr3)
      requires TablesOutside(memory.mem, memory.cr3)
      requires Ordinary(q) && v == Addr(q) && HasTable(memory.mem, memory.cr3, q)
      requires phyAddr == 0x1000 * FrameFor(memory.mem, memory.cr3, q) && InPools(Config(), phyAddr / 0x1000)
      modifies memory`mem, kernelPool.bitmap.bits, userPool.bitmap.bits
      ensures Book() == Pfree(Config(), old(Book()), phyAddr / 0x1000).(mem := PteRemoved(old(memory.mem), memory.cr3, v))
      ensures SelfMapped(memory.mem, memory.cr3) && TablesOutside(memory.mem, memory.cr3)
    {
      hide At, FrameOf, Present, TablesOutside, SelfMapped, Pfree, PteRemoved, Pte, SameDirectory, BitsOf;
      ghost var mem := memory.mem;
      PfreeFrame(phyAddr);
      memory.PageTablePteRemove(v);
      RemoveKeepsDirectory(mem, memory.cr3, q);
      DirectoryShape(mem, memory.mem, memory.cr3);
    }

    /** The two loops of free_pages, which differ in their assertion. */
    method ReleaseRun(user: bool, cntPages: nat, start: Word, phyStart: Word) returns (r: Outcome)
      requires Wired() && Reachable(Config(), Book(), memory.cr3)
      requires start % 0x1000 == 0 && OrdinaryRun(start / 0x1000, cntPages) && cntPages >= 1
      requires HasTable(memory.mem, memory.cr3, start / 0x1000)
      requires phyStart == 0x1000 * FrameFor(memory.mem, memory.cr3, start / 0x1000)
      modifies memory`mem, kernelPool.bitmap.bits, userPool.bitmap.bits
      ensures match Shrink(Config(), old(Book()), memory.cr3, user, start / 0x1000, cntPages)
              case Done(b) => r == Completed && Book() == b
              case Stopped => r == Failed
              case Fault => r == Faulted
              case Stray => r == Strayed
    {
      hide Shrink, At, FrameOf, Present, TablesOutside, SelfMapped, Free, BitsOf, Pfree, PteRemoved, Pde, Pte, Slot,
           Index, SameDirectory, PteAddr;
      ghost var c, d, b0: Books, q: PageNo := Config(), memory.cr3, Book(), start / 0x1000;
      var v, phyAddr := start, phyStart;
      ShrinkUnfold(c, b0, d, user, q, 0);
      for counter := 0 to cntPages
        invariant v == start + 0x1000 * counter
        invariant SelfMapped(memory.mem, d) && TablesOutside(memory.mem, d)
        invariant Shrink(c, b0, d, user, q, counter) == Done(Book())
        invariant HasTable(memory.mem, d, q + counter) && phyAddr == 0x1000 * FrameFor(memory.mem, d, q + counter)
      {
        ghost var b := Book();
        ghost var at: PageNo := q + counter;
        assert Addr(at) == v;
        ShrinkUnfold(c, b0, d, user, q, counter + 1);
        ShrinkStuck(c, b0, d, user, q, counter + 1, cntPages);
        if !(if user then phyAddr >= userPool.phyStartAddr
             else phyAddr < userPool.phyStartAddr && phyAddr >= kernelPool.phyStartAddr) { return Failed; }
        // behind the user pool pfree would clear a bit behind its bitmap; the model ends there
        if phyAddr / 0x1000 >= userPool.phyStartAddr / 0x1000 + 8 * userPool.bitmap.bitmapLen { return Strayed; }
        ReleaseOne(at, v, phyAddr);
        v := v + 0x1000;
        assert Addr(at + 1) == v;
        CanReadPte(memory.mem, d, v);
        if !memory.CanRead(v) { return Faulted; }
        phyAddr := memory.AddrVirtualToPhy(v);
      }
      r := Completed;
    }
  }

  lemma NotPresentZero()
    ensures !Present(0)
  {
  }

  lemma FullIsZero(c: Pools, b: Books)
    requires PoolsOk(c) && Sized(c, b)
    ensures Full(c, b, Kernel) <==> Palloc(c, b, Kernel) == 0
  {
    if !Full(c, b, Kernel) { PallocTakes(c, b, Kernel); }
  }

  lemma NewTable(mem: Phys, d: FrameNo, v: Word, made: FrameNo)
    requires SelfMapped(mem, d) && made != d && Slot(v) < 1023
    ensures var m1 := Poke(mem, d, Slot(v), EntryFor(made));
            var m2 := Cleared(m1, made);
            && SelfMapped(m1, d) && Pde(m1, d, v) == EntryFor(made)
            && SelfMapped(m2, d) && Pde(m2, d, v) == EntryFor(made) && Pte(m2, d, v) == 0 && !Present(0)
  {
    hide At, Poke, Cleared, Slot, Index;
    assert InFrame(1023);
  }

  /** What a turn that starts in books b makes of them. */
  lemma TurnUnfold(c: Pools, b0: Books, d: FrameNo, pf: PoolFlag, q: PageNo, i: nat)
    requires PoolsOk(c) && Sized(c, b0) && q + i + 1 <= 0x10_0000 && Grow(c, b0, d, pf, q, i).Going?
    ensures var o := Grow(c, b0, d, pf, q, i);
            var b, r := o.b, Grow(c, b0, d, pf, q, i + 1);
            var p := Palloc(c, b, pf);
            && Sized(c, b) && PoolsOk(c) && Sized(c, AfterPalloc(c, b, pf))
            && if p == 0 then r == OutOfFrames(b, o.frames, o.tables) && AfterPalloc(c, b, pf) == b
               else match PageTableAdd(c, AfterPalloc(c, b, pf), d, Addr(q + i), p)
                    case None => r == AssertFailed(o.tables)
                    case Some(b2) =>
                      && r.Going? && r.b == b2
                      && Zeros(r.tables) == Zeros(o.tables) +
                         if !Present(Pde(b.mem, d, Addr(q + i))) && Full(c, AfterPalloc(c, b, pf), Kernel) then 1 else 0
  {
    var o := Grow(c, b0, d, pf, q, i);
    if !Full(c, o.b, pf) { PallocTakes(c, o.b, pf); }
    var b1 := AfterPalloc(c, o.b, pf);
    var t := Palloc(c, b1, Kernel);
    TableBits(c, b1, pf);
    assert multiset(o.tables + [t]) == multiset(o.tables) + multiset{t};
    hide Full, Palloc, AfterPalloc, Mapped;
  }

  lemma {:induction false} GrowStuck(c: Pools, b: Books, d: FrameNo, pf: PoolFlag, q: PageNo, i: nat, n: nat)
    requires PoolsOk(c) && Sized(c, b) && q + n <= 0x10_0000 && i <= n && !Grow(c, b, d, pf, q, i).Going?
    ensures Grow(c, b, d, pf, q, n) == Grow(c, b, d, pf, q, i)
    decreases n
  {
    hide OnePage;
    if i < n {
      GrowStuck(c, b, d, pf, q, i, n - 1);
    }
  }

  /** The table entry of v can be read exactly when there is a table. */
  lemma CanReadPte(mem: Phys, d: FrameNo, v: Word)
    requires SelfMapped(mem, d)
    ensures Walk(mem, d, PteAddr(v)).Some? <==> Present(Pde(mem, d, v))
  {
    PteAddrParts(v);
    hide PteAddr, Slot, Index, Offset, Present, FrameOf;
  }

  lemma {:induction false} ShrinkStuck(c: Pools, b: Books, d: FrameNo, user: bool, q: PageNo, i: nat, n: nat)
    requires PoolsOk(c) && Sized(c, b) && q + n < 0x10_0000 && i <= n
    ensures !Shrink(c, b, d, user, q, i).Done? ==> Shrink(c, b, d, user, q, n) == Shrink(c, b, d, user, q, i)
    decreases n
  {
    if i < n {
      ShrinkStuck(c, b, d, user, q, i, n - 1);
      hide HasTable, FrameFor, FrameAllowed, InPools, Pfree, PteRemoved;
    }
  }
}
