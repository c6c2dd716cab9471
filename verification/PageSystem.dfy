/** All address spaces and both pools together: a frame that was free after boot is free, or a page of data, a
    directory or a page table, and only one of these.  The freshness that AddressSpaces asks of new tables and
    directories follows. */
module PageSystem {
  import opened Paging
  import opened PageBooks
  import opened PageCounts
  import opened PageShortage
  import opened PageRelease
  import A = AddressSpaces
  import UP = UserProcess

  /** The books, the page directories, and the frames that were taken for pages of data. */
  datatype System = System(b: Books, dirs: set<FrameNo>, data: set<FrameNo>)

  function SpacesOf(s: System): A.Spaces {
    A.Spaces(s.b.mem, s.dirs)
  }

  /** No directory and no page table can be handed out. */
  ghost predicate HeldBack(c: Pools, b: Books, dirs: set<FrameNo>)
    requires Sized(c, b)
  {
    && (forall d :: d in dirs ==> d != 0 && !Free(c, b, d))
    && forall d: FrameNo, k {:trigger At(b.mem, d, k)} :: d in dirs && 0 <= k < A.SELF_SLOT && Present(At(b.mem, d, k)) ==>
         !Free(c, b, FrameOf(At(b.mem, d, k)))
  }

  /** Pages of data are no directories and no page tables, and cannot be handed out. */
  ghost predicate DataApart(c: Pools, s: System)
    requires Sized(c, s.b)
  {
    forall f :: f in s.data ==> f != 0 && !Free(c, s.b, f) && A.Fresh(SpacesOf(s), f)
  }

  ghost predicate Inv(c: Pools, s: System) {
    PoolsOk(c) && Sized(c, s.b) && A.Inv(SpacesOf(s)) && HeldBack(c, s.b, s.dirs) && DataApart(c, s)
  }

  /** What palloc hands out is fresh in every address space. */
  lemma FreeIsFresh(c: Pools, s: System, f: FrameNo)
    requires PoolsOk(c) && Sized(c, s.b) && HeldBack(c, s.b, s.dirs) && Free(c, s.b, f)
    ensures A.Fresh(SpacesOf(s), f) && f !in s.dirs
  {
    hide Free, At, Present, FrameOf;
  }

  /** Every address space is one that the page allocator can work in. */
  lemma AllGood(c: Pools, s: System, d: FrameNo)
    requires Inv(c, s) && d in s.dirs
    ensures Good(c, s.b, d) && UP.KernelTables(s.b.mem, d)
  {
    hide A.Inv, Free, At, Present, FrameOf, DataApart;
    UP.SpaceIsGood(SpacesOf(s), c, s.b, d);
  }

  /** The loader's state, with the pools behind its tables. */
  lemma BootedInv(c: Pools, s: System)
    requires A.Booted(SpacesOf(s)) && s.data == {} && PoolsOk(c) && Sized(c, s.b) && 0x200 <= c.kStart
    ensures Inv(c, s)
  {
    A.BootInv(SpacesOf(s));
    forall d: FrameNo, k | d in s.dirs && 0 <= k < A.SELF_SLOT && Present(At(s.b.mem, d, k))
      ensures FrameOf(At(s.b.mem, d, k)) < 0x200
    {
      assert InFrame(k) && At(s.b.mem, A.BOOT, k) == A.BootEntry(k);
    }
  }

  // ----- malloc_pages -----

  /** The directories after page_table_add for a page of directory d. */
  lemma MapDirectories(s: A.Spaces, d: FrameNo, v: Word, p: FrameNo, made: FrameNo)
    requires A.Inv(s) && d in s.dirs && Slot(v) < A.SELF_SLOT && (!Present(Pde(s.mem, d, v)) ==> A.Fresh(s, made))
    ensures forall e: FrameNo, k {:trigger At(Mapped(s.mem, d, v, p, made), e, k)} :: e in s.dirs && InFrame(k) ==>
              At(Mapped(s.mem, d, v, p, made), e, k) ==
              if e == d && k == Slot(v) && !Present(Pde(s.mem, d, v)) then EntryFor(made) else At(s.mem, e, k)
  {
    hide Present, FrameOf, At, Poke, Cleared, EntryFor, Slot, Index;
  }

  /** What one turn of malloc_pages takes, and the page it maps. */
  ghost predicate Turned(c: Pools, b: Books, d: FrameNo, q: PageNo, b2: Books, p: FrameNo, made: FrameNo) {
    && PoolsOk(c) && Sized(c, b) && Sized(c, b2)
    && b2.mem == Mapped(b.mem, d, Addr(q), p, made)
    && p != 0 && Free(c, b, p)
    && (forall pg, f {:trigger FreeIn(c, b2, pg, f)} ::
          FreeIn(c, b2, pg, f) <==> FreeIn(c, b, pg, f) && f != p && (Present(Pde(b.mem, d, Addr(q))) || f != made))
    && (!Present(Pde(b.mem, d, Addr(q))) ==> (made == 0 || Free(c, b, made)) && made != p)
  }

  lemma OnePageTurns(c: Pools, o: Growth, d: FrameNo, pf: PoolFlag, q: PageNo)
    requires PoolsOk(c) && o.Going? && Sized(c, o.b)
    requires OnePage(c, o, d, pf, q).Going?
    ensures var r := OnePage(c, o, d, pf, q);
            var had := Present(Pde(o.b.mem, d, Addr(q)));
            var p, made := Palloc(c, o.b, pf), if had then 0 else Palloc(c, AfterPalloc(c, o.b, pf), Kernel);
            && r.frames == o.frames + [p] && Turned(c, o.b, d, q, r.b, p, made)
            && Zeros(r.tables) == Zeros(o.tables) + if !had && made == 0 then 1 else 0
  {
    hide FreeIn, Palloc, AfterPalloc, Full, Mapped, Pde, Pte, Present;
    var b1 := AfterPalloc(c, o.b, pf);
    var t := Palloc(c, b1, Kernel);
    PallocFrees(c, o.b, pf);
    PallocFrees(c, b1, Kernel);
    var r := OnePage(c, o, d, pf, q);
    assert multiset(o.tables + [t]) == multiset(o.tables) + multiset{t};
    SameFree(c, if Present(Pde(o.b.mem, d, Addr(q))) then b1 else AfterPalloc(c, b1, Kernel), r.b);
  }

  /** What palloc does to the free frames, also when there is none. */
  lemma PallocFrees(c: Pools, b: Books, pf: PoolFlag)
    requires PoolsOk(c) && Sized(c, b)
    ensures var f, r := Palloc(c, b, pf), AfterPalloc(c, b, pf);
      && (f == 0 <==> Full(c, b, pf)) && (f != 0 ==> FreeIn(c, b, pf, f))
      && forall g: FrameNo, pg {:trigger FreeIn(c, r, pg, g)} :: FreeIn(c, r, pg, g) <==> FreeIn(c, b, pg, g) && g != f
  {
    hide FirstFree;
    ZeroNotFree(c, b);
    if !Full(c, b, pf) { PallocTakes(c, b, pf); }
  }

  lemma ZeroNotFree(c: Pools, b: Books)
    requires PoolsOk(c) && Sized(c, b)
    ensures forall pg :: !FreeIn(c, b, pg, 0)
  {
  }

  lemma SameFree(c: Pools, b: Books, b2: Books)
    requires Sized(c, b) && b2 == b.(mem := b2.mem)
    ensures forall pg, f {:trigger FreeIn(c, b2, pg, f)} :: FreeIn(c, b2, pg, f) == FreeIn(c, b, pg, f)
  {
  }

  /** One page more keeps the invariant. */
  lemma TurnInv(c: Pools, s: System, d: FrameNo, q: PageNo, b2: Books, p: FrameNo, made: FrameNo)
    requires Inv(c, s) && d in s.dirs && Ordinary(q) && (d == A.BOOT ==> 1024 * A.KERNEL_SLOT <= q)
    requires Turned(c, s.b, d, q, b2, p, made)
    requires !Present(Pde(s.b.mem, d, Addr(q))) && made == 0 ==> A.Fresh(SpacesOf(s), 0)
    ensures var new_ := !Present(Pde(s.b.mem, d, Addr(q)));
            var s2 := System(b2, s.dirs, s.data + {p});
            && Inv(c, s2)
            && forall f :: A.Fresh(SpacesOf(s2), f) <==> A.Fresh(SpacesOf(s), f) && (new_ ==> f != made)
  {
    hide A.Inv, FreeIn, At, Present, FrameOf, Mapped, EntryFor, A.Fresh;
    var sp, v := SpacesOf(s), Addr(q);
    var s2 := System(b2, s.dirs, s.data + {p});
    var new_ := !Present(Pde(s.b.mem, d, v));
    if new_ && made != 0 { FreeIsFresh(c, s, made); }
    FreeIsFresh(c, s, p);
    A.StepInv(sp, A.Map(d, v, p, made));
    MapDirectories(sp, d, v, p, made);
    EntryParts(made);
    ZeroNotFree(c, s.b);
    forall f ensures A.Fresh(SpacesOf(s2), f) <==> A.Fresh(sp, f) && (new_ ==> f != made) {
      FreshAfter(sp, b2.mem, d, Slot(v), new_, made, f);
    }
    forall e: FrameNo, k | e in s.dirs && 0 <= k < A.SELF_SLOT && Present(At(b2.mem, e, k))
      ensures !Free(c, b2, FrameOf(At(b2.mem, e, k)))
    {
      assert InFrame(k);
    }
  }

  lemma EntryParts(f: FrameNo)
    ensures Present(EntryFor(f)) && FrameOf(EntryFor(f)) == f
  {
  }

  /** A new page table is what is no longer fresh. */
  lemma FreshAfter(sp: A.Spaces, mem2: Phys, d: FrameNo, slot: int, new_: bool, made: FrameNo, f: FrameNo)
    requires new_ ==> d in sp.dirs && 0 <= slot < A.SELF_SLOT && !Present(At(sp.mem, d, slot))
    requires forall e: FrameNo, k {:trigger At(mem2, e, k)} :: e in sp.dirs && InFrame(k) ==>
               At(mem2, e, k) == if e == d && k == slot && new_ then EntryFor(made) else At(sp.mem, e, k)
    ensures A.Fresh(A.Spaces(mem2, sp.dirs), f) <==> A.Fresh(sp, f) && (new_ ==> f != made)
  {
    hide At, Present, FrameOf, EntryFor;
    EntryParts(made);
    var sp2 := A.Spaces(mem2, sp.dirs);
    if A.Fresh(sp2, f) {
      if new_ { assert InFrame(slot) && At(mem2, d, slot) == EntryFor(made); }
      forall e: FrameNo, k | e in sp.dirs && 0 <= k < A.SELF_SLOT && Present(At(sp.mem, e, k)) ensures FrameOf(At(sp.mem, e, k)) != f {
        assert InFrame(k) && At(mem2, e, k) == At(sp.mem, e, k);
      }
    }
    if A.Fresh(sp, f) && (new_ ==> f != made) {
      forall e: FrameNo, k | e in sp.dirs && 0 <= k < A.SELF_SLOT && Present(At(mem2, e, k)) ensures FrameOf(At(mem2, e, k)) != f {
        assert InFrame(k);
      }
    }
  }

  // ----- the account -----

  /** A frame that was free in books b0 is free, or a page of data, or a directory, or a page table of some
      address space. */
  ghost predicate Accounted(c: Pools, b0: Books, s: System) {
    && Sized(c, b0) && Sized(c, s.b)
    && (forall pg, f {:trigger FreeIn(c, s.b, pg, f)} ::
          FreeIn(c, s.b, pg, f) <==> FreeIn(c, b0, pg, f) && f !in s.data && A.Fresh(SpacesOf(s), f))
    && forall f :: f in s.data ==> Free(c, b0, f)
  }

  lemma TurnAccounted(c: Pools, b0: Books, s: System, d: FrameNo, q: PageNo, b2: Books, p: FrameNo, made: FrameNo)
    requires Accounted(c, b0, s) && Turned(c, s.b, d, q, b2, p, made)
    requires var new_ := !Present(Pde(s.b.mem, d, Addr(q)));
             var s2 := System(b2, s.dirs, s.data + {p});
             forall f :: A.Fresh(SpacesOf(s2), f) <==> A.Fresh(SpacesOf(s), f) && (new_ ==> f != made)
    ensures Accounted(c, b0, System(b2, s.dirs, s.data + {p}))
  {
    hide FreeIn, Present, Pde, Mapped, Addr, A.Fresh;
  }

  /** How many page tables fit into frame 0, which all address spaces have in common. */
  ghost function ZeroRoom(s: System): nat {
    if A.Fresh(SpacesOf(s), 0) then 1 else 0
  }

  /** malloc_pages, and get_a_page, in any address space, keep invariant and account, also when frames run out. */
  lemma {:induction false} GrowKeeps(c: Pools, b0: Books, s: System, d: FrameNo, pf: PoolFlag, q: PageNo, i: nat)
    requires Inv(c, s) && d in s.dirs && OrdinaryRun(q, i) && (d == A.BOOT ==> 1024 * A.KERNEL_SLOT <= q)
    requires Accounted(c, b0, s)
    ensures PoolsOk(c) && Sized(c, s.b)
    ensures var o := Grow(c, s.b, d, pf, q, i);
            !o.AssertFailed? && Zeros(o.tables) <= ZeroRoom(s) ==>
              var s2 := System(o.b, s.dirs, s.data + Members(o.frames));
              && Inv(c, s2) && Accounted(c, b0, s2)
              && (Zeros(o.tables) == 0 && A.Fresh(SpacesOf(s), 0) ==> A.Fresh(SpacesOf(s2), 0))
    decreases i
  {
    hide Inv, Accounted, Grow, OnePage, Turned, Palloc, AfterPalloc, Pde, Present, A.Fresh;
    SystemParts(c, s);
    GrowNone(c, s.b, d, pf, q);
    if i == 0 {
      assert s.data + Members([]) == s.data;
    } else {
      GrowKeeps(c, b0, s, d, pf, q, i - 1);
      GrowUnfold(c, s.b, d, pf, q, i);
      var o := Grow(c, s.b, d, pf, q, i - 1);
      var r := Grow(c, s.b, d, pf, q, i);
      if o.Going? && !r.AssertFailed? && Zeros(r.tables) <= ZeroRoom(s) {
        OnePageParts(c, o, d, pf, q + i - 1);
        if r.Going? {
          OnePageTurns(c, o, d, pf, q + i - 1);
          var s1 := System(o.b, s.dirs, s.data + Members(o.frames));
          var p := Palloc(c, o.b, pf);
          var had := Present(Pde(o.b.mem, d, Addr(q + i - 1)));
          var made := if had then 0 else Palloc(c, AfterPalloc(c, o.b, pf), Kernel);
          TurnInv(c, s1, d, q + i - 1, r.b, p, made);
          TurnAccounted(c, b0, s1, d, q + i - 1, r.b, p, made);
          assert s1.data + {p} == s.data + Members(r.frames);
        }
      }
    }
  }

  /** The page tables suffice for n pages from q on of directory d: as PageCounts has it, but with the frame 0 that
      all address spaces have in common. */
  ghost predicate TablesSufficeHere(c: Pools, s: System, d: FrameNo, pf: PoolFlag, q: PageNo, n: nat)
    requires Sized(c, s.b)
  {
    if pf.Kernel? then 1024 * A.KERNEL_SLOT <= q
    else Lacking(s.b.mem, d, q, Min(n, FreeFrames(c, s.b, User))) <= FreeFrames(c, s.b, Kernel) + ZeroRoom(s)
  }

  lemma ZeroRoomSpare(s: System, d: FrameNo)
    requires d in s.dirs
    ensures ZeroRoom(s) <= Spare(s.b.mem, d)
  {
    hide Present, FrameOf;
    if ZeroTable(s.b.mem, d) {
      var k :| 1 <= k < 1023 && Present(At(s.b.mem, d, k)) && FrameOf(At(s.b.mem, d, k)) == 0;
      assert !A.Fresh(SpacesOf(s), 0);
    }
  }

  lemma SufficeHere(c: Pools, s: System, d: FrameNo, pf: PoolFlag, q: PageNo, n: nat)
    requires Inv(c, s) && d in s.dirs && OrdinaryRun(q, n) && RunUnmapped(s.b.mem, d, q, n)
    requires PoolsOk(c) && Sized(c, s.b) && TablesSufficeHere(c, s, d, pf, q, n)
    ensures Good(c, s.b, d) && TablesSuffice(c, s.b, d, pf, q, n)
    ensures var o := Grow(c, s.b, d, pf, q, n);
            !o.AssertFailed? && Zeros(o.tables) <= ZeroRoom(s)
  {
    hide Inv, Good, RunUnmapped, Grow, Progress, FreeFrames, Lacking, ZeroRoom, Spare;
    AllGood(c, s, d);
    ZeroRoomSpare(s, d);
    if pf.Kernel? { UP.KernelNeedsNoTable(c, s.b, d, q, n); }
    GrowExactly(c, s.b, d, pf, q, n);
  }

  lemma GrowInv(c: Pools, b0: Books, s: System, d: FrameNo, pf: PoolFlag, q: PageNo, n: nat)
    requires Inv(c, s) && d in s.dirs && OrdinaryRun(q, n) && (d == A.BOOT ==> 1024 * A.KERNEL_SLOT <= q)
    requires Accounted(c, b0, s) && RunUnmapped(s.b.mem, d, q, n)
    requires PoolsOk(c) && Sized(c, s.b) && TablesSufficeHere(c, s, d, pf, q, n)
    ensures var o := Grow(c, s.b, d, pf, q, n);
            !o.AssertFailed? &&
            var s2 := System(o.b, s.dirs, s.data + Members(o.frames));
            Inv(c, s2) && Accounted(c, b0, s2)
  {
    hide Inv, Accounted, Good, RunUnmapped, Grow, TablesSuffice, TablesSufficeHere, ZeroRoom;
    SufficeHere(c, s, d, pf, q, n);
    GrowKeeps(c, b0, s, d, pf, q, n);
  }

  // ----- and when it does not keep the invariant -----

  /** No directory can be handed out, and no page table of d is one. */
  ghost predicate DirsApart(c: Pools, b: Books, dirs: set<FrameNo>, d: FrameNo)
    requires Sized(c, b)
  {
    && (forall e :: e in dirs ==> e != 0 && !Free(c, b, e))
    && forall k {:trigger At(b.mem, d, k)} :: 0 <= k < A.SELF_SLOT && Present(At(b.mem, d, k)) ==> FrameOf(At(b.mem, d, k)) !in dirs
  }

  /** The other directories stay as they are, whatever becomes of the page tables. */
  ghost predicate OthersKept(mem: Phys, mem2: Phys, dirs: set<FrameNo>, d: FrameNo) {
    forall e: FrameNo, k {:trigger At(mem2, e, k)} :: e in dirs && e != d && InFrame(k) ==> At(mem2, e, k) == At(mem, e, k)
  }

  lemma OthersTurn(c: Pools, b: Books, dirs: set<FrameNo>, d: FrameNo, q: PageNo, b2: Books, p: FrameNo, made: FrameNo)
    requires d in dirs && Ordinary(q) && Turned(c, b, d, q, b2, p, made) && DirsApart(c, b, dirs, d)
    ensures DirsApart(c, b2, dirs, d) && OthersKept(b.mem, b2.mem, dirs, d)
  {
    var v := Addr(q);
    hide FreeIn, At, Present, FrameOf, EntryFor, Poke, Cleared;
    EntryParts(made);
    assert made !in dirs || Present(Pde(b.mem, d, v));
    assert TableOf(b.mem, d, v, made) !in dirs;
    forall k | InFrame(k)
      ensures At(b2.mem, d, k) == if k == Slot(v) && !Present(Pde(b.mem, d, v)) then EntryFor(made) else At(b.mem, d, k)
    {
      AddDirectory(b.mem, d, v, p, made, k);
    }
    forall k | 0 <= k < A.SELF_SLOT && Present(At(b2.mem, d, k)) ensures FrameOf(At(b2.mem, d, k)) !in dirs {
      assert InFrame(k);
    }
  }

  lemma {:induction false} GrowOthers(c: Pools, b: Books, dirs: set<FrameNo>, d: FrameNo, pf: PoolFlag, q: PageNo, n: nat)
    requires PoolsOk(c) && Sized(c, b) && d in dirs && OrdinaryRun(q, n) && DirsApart(c, b, dirs, d)
    ensures var o := Grow(c, b, d, pf, q, n);
            !o.AssertFailed? ==> DirsApart(c, o.b, dirs, d) && OthersKept(b.mem, o.b.mem, dirs, d)
    decreases n
  {
    hide Grow, OnePage, DirsApart, Turned, At, Palloc, AfterPalloc, Pde, Present;
    GrowNone(c, b, d, pf, q);
    if n > 0 {
      GrowOthers(c, b, dirs, d, pf, q, n - 1);
      GrowUnfold(c, b, d, pf, q, n);
      var o, r := Grow(c, b, d, pf, q, n - 1), Grow(c, b, d, pf, q, n);
      if o.Going? {
        OnePageParts(c, o, d, pf, q + n - 1);
        if r.Going? {
          OnePageTurns(c, o, d, pf, q + n - 1);
          var had := Present(Pde(o.b.mem, d, Addr(q + n - 1)));
          OthersTurn(c, o.b, dirs, d, q + n - 1, r.b, Palloc(c, o.b, pf),
                     if had then 0 else Palloc(c, AfterPalloc(c, o.b, pf), Kernel));
        }
      }
    }
  }

  /** Frame 0 is a page table of directory e, in slot k. */
  ghost predicate ZeroIn(mem: Phys, e: FrameNo, k: int) {
    0 <= k < A.SELF_SLOT && Present(At(mem, e, k)) && FrameOf(At(mem, e, k)) == 0
  }

  /** Two places for frame 0 break the invariant. */
  lemma ZeroTwice(sp: A.Spaces, d: FrameNo, j: int, e: FrameNo, k: int)
    requires d in sp.dirs && e in sp.dirs && 1 <= j && ZeroIn(sp.mem, d, j) && ZeroIn(sp.mem, e, k) && (d != e || j != k)
    ensures !A.Inv(sp)
  {
    if A.KernelHalfAgrees(sp) && A.BootLowEmpty(sp) {
      ZeroLow(sp, d, j);
      hide At, Present, FrameOf;
      assert !A.UserTablesOwned(sp);
    }
  }

  /** The loader puts no page table into frame 0. */
  lemma ZeroLow(sp: A.Spaces, d: FrameNo, j: int)
    requires A.KernelHalfAgrees(sp) && A.BootLowEmpty(sp) && d in sp.dirs && 1 <= j && ZeroIn(sp.mem, d, j)
    ensures j < A.KERNEL_SLOT && d != A.BOOT
  {
    assert forall k :: A.KERNEL_SLOT <= k < A.SELF_SLOT ==> At(sp.mem, d, k) == A.BootEntry(k);
  }

  /** Where frame 0 is a page table already. */
  lemma ZeroElsewhere(c: Pools, s: System, d: FrameNo) returns (e: FrameNo, k: int)
    requires Inv(c, s) && d in s.dirs && !A.Fresh(SpacesOf(s), 0)
    ensures e in s.dirs && ZeroIn(s.b.mem, e, k)
    ensures !ZeroTable(s.b.mem, d) ==> e != d || k == 0
  {
    hide A.Inv, At, Present, FrameOf, Free, DataApart;
    e, k :| e in s.dirs && 0 <= k < A.SELF_SLOT && Present(At(s.b.mem, e, k)) && FrameOf(At(s.b.mem, e, k)) == 0;
  }

  /** With a page table too few, malloc_pages in a process breaks the invariant of the address spaces. */
  lemma TooFewBreak(c: Pools, s: System, d: FrameNo, q: PageNo, n: nat)
    requires Inv(c, s) && d in s.dirs && OrdinaryRun(q, n) && RunUnmapped(s.b.mem, d, q, n)
    requires PoolsOk(c) && Sized(c, s.b) && !TablesSufficeHere(c, s, d, User, q, n)
    ensures var o := Grow(c, s.b, d, User, q, n);
            o.AssertFailed? || !A.Inv(A.Spaces(o.b.mem, s.dirs))
  {
    hide Inv, A.Inv, Good, RunUnmapped, Grow, FreeFrames, Lacking, Reachable, Twice, ZeroTable, A.Fresh, Progress;
    var o := Grow(c, s.b, d, User, q, n);
    AllGood(c, s, d);
    GoodReachable(c, s.b, d);
    UserCounts(c, s.b, d, q, n);
    ShortRun(c, s.b, d, User, q, n);
    if !o.AssertFailed? {
      if Zeros(o.tables) > Spare(s.b.mem, d) {
        TwiceBreaks(A.Spaces(o.b.mem, s.dirs), d);
      } else {
        GrowExactly(c, s.b, d, User, q, n);
        ZeroMeets(c, s, o, d, q, n);
      }
    }
  }

  lemma TwiceBreaks(sp: A.Spaces, d: FrameNo)
    requires d in sp.dirs && Twice(sp.mem, d)
    ensures !A.Inv(sp)
  {
    hide A.Inv, At, Present, FrameOf;
    var j, k :| TwoSlots(sp.mem, d, j, k);
    ZeroTwice(sp, d, j, d, k);
  }

  /** The one table in frame 0 meets that of another place. */
  lemma ZeroMeets(c: Pools, s: System, o: Growth, d: FrameNo, q: PageNo, n: nat)
    requires Inv(c, s) && d in s.dirs && PoolsOk(c) && Sized(c, s.b) && OrdinaryRun(q, n)
    requires o == Grow(c, s.b, d, User, q, n) && !o.AssertFailed? && Progress(c, s.b, Kept(o), d, User, q)
    requires !ZeroTable(s.b.mem, d) && ZeroTable(o.b.mem, d) && !A.Fresh(SpacesOf(s), 0)
    ensures !A.Inv(A.Spaces(o.b.mem, s.dirs))
  {
    hide Inv, A.Inv, Grow, At, Present, FrameOf, A.Fresh, Progress, DirsApart;
    var e, k := ZeroElsewhere(c, s, d);
    var j :| 1 <= j < 1023 && Present(At(o.b.mem, d, j)) && FrameOf(At(o.b.mem, d, j)) == 0;
    SystemDirs(c, s, d);
    GrowOthers(c, s.b, s.dirs, d, User, q, n);
    if e == d { FirstSlotStays(c, s.b, Kept(o), d, q); }
    assert InFrame(k) && At(o.b.mem, e, k) == At(s.b.mem, e, k);
    ZeroTwice(A.Spaces(o.b.mem, s.dirs), d, j, e, k);
  }

  lemma SystemDirs(c: Pools, s: System, d: FrameNo)
    requires Inv(c, s) && d in s.dirs
    ensures PoolsOk(c) && Sized(c, s.b) && DirsApart(c, s.b, s.dirs, d)
  {
    hide At, Present, FrameOf, FreeIn;
  }

  lemma FirstSlotStays(c: Pools, b: Books, o: Growth, d: FrameNo, q: PageNo)
    requires PoolsOk(c) && Sized(c, b) && Progress(c, b, o, d, User, q) && 1024 <= q
    ensures At(o.b.mem, d, 0) == At(b.mem, d, 0)
  {
    hide Good, WereFree, Taken, RunMapped, OthersSame, DirectoryGrown, At;
    assert InFrame(0);
  }

  /** For a process, malloc_pages keeps the invariant of all address spaces if and only if the page tables suffice,
      with the frame 0 that all have in common. */
  lemma KeptHereIff(c: Pools, b0: Books, s: System, d: FrameNo, q: PageNo, n: nat)
    requires Inv(c, s) && d in s.dirs && OrdinaryRun(q, n) && (d == A.BOOT ==> 1024 * A.KERNEL_SLOT <= q)
    requires Accounted(c, b0, s) && RunUnmapped(s.b.mem, d, q, n) && PoolsOk(c) && Sized(c, s.b)
    ensures var o := Grow(c, s.b, d, User, q, n);
            TablesSufficeHere(c, s, d, User, q, n) <==>
            !o.AssertFailed? && Inv(c, System(o.b, s.dirs, s.data + Members(o.frames)))
  {
    hide A.Inv, HeldBack, DataApart, Accounted, RunUnmapped, Grow, TablesSufficeHere;
    if TablesSufficeHere(c, s, d, User, q, n) {
      GrowInv(c, b0, s, d, User, q, n);
    } else {
      TooFewBreak(c, s, d, q, n);
    }
  }

  lemma SystemParts(c: Pools, s: System)
    requires Inv(c, s)
    ensures PoolsOk(c) && Sized(c, s.b)
  {
    hide A.Inv, HeldBack, DataApart;
  }

  // ----- free_pages -----

  /** Taking pages away leaves all directories alone. */
  lemma {:induction false} ShrinkDirectories(c: Pools, s: System, d: FrameNo, user: bool, q: PageNo, i: nat)
    requires Inv(c, s) && d in s.dirs && OrdinaryRun(q, i) && PoolsOk(c) && Sized(c, s.b)
    requires Shrink(c, s.b, d, user, q, i).Done?
    ensures var b2 := Shrink(c, s.b, d, user, q, i).b;
            && A.Inv(A.Spaces(b2.mem, s.dirs))
            && forall e: FrameNo, k {:trigger At(b2.mem, e, k)} :: e in s.dirs && InFrame(k) ==> At(b2.mem, e, k) == At(s.b.mem, e, k)
    decreases i
  {
    hide A.Inv, HeldBack, DataApart, At, PteRemoved, Pfree, HasTable, FrameFor, FrameAllowed, InPools;
    if i > 0 {
      ShrinkDirectories(c, s, d, user, q, i - 1);
      var b1 := Shrink(c, s.b, d, user, q, i - 1).b;
      ShrinkTable(c, s.b, d, user, q, i);
      RemoveDirectories(A.Spaces(b1.mem, s.dirs), d, q + i - 1);
    }
  }

  lemma ShrinkTable(c: Pools, b: Books, d: FrameNo, user: bool, q: PageNo, i: nat)
    requires PoolsOk(c) && Sized(c, b) && i > 0 && q + i < 0x10_0000 && Shrink(c, b, d, user, q, i).Done?
    ensures var r := Shrink(c, b, d, user, q, i - 1);
            r.Done? && HasTable(r.b.mem, d, q + i - 1)
            && Shrink(c, b, d, user, q, i).b.mem == PteRemoved(r.b.mem, d, Addr(q + i - 1))
  {
    hide PteRemoved, HasTable, FrameFor, FrameAllowed, InPools;
    if i > 1 { assert Shrink(c, b, d, user, q, i - 1).Done?; }
  }

  lemma RemoveDirectories(s: A.Spaces, d: FrameNo, q: PageNo)
    requires A.Inv(s) && d in s.dirs && Ordinary(q) && HasTable(s.mem, d, q)
    ensures var mem2 := PteRemoved(s.mem, d, Addr(q));
            && A.Inv(A.Spaces(mem2, s.dirs))
            && forall e: FrameNo, k {:trigger At(mem2, e, k)} :: e in s.dirs && InFrame(k) ==> At(mem2, e, k) == At(s.mem, e, k)
  {
    var v := Addr(q);
    assert Slot(v) < A.SELF_SLOT;
    A.StepInv(s, A.Unmap(d, v));
    hide Present, FrameOf, At, Poke, Index, Slot, A.KernelHalfAgrees, A.UserTablesOwned, A.SelfMaps, A.BootLowEmpty;
  }

  /** free_pages of a run of data pages. */
  lemma ReleaseInv(c: Pools, s: System, d: FrameNo, pf: PoolFlag, q: PageNo, frames: seq<FrameNo>)
    requires Inv(c, s) && d in s.dirs && frames != [] && Occupied(c, s.b, d, pf, q, frames)
    requires HasTable(s.b.mem, d, q + |frames|) && forall f :: f in frames ==> f in s.data
    ensures PoolsOk(c) && Sized(c, s.b) && Shrink(c, s.b, d, pf.User?, q, |frames|).Done?
    ensures Inv(c, System(Shrink(c, s.b, d, pf.User?, q, |frames|).b, s.dirs, s.data - Members(frames)))
  {
    hide A.Inv, HeldBack, DataApart, Returned, HasTable, Shrink, RunMapped, OwnTables, TablesOutside, Homeward;
    ShrinkReturns(c, s.b, d, pf, q, frames, |frames|);
    ShrinkDirectories(c, s, d, pf.User?, q, |frames|);
    hide Occupied;
    var b2 := Shrink(c, s.b, d, pf.User?, q, |frames|).b;
    GivenBack(c, s, b2, d, pf, q, frames);
  }

  lemma GivenBack(c: Pools, s: System, b2: Books, d: FrameNo, pf: PoolFlag, q: PageNo, frames: seq<FrameNo>)
    requires Inv(c, s) && q + |frames| <= 0x10_0000 && Returned(c, s.b, b2, d, pf, q, frames, |frames|) && Sized(c, b2)
    requires A.Inv(A.Spaces(b2.mem, s.dirs)) && forall f :: f in frames ==> f in s.data
    requires forall e: FrameNo, k {:trigger At(b2.mem, e, k)} :: e in s.dirs && InFrame(k) ==> At(b2.mem, e, k) == At(s.b.mem, e, k)
    ensures Inv(c, System(b2, s.dirs, s.data - Members(frames)))
  {
    hide A.Inv, At, Present, FrameOf, FreeIn, Returned, A.Fresh;
    forall f: FrameNo | Free(c, b2, f) ensures Free(c, s.b, f) || f in frames {
      GivenFree(c, s.b, b2, d, pf, q, frames, f);
    }
    FreshAside(s, frames);
    forall e: FrameNo, k | e in s.dirs && 0 <= k < A.SELF_SLOT && Present(At(b2.mem, e, k))
      ensures !Free(c, b2, FrameOf(At(b2.mem, e, k)))
    {
      assert InFrame(k) && At(b2.mem, e, k) == At(s.b.mem, e, k);
    }
    forall f | f in s.data - Members(frames) ensures A.Fresh(A.Spaces(b2.mem, s.dirs), f) {
      FreshAfter(SpacesOf(s), b2.mem, 0, 0, false, 0, f);
    }
  }

  lemma FreshAside(s: System, frames: seq<FrameNo>)
    requires forall f :: f in frames ==> A.Fresh(SpacesOf(s), f)
    ensures forall f :: f in frames ==> f !in s.dirs
    ensures forall e: FrameNo, k {:trigger At(s.b.mem, e, k)} :: e in s.dirs && 0 <= k < A.SELF_SLOT && Present(At(s.b.mem, e, k)) ==>
              FrameOf(At(s.b.mem, e, k)) !in frames
  {
    hide At, Present, FrameOf;
  }

  /** The frames of the pages are free in addition. */
  lemma GivenFree(c: Pools, b: Books, b2: Books, d: FrameNo, pf: PoolFlag, q: PageNo, frames: seq<FrameNo>, f: FrameNo)
    requires PoolsOk(c) && Sized(c, b) && Sized(c, b2)
    requires q + |frames| <= 0x10_0000 && Returned(c, b, b2, d, pf, q, frames, |frames|)
    ensures forall pg :: FreeIn(c, b2, pg, f) <==>
              FreeIn(c, b, pg, f) || (pg == pf && f in frames && StartOf(c, pg) <= f < StartOf(c, pg) + LenOf(c, pg))
  {
    assert frames[..|frames|] == frames;
    hide SameDirectory, PageAt;
    forall pg ensures FreeIn(c, b2, pg, f) <==>
              FreeIn(c, b, pg, f) || (pg == pf && f in frames && StartOf(c, pg) <= f < StartOf(c, pg) + LenOf(c, pg))
    {
      if StartOf(c, pg) <= f < StartOf(c, pg) + LenOf(c, pg) {
        var x := f - StartOf(c, pg);
        assert BitsFor(b2, pg)[x] <==> BitsFor(b, pg)[x] && !(pg == pf && f in frames);
      }
    }
  }

  /** The account after a release. */
  lemma ReleaseAccounted(c: Pools, b0: Books, s: System, d: FrameNo, pf: PoolFlag, q: PageNo, frames: seq<FrameNo>)
    requires Inv(c, s) && d in s.dirs && frames != [] && Occupied(c, s.b, d, pf, q, frames)
    requires HasTable(s.b.mem, d, q + |frames|) && forall f :: f in frames ==> f in s.data
    requires Accounted(c, b0, s)
    requires PoolsOk(c) && Sized(c, s.b) && Shrink(c, s.b, d, pf.User?, q, |frames|).Done?
    ensures Accounted(c, b0, System(Shrink(c, s.b, d, pf.User?, q, |frames|).b, s.dirs, s.data - Members(frames)))
  {
    hide A.Inv, A.Fresh, HeldBack, Returned, HasTable, Shrink, RunMapped, OwnTables, TablesOutside, FreeIn, Homeward;
    ShrinkReturns(c, s.b, d, pf, q, frames, |frames|);
    ShrinkDirectories(c, s, d, pf.User?, q, |frames|);
    var b2 := Shrink(c, s.b, d, pf.User?, q, |frames|).b;
    var s2 := System(b2, s.dirs, s.data - Members(frames));
    forall f: FrameNo, pg
      ensures FreeIn(c, b2, pg, f) <==> FreeIn(c, b0, pg, f) && f !in s2.data && A.Fresh(SpacesOf(s2), f)
    {
      GivenFree(c, s.b, b2, d, pf, q, frames, f);
      FreshAfter(SpacesOf(s), b2.mem, 0, 0, false, 0, f);
      if f in frames { HomePool(c, b0, pf, pg, f); }
    }
  }

  /** A frame that was free and goes home was free in the pool it goes to. */
  lemma HomePool(c: Pools, b: Books, pf: PoolFlag, pg: PoolFlag, f: FrameNo)
    requires PoolsOk(c) && Sized(c, b) && Free(c, b, f) && Homeward(c, pf, f)
    ensures FreeIn(c, b, pg, f) <==> pg == pf
    ensures StartOf(c, pf) <= f < StartOf(c, pf) + LenOf(c, pf)
  {
  }

  // ----- directories and data -----

  /** create_page_dir makes a page of data a directory. */
  lemma CreateInv(c: Pools, s: System, current: FrameNo, f: FrameNo)
    requires Inv(c, s) && current in s.dirs && f in s.data
    ensures Inv(c, System(s.b.(mem := A.Installed(s.b.mem, current, f)), s.dirs + {f}, s.data - {f}))
  {
    var s2 := System(s.b.(mem := A.Installed(s.b.mem, current, f)), s.dirs + {f}, s.data - {f});
    hide A.Inv, At, Present, FrameOf, FreeIn, A.Installed;
    A.StepInv(SpacesOf(s), A.Create(current, f));
    SameFree(c, s.b, s2.b);
    ZeroAbsent();
    forall e: FrameNo, k | e in s2.dirs && 0 <= k < A.SELF_SLOT && Present(At(s2.b.mem, e, k))
      ensures Present(At(s.b.mem, if e == f then current else e, k))
      ensures At(s2.b.mem, e, k) == At(s.b.mem, if e == f then current else e, k)
    {
      assert InFrame(k);
    }
  }

  lemma CreateAccounted(c: Pools, b0: Books, s: System, current: FrameNo, f: FrameNo)
    requires Inv(c, s) && current in s.dirs && f in s.data && Accounted(c, b0, s)
    ensures Accounted(c, b0, System(s.b.(mem := A.Installed(s.b.mem, current, f)), s.dirs + {f}, s.data - {f}))
  {
    var s2 := System(s.b.(mem := A.Installed(s.b.mem, current, f)), s.dirs + {f}, s.data - {f});
    hide A.Inv, FreeIn, A.Installed, A.Fresh;
    SameFree(c, s.b, s2.b);
    forall g: FrameNo ensures A.Fresh(SpacesOf(s2), g) <==> A.Fresh(SpacesOf(s), g) && g != f {
      FreshCreated(SpacesOf(s), current, f, g);
    }
  }

  lemma FreshCreated(sp: A.Spaces, current: FrameNo, f: FrameNo, g: FrameNo)
    requires current in sp.dirs && A.Fresh(sp, f)
    ensures A.Fresh(A.Spaces(A.Installed(sp.mem, current, f), sp.dirs + {f}), g) <==> A.Fresh(sp, g) && g != f
  {
    var mem2 := A.Installed(sp.mem, current, f);
    ZeroAbsent();
    hide At, Present, FrameOf, A.Installed;
    if A.Fresh(A.Spaces(mem2, sp.dirs + {f}), g) {
      forall e: FrameNo, k | e in sp.dirs && 0 <= k < A.SELF_SLOT && Present(At(sp.mem, e, k)) ensures FrameOf(At(sp.mem, e, k)) != g {
        assert InFrame(k) && At(mem2, e, k) == At(sp.mem, e, k);
      }
    }
    if A.Fresh(sp, g) && g != f {
      forall e: FrameNo, k | e in sp.dirs + {f} && 0 <= k < A.SELF_SLOT && Present(At(mem2, e, k)) ensures FrameOf(At(mem2, e, k)) != g {
        assert InFrame(k);
      }
    }
  }

  lemma ZeroAbsent()
    ensures !Present(0)
  {
  }

  /** A store to a page of data. */
  lemma StoreInv(c: Pools, s: System, f: FrameNo, i: int, w: Word)
    requires Inv(c, s) && f in s.data && InFrame(i)
    ensures Inv(c, s.(b := s.b.(mem := Poke(s.b.mem, f, i, w))))
  {
    var s2 := s.(b := s.b.(mem := Poke(s.b.mem, f, i, w)));
    hide A.Inv, At, Present, FrameOf, FreeIn, Poke;
    A.StepInv(SpacesOf(s), A.Store(f, i, w));
    SameFree(c, s.b, s2.b);
    assert A.Fresh(SpacesOf(s), f) && f !in s.dirs;
    forall e: FrameNo, k | e in s.dirs && 0 <= k < A.SELF_SLOT ensures At(s2.b.mem, e, k) == At(s.b.mem, e, k) {
      assert InFrame(k);
    }
  }

  lemma StoreAccounted(c: Pools, b0: Books, s: System, f: FrameNo, i: int, w: Word)
    requires Inv(c, s) && f in s.data && InFrame(i) && Accounted(c, b0, s)
    ensures Accounted(c, b0, s.(b := s.b.(mem := Poke(s.b.mem, f, i, w))))
  {
    var s2 := s.(b := s.b.(mem := Poke(s.b.mem, f, i, w)));
    assert f !in s.dirs;
    hide A.Inv, FreeIn, Poke, A.Fresh;
    SameFree(c, s.b, s2.b);
    forall g: FrameNo ensures A.Fresh(SpacesOf(s2), g) <==> A.Fresh(SpacesOf(s), g) {
      FreshAfter(SpacesOf(s), s2.b.mem, 0, 0, false, 0, g);
    }
  }

  // ----- runs -----

  datatype Op =
    | Malloc(d: FrameNo, pf: PoolFlag, q: PageNo, n: nat)                  // malloc_pages with directory d active
    | Release(d: FrameNo, pf: PoolFlag, q: PageNo, frames: seq<FrameNo>)   // free_pages of data pages
    | Create(current: FrameNo, f: FrameNo)                                 // create_page_dir, once it has its page
    | Store(f: FrameNo, i: int, w: Word)                                   // any other write, to a page of data

  ghost predicate Steps(c: Pools, s: System, op: Op, s': System) {
    && PoolsOk(c) && Sized(c, s.b)
    && match op
       case Malloc(d, pf, q, n) =>
         // kernel threads, which run on the boot directory, map kernel addresses only
         && d in s.dirs && OrdinaryRun(q, n) && (d == A.BOOT ==> 1024 * A.KERNEL_SLOT <= q)
         && RunUnmapped(s.b.mem, d, q, n) && TablesSufficeHere(c, s, d, pf, q, n)
         && var o := Grow(c, s.b, d, pf, q, n);
            !o.AssertFailed? && s' == System(o.b, s.dirs, s.data + Members(o.frames))
       case Release(d, pf, q, frames) =>
         && d in s.dirs && frames != [] && Occupied(c, s.b, d, pf, q, frames)
         && HasTable(s.b.mem, d, q + |frames|) && (forall f :: f in frames ==> f in s.data)
         && var r := Shrink(c, s.b, d, pf.User?, q, |frames|);
            r.Done? && s' == System(r.b, s.dirs, s.data - Members(frames))
       case Create(current, f) =>
         && current in s.dirs && f in s.data
         && s' == System(s.b.(mem := A.Installed(s.b.mem, current, f)), s.dirs + {f}, s.data - {f})
       case Store(f, i, w) => InFrame(i) && f in s.data && s' == s.(b := s.b.(mem := Poke(s.b.mem, f, i, w)))
  }

  ghost predicate IsRun(c: Pools, run: seq<System>, ops: seq<Op>) {
    && |run| == |ops| + 1 && PoolsOk(c) && 0x200 <= c.kStart
    && Sized(c, run[0].b) && A.Booted(SpacesOf(run[0])) && run[0].data == {}
    && forall i :: 0 <= i < |ops| ==> Steps(c, run[i], ops[i], run[i + 1])
  }

  lemma StepInv(c: Pools, b0: Books, s: System, op: Op, s': System)
    requires Inv(c, s) && Accounted(c, b0, s) && Steps(c, s, op, s')
    ensures Inv(c, s') && Accounted(c, b0, s')
  {
    hide Inv, Accounted, Grow, Shrink, Occupied, HasTable, RunUnmapped, TablesSufficeHere, Poke, A.Installed;
    match op
    case Malloc(d, pf, q, n) =>
      GrowInv(c, b0, s, d, pf, q, n);
    case Release(d, pf, q, frames) =>
      ReleaseInv(c, s, d, pf, q, frames);
      ReleaseAccounted(c, b0, s, d, pf, q, frames);
    case Create(current, f) =>
      CreateInv(c, s, current, f);
      CreateAccounted(c, b0, s, current, f);
    case Store(f, i, w) =>
      StoreInv(c, s, f, i, w);
      StoreAccounted(c, b0, s, f, i, w);
  }

  lemma {:induction false} RunInvariant(c: Pools, run: seq<System>, ops: seq<Op>, n: nat)
    requires IsRun(c, run, ops) && n < |run|
    ensures Inv(c, run[n]) && Accounted(c, run[0].b, run[n])
    decreases n
  {
    hide Inv, Accounted, A.Booted, Steps;
    if n == 0 {
      BootedInv(c, run[0]);
      BootedAccounted(c, run[0]);
    } else {
      RunInvariant(c, run, ops, n - 1);
      assert Steps(c, run[n - 1], ops[n - 1], run[n]);
      StepInv(c, run[0].b, run[n - 1], ops[n - 1], run[n]);
    }
  }

  lemma BootedAccounted(c: Pools, s: System)
    requires Inv(c, s) && s.data == {}
    ensures Accounted(c, s.b, s)
  {
    hide A.Inv, FreeIn, A.Fresh;
    Facts(c, s);
    forall pg, f: FrameNo | FreeIn(c, s.b, pg, f) ensures A.Fresh(SpacesOf(s), f) {
      assert pg.Kernel? || pg.User?;
      assert Free(c, s.b, f);
    }
  }

  /** From the loader's state on, in every state that allocation and release in any address spaces, new
      address spaces and stores to data lead to: a frame that palloc can hand out is fresh everywhere, and the page
      allocator can work in every address space. */
  lemma FreshFromPalloc(c: Pools, run: seq<System>, ops: seq<Op>, n: nat)
    requires IsRun(c, run, ops) && n < |run|
    ensures Inv(c, run[n])
    ensures forall f :: Free(c, run[n].b, f) ==> A.Fresh(SpacesOf(run[n]), f)
    ensures forall d :: d in run[n].dirs ==> Good(c, run[n].b, d)
  {
    RunInvariant(c, run, ops, n);
    hide IsRun, Inv, Free, A.Fresh, Good;
    Facts(c, run[n]);
  }

  /** Frame f is a page table of some address space. */
  ghost predicate IsTable(s: System, f: FrameNo) {
    exists d: FrameNo, k {:trigger At(s.b.mem, d, k)} ::
      d in s.dirs && 0 <= k < A.SELF_SLOT && Present(At(s.b.mem, d, k)) && FrameOf(At(s.b.mem, d, k)) == f
  }

  /** In every such state, of both pools together: a frame is free exactly when it was free after boot and is now
      neither a page of data nor a directory nor a page table of any address space; and no frame is two of these. */
  lemma FramesAccounted(c: Pools, run: seq<System>, ops: seq<Op>, n: nat)
    requires IsRun(c, run, ops) && n < |run|
    ensures var s := run[n];
            && Sized(c, s.b)
            && (forall pg, f {:trigger FreeIn(c, s.b, pg, f)} ::
                  FreeIn(c, s.b, pg, f) <==>
                  FreeIn(c, run[0].b, pg, f) && f !in s.data && f !in s.dirs && !IsTable(s, f))
            && (forall f :: f in s.data ==> Free(c, run[0].b, f) && f !in s.dirs && !IsTable(s, f))
            && (forall f :: f in s.dirs ==> !IsTable(s, f))
  {
    RunInvariant(c, run, ops, n);
    hide IsRun, Inv, FreeIn, A.Fresh, IsTable;
    OneOfThem(c, run[n]);
  }

  lemma OneOfThem(c: Pools, s: System)
    requires Inv(c, s)
    ensures Sized(c, s.b)
    ensures forall f :: A.Fresh(SpacesOf(s), f) <==> f !in s.dirs && !IsTable(s, f)
    ensures forall f :: f in s.data ==> A.Fresh(SpacesOf(s), f)
    ensures forall f :: f in s.dirs ==> !IsTable(s, f)
  {
    hide FreeIn, At, Present, FrameOf, A.SelfMaps, A.KernelHalfAgrees, A.UserTablesOwned, A.BootLowEmpty, HeldBack;
  }

  lemma Facts(c: Pools, s: System)
    requires Inv(c, s)
    ensures PoolsOk(c) && Sized(c, s.b)
    ensures forall f :: Free(c, s.b, f) ==> A.Fresh(SpacesOf(s), f)
    ensures forall d :: d in s.dirs ==> Good(c, s.b, d)
  {
    hide A.Inv, Free, A.Fresh, Good;
    forall f | Free(c, s.b, f) ensures A.Fresh(SpacesOf(s), f) {
      FreeIsFresh(c, s, f);
    }
    forall d | d in s.dirs ensures Good(c, s.b, d) {
      AllGood(c, s, d);
    }
  }

  /** The address space of a new process, in the frame that create_page_dir got from palloc: see
      UserProcess.NewProcess. */
  lemma NewProcessFrame(c: Pools, s: System, d: FrameNo, v: Word, f: FrameNo)
    requires Inv(c, s) && d in s.dirs && PoolsOk(c) && Sized(c, s.b) && FreeIn(c, s.b, Kernel, f)
    requires A.KERNEL_SLOT <= Slot(v) < A.SELF_SLOT
    ensures var s2 := A.Spaces(A.Installed(Mapped(s.b.mem, d, v, f, 0), d, f), s.dirs + {f});
            && A.Inv(s2)
            && forall w: Word :: if Slot(w) < A.KERNEL_SLOT then Walk(s2.mem, f, w) == None
                                 else Slot(w) < A.SELF_SLOT ==> Walk(s2.mem, f, w) == Walk(s2.mem, d, w)
  {
    hide A.Inv, HeldBack, DataApart, Mapped, A.Installed, Slot, Walk, A.Fresh;
    FreeIsFresh(c, s, f);
    UP.NewProcess(s.b.mem, s.dirs, d, v, f);
  }
}
