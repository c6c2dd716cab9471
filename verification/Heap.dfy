/** sys_malloc and sys_free. */
module Heap {
  import IL = IntrusiveLists
  import opened RamLists
  import opened Arenas
  import opened ArenaLists
  import opened ArenaSteps
  import B = PageBooks
  import PC = PageCounts
  import PG = PageGiving
  import PH = PageShortage
  import PX = PageExamples
  import PM = PageManager
  import PP = PagePools
  import PR = PageRelease
  import PS = PageStates
  import PT = PageTaking
  import Runs = PageRuns
  import Bitmaps

  /** An address; no memory (a null pointer); stopped on a failed assertion; or malloc_pages made frame 0 the page
      table of a second slot, which failed an assertion or put two pages of the process into one frame. */
  datatype Pointer = Ptr(a: Word) | NoMemory | Stopped | TableMissing(stopped: bool)

  /** DIV_ROUND_UP(size, PAGE_SIZE) on 32-bit unsigned numbers. */
  function PagesFor(size: Word): nat {
    (size + PAGE_SIZE - 1) % 0x1_0000_0000 / PAGE_SIZE
  }

  /** How many pages the arena for a request has. */
  function CountFor(size: Word): nat {
    if size > 1024 then PagesFor(size) else 1
  }

  /** The smallest class whose blocks are large enough. */
  function ClassFor(size: nat): (k: nat)
    requires size <= 1024
    ensures k < CLASSES && size <= BlockSize(k) && forall j :: 0 <= j < k ==> BlockSize(j) < size
  {
    if size <= 16 then 0 else if size <= 32 then 1 else if size <= 64 then 2 else if size <= 128 then 3
    else if size <= 256 then 4 else if size <= 512 then 5 else 6
  }

  /** The first block of list k was handed out, at address x. */
  ghost predicate FirstTaken(g0: Model, g: Model, k: nat, x: int) {
    && k < CLASSES && k < |g0.frees| && g0.frees[k] != []
    && x == BlockAt(k, g0.frees[k][0]) && g.frees == g0.frees[k := g0.frees[k][1..]]
  }

  /** The block at address x, of a small arena, came back, at the end of its list. */
  ghost predicate LastEntered(g0: Model, g: Model, x: nat) {
    && PageOf(x) in g0.arenas && g0.arenas[PageOf(x)].Small?
    && var k := g0.arenas[PageOf(x)].k;
       && k < CLASSES && k < |g0.frees| && BlockAt(k, SlotOf(k, x)) == x
       && g.arenas == g0.arenas && g.frees == g0.frees[k := g0.frees[k] + [SlotOf(k, x)]]
  }

  /** sys_free of the region at a takes the last live region from its arena. */
  ghost predicate Dissolves(g: Model, a: nat) {
    var p := PageOf(a);
    p in g.arenas &&
    match g.arenas[p]
    case Small(k) => k < CLASSES && k < |g.frees| && |FreeIn(g.frees[k], p, PerArena(k))| + 1 == PerArena(k)
    case Large(_) => true
  }

  /** The arenas are the live allocations of the pages. */
  ghost predicate SameArenas(s: PS.State, g: Model) {
    s.live.Keys == g.arenas.Keys && forall p {:trigger s.live[p]} :: p in g.arenas ==> |s.live[p]| == PagesOf(g.arenas[p])
  }

  /** The pages that malloc_pages found are in the region, and no arena has them; with the new arena the
      arenas are the live allocations again. */
  lemma RunServed(c: Config, e: PS.Setting, s: PS.State, g: Model, start: nat, n: nat)
    requires PS.Inv(e, s) && PS.Mallocs(e, s, start, n) && SameArenas(s, g) && e.first == c.first
    requires |s.bits| <= c.total + 1 && PP.AnswerTo(e, s, n, start).Serves?
    ensures InRegion(c, c.first + start, n) && PagesUnowned(g, c.first + start, n) && n >= 1
    ensures forall a :: PagesOf(a) == n ==> SameArenas(PS.AfterMalloc(e, s, start, n), WithArena(g, c.first + start, a))
  {
    hide PS.Ready, PS.LostKept, PS.AllHeld, PS.Mallocs, PS.AfterMalloc, PT.Grown, B.Grow, PC.TablesSuffice, PC.FreeFrames,
         PS.TakenFrame, PM.RunSet;
    var k := PT.MallocGrows(e, s, start, n);
    PT.RunWasUntouched(e, s, k);
    PT.GrownLess(e, s, k);
    forall x: nat | c.first + start <= x < c.first + start + n ensures !Owned(g, x) {
      assert PS.InRun(x, e.first + start, n);
      OwnedLive(s, g, x);
    }
  }

  lemma OwnedLive(s: PS.State, g: Model, x: nat)
    requires SameArenas(s, g)
    ensures Owned(g, x) ==> PS.LivePage(s, x)
  {
    if Owned(g, x) {
      var q :| q in g.arenas && q <= x < q + PagesOf(g.arenas[q]);
      assert q in s.live && |s.live[q]| == PagesOf(g.arenas[q]);
    }
  }

  /** Without enough frames the arenas stay as they are. */
  lemma RunRefused(e: PS.Setting, s: PS.State, g: Model, start: nat, n: nat)
    requires PS.Inv(e, s) && PS.Mallocs(e, s, start, n) && SameArenas(s, g) && PP.AnswerTo(e, s, n, start).NoFrames?
    ensures SameArenas(PS.AfterMalloc(e, s, start, n), g)
  {
    hide PS.Inv, PS.Mallocs, PS.AfterMalloc, PC.TablesSuffice, PC.FreeFrames;
    PT.RefusedTakesAll(e, s, start, n);
  }

  lemma ArenaReleased(e: PS.Setting, s: PS.State, g: Model, p: nat)
    requires PS.Releases(e, s, p) && SameArenas(s, g)
    ensures SameArenas(PS.AfterRelease(e, s, p), WithoutArena(g, p))
  {
    hide PR.FreePages;
  }

  const EMPTY := Model([[], [], [], [], [], [], []], map[])

  /** The six words that block_des_init writes for one descriptor. */
  predicate DescWritten(c: Config, m: Ram, k: nat, size: int, per: int)
    requires ConfigOk(c) && k < CLASSES
  {
    var d := Desc(c, k);
    && W(m, d) == size && W(m, d + 4) == per
    && W(m, d + 8) == 0 && W(m, d + 12) == d + 16 && W(m, d + 16) == d + 8 && W(m, d + 20) == 0
  }

  lemma SixWords(m: Ram, d: Word, size: Word, per: Word)
    requires Aligned(d) && Aligned(d + 20)
    ensures Aligned(d + 4) && Aligned(d + 8) && Aligned(d + 12) && Aligned(d + 16)
    ensures var r := Put(Put(Put(Put(Put(Put(m, d, size), d + 4, per), d + 8, 0), d + 20, 0), d + 12, d + 16), d + 16, d + 8);
            && W(r, d) == size && W(r, d + 4) == per
            && W(r, d + 8) == 0 && W(r, d + 12) == d + 16 && W(r, d + 16) == d + 8 && W(r, d + 20) == 0
            && SameOutside(m, r, d, d + DESC_SIZE)
  {
    assert Aligned(d + 4) && Aligned(d + 8) && Aligned(d + 12) && Aligned(d + 16);
    hide Aligned, W;
  }

  lemma EmptyList(c: Config, m: Ram, k: nat)
    requires ConfigOk(c) && k < CLASSES && DescWritten(c, m, k, BlockSize(k), PerArena(k))
    ensures ListOk(c, m, EMPTY, k)
  {
    var q := Nodes(c, k, []);
    assert q == [Head(c, k), Tail(c, k)];
    assert EMPTY.frees[k] == [];
    assert ElemAddr(Head(c, k)) && ElemAddr(Tail(c, k));
    hide W, Nodes, BlockSize, PerArena, Aligned, ConfigOk, Separate, Linked;
    PairLinked(m, Head(c, k), Tail(c, k));
  }

  lemma PairLinked(m: Ram, h: int, t: int)
    requires ElemAddr(h) && ElemAddr(t) && Apart(h, t) && W(m, h + 4) == t && W(m, t) == h
    ensures Separate([h, t]) && Linked(m, [h, t])
  {
    hide W, Aligned;
  }

  lemma EarlierLists(c: Config, m: Ram, m2: Ram, index: nat)
    requires ConfigOk(c) && index < CLASSES && SameOutside(m, m2, Desc(c, index), Desc(c, index) + DESC_SIZE)
    ensures forall k :: 0 <= k < index && ListOk(c, m, EMPTY, k) ==> ListOk(c, m2, EMPTY, k)
  {
    forall k | 0 <= k < index && ListOk(c, m, EMPTY, k) ensures ListOk(c, m2, EMPTY, k) {
      var q := Nodes(c, k, []);
      assert EMPTY.frees[k] == [] && |q| == 2 && q[0] == Head(c, k) && q[1] == Tail(c, k);
      hide W, Nodes, BlockSize, PerArena, ListOk;
      ListFrame(c, m, m2, EMPTY, k);
    }
  }

  class Allocator {
    const c: Config
    const pages: PP.PagePool
    var ram: Ram
    ghost var g: Model

    ghost predicate Wired() {
      && ConfigOk(c) && pages.Wired() && c.first == pages.e.first
      && c.total == 8 * pages.manager.Vaddrs(pages.pf).bitmap.bitmapLen
    }

    ghost predicate Valid()
      reads this, pages.Footprint()
    {
      Wired() && Inv(c, ram, g) && pages.Valid() && SameArenas(pages.s, g)
    }

    /** block_des_init, over whatever the memory holds. */
    constructor (c: Config, pages: PP.PagePool, ram: Ram)
      requires ConfigOk(c) && pages.Valid() && c.first == pages.e.first && pages.s.live == map[]
      requires c.total == 8 * pages.manager.Vaddrs(pages.pf).bitmap.bitmapLen
      ensures Valid() && this.c == c && this.pages == pages && g.arenas == map[]
    {
      this.c, this.pages, this.ram := c, pages, ram;
      g := EMPTY;
      new;
      hide PP.PagePool.Valid, PP.PagePool.Wired;
      BlockDesInit();
    }

    method BlockDesInit()
      requires ConfigOk(c) && g == EMPTY
      modifies this`ram
      ensures Inv(c, ram, g)
    {
      var capacity := 16;
      hide ListOk, BlockAt, PerArena;
      for index := 0 to CLASSES
        invariant capacity == if index < CLASSES then BlockSize(index) else 2048
        invariant forall k :: 0 <= k < index ==> ListOk(c, ram, EMPTY, k)
      {
        ghost var was := ram;
        PerArenaFits(index);
        WriteDesc(index, capacity, (PAGE_SIZE - HEADER) / capacity);
        EarlierLists(c, was, ram, index);
        EmptyList(c, ram, index);
        capacity := capacity * 2;
      }
    }

    method WriteDesc(index: nat, capacity: Word, per: Word)
      requires ConfigOk(c) && index < CLASSES
      modifies this`ram
      ensures DescWritten(c, ram, index, capacity, per)
      ensures SameOutside(old(ram), ram, Desc(c, index), Desc(c, index) + DESC_SIZE)
    {
      var d := Desc(c, index);
      SixWords(ram, d, capacity, per);
      hide W, Put;
      ram := Put(ram, d, capacity);
      ram := Put(ram, d + 4, per);
      ram := Put(ram, d + 8, 0);
      ram := Put(ram, d + 20, 0);
      ram := Put(ram, d + 12, d + 16);
      ram := Put(ram, d + 16, d + 8);
    }

    // ----- list.c -----

    /** list_append */
    method ListAppend(tail: Word, elem: Word)
      requires ElemAddr(tail) && ElemAddr(elem) && ElemAddr(Prev(ram, tail))
      modifies this`ram
      ensures ram == InsertBefore(old(ram), tail, elem)
    {
      ram := Put(ram, W(ram, tail) + 4, elem);
      ram := Put(ram, elem, W(ram, tail));
      ram := Put(ram, elem + 4, tail);
      ram := Put(ram, tail, elem);
    }

    /** list_remove */
    method ListRemove(elem: Word)
      requires ElemAddr(elem) && ElemAddr(Prev(ram, elem)) && ElemAddr(Next(ram, elem)) && Apart(Prev(ram, elem), elem)
      modifies this`ram
      ensures ram == Remove(old(ram), elem)
    {
      ram := Put(ram, W(ram, elem) + 4, W(ram, elem + 4));
      ram := Put(ram, W(ram, elem + 4), W(ram, elem));
    }

    /** elem_find of the list of descriptor k, with its sentinels at head and tail. */
    method ElemFindIn(head: Word, tail: Word, obj: int, ghost k: nat) returns (found: bool)
      requires k < CLASSES && |g.frees| == CLASSES && ConfigOk(c) && ListOk(c, ram, g, k)
      requires head == Head(c, k) && tail == Tail(c, k)
      ensures found <==> exists j :: 0 <= j < |g.frees[k]| && BlockAt(k, g.frees[k][j]) == obj
    {
      hide W;
      ghost var q, n := Nodes(c, k, g.frees[k]), |g.frees[k]| + 1;
      ghost var i := 1;
      assert Next(ram, q[0]) == q[1];
      var help: int := Next(ram, head);
      while help != tail
        invariant 1 <= i <= n && help == q[i]
        invariant forall j :: 1 <= j < i ==> q[j] != obj
        decreases n - i
      {
        assert i < n;
        assert q[i] == BlockAt(k, g.frees[k][i - 1]);
        if help == obj { return true; }
        assert Next(ram, q[i]) == q[i + 1];
        assert ElemAddr(q[i]);
        help := Next(ram, help);
        i := i + 1;
      }
      assert i < n ==> Apart(q[i], q[n]);
      forall j | 0 <= j < |g.frees[k]| ensures BlockAt(k, g.frees[k][j]) != obj {
        assert q[j + 1] == BlockAt(k, g.frees[k][j]);
      }
      return false;
    }

    /** list_empty */
    method ListEmpty(k: nat) returns (empty: bool)
      requires k < CLASSES && |g.frees| == CLASSES && ConfigOk(c) && ListOk(c, ram, g, k)
      ensures empty <==> g.frees[k] == []
    {
      ghost var q := Nodes(c, k, g.frees[k]);
      assert Next(ram, q[0]) == q[1];
      assert |q| > 2 ==> Apart(q[1], q[|q| - 1]);
      empty := Next(ram, Head(c, k)) == Tail(c, k);
    }

    /** memset(a, 0, n) of whole words. */
    method Memset(a: int, n: int)
      requires Aligned(a) && n % 4 == 0 && 0 <= n && a + n <= 0x1_0000_0000
      modifies this`ram
      ensures SameOutside(old(ram), ram, a, a + n)
      ensures forall b {:trigger W(ram, b)} :: Aligned(b) && a <= b < a + n ==> W(ram, b) == 0
    {
      for i := 0 to n / 4
        invariant SameOutside(old(ram), ram, a, a + 4 * i)
        invariant forall b {:trigger W(ram, b)} :: Aligned(b) && a <= b < a + 4 * i ==> W(ram, b) == 0
      {
        ram := Put(ram, a + 4 * i, 0);
      }
    }

    /** list_pop */
    method ListPop(k: nat) returns (elem: Word)
      requires Lists(c, ram, g) && HeadersExcept(c, ram, g, {}) && k < CLASSES && g.frees[k] != []
      modifies `ram, `g
      ensures elem > 0 && elem == BlockAt(k, old(g.frees[k][0]))
      ensures g == WithFrees(old(g), k, IL.Removed(old(g.frees[k]), 0))
      ensures Leaving(c, old(ram), old(g), k, old(g.frees[k][0]), ram, g)
      ensures LiveGains(old(g), g, elem) && !Live(old(g), elem)
    {
      PopLeaves(c, ram, g, k, g.frees[k][0]);
      FirstNode(c, ram, g, k);
      hide Lists, LiveGains, Live, Leaving, Remove, BlockAt, W, Head;
      elem := Next(ram, Head(c, k));
      ListRemove(elem);
      g := WithFrees(g, k, IL.Removed(g.frees[k], 0));
    }

    /** The end of sys_malloc for small sizes: the first block of the list leaves it, the count of its arena
        goes down, the block is cleared. */
    method PopBlock(k: nat) returns (x: Word)
      requires Lists(c, ram, g) && HeadersExcept(c, ram, g, {}) && k < CLASSES
      requires g.frees[k] != [] && AllUsedExcept(g, {g.frees[k][0].p})
      modifies `ram, `g
      ensures Inv(c, ram, g) && g.arenas == old(g.arenas) && FirstTaken(old(g), g, k, x)
      ensures x > 0 && !Live(old(g), x) && LiveGains(old(g), g, x) && Usable(g, x) == BlockSize(k)
      ensures KeepsLive(old(ram), ram, old(g), x)
      ensures Cleared(ram, x, BlockSize(k))
    {
      assert |g.frees| == CLASSES;
      hide Lists, KeepsLive, LiveGains, Live, Usable, IsBlock, HeadersExcept, BlockAt, AllUsedExcept, W, Leaving,
           HeaderOk, Inv, ArenasOk, FreesOk;
      ghost var m, g0, s := ram, g, g.frees[k][0];
      x := ListPop(k);
      ghost var m1 := ram;
      LeavingFacts(c, m, g0, k, s, m1, g);
      LeftUsed(c, m, g0, k, s, m1, g);
      LowerCount(PageOf(x), m, g0, k, s);
      ghost var m2 := ram;
      ClearBlock(x, k);
      FinishPop(c, m, m2, ram, g0, g, k, s);
      assert IL.Removed(g0.frees[k], 0) == g0.frees[k][1..];
    }

    /** mem_elem_arena->cnt-- */
    method LowerCount(p: nat, ghost m: Ram, ghost g0: Model, ghost k: nat, ghost s: Slot)
      requires p == s.p && Leaving(c, m, g0, k, s, ram, g) && s.p in g0.arenas && HeaderOk(c, m, g0, s.p)
      requires ArenasOk(c, g0)
      modifies `ram
      ensures Lists(c, ram, g) && HeadersExcept(c, ram, g, {}) && KeepsLive(m, ram, g0, -1)
    {
      LeftCount(c, m, g0, k, s, ram, g);
      hide Lists, KeepsLive, HeadersExcept, Leaving, W, HeaderOk, ArenasOk;
      var a := PAGE_SIZE * p;
      ram := Put(ram, a + 4, W(ram, a + 4) - 1);
    }

    method ClearBlock(x: Word, k: nat)
      requires Lists(c, ram, g) && k < CLASSES && Aligned(x) && x + BlockSize(k) <= 0x1_0000_0000
      modifies `ram
      ensures SameOutside(old(ram), ram, x, x + BlockSize(k)) && Cleared(ram, x, BlockSize(k))
    {
      SizeWord(c, ram, g, k);
      hide Lists, W, BlockSize, Aligned;
      Memset(x, W(ram, Desc(c, k)));
    }

    /** The three fields of the arena at page p. */
    method WriteHeader(p: nat, desc: Word, large: Word, cnt: Word)
      requires Aligned(PAGE_SIZE * p) && Aligned(PAGE_SIZE * p + 8)
      modifies `ram
      ensures Header(ram, p, desc, cnt, large)
      ensures SameOutside(old(ram), ram, PAGE_SIZE * p, PAGE_SIZE * p + HEADER)
    {
      var a := PAGE_SIZE * p;
      assert Aligned(a + 4);
      hide W;
      ram := Put(ram, a, desc);
      ram := Put(ram, a + 8, large);
      ram := Put(ram, a + 4, cnt);
    }

    /** The loop of sys_malloc that puts the blocks of a new arena into the list; its assertion, that no
        block is there yet, never fails. */
    method SplitArena(p: nat, k: nat, ghost g0: Model) returns (ok: bool)
      requires k < CLASSES && Splitting(g0, g, p, k, 0) && Lists(c, ram, g) && HeadersExcept(c, ram, g, {p})
      requires Header(ram, p, Desc(c, k), PerArena(k), 0) && p < 0x10_0000
      modifies `ram, `g
      ensures ok && Splitting(g0, g, p, k, PerArena(k)) && Lists(c, ram, g) && HeadersExcept(c, ram, g, {p})
      ensures Header(ram, p, Desc(c, k), PerArena(k), 0) && KeepsLive(old(ram), ram, g0, -1)
    {
      hide Lists, HeadersExcept, Header, Splitting, KeepsLive, Live, Usable, W, HeaderUntouched, BlockAt, BlockSize,
           PerArena;
      var i := 0;
      NothingWritten(ram, g0);
      HeaderCount(ram, p, Desc(c, k), PerArena(k), 0);
      while i < W(ram, PAGE_SIZE * p + 4)
        invariant 0 <= i <= PerArena(k)
        invariant Splitting(g0, g, p, k, i) && Lists(c, ram, g) && HeadersExcept(c, ram, g, {p})
        invariant Header(ram, p, Desc(c, k), PerArena(k), 0) && KeepsLive(old(ram), ram, g0, -1)
        invariant Aligned(PAGE_SIZE * p) && Aligned(PAGE_SIZE * p + 4)
        invariant W(ram, PAGE_SIZE * p + 4) == PerArena(k) && W(ram, PAGE_SIZE * p) == Desc(c, k)
        decreases PerArena(k) - i
      {
        SizeWord(c, ram, g, k);
        var desc := W(ram, PAGE_SIZE * p);
        var divideMem := PAGE_SIZE * p + HEADER + i * W(ram, desc);
        BlockIs(k, Slot(p, i), divideMem);
        SplitStep(c, ram, g0, g, p, k, i);
        ListsOf(c, ram, g, k);
        var found := ElemFindIn(Head(c, k), Tail(c, k), divideMem, k);
        NotInList(g, k, Slot(p, i), found);
        if found { return false; }
        ghost var m := ram;
        ListAppend(desc + 16, divideMem);
        g := WithFrees(g, k, g.frees[k] + [Slot(p, i)]);
        StillHeader(m, ram, p, Desc(c, k), PerArena(k), 0);
        KeepsLiveTwice(old(ram), m, ram, g0, -1);
        HeaderCount(ram, p, Desc(c, k), PerArena(k), 0);
        i := i + 1;
      }
      ok := true;
    }

    /** What malloc_pages answers is passed on, and the account of the pages follows it. */
    twostate predicate Answered(n: nat, start: int, r: Pointer)
      reads this, pages.Footprint()
    {
      match PP.AnswerTo(pages.e, old(pages.s), n, start)
      case Stops => r.Stopped?
      case Short => r.TableMissing? && (r.stopped || PH.Shared(pages.manager.memory.mem, pages.e.d))
      case NothingFree => r.NoMemory? && Refused() && pages.s == old(pages.s)
      case NoFrames => r.NoMemory? && Refused() && Took(n, start)
      case Serves => r.Ptr? && Took(n, start)
    }

    twostate predicate Took(n: nat, start: int)
      reads this, pages.Footprint()
    {
      start >= 0 && PS.Mallocs(pages.e, old(pages.s), start, n) && pages.s == PS.AfterMalloc(pages.e, old(pages.s), start, n)
    }

    lemma PoolFacts()
      requires pages.Valid()
      ensures PS.Inv(pages.e, pages.s)
      ensures |pages.s.bits| <= 8 * pages.manager.Vaddrs(pages.pf).bitmap.bitmapLen + 1
    {
      hide PS.Inv, PS.Since, Runs.Starts;
      pages.Facts();
    }

    /** Pages for an arena, or the reason that there are none. */
    method TakePages(n: nat) returns (r: Pointer, ghost start: int)
      requires Valid()
      modifies pages.Footprint()
      ensures 0 < n < 3840 ==> old(pages.manager.Vaddrs(pages.pf).Finds(n, start))
      ensures Answered(n, start, r)
      ensures r.Stopped? <==> !(0 < n < 3840) || (pages.pf.User? && start != -1 && c.first + start >= 0xb_ffff)
      ensures pages.pf.Kernel? ==> !r.TableMissing?
      ensures r.Ptr? ==>
                && r.a > 0 && r.a % PAGE_SIZE == 0 && pages.Valid()
                && var p := r.a / PAGE_SIZE;
                   && p == c.first + start && InRegion(c, p, n) && PagesUnowned(g, p, n) && n >= 1
                   && forall a :: PagesOf(a) == n ==> SameArenas(pages.s, WithArena(g, p, a))
    {
      hide PP.AnswerTo, PS.Mallocs, PS.AfterMalloc, PS.Inv, PS.Since, Inv, SameArenas, PagesUnowned, InRegion,
           PP.PagePool.Wired, Bitmaps.FirstFit;
      PoolFacts();
      var res, short;
      res, short, start := pages.Malloc(n);
      if short { return TableMissing(res.AssertionFailed?), start; }
      if res.AssertionFailed? { return Stopped, start; }
      ghost var was := old(pages.s);
      if PP.AnswerTo(pages.e, was, n, start).Serves? {
        RunServed(c, pages.e, was, g, start, n);
      } else if PP.AnswerTo(pages.e, was, n, start).NoFrames? {
        RunRefused(pages.e, was, g, start, n);
      }
      if res.addr == 0 { return NoMemory, start; }
      r := Ptr(res.addr);
    }

    /** A new arena for class k, all of its blocks in the list. */
    method NewArena(k: nat) returns (r: Pointer, ghost start: int)
      requires Valid() && k < CLASSES && g.frees[k] == []
      modifies `ram, `g, pages.Footprint()
      ensures old(pages.manager.Vaddrs(pages.pf).Finds(1, start))
      ensures Answered(1, start, r)
      ensures r.Stopped? <==> pages.pf.User? && start != -1 && c.first + start >= 0xb_ffff
      ensures pages.pf.Kernel? ==> !r.TableMissing?
      ensures r.Ptr? ==>
                && Wired() && pages.Valid() && SameArenas(pages.s, g)
                && Lists(c, ram, g) && HeadersExcept(c, ram, g, {})
                && g.frees[k] != [] && g.frees[k][0] == Slot(c.first + start, 0) && AllUsedExcept(g, {g.frees[k][0].p})
                && SameLive(old(g), g) && KeepsLive(old(ram), ram, old(g), -1)
    {
      hide ListOk, ArenasOk, FreesOk, HeaderOk, PagesUnowned, KeepsLive, Splitting, Live, Usable,
           AllUsedExcept, Header, W, BlockSize, PerArena, PP.AnswerTo, PP.PagePool.Valid, PP.PagePool.Wired, SameArenas,
           Bitmaps.FirstFit, PS.Mallocs, PS.AfterMalloc;
      ghost var m0, g0 := ram, g;
      InvLists(c, ram, g);
      r, start := TakePages(1);
      if !r.Ptr? { return; }
      var p := r.a / PAGE_SIZE;
      MakeHeader(p, k);
      PageWrite(c, m0, ram, g, p, 1);
      ArenaAdded(c, ram, g, p, Small(k));
      ghost var m1 := ram;
      g := WithArena(g, p, Small(k));
      SplittingStarts(g0, g, p, k);
      var ok := SplitArena(p, k, g0);
      KeepsLiveTwice(m0, m1, ram, g0, -1);
      SplitDone(c, ram, g0, g, p, k);
      SplitLive(g0, g, p, k);
      SplittingArenas(g0, g, p, k);
      ArenasSame(pages.s, WithArena(g0, p, Small(k)), g);
    }

    /** memset of the page and the header of an arena of small blocks. */
    method MakeHeader(p: nat, k: nat)
      requires Lists(c, ram, g) && k < CLASSES && InRegion(c, p, 1)
      modifies `ram
      ensures SameOutside(old(ram), ram, PAGE_SIZE * p, PAGE_SIZE * (p + 1))
      ensures Header(ram, p, Desc(c, k), PerArena(k), 0)
    {
      hide W, Lists, PerArena, Header, Aligned, Desc;
      SizeWord(c, ram, g, k);
      NewPage(c, ram, g, p, k);
      ghost var m := ram;
      Memset(PAGE_SIZE * p, PAGE_SIZE);
      assert W(ram, Desc(c, k) + 4) == W(m, Desc(c, k) + 4);
      WriteHeader(p, Desc(c, k), 0, W(ram, Desc(c, k) + 4));
    }

    /** What sys_malloc promises when it returns address a: a new live region of n zero bytes, no byte of
        another live region changed. */
    twostate predicate Granted(a: Word, n: int)
      reads this, pages.Footprint()
    {
      && Valid()
      && !Live(old(g), a) && LiveGains(old(g), g, a) && Live(g, a) && Usable(g, a) == n
      && KeepsLive(old(ram), ram, old(g), a)
      && Cleared(ram, a, n)
    }

    /** What it leaves when there is no memory. */
    twostate predicate Refused()
      reads this, pages.Footprint()
    {
      Valid() && ram == old(ram) && g == old(g)
    }

    /** sys_malloc for more than 1024 bytes. */
    method MallocLarge(size: Word) returns (r: Pointer, ghost start: int)
      requires Valid() && size > 1024
      modifies `ram, `g, pages.Footprint()
      ensures 0 < PagesFor(size) < 3840 ==> old(pages.manager.Vaddrs(pages.pf).Finds(PagesFor(size), start))
      ensures Answered(PagesFor(size), start, r)
      ensures r.Stopped? <==>
                !(0 < PagesFor(size) < 3840) || (pages.pf.User? && start != -1 && c.first + start >= 0xb_ffff)
      ensures pages.pf.Kernel? ==> !r.TableMissing?
      ensures r.Ptr? ==>
                r.a == 0x1000 * (c.first + start) + 12 && Granted(r.a, PAGE_SIZE * PagesFor(size) - HEADER)
    {
      hide Inv, PagesUnowned, KeepsLive, Live, Usable, LiveGains, PagesFor, PP.AnswerTo, PP.PagePool.Valid,
           PP.PagePool.Wired, SameArenas, Bitmaps.FirstFit, PS.Mallocs, PS.AfterMalloc, Cleared, InRegion;
      var cnt := PagesFor(size);
      r, start := TakePages(cnt);
      if !r.Ptr? { return; }
      var a := LargeArena(r.a / PAGE_SIZE, cnt);
      r := Ptr(a);
    }

    /** memset of the pages and the header of a large arena. */
    method LargeArena(p: nat, cnt: nat) returns (a: Word)
      requires Inv(c, ram, g) && InRegion(c, p, cnt) && PagesUnowned(g, p, cnt) && cnt >= 1
      modifies `ram, `g
      ensures Inv(c, ram, g) && g == WithArena(old(g), p, Large(cnt)) && a == PAGE_SIZE * p + HEADER > 0
      ensures !Live(old(g), a) && LiveGains(old(g), g, a) && Live(g, a) && Usable(g, a) == PAGE_SIZE * cnt - HEADER
      ensures KeepsLive(old(ram), ram, old(g), a) && Cleared(ram, a, PAGE_SIZE * cnt - HEADER)
    {
      InvLists(c, ram, g);
      Pages(c, ram, g, p, cnt);
      hide Lists, HeadersExcept, KeepsLive, Live, Usable, Header, W, LiveGains, PagesUnowned, AllUsed, Cleared, Aligned,
           Inv;
      ghost var m0, g0 := ram, g;
      Memset(PAGE_SIZE * p, cnt * PAGE_SIZE);
      ghost var m1 := ram;
      IsCleared(ram, PAGE_SIZE * p, cnt * PAGE_SIZE);
      WriteHeader(p, 0, 1, cnt);
      WroteTwice(m0, m1, ram, PAGE_SIZE * p, PAGE_SIZE * p + HEADER, PAGE_SIZE * (p + cnt));
      PageWrite(c, m0, ram, g, p, cnt);
      ArenaAdded(c, ram, g, p, Large(cnt));
      g := WithArena(g, p, Large(cnt));
      LargeDone(c, ram, g0, p, cnt);
      LiveLarge(c, g0, p, cnt);
      LargeGranted(m0, m1, ram, g0, p, cnt);
      a := PAGE_SIZE * p + HEADER;
    }

    /** The first descriptor whose blocks are large enough. */
    method FindClass(size: Word) returns (desIdx: nat)
      requires Lists(c, ram, g) && size <= 1024
      ensures desIdx < CLASSES && size <= BlockSize(desIdx) && forall k :: 0 <= k < desIdx ==> BlockSize(k) < size
      ensures desIdx == ClassFor(size)
    {
      desIdx := 0;
      assert BlockSize(6) == 1024;
      while desIdx < CLASSES
        invariant desIdx <= CLASSES && forall k :: 0 <= k < desIdx ==> BlockSize(k) < size
      {
        SizeWord(c, ram, g, desIdx);
        if size <= W(ram, Desc(c, desIdx)) {
          assert !(ClassFor(size) < desIdx) && !(desIdx < ClassFor(size));
          return;
        }
        desIdx := desIdx + 1;
      }
    }

    /** The request cannot be met from a free list. */
    ghost predicate NeedsPages(size: Word)
      requires |g.frees| == CLASSES
      reads `g
    {
      size > 1024 || g.frees[ClassFor(size)] == []
    }

    /** The free list for a request, and list_empty of it. */
    method PickList(size: Word) returns (k: nat, empty: bool)
      requires Inv(c, ram, g) && size <= 1024
      ensures k == ClassFor(size) && |g.frees| == CLASSES && (empty <==> g.frees[k] == [])
    {
      hide Inv, Lists, HeadersExcept, ListOk, ClassFor, BlockSize, FreesOk, ArenasOk;
      InvLists(c, ram, g);
      k := FindClass(size);
      ListsOf(c, ram, g, k);
      empty := ListEmpty(k);
    }

    /** A block for the caller, whose regions were live in g0 and memory m0. */
    method ServeBlock(k: nat, ghost m0: Ram, ghost g0: Model) returns (x: Word)
      requires Lists(c, ram, g) && HeadersExcept(c, ram, g, {}) && k < CLASSES
      requires g.frees[k] != [] && AllUsedExcept(g, {g.frees[k][0].p})
      requires SameLive(g0, g) && KeepsLive(m0, ram, g0, -1)
      modifies `ram, `g
      ensures Inv(c, ram, g) && g.arenas == old(g.arenas) && FirstTaken(old(g), g, k, x)
      ensures x > 0 && !Live(g0, x) && LiveGains(g0, g, x) && Live(g, x) && Usable(g, x) == BlockSize(k)
      ensures KeepsLive(m0, ram, g0, x) && Cleared(ram, x, BlockSize(k))
    {
      hide Lists, HeadersExcept, AllUsedExcept, KeepsLive, Live, Usable, LiveGains, SameLive, Cleared, Inv, BlockSize,
           FirstTaken;
      ghost var m1, g1 := ram, g;
      x := PopBlock(k);
      GainAfter(m0, m1, ram, g0, g1, g, x);
    }

    /** A block of a free list. */
    method ServeListed(k: nat) returns (x: Word)
      requires Valid() && k < CLASSES && g.frees[k] != []
      modifies `ram, `g
      ensures x > 0 && Granted(x, BlockSize(k)) && FirstTaken(old(g), g, k, x)
    {
      hide FirstTaken, Inv, KeepsLive, Live, Usable, LiveGains, SameLive, AllUsedExcept, PP.PagePool.Valid, PP.PagePool.Wired,
           SameArenas, Cleared, Lists, HeadersExcept, BlockSize;
      ghost var m0, g0 := ram, g;
      assert this !in pages.Footprint();
      ListHasBlock(c, ram, g, k);
      x := ServeBlock(k, m0, g0);
      ArenasSame(pages.s, g0, g);
    }

    /** A block of a new arena, when the list is empty. */
    method ServeNew(k: nat) returns (r: Pointer, ghost start: int)
      requires Valid() && k < CLASSES && g.frees[k] == []
      modifies `ram, `g, pages.Footprint()
      ensures old(pages.manager.Vaddrs(pages.pf).Finds(1, start)) && Answered(1, start, r)
      ensures r.Stopped? <==> pages.pf.User? && start != -1 && c.first + start >= 0xb_ffff
      ensures pages.pf.Kernel? ==> !r.TableMissing?
      ensures r.Ptr? ==> r.a == 0x1000 * (c.first + start) + 12 && Granted(r.a, BlockSize(k))
    {
      hide Inv, KeepsLive, Live, Usable, LiveGains, SameLive, AllUsedExcept, PH.Shared, PP.AnswerTo, PP.PagePool.Valid,
           PP.PagePool.Wired, SameArenas, PS.Mallocs, PS.AfterMalloc, Cleared, Lists, HeadersExcept, BlockSize,
           PM.VirtualAddrs.Finds, PM.Manager.Wired;
      ghost var m0, g0 := ram, g;
      r, start := NewArena(k);
      if !r.Ptr? { return; }
      ghost var g1 := g;
      var x := ServeBlock(k, m0, g0);
      ArenasSame(pages.s, g1, g);
      r := Ptr(x);
    }

    /** sys_malloc for at most 1024 bytes. */
    method MallocSmall(size: Word) returns (r: Pointer, ghost start: int)
      requires Valid() && size <= 1024
      modifies `ram, `g, pages.Footprint()
      ensures old(NeedsPages(size)) ==> old(pages.manager.Vaddrs(pages.pf).Finds(1, start)) && Answered(1, start, r)
      ensures !old(NeedsPages(size)) ==>
                r.Ptr? && pages.s == old(pages.s) && FirstTaken(old(g), g, ClassFor(size), r.a)
      ensures r.Stopped? <==> old(NeedsPages(size)) && pages.pf.User? && start != -1 && c.first + start >= 0xb_ffff
      ensures pages.pf.Kernel? ==> !r.TableMissing?
      ensures r.Ptr? ==> r.a > 0 && Granted(r.a, BlockSize(ClassFor(size)))
      ensures r.Ptr? && old(NeedsPages(size)) ==> r.a == 0x1000 * (c.first + start) + 12
    {
      hide FirstTaken, Inv, KeepsLive, Live, Usable, LiveGains, Cleared, PH.Shared, PP.AnswerTo, PS.Mallocs, PS.AfterMalloc, SameArenas,
           PP.PagePool.Valid, PP.PagePool.Wired, ClassFor, BlockSize, PM.VirtualAddrs.Finds, PM.Manager.Wired;
      start := -1;
      var k, empty := PickList(size);
      if empty {
        r, start := ServeNew(k);
      } else {
        var x := ServeListed(k);
        r := Ptr(x);
      }
    }

    /** sys_malloc.  A request that a free list can meet is met.  Any other is answered as malloc_pages
        answers for the pages of its arena: `start` is what bitmap_scan found. */
    method SysMalloc(size: Word) returns (r: Pointer, ghost start: int)
      requires Valid()
      modifies `ram, `g, pages.Footprint()
      ensures old(NeedsPages(size)) && 0 < CountFor(size) < 3840 ==>
                old(pages.manager.Vaddrs(pages.pf).Finds(CountFor(size), start))
      ensures old(NeedsPages(size)) ==> Answered(CountFor(size), start, r)
      ensures !old(NeedsPages(size)) ==>
                r.Ptr? && pages.s == old(pages.s) && FirstTaken(old(g), g, ClassFor(size), r.a)
      ensures r.Ptr? && old(NeedsPages(size)) ==> r.a == 0x1000 * (c.first + start) + 12
      ensures r.Stopped? <==>
                && old(NeedsPages(size))
                && (!(0 < CountFor(size) < 3840) || (pages.pf.User? && start != -1 && c.first + start >= 0xb_ffff))
      ensures pages.pf.Kernel? ==> !r.TableMissing?
      ensures r.Ptr? ==>
                && r.a > 0
                && Granted(r.a, if size > 1024 then PAGE_SIZE * PagesFor(size) - HEADER else BlockSize(ClassFor(size)))
                && Fits(size, Usable(g, r.a))
    {
      if size > 1024 { PagesEnough(size); } else { ClassFits(size); }
      hide Inv, KeepsLive, Live, Usable, BlockSize, LiveGains, FirstTaken, PagesFor, PP.AnswerTo, PP.PagePool.Valid,
           PP.PagePool.Wired, SameArenas, Bitmaps.FirstFit, PS.Mallocs, PS.AfterMalloc, ClassFor, Cleared;
      if size > 1024 {
        r, start := MallocLarge(size);
      } else {
        r, start := MallocSmall(size);
      }
    }

    /** What sys_free promises: the region at a is no longer live, every other one is, unchanged. */
    twostate predicate TakenBack(a: Word)
      reads this, pages.Footprint()
    {
      Valid() && LiveLoses(old(g), g, a) && KeepsLive(old(ram), ram, old(g), a)
    }

    /** How the free_pages of arena p ends decides how sys_free does. */
    twostate predicate Dissolved(p: nat, r: PM.Outcome)
      reads this, pages.Footprint()
    {
      && PS.Allocated(pages.e, old(pages.s), p) && r == PP.ReleaseAnswer(pages.e, old(pages.s), p)
      && (r.Completed? ==> PS.Releases(pages.e, old(pages.s), p) && pages.s == PS.AfterRelease(pages.e, old(pages.s), p))
    }

    /** sys_free of a live region.  It dissolves the arena exactly when no other region in it is live; then it
        ends as free_pages of the arena's pages ends, otherwise it gets to its end.  No other assertion fails. */
    method SysFree(ptr: Word) returns (r: PM.Outcome)
      requires Valid() && Live(g, ptr)
      modifies `ram, `g, pages.Footprint()
      ensures if old(Dissolves(g, ptr)) then Dissolved(PageOf(ptr), r)
              else r.Completed? && pages.s == old(pages.s) && LastEntered(old(g), g, ptr)
      ensures r.Completed? ==> TakenBack(ptr)
      ensures pages.pf.Kernel? ==> r.Completed?
    {
      hide ListOk, ArenasOk, FreesOk, KeepsLive, LiveLoses, Usable, Live, Header, W, PerArena, BlockSize, BlockAt,
           PP.PagePool.Valid, PP.PagePool.Wired, SameArenas, PP.ReleaseAnswer, PS.Releases, PS.AfterRelease,
           PS.Allocated;
      var p := PageOf(ptr);
      LiveHeader(c, ram, g, ptr);
      if W(ram, PAGE_SIZE * p) == 0 {
        r := FreeLarge(p, ptr);
      } else {
        r := FreeSmall(p, ptr);
      }
    }

    /** free_pages of the pages of arena p. */
    method GivePages(p: nat, n: nat) returns (r: PM.Outcome)
      requires pages.Valid() && SameArenas(pages.s, g) && p in g.arenas && n == PagesOf(g.arenas[p])
      modifies pages.Footprint()
      ensures Dissolved(p, r) && (pages.pf.Kernel? ==> r.Completed?)
      ensures r.Completed? ==> pages.Valid() && forall g2 :: SameArenas(old(pages.s), g2) ==> SameArenas(pages.s, WithoutArena(g2, p))
    {
      assert p in pages.s.live;
      hide PP.ReleaseAnswer, PS.Inv, PS.Since, PS.AfterRelease, PP.PagePool.Wired;
      r := pages.Free(p, n);
      if r.Completed? {
        forall g2 | SameArenas(old(pages.s), g2) ensures SameArenas(pages.s, WithoutArena(g2, p)) {
          ArenaReleased(pages.e, old(pages.s), g2, p);
        }
      }
    }

    method FreeLarge(p: nat, ghost ptr: nat) returns (r: PM.Outcome)
      requires Valid() && Live(g, ptr) && p == PageOf(ptr) && p in g.arenas && g.arenas[p].Large?
      modifies `g, pages.Footprint()
      ensures Dissolved(p, r) && (r.Completed? ==> TakenBack(ptr)) && (pages.pf.Kernel? ==> r.Completed?)
    {
      hide Inv, KeepsLive, Live, LiveLoses, Usable, W, Aligned, WithoutArena, PP.PagePool.Valid, PP.PagePool.Wired,
           SameArenas, PP.ReleaseAnswer, PS.Releases, PS.AfterRelease, PS.Allocated;
      LargeFreed(c, ram, g, p, ptr);
      r := GivePages(p, W(ram, PAGE_SIZE * p + 4));
      if r.Completed? {
        g := WithoutArena(g, p);
      }
    }

    /** The small case of sys_free: the block goes to the end of its list, and an arena all of whose blocks
        are free is dissolved. */
    method FreeSmall(p: nat, ptr: Word) returns (r: PM.Outcome)
      requires Valid() && Live(g, ptr) && p == PageOf(ptr) && p in g.arenas && g.arenas[p].Small?
      modifies `ram, `g, pages.Footprint()
      ensures if old(Dissolves(g, ptr)) then Dissolved(p, r)
              else r.Completed? && pages.s == old(pages.s) && LastEntered(old(g), g, ptr)
      ensures (r.Completed? ==> TakenBack(ptr)) && (pages.pf.Kernel? ==> r.Completed?)
    {
      assert g.arenas[p].k < CLASSES;
      hide SameLive, Inv, SlotOf, ListOk, ArenasOk, FreesOk, HeaderOk, KeepsLive, LiveLoses, Live, Usable,
           Header, W, PerArena, BlockSize, BlockAt, IsBlock, Entered, FreeIn, AllUsedExcept, AllUsed,
           InsertBefore, PP.PagePool.Valid, PP.PagePool.Wired, SameArenas, PP.ReleaseAnswer, PS.Releases,
           PS.AfterRelease, PS.Allocated;
      ghost var m0, g0, k := ram, g, g.arenas[p].k;
      ghost var s := SlotOf(k, ptr);
      InvLists(c, ram, g);
      LiveHeader(c, ram, g, ptr);
      SmallHeader(c, ram, g, p, k, ptr);
      OthersUsed(g, k, s);
      var desc := W(ram, PAGE_SIZE * p);
      EnterBlock(p, desc, ptr, k, s);
      ghost var m2, g2 := ram, g;
      ArenasSame(pages.s, g0, g);
      r := Settle(p, desc, k);
      if r.Completed? { LossAfter(m0, m2, ram, g0, g2, g, ptr); }
    }

    /** An arena all of whose blocks are free goes. */
    method Settle(p: nat, desc: Word, ghost k: nat) returns (r: PM.Outcome)
      requires Wired() && pages.Valid() && SameArenas(pages.s, g)
      requires k < CLASSES && Lists(c, ram, g) && HeadersExcept(c, ram, g, {}) && p < 0x10_0000
      requires desc == Desc(c, k) && p in g.arenas && g.arenas[p] == Small(k) && AllUsedExcept(g, {p})
      requires Header(ram, p, Desc(c, k), |FreeIn(g.frees[k], p, PerArena(k))|, 0)
      requires |FreeIn(g.frees[k], p, PerArena(k))| <= PerArena(k)
      requires |FreeIn(g.frees[k], p, PerArena(k))| < PerArena(k) ==> AllUsed(g)
      modifies `ram, `g, pages.Footprint()
      ensures if |FreeIn(old(g.frees[k]), p, PerArena(k))| == PerArena(k) then Dissolved(p, r)
              else r.Completed? && pages.s == old(pages.s) && g == old(g)
      ensures r.Completed? ==> Valid() && SameLive(old(g), g) && KeepsLive(old(ram), ram, old(g), -1)
      ensures pages.pf.Kernel? ==> r.Completed?
    {
      hide Inv, ListOk, KeepsLive, Live, Usable, Header, W, PerArena, FreeIn, AllUsedExcept, AllUsed, SameLive, Lists,
           HeadersExcept, Aligned, PP.PagePool.Valid, PP.PagePool.Wired, SameArenas, PP.ReleaseAnswer, PS.Releases,
           PS.AfterRelease, PS.Allocated;
      ListsOf(c, ram, g, k);
      SizeWord(c, ram, g, k);
      HeaderCount(ram, p, Desc(c, k), |FreeIn(g.frees[k], p, PerArena(k))|, 0);
      if W(ram, PAGE_SIZE * p + 4) == W(ram, desc + 4) {
        r := DropArena(p, desc, k);
      } else {
        r := PM.Completed;
        FinishFree(c, ram, g);
        NothingWritten(ram, g);
        SameLiveSame(g);
      }
    }

    /** list_append and cnt + 1. */
    method EnterBlock(p: nat, desc: Word, ptr: Word, ghost k: nat, ghost s: Slot)
      requires Lists(c, ram, g) && HeadersExcept(c, ram, g, {}) && IsBlock(g, k, s) && s !in g.frees[k]
      requires p == s.p && k < CLASSES && desc == Desc(c, k) && ptr == BlockAt(k, s)
      modifies `ram, `g
      ensures g == WithFrees(old(g), k, old(g).frees[k] + [s])
      ensures Lists(c, ram, g) && HeadersExcept(c, ram, g, {})
      ensures KeepsLive(old(ram), ram, old(g), ptr) && LiveLoses(old(g), g, ptr)
      ensures |FreeIn(g.frees[k], p, PerArena(k))| == |FreeIn(old(g).frees[k], p, PerArena(k))| + 1
      ensures |FreeIn(g.frees[k], p, PerArena(k))| <= PerArena(k) && p < 0x10_0000
      ensures Header(ram, p, Desc(c, k), |FreeIn(g.frees[k], p, PerArena(k))|, 0)
    {
      ghost var m0, g0 := ram, g;
      AppendEnters(c, ram, g, k, s);
      EnterFacts(c, ram, g, k, s);
      OneMoreFree(g, k, s);
      hide Lists, KeepsLive, LiveLoses, Live, Header, W, PerArena, BlockAt, IsBlock, Entered, FreeIn, InsertBefore,
           HeadersExcept, HeaderOk, ArenasOk;
      ListAppend(desc + 16, ptr);
      g := WithFrees(g, k, g.frees[k] + [s]);
      EnteredLive(c, m0, g0, k, s, ram, g);
      EnteredCount(c, m0, g0, k, s, ram, g);
      ram := Put(ram, PAGE_SIZE * p + 4, W(ram, PAGE_SIZE * p + 4) + 1);
    }

    /** The loop of sys_free that takes the blocks of a free arena out of the list, each of which is there, and
        the free_pages behind it. */
    method DropArena(p: nat, desc: Word, ghost k: nat) returns (r: PM.Outcome)
      requires Wired() && pages.Valid() && SameArenas(pages.s, g)
      requires k < CLASSES && Lists(c, ram, g) && HeadersExcept(c, ram, g, {})
      requires desc == Desc(c, k) && p in g.arenas && g.arenas[p] == Small(k) && AllUsedExcept(g, {p})
      requires Header(ram, p, Desc(c, k), PerArena(k), 0) && |FreeIn(g.frees[k], p, PerArena(k))| == PerArena(k)
      modifies `ram, `g, pages.Footprint()
      ensures Dissolved(p, r) && (pages.pf.Kernel? ==> r.Completed?)
      ensures r.Completed? ==> Valid() && SameLive(old(g), g) && KeepsLive(old(ram), ram, old(g), -1)
    {
      hide ListOk, ArenasOk, FreesOk, HeaderOk, KeepsLive, Live, Usable, Header, W, PerArena, BlockSize,
           BlockAt, FreeIn, AllUsedExcept, AllUsed, Draining, HeadersExcept, Lists, SameLive, PP.PagePool.Valid,
           PP.PagePool.Wired, SameArenas, PP.ReleaseAnswer, PS.Releases, PS.AfterRelease, PS.Allocated;
      ghost var g1, m1 := g, ram;
      var ok := DrainArena(p, desc, k);
      ListsOf(c, m1, g1, k);
      DrainingArenas(g1, g, p, k);
      Drained(c, ram, g1, g, p, k);
      ArenasSame(pages.s, g1, g);
      r := GivePages(p, 1);
      if r.Completed? {
        g := WithoutArena(g, p);
      }
    }

    method DrainArena(p: nat, desc: Word, ghost k: nat) returns (ok: bool)
      requires k < CLASSES && Lists(c, ram, g) && HeadersExcept(c, ram, g, {})
      requires desc == Desc(c, k) && p in g.arenas && g.arenas[p] == Small(k)
      requires |FreeIn(g.frees[k], p, PerArena(k))| == PerArena(k)
      modifies `ram, `g
      ensures ok && Lists(c, ram, g) && HeadersExcept(c, ram, g, {p}) && Draining(old(g), g, p, k, PerArena(k))
      ensures KeepsLive(old(ram), ram, old(g), -1)
    {
      DrainStarts(c, ram, g, p, k);
      NothingWritten(ram, g);
      hide ListOk, KeepsLive, Live, Usable, W, PerArena, BlockSize, BlockAt, FreeIn, Remove, Draining, LiveExtends,
           HeadersExcept, Lists, HeaderUntouched;
      ghost var g1, m1 := g, ram;
      var blockIdx := 0;
      SizeWord(c, ram, g, k);
      while blockIdx < W(ram, desc + 4)
        invariant 0 <= blockIdx <= PerArena(k) && Aligned(desc + 4) && Aligned(desc) && W(ram, desc + 4) == PerArena(k)
        invariant Lists(c, ram, g) && HeadersExcept(c, ram, g, {p})
        invariant Draining(g1, g, p, k, blockIdx) && LiveExtends(g1, g, -1) && KeepsLive(m1, ram, g1, -1)
        decreases PerArena(k) - blockIdx
      {
        ghost var m := ram;
        ok := DrainOne(p, desc, blockIdx, k, g1);
        if !ok { return; }
        KeepsLiveTwice(m1, m, ram, g1, -1);
        blockIdx := blockIdx + 1;
        SizeWord(c, ram, g, k);
      }
      ok := true;
    }

    /** The block is found in the list and leaves it. */
    method DrainOne(p: nat, desc: Word, blockIdx: nat, ghost k: nat, ghost g1: Model) returns (ok: bool)
      requires k < CLASSES && desc == Desc(c, k) && blockIdx < PerArena(k)
      requires Lists(c, ram, g) && HeadersExcept(c, ram, g, {p}) && Draining(g1, g, p, k, blockIdx)
      requires LiveExtends(g1, g, -1)
      modifies `ram, `g
      ensures ok && Lists(c, ram, g) && HeadersExcept(c, ram, g, {p})
      ensures Draining(g1, g, p, k, blockIdx + 1) && LiveExtends(g1, g, -1) && KeepsLive(old(ram), ram, g1, -1)
    {
      hide ListOk, KeepsLive, Live, Usable, W, PerArena, BlockSize, BlockAt, Remove, Draining, LiveExtends,
           HeadersExcept, Lists, HeaderUntouched;
      SizeWord(c, ram, g, k);
      var block := PAGE_SIZE * p + HEADER + blockIdx * W(ram, desc);
      BlockIs(k, Slot(p, blockIdx), block);
      ListsOf(c, ram, g, k);
      var found := ElemFindIn(desc + 8, desc + 16, block, k);
      NotInList(g, k, Slot(p, blockIdx), found);
      StillThere(g1, g, p, k, blockIdx);
      if !found { return false; }
      ghost var j := IndexIn(g.frees[k], Slot(p, blockIdx));
      DrainStep(c, ram, g1, g, p, k, blockIdx, j);
      ListRemove(block);
      g := WithFrees(g, k, IL.Removed(g.frees[k], j));
      ok := true;
    }

    /** Freeing all that is live, in any order, gets to its end exactly when free_pages can return each arena.
        Then no arena is left; and if no request was ever refused for want of frames, all bits, all frames and
        all pages are as at the start, but for the new page tables, of which the kernel heap has none. */
    method FreeAll(ptrs: seq<Word>) returns (done: bool)
      requires Valid()
      requires forall i, j :: 0 <= i < j < |ptrs| ==> ptrs[i] != ptrs[j]
      requires forall a: nat :: Live(g, a) <==> a in ptrs
      modifies `ram, `g, pages.Footprint()
      ensures done <==> forall p :: p in old(g.arenas) ==> PP.Returnable(pages.e, old(pages.s), p)
      ensures pages.pf.Kernel? ==> done
      ensures done ==> Valid() && g.arenas == map[] && pages.s.live == map[]
      ensures done && old(pages.s.lostPages) == {} && old(pages.s.lostFrames) == {} ==>
                && pages.s.bits == pages.s0.bits
                && PR.Restored(pages.e.c, pages.s0.b, pages.s.b, pages.e.d, pages.s.tables)
                && (pages.pf.Kernel? ==> pages.s.b.kernel == pages.s0.b.kernel)
    {
      hide Inv, Live, KeepsLive, Usable, PP.PagePool.Valid, PP.PagePool.Wired, SameArenas, PP.Returnable, Dissolves,
           PP.ReleaseAnswer, PS.Releases, PS.AfterRelease, PS.Allocated;
      ghost var was, g0 := pages.s, g;
      KeptItself(pages.e, was);
      PoolFacts();
      for i := 0 to |ptrs|
        invariant Valid() && Kept(pages.e, was, pages.s)
        invariant forall a: nat {:trigger Live(g, a)} :: Live(g, a) <==> a in ptrs[i..]
      {
        assert ptrs[i] in ptrs[i..] && ptrs[i..] == [ptrs[i]] + ptrs[i + 1..];
        assert ptrs[i] !in ptrs[i + 1..];
        ghost var before, p := pages.s, PageOf(ptrs[i]);
        ghost var goes := Dissolves(g, ptrs[i]);
        InArena(pages.s, g, ptrs[i]);
        PoolFacts();
        var r := SysFree(ptrs[i]);
        if goes {
          KeptOn(pages.e, was, before, p);
          NotLeft(pages.e, was, before, g0, p);
        }
        if !r.Completed? { return false; }
      }
      NothingLeft(c, ram, pages.e, was, pages.s, g0, g);
      AllBack();
      done := true;
    }

    lemma AllBack()
      requires pages.Valid() && pages.s.live == map[]
      ensures pages.s.lostPages == {} && pages.s.lostFrames == {} ==>
                && pages.s.bits == pages.s0.bits
                && PR.Restored(pages.e.c, pages.s0.b, pages.s.b, pages.e.d, pages.s.tables)
                && (pages.pf.Kernel? ==> pages.s.b.kernel == pages.s0.b.kernel)
    {
      hide PS.Inv, PS.Since, PR.Restored, Runs.Starts;
      if pages.s.lostPages == {} && pages.s.lostFrames == {} {
        Runs.SinceRestored(pages.e, pages.s0, pages.s);
      }
    }
  }

  // ----- the arenas and the account of the pages -----

  /** Nothing but releases since `was`: what is gone could be returned, and what is left is as it was. */
  ghost predicate Kept(e: PS.Setting, was: PS.State, s: PS.State) {
    && (forall p {:trigger p in s.live} :: p in s.live ==> p in was.live && s.live[p] == was.live[p])
    && (forall p {:trigger p in was.live} :: p in was.live && p !in s.live ==> PP.Returnable(e, was, p))
    && (forall r: B.PageNo {:trigger PR.HasTable(s.b.mem, e.d, r)} ::
          PR.HasTable(s.b.mem, e.d, r) == PR.HasTable(was.b.mem, e.d, r))
    && s.lostPages == was.lostPages && s.lostFrames == was.lostFrames
  }

  lemma KeptOn(e: PS.Setting, was: PS.State, s: PS.State, p: nat)
    requires PS.Inv(e, was) && PS.Inv(e, s) && Kept(e, was, s) && PS.Allocated(e, s, p)
    ensures PP.ReleaseAnswer(e, s, p).Completed? <==> PP.Returnable(e, was, p)
    ensures PS.Releases(e, s, p) ==> Kept(e, was, PS.AfterRelease(e, s, p))
  {
    hide PS.Inv, PS.Releases, PS.AfterRelease, PR.HasTable;
    assert p in was.live && s.live[p] == was.live[p];
    PG.HeldParts(e, was, p);
    if PS.Releases(e, s, p) {
      PG.ReleaseAnswers(e, s, p);
      PG.ReleaseFrees(e, s, p);
      hide PP.Returnable, PP.ReleaseAnswer;
      KeptAfter(e, was, s, p, PS.AfterRelease(e, s, p));
    }
  }

  lemma KeptAfter(e: PS.Setting, was: PS.State, s: PS.State, p: nat, s': PS.State)
    requires Kept(e, was, s) && PG.Freed(e, s, p, s') && PP.Returnable(e, was, p)
    ensures Kept(e, was, s')
  {
    PG.FreedLive(e, s, p, s');
    PG.LostSame(e, s, p, s');
    PG.FreedGives(e, s, p, s');
    PR.DirectoryShape(s.b.mem, s'.b.mem, e.d);
    hide PG.Freed, PP.Returnable, PR.HasTable, PR.Given, PR.SameDirectory, B.PageAt;
  }

  lemma NotLeft(e: PS.Setting, was: PS.State, s: PS.State, g0: Model, p: nat)
    requires SameArenas(was, g0) && Kept(e, was, s) && p in s.live
    ensures p in g0.arenas
  {
    hide PP.Returnable, PR.HasTable;
  }

  lemma KeptItself(e: PS.Setting, s: PS.State)
    ensures Kept(e, s, s)
  {
  }

  /** The arena of a live region is a live allocation. */
  lemma InArena(s: PS.State, g: Model, a: nat)
    requires SameArenas(s, g) && Live(g, a)
    ensures PageOf(a) in s.live && PageOf(a) in g.arenas
  {
  }

  lemma NothingLeft(c: Config, m: Ram, e: PS.Setting, was: PS.State, s: PS.State, g0: Model, g: Model)
    requires Inv(c, m, g) && SameArenas(s, g) && SameArenas(was, g0) && Kept(e, was, s) && forall a: nat :: !Live(g, a)
    ensures g.arenas == map[] && s.live == map[] && forall p :: p in g0.arenas ==> PP.Returnable(e, was, p)
  {
    NothingLiveNothingHeld(c, m, g);
    hide Inv, Live, PP.Returnable, PR.HasTable;
    assert s.live.Keys == {};
    assert forall p :: p in g0.arenas ==> p in was.live && p !in s.live;
  }

  ghost predicate Cleared(m: Ram, a: int, n: int) {
    forall b {:trigger W(m, b)} :: Aligned(b) && a <= b < a + n ==> W(m, b) == 0
  }

  lemma FirstNode(c: Config, m: Ram, g: Model, k: nat)
    requires Lists(c, m, g) && k < CLASSES && g.frees[k] != []
    ensures ElemAddr(Head(c, k)) && Next(m, Head(c, k)) == BlockAt(k, g.frees[k][0])
  {
    assert ListOk(c, m, g, k);
    var q := Nodes(c, k, g.frees[k]);
    assert Next(m, q[0]) == q[1];
  }

  lemma LeavingFacts(c: Config, m: Ram, g: Model, k: nat, s: Slot, m1: Ram, g1: Model)
    requires Lists(c, m, g) && HeadersExcept(c, m, g, {}) && Leaving(c, m, g, k, s, m1, g1)
    ensures s.p in g.arenas && HeaderOk(c, m, g, s.p) && ArenasOk(c, g) && IsBlock(g, k, s) && s !in g1.frees[k]
    ensures k < CLASSES && Aligned(BlockAt(k, s)) && PageOf(BlockAt(k, s)) == s.p
    ensures BlockAt(k, s) + BlockSize(k) <= 0x1_0000_0000
  {
    BlockInPage(k, s);
  }

  lemma SizeWord(c: Config, m: Ram, g: Model, k: nat)
    requires Lists(c, m, g) && k < CLASSES
    ensures Aligned(Desc(c, k)) && W(m, Desc(c, k)) == BlockSize(k)
    ensures Aligned(Desc(c, k) + 4) && W(m, Desc(c, k) + 4) == PerArena(k)
  {
    assert ListOk(c, m, g, k);
  }

  lemma FinishPop(c: Config, m: Ram, m2: Ram, m3: Ram, g0: Model, g: Model, k: nat, s: Slot)
    requires Lists(c, m2, g) && HeadersExcept(c, m2, g, {}) && AllUsed(g) && ArenasOk(c, g0) && g.arenas == g0.arenas
    requires KeepsLive(m, m2, g0, -1) && IsBlock(g0, k, s) && s !in g.frees[k]
    requires LiveGains(g0, g, BlockAt(k, s))
    requires SameOutside(m2, m3, BlockAt(k, s), BlockAt(k, s) + BlockSize(k))
    ensures Inv(c, m3, g) && KeepsLive(m, m3, g0, BlockAt(k, s))
    ensures BlockAt(k, s) >= 0 && Live(g, BlockAt(k, s)) && Usable(g, BlockAt(k, s)) == BlockSize(k)
  {
    SameBlocks(g0, g, k, s);
    BlockWrite(c, m2, m3, g, k, s, {});
    BlockKeepsLive(c, m2, m3, g0, k, s);
    KeepsLiveTwice(m, m2, m3, g0, BlockAt(k, s));
    SlotOfBlock(k, s);
    BlockInPage(k, s);
  }

  /** Words of a page, and a descriptor, which lies outside the region. */
  lemma NewPage(c: Config, m: Ram, g: Model, p: nat, k: nat)
    requires Lists(c, m, g) && k < CLASSES && InRegion(c, p, 1)
    ensures Aligned(PAGE_SIZE * p) && Aligned(PAGE_SIZE * p + 8) && PAGE_SIZE * p + PAGE_SIZE <= 0x1_0000_0000
    ensures Desc(c, k) < 0x1_0000_0000
    ensures Desc(c, k) + 4 < PAGE_SIZE * p || PAGE_SIZE * (p + 1) <= Desc(c, k) + 4
  {
    hide ListOk, ArenasOk, FreesOk;
  }

  lemma Pages(c: Config, m: Ram, g: Model, p: nat, n: nat)
    requires Lists(c, m, g) && InRegion(c, p, n) && n >= 1
    ensures Aligned(PAGE_SIZE * p) && Aligned(PAGE_SIZE * p + 8) && PAGE_SIZE * p + n * PAGE_SIZE <= 0x1_0000_0000
    ensures n * PAGE_SIZE % 4 == 0 && PAGE_SIZE * p + n * PAGE_SIZE == PAGE_SIZE * (p + n) && n < 0x1_0000_0000
  {
    assert 0 < c.first && c.first + c.total + 1 <= 0x10_0000;
    hide *;
    PagesFit(p, n);
  }

  lemma PagesFit(p: nat, n: nat)
    requires p + n <= 0x10_0000 && n >= 1
    ensures Aligned(PAGE_SIZE * p) && Aligned(PAGE_SIZE * p + 8) && PAGE_SIZE * p + n * PAGE_SIZE <= 0x1_0000_0000
    ensures n * PAGE_SIZE % 4 == 0 && PAGE_SIZE * p + n * PAGE_SIZE == PAGE_SIZE * (p + n)
  {
    hide Aligned;
    Fours(1024 * n);
    AlignedAt(PAGE_SIZE * p, 1024 * p);
    AlignedAt(PAGE_SIZE * p + 8, 1024 * p + 2);
  }

  lemma Fours(x: int)
    ensures 4 * x % 4 == 0
  {
  }

  lemma AlignedAt(a: int, x: int)
    requires a == 4 * x && 0 <= a < 0x1_0000_0000
    ensures Aligned(a)
  {
  }

  lemma IsCleared(m: Ram, a: int, n: int)
    requires forall b {:trigger W(m, b)} :: Aligned(b) && a <= b < a + n ==> W(m, b) == 0
    ensures Cleared(m, a, n)
  {
  }

  lemma WroteTwice(m0: Ram, m1: Ram, m2: Ram, a: int, b: int, z: int)
    requires SameOutside(m0, m1, a, z) && SameOutside(m1, m2, a, b) && b <= z
    ensures SameOutside(m0, m2, a, z)
  {
  }

  lemma HeaderCount(m: Ram, p: nat, desc: int, cnt: int, large: int)
    requires Header(m, p, desc, cnt, large)
    ensures Aligned(PAGE_SIZE * p) && Aligned(PAGE_SIZE * p + 4) && W(m, PAGE_SIZE * p + 4) == cnt
    ensures W(m, PAGE_SIZE * p) == desc
  {
  }

  lemma StillHeader(m: Ram, m2: Ram, p: nat, desc: int, cnt: int, large: int)
    requires HeaderUntouched(m, m2, p) && Header(m, p, desc, cnt, large)
    ensures Header(m2, p, desc, cnt, large)
  {
  }

  lemma BlockIs(k: nat, s: Slot, a: int)
    requires k < CLASSES && a == PAGE_SIZE * s.p + HEADER + s.i * BlockSize(k)
    ensures BlockAt(k, s) == a
  {
    TimesIs(s.i, k);
  }

  lemma ListsOf(c: Config, m: Ram, g: Model, k: nat)
    requires Lists(c, m, g) && k < CLASSES
    ensures ConfigOk(c) && |g.frees| == CLASSES && ListOk(c, m, g, k) && FreesOk(g) && ArenasOk(c, g)
  {
  }

  /** elem_find finds a block exactly when it is free. */
  lemma NotInList(g: Model, k: nat, s: Slot, found: bool)
    requires FreesOk(g) && k < CLASSES && s.i < PerArena(k)
    requires found <==> exists j :: 0 <= j < |g.frees[k]| && BlockAt(k, g.frees[k][j]) == BlockAt(k, s)
    ensures found <==> s in g.frees[k]
  {
    SlotOfBlock(k, s);
    if found {
      var j :| 0 <= j < |g.frees[k]| && BlockAt(k, g.frees[k][j]) == BlockAt(k, s);
      assert g.frees[k][j] in g.frees[k];
      SlotOfBlock(k, g.frees[k][j]);
    }
    if s in g.frees[k] {
      var j :| 0 <= j < |g.frees[k]| && g.frees[k][j] == s;
      assert BlockAt(k, g.frees[k][j]) == BlockAt(k, s);
    }
  }

  lemma NothingWritten(m: Ram, g: Model)
    ensures KeepsLive(m, m, g, -1)
  {
  }

  lemma InvLists(c: Config, m: Ram, g: Model)
    requires Inv(c, m, g)
    ensures Lists(c, m, g) && HeadersExcept(c, m, g, {}) && |g.frees| == CLASSES
  {
  }

  lemma SplittingStarts(g0: Model, g: Model, p: nat, k: nat)
    requires FreesOk(g0) && k < CLASSES && g0.frees[k] == [] && p !in g0.arenas && g == WithArena(g0, p, Small(k))
    ensures Splitting(g0, g, p, k, 0)
  {
  }

  lemma ArenasSame(s: PS.State, g: Model, g2: Model)
    requires SameArenas(s, g) && g2.arenas == g.arenas
    ensures SameArenas(s, g2)
  {
  }

  lemma SplittingArenas(g0: Model, g: Model, p: nat, k: nat)
    requires k < CLASSES && Splitting(g0, g, p, k, PerArena(k))
    ensures g.arenas == WithArena(g0, p, Small(k)).arenas
  {
  }

  lemma LargeDone(c: Config, m: Ram, g0: Model, p: nat, n: nat)
    requires p !in g0.arenas && |g0.frees| == CLASSES && AllUsed(g0) && Header(m, p, 0, n, 1)
    requires Lists(c, m, WithArena(g0, p, Large(n))) && HeadersExcept(c, m, WithArena(g0, p, Large(n)), {p})
    ensures Inv(c, m, WithArena(g0, p, Large(n)))
  {
    hide Header, ListOk, FreeIn;
  }

  lemma UsedUsed(g: Model, k: nat)
    requires |g.frees| == CLASSES && AllUsed(g)
    ensures forall but :: AllUsedExcept(g, but)
  {
  }

  lemma ListHasBlock(c: Config, m: Ram, g: Model, k: nat)
    requires Inv(c, m, g) && k < CLASSES && g.frees[k] != []
    ensures Lists(c, m, g) && HeadersExcept(c, m, g, {}) && AllUsedExcept(g, {g.frees[k][0].p})
    ensures SameLive(g, g) && KeepsLive(m, m, g, -1)
  {
    UsedUsed(g, k);
    NothingWritten(m, g);
    SameLiveSame(g);
  }

  lemma SameLiveSame(g: Model)
    ensures SameLive(g, g)
  {
  }

  lemma GainAfter(m: Ram, m1: Ram, m2: Ram, g: Model, g1: Model, g2: Model, x: nat)
    requires SameLive(g, g1) && LiveGains(g1, g2, x) && !Live(g1, x)
    requires KeepsLive(m, m1, g, -1) && KeepsLive(m1, m2, g1, x)
    ensures LiveGains(g, g2, x) && !Live(g, x) && Live(g2, x) && KeepsLive(m, m2, g, x)
  {
    hide Live, Usable, W;
    assert LiveExtends(g, g1, x);
    assert KeepsLive(m, m1, g, x);
    KeepsLiveOn(m, m1, m2, g, g1, x);
  }

  lemma LargeGranted(m0: Ram, m1: Ram, m2: Ram, g0: Model, p: nat, n: nat)
    requires n >= 1 && p !in g0.arenas && KeepsLive(m0, m2, g0, -1)
    requires Cleared(m1, PAGE_SIZE * p, n * PAGE_SIZE) && SameOutside(m1, m2, PAGE_SIZE * p, PAGE_SIZE * p + HEADER)
    ensures var a := PAGE_SIZE * p + HEADER;
            && !Live(g0, a) && Live(WithArena(g0, p, Large(n)), a) && KeepsLive(m0, m2, g0, a)
            && Cleared(m2, a, PAGE_SIZE * n - HEADER)
  {
    var a: nat := PAGE_SIZE * p + HEADER;
    assert a / PAGE_SIZE == p;
    NothingWritten(m2, g0);
    KeepsLiveTwice(m0, m2, m2, g0, a);
    hide W;
  }

  /** The arena of a live region, and what the first word of its header says. */
  lemma LiveHeader(c: Config, m: Ram, g: Model, a: nat)
    requires Inv(c, m, g) && Live(g, a)
    ensures var p := PageOf(a);
            && p in g.arenas && Aligned(PAGE_SIZE * p) && Aligned(PAGE_SIZE * p + 4)
            && (W(m, PAGE_SIZE * p) == 0 <==> g.arenas[p].Large?)
            && (match g.arenas[p]
                case Large(_) => true
                case Small(k) => IsBlock(g, k, SlotOf(k, a)) && a == BlockAt(k, SlotOf(k, a)) && SlotOf(k, a) !in g.frees[k])
  {
    assert HeaderOk(c, m, g, PageOf(a));
  }

  lemma LargeFreed(c: Config, m: Ram, g: Model, p: nat, a: nat)
    requires Inv(c, m, g) && p in g.arenas && g.arenas[p].Large? && Live(g, a) && a / PAGE_SIZE == p
    ensures var n, g2 := g.arenas[p].n, WithoutArena(g, p);
            && Inv(c, m, g2) && LiveLoses(g, g2, a) && KeepsLive(m, m, g, a)
            && Aligned(PAGE_SIZE * p + 4) && W(m, PAGE_SIZE * p + 4) == n
  {
    var n, g2 := g.arenas[p].n, WithoutArena(g, p);
    assert HeaderOk(c, m, g, p);
    assert forall k, s {:trigger s in g.frees[k]} :: 0 <= k < CLASSES && s in g.frees[k] ==> s.p != p;
    ArenaDropped(c, m, g, p);
    assert WithArena(g2, p, Large(n)) == g;
    LiveLarge(c, g2, p, n);
    NothingWritten(m, g);
    KeepsLiveTwice(m, m, m, g, a);
    hide ListOk, HeaderOk, FreeIn, PerArena;
    assert AllUsed(g2);
  }

  lemma SmallHeader(c: Config, m: Ram, g: Model, p: nat, k: nat, a: nat)
    requires Inv(c, m, g) && p in g.arenas && g.arenas[p] == Small(k) && p == PageOf(a)
    ensures k < CLASSES && Header(m, p, Desc(c, k), |FreeIn(g.frees[k], p, PerArena(k))|, 0)
    ensures W(m, PAGE_SIZE * p) == Desc(c, k)
    ensures HeaderOk(c, m, g, p) && SlotOf(k, a).p == p && Desc(c, k) + 16 == Tail(c, k) && Tail(c, k) < 0x1_0000_0000
    ensures ArenasOk(c, g) && FreesOk(g) && AllUsed(g)
  {
    assert HeaderOk(c, m, g, p);
  }

  lemma EnteredLive(c: Config, m: Ram, g: Model, k: nat, s: Slot, m1: Ram, g1: Model)
    requires Entered(c, m, g, k, s, m1, g1)
    ensures LiveLoses(g, g1, BlockAt(k, s))
  {
  }

  lemma FinishFree(c: Config, m: Ram, g: Model)
    requires Lists(c, m, g) && HeadersExcept(c, m, g, {}) && AllUsed(g)
    ensures Inv(c, m, g)
  {
  }

  lemma LossAfter(m: Ram, m1: Ram, m2: Ram, g: Model, g1: Model, g2: Model, x: nat)
    requires LiveLoses(g, g1, x) && SameLive(g1, g2) && KeepsLive(m, m1, g, x) && KeepsLive(m1, m2, g1, -1)
    ensures LiveLoses(g, g2, x) && KeepsLive(m, m2, g, x)
  {
    hide Live, Usable, W;
    assert LiveExtends(g, g1, x);
    assert KeepsLive(m1, m2, g1, x);
    KeepsLiveOn(m, m1, m2, g, g1, x);
  }

  lemma DrainStarts(c: Config, m: Ram, g: Model, p: nat, k: nat)
    requires Lists(c, m, g) && HeadersExcept(c, m, g, {}) && k < CLASSES && p in g.arenas && g.arenas[p] == Small(k)
    requires |FreeIn(g.frees[k], p, PerArena(k))| == PerArena(k)
    ensures Draining(g, g, p, k, 0) && LiveExtends(g, g, -1) && HeadersExcept(c, m, g, {p})
  {
    FreeCount(c, g, p, k);
  }

  lemma StillThere(g1: Model, g: Model, p: nat, k: nat, i: nat)
    requires Draining(g1, g, p, k, i) && i < PerArena(k)
    ensures Slot(p, i) in g.frees[k]
  {
    assert Slot(p, i) in g1.frees[k];
  }

  lemma DrainingArenas(g1: Model, g: Model, p: nat, k: nat)
    requires k < CLASSES && Draining(g1, g, p, k, PerArena(k))
    ensures g.arenas == g1.arenas
  {
  }

  lemma OneMoreFree(g: Model, k: nat, s: Slot)
    requires |g.frees| == CLASSES && IsBlock(g, k, s) && s !in g.frees[k]
    ensures |FreeIn(g.frees[k] + [s], s.p, PerArena(k))| == |FreeIn(g.frees[k], s.p, PerArena(k))| + 1
  {
    FreeInAppended(g.frees[k], s, s.p, PerArena(k));
  }

  lemma IndexIn(fs: seq<Slot>, s: Slot) returns (j: nat)
    requires s in fs
    ensures j < |fs| && fs[j] == s
  {
    j :| 0 <= j < |fs| && fs[j] == s;
  }

  lemma EnterFacts(c: Config, m: Ram, g: Model, k: nat, s: Slot)
    requires Lists(c, m, g) && HeadersExcept(c, m, g, {}) && IsBlock(g, k, s)
    ensures s.p in g.arenas && HeaderOk(c, m, g, s.p) && ArenasOk(c, g) && s.p < 0x10_0000
    ensures k < CLASSES && Desc(c, k) + 16 == Tail(c, k) && Tail(c, k) < 0x1_0000_0000
  {
  }

  // ----- consequences -----

  /** The pages for a large request are as many as its bytes need, without the header, and no page more; a
      request of the last 4095 numbers wraps to no page. */
  lemma PagesEnough(size: Word)
    ensures 1 <= size <= 0xffff_f000 ==> PAGE_SIZE * (PagesFor(size) - 1) < size <= PAGE_SIZE * PagesFor(size)
    ensures size > 0xffff_f000 || size == 0 <==> PagesFor(size) == 0
  {
    if 1 <= size <= 0xffff_f000 {
      assert (size + PAGE_SIZE - 1) % 0x1_0000_0000 == size + PAGE_SIZE - 1;
    } else if size > 0 {
      assert (size + PAGE_SIZE - 1) % 0x1_0000_0000 == size + PAGE_SIZE - 1 - 0x1_0000_0000;
    }
  }

  /** What a request gets: of the seven sizes 16, 32, … 1024 the smallest that is large enough; of large regions the
      one that is short of the request by at most the header, or else leaves less than a page unused. */
  ghost predicate Fits(size: int, k: int) {
    if size <= 1024 then 16 <= k <= 1024 && size <= k && (k == 16 || k < 2 * size)
    else k + HEADER - PAGE_SIZE < size <= k + HEADER
  }

  lemma ClassFits(size: nat)
    requires size <= 1024
    ensures Fits(size, BlockSize(ClassFor(size)))
  {
  }

  /** The bytes behind the header of a large arena are enough for the request exactly when it leaves 12 bytes
      of its last page unused; a request of the last 4095 numbers wraps to no page. */
  lemma LargeCovers(size: Word)
    requires size > 1024
    ensures size <= 0xffff_f000 ==> (PAGE_SIZE * PagesFor(size) - HEADER >= size <==> (size - 1) % PAGE_SIZE < PAGE_SIZE - HEADER)
    ensures size > 0xffff_f000 <==> PagesFor(size) == 0
  {
    if size <= 0xffff_f000 {
      var q, r := (size - 1) / PAGE_SIZE, (size - 1) % PAGE_SIZE;
      assert size + PAGE_SIZE - 1 == PAGE_SIZE * (q + 1) + r;
      assert (size + PAGE_SIZE - 1) % 0x1_0000_0000 == size + PAGE_SIZE - 1;
      assert PagesFor(size) == q + 1;
    } else {
      assert (size + PAGE_SIZE - 1) % 0x1_0000_0000 == size + PAGE_SIZE - 1 - 0x1_0000_0000;
    }
  }

  /** One page asked for, 4084 bytes given. */
  lemma LargeFallsShort()
    ensures PagesFor(4096) == 1 && PAGE_SIZE * PagesFor(4096) - HEADER == 4084
  {
  }

  /** A process whose first request is malloc(3899392) gets the 952 pages up to 0x08400000.  Its sys_free, which
      is one free_pages, faults behind them: no page table serves that address yet. */
  lemma LargeFreeFaults(e: PS.Setting, s: PS.State)
    requires PX.FirstRequest(e, s, CountFor(3899392)) && e.first == 0x8048
    requires !B.FreeIn(e.c, s.b, B.User, e.c.uStart) && !PR.HasTable(s.b.mem, e.d, 0x8400)
    ensures CountFor(3899392) == 952 && PP.AnswerTo(e, s, 952, 0).Serves? && PS.Mallocs(e, s, 0, 952)
    ensures var s' := PS.AfterMalloc(e, s, 0, 952);
            PS.Allocated(e, s', 0x8048) && PP.ReleaseAnswer(e, s', 0x8048) == PM.Faulted
  {
    hide PX.FirstRequest, PP.AnswerTo, PS.Mallocs, PS.AfterMalloc, B.FreeIn, PR.HasTable, PP.ReleaseAnswer, PS.Allocated;
    var k := PX.FirstServed(e, s, 952);
    PX.FirstFaults(e, s, 952);
  }

  /** Such a process there is. */
  lemma LargeFreeExample()
    ensures PX.FirstRequest(PX.EXAMPLE, PX.BareState(true), CountFor(3899392)) && PX.EXAMPLE.first == 0x8048
    ensures !B.FreeIn(PX.POOLS, PX.BareState(true).b, B.User, PX.POOLS.uStart)
    ensures !PR.HasTable(PX.BareState(true).b.mem, PX.DIR, 0x8400)
  {
    hide PX.FirstRequest, B.FreeIn, PR.HasTable, PX.BareState;
    PX.BareRequest(true);
  }
}
