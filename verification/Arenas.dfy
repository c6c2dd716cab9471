/** Arenas of small blocks: what lies where, and which of it is live. */
module Arenas {
  import opened RamLists

  const PAGE_SIZE := 4096
  const HEADER := 12          // sizeof(struct arena)
  const CLASSES := 7          // MEM_BLOCK_DES_INT
  const DESC_SIZE := 24       // sizeof(struct mem_block_desc)

  // ----- geometry -----

  /** block_size of the descriptors */
  function BlockSize(k: nat): (n: nat)
    requires k < CLASSES
    ensures 16 <= n <= 1024 && n % 16 == 0
  {
    match k
    case 0 => 16
    case 1 => 32
    case 2 => 64
    case 3 => 128
    case 4 => 256
    case 5 => 512
    case 6 => 1024
  }

  /** blocks_per_arena: (PAGE_SIZE - HEADER) / BlockSize(k), see PerArenaFits. */
  function PerArena(k: nat): (n: nat)
    requires k < CLASSES
    ensures 3 <= n <= 255
  {
    match k
    case 0 => 255
    case 1 => 127
    case 2 => 63
    case 3 => 31
    case 4 => 15
    case 5 => 7
    case 6 => 3
  }

  /** As many blocks as fit behind the header. */
  lemma PerArenaFits(k: nat)
    requires k < CLASSES
    ensures PerArena(k) == (PAGE_SIZE - HEADER) / BlockSize(k)
  {
  }

  /** Block i of the arena in page p. */
  datatype Slot = Slot(p: nat, i: nat)

  /** i * BlockSize(k), one constant factor per class. */
  function Times(i: nat, k: nat): (n: nat)
    requires k < CLASSES
  {
    match k
    case 0 => 16 * i
    case 1 => 32 * i
    case 2 => 64 * i
    case 3 => 128 * i
    case 4 => 256 * i
    case 5 => 512 * i
    case 6 => 1024 * i
  }

  lemma TimesIs(i: nat, k: nat)
    requires k < CLASSES
    ensures Times(i, k) == i * BlockSize(k)
  {
  }

  /** arena_to_block */
  function BlockAt(k: nat, s: Slot): int
    requires k < CLASSES
  {
    PAGE_SIZE * s.p + HEADER + Times(s.i, k)
  }

  /** block_to_arena, as a page number */
  function PageOf(a: int): int {
    a / PAGE_SIZE
  }

  lemma TimesFits(i: nat, k: nat)
    requires k < CLASSES && i < PerArena(k)
    ensures Times(i, k) + BlockSize(k) <= PAGE_SIZE - HEADER && Times(i, k) % 4 == 0
  {
  }

  lemma InPage(p: nat, x: nat)
    requires x < PAGE_SIZE
    ensures PageOf(PAGE_SIZE * p + x) == p && (x % 4 == 0 ==> (PAGE_SIZE * p + x) % 4 == 0)
  {
  }

  lemma BlockInPage(k: nat, s: Slot)
    requires k < CLASSES && s.i < PerArena(k)
    ensures PAGE_SIZE * s.p + HEADER <= BlockAt(k, s)
    ensures BlockAt(k, s) + BlockSize(k) <= PAGE_SIZE * (s.p + 1)
    ensures PageOf(BlockAt(k, s)) == s.p && BlockAt(k, s) % 4 == 0 && BlockSize(k) >= 16 && BlockSize(k) % 4 == 0
  {
    TimesFits(s.i, k);
    hide Times, BlockSize, PerArena, PageOf;
    InPage(s.p, HEADER + Times(s.i, k));
  }

  /** The first block lies right behind the header, and each block right behind the one before. */
  lemma BlocksInRow(k: nat, p: nat, i: nat)
    requires k < CLASSES
    ensures BlockAt(k, Slot(p, 0)) == 4096 * p + 12
    ensures BlockAt(k, Slot(p, i + 1)) == BlockAt(k, Slot(p, i)) + BlockSize(k)
  {
  }

  /** Blocks of one class do not overlap. */
  lemma BlocksApart(k: nat, s: Slot, t: Slot)
    requires k < CLASSES && s.i < PerArena(k) && t.i < PerArena(k) && s != t
    ensures BlockAt(k, s) + BlockSize(k) <= BlockAt(k, t) || BlockAt(k, t) + BlockSize(k) <= BlockAt(k, s)
  {
    if s.p == t.p {
    } else {
      BlockInPage(k, s);
      BlockInPage(k, t);
    }
  }

  /** x / BlockSize(k) */
  function Over(x: nat, k: nat): nat
    requires k < CLASSES
  {
    match k
    case 0 => x / 16
    case 1 => x / 32
    case 2 => x / 64
    case 3 => x / 128
    case 4 => x / 256
    case 5 => x / 512
    case 6 => x / 1024
  }

  /** The block that contains an address, if any. */
  function SlotOf(k: nat, a: nat): Slot
    requires k < CLASSES
  {
    Slot(a / PAGE_SIZE, if a % PAGE_SIZE < HEADER then 0 else Over(a % PAGE_SIZE - HEADER, k))
  }

  lemma SlotPage(k: nat, a: nat)
    requires k < CLASSES
    ensures SlotOf(k, a).p == a / PAGE_SIZE
  {
  }

  lemma SlotOfBlock(k: nat, s: Slot)
    requires k < CLASSES && s.i < PerArena(k)
    ensures BlockAt(k, s) >= 0 && SlotOf(k, BlockAt(k, s)) == s
  {
    BlockInPage(k, s);
  }

  // ----- one heap -----

  /** Where the descriptors are, and the pages of the virtual pool. */
  datatype Config = Config(descs: nat, first: nat, total: nat)

  predicate ConfigOk(c: Config) {
    && c.descs % 4 == 0 && 0 < c.descs && c.descs + DESC_SIZE * CLASSES <= 0x1_0000_0000
    && 0 < c.first && c.first + c.total + 1 <= 0x10_0000
    && (c.descs + DESC_SIZE * CLASSES <= PAGE_SIZE * c.first || PAGE_SIZE * (c.first + c.total + 1) <= c.descs)
  }

  function Desc(c: Config, k: nat): nat {
    c.descs + DESC_SIZE * k
  }

  /** The sentinels of free_list. */
  function Head(c: Config, k: nat): nat {
    Desc(c, k) + 8
  }

  function Tail(c: Config, k: nat): nat {
    Desc(c, k) + 16
  }

  datatype Arena = Small(k: nat) | Large(n: nat)

  /** The free lists, and the arenas by their first page. */
  datatype Model = Model(frees: seq<seq<Slot>>, arenas: map<nat, Arena>)

  function PagesOf(a: Arena): nat {
    match a
    case Small(_) => 1
    case Large(n) => n
  }

  ghost predicate ArenasOk(c: Config, g: Model) {
    && (forall p :: p in g.arenas ==>
          c.first <= p && p + PagesOf(g.arenas[p]) <= c.first + c.total + 1
          && match g.arenas[p] case Small(k) => k < CLASSES case Large(n) => n >= 1)
    && (forall p, q :: p in g.arenas && q in g.arenas && p < q ==> p + PagesOf(g.arenas[p]) <= q)
  }

  predicate Distinct(fs: seq<Slot>) {
    forall i, j :: 0 <= i < j < |fs| ==> fs[i] != fs[j]
  }

  /** s is a block of an arena of class k. */
  predicate IsBlock(g: Model, k: nat, s: Slot) {
    k < CLASSES && s.p in g.arenas && g.arenas[s.p] == Small(k) && s.i < PerArena(k)
  }

  ghost predicate FreesOk(g: Model) {
    && |g.frees| == CLASSES
    && (forall k, s {:trigger s in g.frees[k]} :: 0 <= k < CLASSES && s in g.frees[k] ==> IsBlock(g, k, s))
    && (forall k :: 0 <= k < CLASSES ==> Distinct(g.frees[k]))
  }

  /** The numbers of the free blocks of page p. */
  function FreeIn(fs: seq<Slot>, p: nat, n: nat): (r: set<nat>)
    ensures forall i: nat :: i in r <==> i < n && Slot(p, i) in fs
  {
    set i: nat | 0 <= i < n && Slot(p, i) in fs
  }

  /** The words mem_desc_addr, cnt and large of the arena at page p. */
  predicate Header(m: Ram, p: nat, desc: int, cnt: int, large: int) {
    var a := PAGE_SIZE * p;
    Aligned(a) && Aligned(a + 4) && Aligned(a + 8) && W(m, a) == desc && W(m, a + 4) == cnt && W(m, a + 8) == large
  }

  ghost predicate HeaderOk(c: Config, m: Ram, g: Model, p: nat)
    requires p in g.arenas
  {
    match g.arenas[p]
    case Small(k) => k < CLASSES && k < |g.frees| && Header(m, p, Desc(c, k), |FreeIn(g.frees[k], p, PerArena(k))|, 0)
    case Large(n) => Header(m, p, 0, n, 1)
  }

  function Nodes(c: Config, k: nat, fs: seq<Slot>): (q: seq<int>)
    requires k < CLASSES
    ensures |q| == |fs| + 2 && q[0] == Head(c, k) && q[|fs| + 1] == Tail(c, k)
    ensures forall i :: 0 <= i < |fs| ==> q[i + 1] == BlockAt(k, fs[i])
  {
    [Head(c, k)] + seq(|fs|, i requires 0 <= i < |fs| => BlockAt(k, fs[i])) + [Tail(c, k)]
  }

  /** The descriptor and the free list of class k. */
  ghost predicate ListOk(c: Config, m: Ram, g: Model, k: nat)
    requires k < CLASSES && k < |g.frees| && ConfigOk(c)
  {
    && W(m, Desc(c, k)) == BlockSize(k) && W(m, Desc(c, k) + 4) == PerArena(k)
    && Separate(Nodes(c, k, g.frees[k])) && Linked(m, Nodes(c, k, g.frees[k]))
  }

  /** Every list is linked and every header right; an arena may be wholly free. */
  ghost predicate Consistent(c: Config, m: Ram, g: Model) {
    && ConfigOk(c) && ArenasOk(c, g) && FreesOk(g)
    && (forall k :: 0 <= k < CLASSES ==> ListOk(c, m, g, k))
    && (forall p :: p in g.arenas ==> HeaderOk(c, m, g, p))
  }

  /** Each small arena has a block in use. */
  ghost predicate AllUsed(g: Model)
    requires |g.frees| == CLASSES
  {
    forall p :: p in g.arenas && g.arenas[p].Small? && g.arenas[p].k < CLASSES ==>
      var k := g.arenas[p].k; |FreeIn(g.frees[k], p, PerArena(k))| < PerArena(k)
  }

  /** Between calls of sys_malloc and sys_free. */
  ghost predicate Inv(c: Config, m: Ram, g: Model) {
    Consistent(c, m, g) && AllUsed(g)
  }

  // ----- live regions -----

  /** A pointer that sys_malloc has returned and sys_free has not taken back. */
  predicate Live(g: Model, a: nat) {
    var p := a / PAGE_SIZE;
    p in g.arenas &&
    match g.arenas[p]
    case Small(k) => k < CLASSES && k < |g.frees| && IsBlock(g, k, SlotOf(k, a)) && a == BlockAt(k, SlotOf(k, a)) && SlotOf(k, a) !in g.frees[k]
    case Large(_) => a == PAGE_SIZE * p + HEADER
  }

  /** How many bytes it may use. */
  function Usable(g: Model, a: nat): int
    requires Live(g, a)
  {
    match g.arenas[a / PAGE_SIZE]
    case Small(k) => BlockSize(k)
    case Large(n) => PAGE_SIZE * n - HEADER
  }

  /** A live region lies in the pages of its arena, behind the header. */
  lemma LiveInArena(c: Config, g: Model, a: nat)
    requires ArenasOk(c, g) && Live(g, a)
    ensures var p := a / PAGE_SIZE;
            PAGE_SIZE * p + HEADER <= a && a + Usable(g, a) <= PAGE_SIZE * (p + PagesOf(g.arenas[p])) && a % 4 == 0 && Usable(g, a) >= 16
  {
    hide SlotOf, BlockAt, PerArena, BlockSize;
    var p := a / PAGE_SIZE;
    match g.arenas[p]
    case Small(k) =>
      SlotPage(k, a);
      BlockInPage(k, SlotOf(k, a));
    case Large(n) =>
      LargePlace(p, n, a);
  }

  lemma LargePlace(p: nat, n: nat, a: nat)
    requires n >= 1 && a == PAGE_SIZE * p + HEADER
    ensures a + PAGE_SIZE * n - HEADER <= PAGE_SIZE * (p + n) && a % 4 == 0 && PAGE_SIZE * n - HEADER >= 16
  {
  }

  /** Live regions do not overlap. */
  lemma LiveDisjoint(c: Config, g: Model, a: nat, b: nat)
    requires ArenasOk(c, g) && Live(g, a) && Live(g, b) && a != b
    ensures a + Usable(g, a) <= b || b + Usable(g, b) <= a
  {
    LiveInArena(c, g, a);
    LiveInArena(c, g, b);
    var p, q := a / PAGE_SIZE, b / PAGE_SIZE;
    if p == q {
      var k := g.arenas[p].k;
      BlocksApart(k, SlotOf(k, a), SlotOf(k, b));
    }
  }

  /** Live regions do not overlap the blocks of the free lists. */
  lemma LiveNotFree(c: Config, g: Model, a: nat, k: nat, s: Slot)
    requires ArenasOk(c, g) && FreesOk(g) && Live(g, a) && k < CLASSES && s in g.frees[k]
    ensures a + Usable(g, a) <= BlockAt(k, s) || BlockAt(k, s) + BlockSize(k) <= a
  {
    LiveInArena(c, g, a);
    BlockInPage(k, s);
    var p := a / PAGE_SIZE;
    if p == s.p {
      BlocksApart(k, SlotOf(k, a), s);
    }
  }

  lemma {:induction false} SubsetSize(r: set<nat>, n: nat)
    requires forall i :: i in r ==> i < n
    ensures |r| <= n
    ensures |r| == n ==> forall i :: 0 <= i < n ==> i in r
  {
    if n > 0 {
      SubsetSize(r - {n - 1}, n - 1);
    } else {
      assert r == {};
    }
  }

  /** Each arena holds a live region. */
  lemma ArenaInUse(c: Config, m: Ram, g: Model, p: nat) returns (a: nat)
    requires Inv(c, m, g) && p in g.arenas
    ensures Live(g, a) && a / PAGE_SIZE == p
  {
    match g.arenas[p]
    case Large(_) =>
      a := PAGE_SIZE * p + HEADER;
    case Small(k) =>
      if forall i :: 0 <= i < PerArena(k) ==> i in FreeIn(g.frees[k], p, PerArena(k)) {
        AllFree(g.frees[k], p, PerArena(k));
        assert false;
      }
      var i :| 0 <= i < PerArena(k) && i !in FreeIn(g.frees[k], p, PerArena(k));
      SlotOfBlock(k, Slot(p, i));
      BlockInPage(k, Slot(p, i));
      a := BlockAt(k, Slot(p, i));
  }

  /** There are arenas exactly while something is live. */
  lemma NothingLiveNothingHeld(c: Config, m: Ram, g: Model)
    requires Inv(c, m, g)
    ensures (forall a: nat :: !Live(g, a)) <==> g.arenas == map[]
  {
    forall p: nat | p in g.arenas ensures exists a: nat :: Live(g, a) {
      var a := ArenaInUse(c, m, g, p);
    }
    if forall a: nat :: !Live(g, a) {
      assert g.arenas == map[];
    }
  }

  lemma AllFree(fs: seq<Slot>, p: nat, n: nat)
    requires forall i :: 0 <= i < n ==> i in FreeIn(fs, p, n)
    ensures |FreeIn(fs, p, n)| >= n
  {
    Counted(FreeIn(fs, p, n), n);
  }

  lemma {:induction false} Counted(r: set<nat>, n: nat)
    requires forall i :: 0 <= i < n ==> i in r
    ensures |r| >= n
  {
    if n > 0 {
      Counted(r - {n - 1}, n - 1);
    }
  }
}
