/** What malloc_pages and free_pages do to memory and to the two physical pools. */
module PageBooks {
  import opened Paging

  type PageNo = q: int | 0 <= q < 0x10_0000

  datatype PoolFlag = Kernel | User

  /** First frame and number of frames of the two pools; the user pool lies behind the kernel pool, less
      than a byte of the bitmap away. */
  datatype Pools = Pools(kStart: FrameNo, kLen: nat, uStart: FrameNo, uLen: nat)

  predicate PoolsOk(c: Pools) {
    && 0x102 <= c.kStart
    && c.kStart + c.kLen <= c.uStart < c.kStart + c.kLen + 8
    && c.uStart + c.uLen <= 0x10_0000
  }

  /** Physical memory and the bits of the two pool bitmaps, with what follows each in memory. */
  datatype Books = Books(mem: Phys, kernel: seq<bool>, user: seq<bool>)

  predicate Sized(c: Pools, b: Books) {
    c.kLen + 8 <= |b.kernel| && c.uLen <= |b.user|
  }

  // ----- pages -----

  function Addr(q: PageNo): (v: Word)
    ensures Slot(v) == q / 1024 && Index(v) == q % 1024 && Offset(v) == 0
  {
    0x1000 * q
  }

  /** The frame that page q is mapped to. */
  function PageAt(mem: Phys, d: FrameNo, q: PageNo): Option<FrameNo> {
    if Present(Pde(mem, d, Addr(q))) && Present(Pte(mem, d, Addr(q))) then Some(FrameOf(Pte(mem, d, Addr(q)))) else None
  }

  /** As far as page q has entries, user mode may write through them. */
  predicate OpenAt(mem: Phys, d: FrameNo, q: PageNo) {
    Present(Pde(mem, d, Addr(q))) ==>
      Open(Pde(mem, d, Addr(q))) && (Present(Pte(mem, d, Addr(q))) ==> Open(Pte(mem, d, Addr(q))))
  }

  /** A mapped page with open entries can be read and written in user mode, byte by byte. */
  lemma OpenPage(mem: Phys, d: FrameNo, q: PageNo, o: int, write: bool)
    requires 0 <= o < PAGE_SIZE && OpenAt(mem, d, q) && PageAt(mem, d, q).Some?
    ensures var w: Word := 0x1000 * q + o; UserWalk(mem, d, w, write) == Some(0x1000 * PageAt(mem, d, q).value + o)
  {
    var w: Word := 0x1000 * q + o;
    assert w / 0x1000 == q && Offset(w) == o;
    PageParts(w, Addr(q));
    WalkByPage(mem, d, w);
    hide Present, Writable, ForUser, FrameOf, Slot, Index, Offset, At, Walk, Addr;
  }

  /** Addresses are translated page by page. */
  lemma WalkByPage(mem: Phys, d: FrameNo, v: Word)
    ensures Walk(mem, d, v) == match PageAt(mem, d, v / 0x1000)
                               case None => None
                               case Some(f) => Some(0x1000 * f + Offset(v))
  {
    PageParts(v, Addr(v / 0x1000));
  }

  // ----- frames -----

  function FirstFree(v: seq<bool>): (k: nat)
    ensures k <= |v|
    ensures k < |v| ==> !v[k]
    ensures forall i :: 0 <= i < k ==> v[i]
  {
    if v == [] then 0 else if !v[0] then 0 else 1 + FirstFree(v[1..])
  }

  function StartOf(c: Pools, pf: PoolFlag): FrameNo {
    if pf.Kernel? then c.kStart else c.uStart
  }

  function LenOf(c: Pools, pf: PoolFlag): nat {
    if pf.Kernel? then c.kLen else c.uLen
  }

  function BitsFor(b: Books, pf: PoolFlag): seq<bool> {
    if pf.Kernel? then b.kernel else b.user
  }

  /** A frame that palloc may hand out from the pool. */
  predicate FreeIn(c: Pools, b: Books, pf: PoolFlag, f: FrameNo)
    requires Sized(c, b)
  {
    StartOf(c, pf) <= f < StartOf(c, pf) + LenOf(c, pf) && !BitsFor(b, pf)[f - StartOf(c, pf)]
  }

  predicate Free(c: Pools, b: Books, f: FrameNo)
    requires Sized(c, b)
  {
    FreeIn(c, b, Kernel, f) || FreeIn(c, b, User, f)
  }

  /** The bit palloc takes; the length of the pool if none is free. */
  function PallocBit(c: Pools, b: Books, pf: PoolFlag): (k: nat)
    requires Sized(c, b)
    ensures k <= LenOf(c, pf)
  {
    FirstFree(BitsFor(b, pf)[..LenOf(c, pf)])
  }

  predicate Full(c: Pools, b: Books, pf: PoolFlag)
    requires Sized(c, b)
  {
    PallocBit(c, b, pf) == LenOf(c, pf)
  }

  /** The frame palloc returns; 0 when the pool is used up. */
  function Palloc(c: Pools, b: Books, pf: PoolFlag): FrameNo
    requires PoolsOk(c) && Sized(c, b)
  {
    if Full(c, b, pf) then 0 else StartOf(c, pf) + PallocBit(c, b, pf)
  }

  function AfterPalloc(c: Pools, b: Books, pf: PoolFlag): (r: Books)
    requires PoolsOk(c) && Sized(c, b)
    ensures Sized(c, r) && r.mem == b.mem
  {
    if Full(c, b, pf) then b
    else if pf.Kernel? then b.(kernel := b.kernel[PallocBit(c, b, pf) := true])
    else b.(user := b.user[PallocBit(c, b, pf) := true])
  }

  lemma PallocTakes(c: Pools, b: Books, pf: PoolFlag)
    requires PoolsOk(c) && Sized(c, b) && !Full(c, b, pf)
    ensures var f, r := Palloc(c, b, pf), AfterPalloc(c, b, pf);
      && f != 0 && FreeIn(c, b, pf, f)
      && forall g: FrameNo, pg {:trigger FreeIn(c, r, pg, g)} :: FreeIn(c, r, pg, g) <==> FreeIn(c, b, pg, g) && g != f
  {
    hide FirstFree;
  }

  // ----- page_table_add -----

  /** With a failed assertion (None) when the page is mapped already. */
  function PageTableAdd(c: Pools, b: Books, d: FrameNo, v: Word, p: FrameNo): Option<Books>
    requires PoolsOk(c) && Sized(c, b)
  {
    if Present(Pde(b.mem, d, v)) then
      if Present(Pte(b.mem, d, v)) then None else Some(b.(mem := Mapped(b.mem, d, v, p, 0)))
    else
      Some(AfterPalloc(c, b, Kernel).(mem := Mapped(b.mem, d, v, p, Palloc(c, b, Kernel))))
  }

  // ----- malloc_pages -----

  /** The loop of malloc_pages: still going, with the frames taken for pages and the page tables made so far,
      or out of frames, or stopped on a failed assertion.  Where palloc had no frame for a page table, the table
      is frame 0. */
  datatype Growth =
    | Going(b: Books, frames: seq<FrameNo>, tables: seq<FrameNo>)
    | OutOfFrames(b: Books, frames: seq<FrameNo>, tables: seq<FrameNo>)
    | AssertFailed(tables: seq<FrameNo>)

  predicate GrowthSized(c: Pools, o: Growth) {
    o.AssertFailed? || Sized(c, o.b)
  }

  function OnePage(c: Pools, o: Growth, d: FrameNo, pf: PoolFlag, q: PageNo): (r: Growth)
    requires PoolsOk(c) && o.Going? && Sized(c, o.b)
    ensures GrowthSized(c, r)
  {
    if Full(c, o.b, pf) then OutOfFrames(o.b, o.frames, o.tables)
    else
      var b1 := AfterPalloc(c, o.b, pf);
      var p := Palloc(c, o.b, pf);
      match PageTableAdd(c, b1, d, Addr(q), p)
      case None => AssertFailed(o.tables)
      case Some(b2) =>
        if Present(Pde(b1.mem, d, Addr(q))) then Going(b2, o.frames + [p], o.tables)
        else Going(b2, o.frames + [p], o.tables + [Palloc(c, b1, Kernel)])
  }

  /** After i pages from page q on. */
  function Grow(c: Pools, b: Books, d: FrameNo, pf: PoolFlag, q: PageNo, i: nat): (r: Growth)
    requires PoolsOk(c) && Sized(c, b) && q + i <= 0x10_0000
    ensures GrowthSized(c, r)
    decreases i
  {
    if i == 0 then Going(b, [], [])
    else
      var o := Grow(c, b, d, pf, q, i - 1);
      if o.Going? then OnePage(c, o, d, pf, q + i - 1) else o
  }

  /** How many page tables were put into frame 0. */
  function Zeros(tables: seq<FrameNo>): nat {
    multiset(tables)[0]
  }

  /** Frame 0 is a page table of directory d. */
  predicate ZeroTable(mem: Phys, d: FrameNo) {
    exists k {:trigger At(mem, d, k)} :: 1 <= k < 1023 && Present(At(mem, d, k)) && FrameOf(At(mem, d, k)) == 0
  }

  /** How many page tables fit into frame 0. */
  function Spare(mem: Phys, d: FrameNo): nat {
    if ZeroTable(mem, d) then 0 else 1
  }

  /** What page_table_add makes a page table of: a frame from the kernel pool, or frame 0. */
  predicate TableFrame(c: Pools, b: Books, t: FrameNo)
    requires Sized(c, b)
  {
    t == 0 || FreeIn(c, b, Kernel, t)
  }

  // ----- the state of one address space -----

  /** Directory d maps itself, its page tables are other frames that no pool would hand out, and no table
      is in two slots (slot 0 aside, see AddressSpaces.LowAlias). */
  ghost predicate Good(c: Pools, b: Books, d: FrameNo) {
    && PoolsOk(c) && Sized(c, b)
    && SelfMapped(b.mem, d) && d != 0 && !Free(c, b, d)
    && (forall k {:trigger At(b.mem, d, k)} :: 0 <= k < 1023 && Present(At(b.mem, d, k)) ==>
          FrameOf(At(b.mem, d, k)) != d && !Free(c, b, FrameOf(At(b.mem, d, k))))
    && OwnTables(b.mem, d)
  }

  ghost predicate OwnTables(mem: Phys, d: FrameNo)
  {
    forall j, k {:trigger At(mem, d, j), At(mem, d, k)} ::
      1 <= j < k < 1023 && Present(At(mem, d, j)) && Present(At(mem, d, k)) ==>
        FrameOf(At(mem, d, j)) != FrameOf(At(mem, d, k))
  }

  /** Page r can be translated through the tables, not through the self-map. */
  predicate Ordinary(r: PageNo) {
    1024 <= r < 1023 * 1024
  }

  predicate OrdinaryRun(q: int, n: nat) {
    1024 <= q && q + n <= 1023 * 1024
  }

  /** Frame t is neither the directory d nor a table of ordinary pages. */
  ghost predicate Unused(mem: Phys, d: FrameNo, t: FrameNo) {
    t != d && forall k {:trigger At(mem, d, k)} :: 1 <= k < 1023 && Present(At(mem, d, k)) ==> FrameOf(At(mem, d, k)) != t
  }

  /** Mapping one page changes that page only. */
  lemma AddKeepsPages(mem: Phys, d: FrameNo, q: PageNo, p: FrameNo, made: FrameNo, r: PageNo)
    requires Ordinary(q) && Ordinary(r) && r != q
    requires OwnTables(mem, d) && TablesOutside(mem, d)
    requires !Present(Pde(mem, d, Addr(q))) ==> Unused(mem, d, made)
    ensures PageAt(Mapped(mem, d, Addr(q), p, made), d, r) == PageAt(mem, d, r)
  {
    var v, w := Addr(q), Addr(r);
    var after := Mapped(mem, d, v, p, made);
    if Present(Pde(mem, d, v)) {
      WalkByPage(mem, d, w);
      WalkByPage(after, d, w);
      PageParts(v, w);
      hide Present, FrameOf, At, Mapped, Slot, Index;
      MapFrame(mem, d, v, p, made, d, w);
    } else {
      NewTableKeepsPages(mem, d, q, p, made, r);
    }
  }

  lemma NewTableKeepsPages(mem: Phys, d: FrameNo, q: PageNo, p: FrameNo, made: FrameNo, r: PageNo)
    requires Ordinary(q) && Ordinary(r) && r != q
    requires TablesOutside(mem, d) && !Present(Pde(mem, d, Addr(q))) && Unused(mem, d, made)
    ensures PageAt(Mapped(mem, d, Addr(q), p, made), d, r) == PageAt(mem, d, r)
  {
    var v, w := Addr(q), Addr(r);
    PageParts(v, w);
    assert !Present(0);
    assert 1 <= Slot(w) < 1023;
    hide Present, FrameOf, Slot, Index, Offset, At, Poke, Cleared, EntryFor;
    var after := Mapped(mem, d, v, p, made);
    assert Pde(after, d, w) == if Slot(w) == Slot(v) then EntryFor(made) else Pde(mem, d, w);
    if Slot(w) == Slot(v) {
      assert Pte(after, d, w) == 0;
    } else if Present(Pde(mem, d, w)) {
      assert Pte(after, d, w) == Pte(mem, d, w);
    }
  }

  /** Open entries stay open, and those of the new page are. */
  lemma AddKeepsOpen(mem: Phys, d: FrameNo, q: PageNo, p: FrameNo, made: FrameNo, r: PageNo)
    requires Ordinary(q) && Ordinary(r)
    requires OwnTables(mem, d) && TablesOutside(mem, d)
    requires !Present(Pde(mem, d, Addr(q))) ==> Unused(mem, d, made)
    requires OpenAt(mem, d, r)
    ensures OpenAt(Mapped(mem, d, Addr(q), p, made), d, r)
  {
    var v, w := Addr(q), Addr(r);
    var after := Mapped(mem, d, v, p, made);
    TableElsewhere(mem, d, q, made);
    AddDirectory(mem, d, v, p, made, Slot(w));
    EntryBits(p);
    EntryBits(made);
    PageParts(v, w);
    assert !Present(0);
    hide Present, Open, FrameOf, Slot, Index, Offset, At, Poke, Cleared, EntryFor, Addr, OwnTables;
    if Slot(w) == Slot(v) {
      assert Pte(after, d, w) == if Index(w) == Index(v) then EntryFor(p) else Pte(WithTable(mem, d, v, made), d, w);
    } else if Present(Pde(mem, d, w)) {
      TablesDiffer(mem, d, q, r, made);
      assert Pte(after, d, w) == Pte(mem, d, w);
    }
  }

  /** The pages of different slots have different tables. */
  lemma TablesDiffer(mem: Phys, d: FrameNo, q: PageNo, r: PageNo, made: FrameNo)
    requires Ordinary(q) && Ordinary(r) && Slot(Addr(q)) != Slot(Addr(r)) && Present(Pde(mem, d, Addr(r)))
    requires OwnTables(mem, d) && TablesOutside(mem, d)
    requires !Present(Pde(mem, d, Addr(q))) ==> Unused(mem, d, made)
    ensures FrameOf(Pde(mem, d, Addr(r))) != TableOf(mem, d, Addr(q), made) && FrameOf(Pde(mem, d, Addr(r))) != d
  {
  }

  lemma TableElsewhere(mem: Phys, d: FrameNo, q: PageNo, made: FrameNo)
    requires Ordinary(q) && TablesOutside(mem, d) && (!Present(Pde(mem, d, Addr(q))) ==> made != d)
    ensures TableOf(mem, d, Addr(q), made) != d
  {
  }

  lemma AddMapsPage(mem: Phys, d: FrameNo, q: PageNo, p: FrameNo, made: FrameNo)
    requires TableOf(mem, d, Addr(q), made) != d
    ensures PageAt(Mapped(mem, d, Addr(q), p, made), d, q) == Some(p)
  {
    MapTranslates(mem, d, Addr(q), p, made, 0);
    WalkByPage(Mapped(mem, d, Addr(q), p, made), d, Addr(q));
    assert Addr(q) / 0x1000 * 0x1000 + 0 == Addr(q);
    hide Mapped, At, Walk, PageAt;
  }

  /** The directory after page_table_add. */
  lemma AddDirectory(mem: Phys, d: FrameNo, v: Word, p: FrameNo, made: FrameNo, k: int)
    requires InFrame(k) && TableOf(mem, d, v, made) != d
    ensures At(Mapped(mem, d, v, p, made), d, k) ==
            if k == Slot(v) && !Present(Pde(mem, d, v)) then EntryFor(made) else At(mem, d, k)
  {
    hide Present, FrameOf, At, Slot, Index, Poke, Cleared, EntryFor;
  }

  /** Exactly the frames of fs are set in addition. */
  ghost predicate BitsTaken(start: FrameNo, was: seq<bool>, now: seq<bool>, fs: seq<FrameNo>, gs: seq<FrameNo>) {
    && |now| == |was|
    && forall x :: 0 <= x < |was| ==> (now[x] <==> was[x] || start + x in fs || start + x in gs)
  }

  /** The bits of both pools after frames were taken from pool pf and tables from the kernel pool. */
  ghost predicate Taken(c: Pools, b0: Books, b: Books, pf: PoolFlag, frames: seq<FrameNo>, tables: seq<FrameNo>) {
    && BitsTaken(c.kStart, b0.kernel, b.kernel, if pf.Kernel? then frames else [], tables)
    && BitsTaken(c.uStart, b0.user, b.user, if pf.User? then frames else [], [])
  }

  /** Both pools lost the frames and the tables and nothing else. */
  lemma TakenFree(c: Pools, b0: Books, b: Books, pf: PoolFlag, frames: seq<FrameNo>, tables: seq<FrameNo>,
                  pg: PoolFlag, f: FrameNo)
    requires PoolsOk(c) && Sized(c, b0) && Taken(c, b0, b, pf, frames, tables)
    requires forall g :: g in frames ==> FreeIn(c, b0, pf, g)
    requires forall g :: g in tables ==> TableFrame(c, b0, g)
    ensures Sized(c, b)
    ensures FreeIn(c, b, pg, f) <==> FreeIn(c, b0, pg, f) && f !in frames && f !in tables
  {
    var x := f - StartOf(c, pg);
    if StartOf(c, pg) <= f < StartOf(c, pg) + LenOf(c, pg) {
      assert BitsFor(b, pg)[x] <==> BitsFor(b0, pg)[x] || (pg == pf && f in frames) || (pg.Kernel? && f in tables);
    }
  }

  /** Where user mode could write it still can, and on pages mapped since it can. */
  ghost predicate StaysOpen(mem0: Phys, mem: Phys, d: FrameNo) {
    forall r: PageNo {:trigger OpenAt(mem, d, r)} :: Ordinary(r) && OpenAt(mem0, d, r) ==> OpenAt(mem, d, r)
  }

  lemma OpenTwice(mem0: Phys, mem1: Phys, mem2: Phys, d: FrameNo)
    requires StaysOpen(mem0, mem1, d) && StaysOpen(mem1, mem2, d)
    ensures StaysOpen(mem0, mem2, d)
  {
    hide OpenAt;
    forall r: PageNo | Ordinary(r) && OpenAt(mem0, d, r) ensures OpenAt(mem2, d, r) {
      assert OpenAt(mem1, d, r);
    }
  }

  /** What one turn of the loop does to the pages. */
  ghost predicate PagesTurn(mem: Phys, mem2: Phys, d: FrameNo, q: PageNo, p: FrameNo, tables: seq<FrameNo>) {
    && PageAt(mem2, d, q) == Some(p)
    && (forall r: PageNo {:trigger PageAt(mem2, d, r)} ::
        Ordinary(r) && r != q ==> PageAt(mem2, d, r) == PageAt(mem, d, r))
    && |tables| == (if Present(At(mem, d, q / 1024)) then 0 else 1)
    && (forall k {:trigger At(mem2, d, k)} :: InFrame(k) ==>
          At(mem2, d, k) == if k == q / 1024 && |tables| == 1 then EntryFor(tables[0]) else At(mem, d, k))
    && StaysOpen(mem, mem2, d)
  }

  lemma TurnPages(mem: Phys, d: FrameNo, q: PageNo, p: FrameNo, made: FrameNo)
    requires Ordinary(q)
    requires OwnTables(mem, d) && TablesOutside(mem, d)
    requires !Present(Pde(mem, d, Addr(q))) ==> Unused(mem, d, made)
    ensures PagesTurn(mem, Mapped(mem, d, Addr(q), p, made), d, q, p, if Present(Pde(mem, d, Addr(q))) then [] else [made])
  {
    var mem2 := Mapped(mem, d, Addr(q), p, made);
    TableElsewhere(mem, d, q, made);
    hide PageAt, OpenAt, Mapped, At, Present, EntryFor, Unused, OwnTables, TablesOutside, TableOf;
    AddMapsPage(mem, d, q, p, made);
    forall r: PageNo | Ordinary(r) && r != q ensures PageAt(mem2, d, r) == PageAt(mem, d, r) {
      AddKeepsPages(mem, d, q, p, made, r);
    }
    forall r: PageNo | Ordinary(r) && OpenAt(mem, d, r) ensures OpenAt(mem2, d, r) {
      AddKeepsOpen(mem, d, q, p, made, r);
    }
    forall k | InFrame(k)
      ensures At(mem2, d, k) == if k == q / 1024 && !Present(Pde(mem, d, Addr(q))) then EntryFor(made) else At(mem, d, k)
    {
      AddDirectory(mem, d, Addr(q), p, made, k);
    }
  }

  ghost predicate Turn(c: Pools, b: Books, d: FrameNo, pf: PoolFlag, q: PageNo, b2: Books, p: FrameNo,
                       tables: seq<FrameNo>)
    requires Sized(c, b)
  {
    && FreeIn(c, b, pf, p)
    && (forall t :: t in tables ==> TableFrame(c, b, t) && Unused(b.mem, d, t) && t != p)
    && Taken(c, b, b2, pf, [p], tables)
    && PagesTurn(b.mem, b2.mem, d, q, p, tables)
  }

  lemma BitsTakenMore(start: FrameNo, u: seq<bool>, v: seq<bool>, w: seq<bool>,
                      fs: seq<FrameNo>, gs: seq<FrameNo>, fs2: seq<FrameNo>, gs2: seq<FrameNo>)
    requires BitsTaken(start, u, v, fs, gs) && BitsTaken(start, v, w, fs2, gs2)
    ensures BitsTaken(start, u, w, fs + fs2, gs + gs2)
  {
  }

  /** Taking twice. */
  lemma TakenMore(c: Pools, b0: Books, b1: Books, b2: Books, pf: PoolFlag,
                  fs: seq<FrameNo>, gs: seq<FrameNo>, fs2: seq<FrameNo>, gs2: seq<FrameNo>)
    requires Taken(c, b0, b1, pf, fs, gs) && Taken(c, b1, b2, pf, fs2, gs2)
    ensures Taken(c, b0, b2, pf, fs + fs2, gs + gs2)
  {
    var none: seq<FrameNo> := [];
    BitsTakenMore(c.kStart, b0.kernel, b1.kernel, b2.kernel, if pf.Kernel? then fs else none, gs, if pf.Kernel? then fs2 else none, gs2);
    BitsTakenMore(c.uStart, b0.user, b1.user, b2.user, if pf.User? then fs else none, none, if pf.User? then fs2 else none, none);
    hide BitsTaken;
    assert none + none == none;
  }

  lemma PallocTaken(c: Pools, b: Books, pf: PoolFlag)
    requires PoolsOk(c) && Sized(c, b) && !Full(c, b, pf)
    ensures Taken(c, b, AfterPalloc(c, b, pf), pf, [Palloc(c, b, pf)], [])
    ensures pf.Kernel? ==> forall other :: Taken(c, b, AfterPalloc(c, b, pf), other, [], [Palloc(c, b, pf)])
  {
    hide FirstFree;
  }

  /** Frame 0 has no bit. */
  lemma ZeroTaken(c: Pools, b: Books, pf: PoolFlag)
    requires PoolsOk(c)
    ensures Taken(c, b, b, pf, [], [0])
  {
  }

  /** The bits after one palloc for the page and perhaps one for a table. */
  lemma TurnBits(c: Pools, b: Books, pf: PoolFlag, second: bool)
    requires PoolsOk(c) && Sized(c, b) && !Full(c, b, pf)
    ensures var b1 := AfterPalloc(c, b, pf);
            var p, t := Palloc(c, b, pf), Palloc(c, b1, Kernel);
            && FreeIn(c, b, pf, p) && (t == 0 <==> Full(c, b1, Kernel))
            && (second ==> TableFrame(c, b, t) && t != p)
            && Taken(c, b, if second then AfterPalloc(c, b1, Kernel) else b1, pf, [p], if second then [t] else [])
  {
    PallocTakes(c, b, pf);
    PallocTaken(c, b, pf);
    var b1 := AfterPalloc(c, b, pf);
    TableBits(c, b1, pf);
    hide Taken, Palloc, AfterPalloc, Full, FreeIn;
    if second {
      var p, t, b2 := Palloc(c, b, pf), Palloc(c, b1, Kernel), AfterPalloc(c, b1, Kernel);
      TakenMore(c, b, b1, b2, pf, [p], [], [], [t]);
      assert [p] + [] == [p] && [] + [t] == [t];
    }
  }

  /** The bits after a palloc for a table. */
  lemma TableBits(c: Pools, b: Books, pf: PoolFlag)
    requires PoolsOk(c) && Sized(c, b)
    ensures var t := Palloc(c, b, Kernel);
            && TableFrame(c, b, t) && (t == 0 <==> Full(c, b, Kernel)) && Taken(c, b, AfterPalloc(c, b, Kernel), pf, [], [t])
  {
    if Full(c, b, Kernel) {
      ZeroTaken(c, b, pf);
    } else {
      PallocTakes(c, b, Kernel);
      PallocTaken(c, b, Kernel);
    }
    hide Taken, FreeIn, FirstFree;
  }

  lemma OneTurnUnfold(c: Pools, b: Books, d: FrameNo, pf: PoolFlag, q: PageNo)
    requires PoolsOk(c) && Sized(c, b) && (Present(Pde(b.mem, d, Addr(q))) ==> !Present(Pte(b.mem, d, Addr(q))))
    ensures var b1 := AfterPalloc(c, b, pf);
            var p := Palloc(c, b, pf);
            var had := Present(Pde(b.mem, d, Addr(q)));
            var b2 := if had then b1 else AfterPalloc(c, b1, Kernel);
            PageTableAdd(c, b1, d, Addr(q), p) ==
              Some(b2.(mem := Mapped(b.mem, d, Addr(q), p, if had then 0 else Palloc(c, b1, Kernel))))
  {
    hide PagesTurn, BitsTaken, FreeIn, AfterPalloc, Palloc, Mapped;
  }

  lemma OneTurn(c: Pools, b: Books, d: FrameNo, pf: PoolFlag, q: PageNo)
    requires Good(c, b, d) && Ordinary(q) && PageAt(b.mem, d, q) == None && !Full(c, b, pf)
    requires Present(Pde(b.mem, d, Addr(q))) || !Full(c, AfterPalloc(c, b, pf), Kernel) || !ZeroTable(b.mem, d)
    ensures var b1 := AfterPalloc(c, b, pf);
            var p, t := Palloc(c, b, pf), Palloc(c, b1, Kernel);
            var r := PageTableAdd(c, b1, d, Addr(q), p);
            r.Some? && Turn(c, b, d, pf, q, r.value, p, if Present(Pde(b.mem, d, Addr(q))) then [] else [t])
  {
    hide BitsTaken, PagesTurn, FreeIn, Palloc, AfterPalloc, Full, PageTableAdd, Mapped, At, Pde, Pte, Good, Addr,
         Present, SelfMapped, OwnTables;
    GoodParts(c, b, d);
    var b1 := AfterPalloc(c, b, pf);
    var p, t := Palloc(c, b, pf), Palloc(c, b1, Kernel);
    var v := Addr(q);
    var had := Present(Pde(b.mem, d, v));
    assert had ==> !Present(Pte(b.mem, d, v));
    hide PageAt;
    TurnBits(c, b, pf, !had);
    if !had { TableIsNew(c, b, d, t); }
    hide Unused, ZeroTable, TablesOutside;
    TurnPages(b.mem, d, q, p, if had then 0 else t);
    OneTurnUnfold(c, b, d, pf, q);
  }

  lemma GoodParts(c: Pools, b: Books, d: FrameNo)
    requires Good(c, b, d)
    ensures PoolsOk(c) && Sized(c, b)
    ensures SelfMapped(b.mem, d) && TablesOutside(b.mem, d) && OwnTables(b.mem, d)
  {
  }

  /** A frame that a pool hands out is no table of the address space; nor is frame 0, unless it was made one. */
  lemma TableIsNew(c: Pools, b: Books, d: FrameNo, t: FrameNo)
    requires Good(c, b, d) && TableFrame(c, b, t) && (t == 0 ==> !ZeroTable(b.mem, d))
    ensures Unused(b.mem, d, t)
  {
  }

  /** The address space stays good. */
  lemma GoodTurn(c: Pools, b: Books, d: FrameNo, pf: PoolFlag, q: PageNo, b2: Books, p: FrameNo, tables: seq<FrameNo>)
    requires Good(c, b, d) && Ordinary(q) && Turn(c, b, d, pf, q, b2, p, tables)
    ensures Good(c, b2, d)
    ensures forall f: FrameNo, pg {:trigger FreeIn(c, b2, pg, f)} ::
        FreeIn(c, b2, pg, f) <==> FreeIn(c, b, pg, f) && f != p && f !in tables
  {
    forall f: FrameNo, pg ensures FreeIn(c, b2, pg, f) <==> FreeIn(c, b, pg, f) && f != p && f !in tables {
      TakenFree(c, b, b2, pf, [p], tables, pg, f);
    }
    if |tables| == 1 { assert tables[0] in tables; }
    var none: FrameNo := 0;
    var t := if |tables| == 1 then tables[0] else none;
    assert |tables| == 1 ==> t != d && !Free(c, b2, t);
    DirectoryTurn(b.mem, b2.mem, d, q, p, tables);
    hide At, Present, FrameOf, FreeIn, PageAt, Taken, OwnTables, Unused;
    forall k | 0 <= k < 1023 && Present(At(b2.mem, d, k))
      ensures FrameOf(At(b2.mem, d, k)) != d && !Free(c, b2, FrameOf(At(b2.mem, d, k)))
    {
      assert InFrame(k);
      assert At(b2.mem, d, k) == if k == q / 1024 && |tables| == 1 then EntryFor(t) else At(b.mem, d, k);
    }
    assert InFrame(1023);
  }

  lemma DirectoryTurn(mem: Phys, mem2: Phys, d: FrameNo, q: PageNo, p: FrameNo, tables: seq<FrameNo>)
    requires Ordinary(q) && OwnTables(mem, d)
    requires PagesTurn(mem, mem2, d, q, p, tables)
    requires forall t :: t in tables ==> Unused(mem, d, t)
    ensures OwnTables(mem2, d)
  {
    var none: FrameNo := 0;
    var t := if |tables| == 1 then tables[0] else none;
    if |tables| == 1 { assert t in tables; }
    hide At, Present, FrameOf, PageAt;
    assert forall k ::
        0 <= k < 1023 ==> InFrame(k) && At(mem2, d, k) == if k == q / 1024 && |tables| == 1 then EntryFor(t) else At(mem, d, k);
  }

  // ----- a whole successful run -----

  predicate Distinct(fs: seq<FrameNo>) {
    forall j, k :: 0 <= j < k < |fs| ==> fs[j] != fs[k]
  }

  function Members(fs: seq<FrameNo>): (r: set<FrameNo>)
    ensures forall f :: f in r <==> f in fs
  {
    set f | f in fs
  }

  /** Frames for pages and for tables were free before, all different. */
  ghost predicate WereFree(c: Pools, b0: Books, pf: PoolFlag, frames: seq<FrameNo>, tables: seq<FrameNo>)
    requires Sized(c, b0)
  {
    && Distinct(frames)
    && (forall f :: f in frames ==> FreeIn(c, b0, pf, f))
    && (forall t :: t in tables ==> TableFrame(c, b0, t) && t !in frames)
  }

  /** Pages q, q + 1, … are mapped to the frames, one by one. */
  ghost predicate RunMapped(mem: Phys, d: FrameNo, q: int, frames: seq<FrameNo>)
    requires 0 <= q && q + |frames| <= 0x10_0000
  {
    forall j {:trigger frames[j]} :: 0 <= j < |frames| ==> PageAt(mem, d, q + j) == Some(frames[j])
  }

  ghost predicate RunUnmapped(mem: Phys, d: FrameNo, q: int, n: nat)
    requires 0 <= q && q + n <= 0x10_0000
  {
    forall r: PageNo {:trigger PageAt(mem, d, r)} :: q <= r < q + n ==> PageAt(mem, d, r) == None
  }

  ghost predicate OthersSame(mem0: Phys, mem: Phys, d: FrameNo, q: int, n: nat) {
    forall r: PageNo {:trigger PageAt(mem, d, r)} ::
        Ordinary(r) && !(q <= r < q + n) ==> PageAt(mem, d, r) == PageAt(mem0, d, r)
  }

  /** Directory entries appear for the new tables only, and no entry changes. */
  ghost predicate DirectoryGrown(mem0: Phys, mem: Phys, d: FrameNo, tables: seq<FrameNo>) {
    && (forall k {:trigger At(mem, d, k)} :: InFrame(k) ==>
          At(mem, d, k) == At(mem0, d, k)
          || (!Present(At(mem0, d, k)) && Present(At(mem, d, k)) && FrameOf(At(mem, d, k)) in tables))
    && (forall t :: t in tables ==> exists k :: InFrame(k) && !Present(At(mem0, d, k)) && At(mem, d, k) == EntryFor(t))
  }

  /** Directory entries change only where the pages of the run have their page tables. */
  ghost predicate SlotsWithin(mem0: Phys, mem: Phys, d: FrameNo, q: int, n: nat) {
    forall k {:trigger At(mem, d, k)} :: InFrame(k) && (k < q / 1024 || q + n <= 1024 * k) ==>
      At(mem, d, k) == At(mem0, d, k)
  }

  /** What the loop has done so far. */
  function Kept(o: Growth): Growth {
    if o.OutOfFrames? then Going(o.b, o.frames, o.tables) else o
  }

  ghost predicate Progress(c: Pools, b0: Books, o: Growth, d: FrameNo, pf: PoolFlag, q: int)
    requires PoolsOk(c) && Sized(c, b0)
  {
    && o.Going?
    && 0 <= q && q + |o.frames| <= 0x10_0000
    && Good(c, o.b, d)
    && WereFree(c, b0, pf, o.frames, o.tables)
    && Taken(c, b0, o.b, pf, o.frames, o.tables)
    && RunMapped(o.b.mem, d, q, o.frames)
    && OthersSame(b0.mem, o.b.mem, d, q, |o.frames|)
    && DirectoryGrown(b0.mem, o.b.mem, d, o.tables)
    && SlotsWithin(b0.mem, o.b.mem, d, q, |o.frames|)
    && StaysOpen(b0.mem, o.b.mem, d)
    && (o.frames != [] ==> o.frames[0] == Palloc(c, b0, pf))
  }

  /** One more page. */
  lemma ProgressTurn(c: Pools, b0: Books, o: Growth, d: FrameNo, pf: PoolFlag, q: PageNo,
                     b2: Books, p: FrameNo, tables: seq<FrameNo>)
    requires PoolsOk(c) && Sized(c, b0) && Progress(c, b0, o, d, pf, q)
    requires OrdinaryRun(q, |o.frames| + 1)
    requires Turn(c, o.b, d, pf, q + |o.frames|, b2, p, tables)
    requires o.frames == [] ==> o.b == b0 && p == Palloc(c, b0, pf)
    ensures Progress(c, b0, Going(b2, o.frames + [p], o.tables + tables), d, pf, q)
  {
    hide FreeIn, Good, BitsTaken, At, Present, FrameOf, PageAt, WereFree, Palloc, RunMapped, OthersSame,
         DirectoryGrown, SlotsWithin, StaysOpen, PagesTurn, Unused, TableFrame;
    var at: PageNo := q + |o.frames|;
    GoodParts(c, o.b, d);
    GoodTurn(c, o.b, d, pf, at, b2, p, tables);
    TakenMore(c, b0, o.b, b2, pf, o.frames, o.tables, [p], tables);
    ProgressFree(c, b0, o.b, pf, o.frames, o.tables, p, tables);
    ProgressPages(b0.mem, o.b.mem, b2.mem, d, q, o.frames, p, tables);
    ProgressDirectory(b0.mem, o.b.mem, b2.mem, d, at, p, o.tables, tables);
    ProgressSlots(b0.mem, o.b.mem, b2.mem, d, q, |o.frames|, p, tables);
    TurnOpen(o.b.mem, b2.mem, d, at, p, tables);
    OpenTwice(b0.mem, o.b.mem, b2.mem, d);
  }

  lemma TurnOpen(mem: Phys, mem2: Phys, d: FrameNo, q: PageNo, p: FrameNo, tables: seq<FrameNo>)
    requires PagesTurn(mem, mem2, d, q, p, tables)
    ensures StaysOpen(mem, mem2, d)
  {
  }

  lemma ProgressSlots(mem0: Phys, mem: Phys, mem2: Phys, d: FrameNo, q: PageNo, n: nat, p: FrameNo,
                      more: seq<FrameNo>)
    requires q + n < 0x10_0000 && SlotsWithin(mem0, mem, d, q, n) && PagesTurn(mem, mem2, d, q + n, p, more)
    ensures SlotsWithin(mem0, mem2, d, q, n + 1)
  {
    hide At, Present, PageAt;
  }

  lemma ProgressFree(c: Pools, b0: Books, b: Books, pf: PoolFlag, frames: seq<FrameNo>, tables: seq<FrameNo>,
                     p: FrameNo, more: seq<FrameNo>)
    requires PoolsOk(c) && Sized(c, b0) && Sized(c, b)
    requires WereFree(c, b0, pf, frames, tables) && Taken(c, b0, b, pf, frames, tables)
    requires FreeIn(c, b, pf, p) && forall t :: t in more ==> TableFrame(c, b, t) && t != p
    ensures WereFree(c, b0, pf, frames + [p], tables + more)
  {
    TakenFree(c, b0, b, pf, frames, tables, pf, p);
    assert 0 !in frames && p != 0;
    forall t | t in more ensures TableFrame(c, b0, t) && t !in frames {
      TakenFree(c, b0, b, pf, frames, tables, Kernel, t);
    }
    hide FreeIn, Taken;
    forall f | f in frames + [p] ensures FreeIn(c, b0, pf, f) {
      assert f in frames || f == p;
    }
    forall t | t in tables + more ensures TableFrame(c, b0, t) && t !in frames + [p] {
      assert t in tables || t in more;
    }
  }

  lemma ProgressPages(mem0: Phys, mem: Phys, mem2: Phys, d: FrameNo, q: PageNo, frames: seq<FrameNo>, p: FrameNo,
                      tables: seq<FrameNo>)
    requires OrdinaryRun(q, |frames| + 1)
    requires RunMapped(mem, d, q, frames) && OthersSame(mem0, mem, d, q, |frames|)
    requires PagesTurn(mem, mem2, d, q + |frames|, p, tables)
    ensures RunMapped(mem2, d, q, frames + [p]) && OthersSame(mem0, mem2, d, q, |frames| + 1)
  {
    hide At, Present, PageAt;
    var all := frames + [p];
    forall j | 0 <= j < |all| ensures PageAt(mem2, d, q + j) == Some(all[j]) {
      assert j < |frames| ==> all[j] == frames[j];
    }
  }

  lemma ProgressDirectory(mem0: Phys, mem: Phys, mem2: Phys, d: FrameNo, at: PageNo, p: FrameNo, tables: seq<FrameNo>,
                          more: seq<FrameNo>)
    requires DirectoryGrown(mem0, mem, d, tables) && PagesTurn(mem, mem2, d, at, p, more)
    ensures DirectoryGrown(mem0, mem2, d, tables + more)
  {
    hide At, Present, PageAt, FrameOf;
    var slot := at / 1024;
    assert InFrame(slot);
    if |more| == 1 { assert more[0] in tables + more; }
    forall t | t in tables + more
      ensures exists k :: InFrame(k) && !Present(At(mem0, d, k)) && At(mem2, d, k) == EntryFor(t)
    {
      if t in more {
        assert t == more[0] && At(mem2, d, slot) == EntryFor(t);
        assert !Present(At(mem, d, slot)) ==> !Present(At(mem0, d, slot));
      } else {
        assert t in tables;
        var k :| InFrame(k) && !Present(At(mem0, d, k)) && At(mem, d, k) == EntryFor(t);
        assert At(mem2, d, k) == At(mem, d, k);
      }
    }
  }

  /** Frame 0 becomes a page table when it is made one. */
  lemma ZeroTables(mem0: Phys, mem: Phys, d: FrameNo, tables: seq<FrameNo>)
    requires DirectoryGrown(mem0, mem, d, tables) && !ZeroTable(mem0, d) && 0 !in tables
    ensures !ZeroTable(mem, d)
  {
    hide Present, FrameOf;
    forall k | 1 <= k < 1023 && Present(At(mem, d, k)) ensures FrameOf(At(mem, d, k)) != 0 {
      assert InFrame(k);
      assert At(mem0, d, k) == At(mem, d, k) || FrameOf(At(mem, d, k)) in tables;
    }
  }

  /** While no second page table gets into frame 0, the loop of malloc_pages never fails an assertion.  After
      every turn, and also when it ran out of frames, the pages taken so far are mapped to distinct frames
      that were free, all other pages are as before, and the pools lack exactly the frames taken.  When that
      is, PageCounts says. */
  lemma {:induction false} GrowProgress(c: Pools, b: Books, d: FrameNo, pf: PoolFlag, q: PageNo, i: nat)
    requires Good(c, b, d) && OrdinaryRun(q, i)
    requires RunUnmapped(b.mem, d, q, i)
    ensures var o := Grow(c, b, d, pf, q, i);
            Zeros(o.tables) <= Spare(b.mem, d) ==>
              && !o.AssertFailed? && Progress(c, b, Kept(o), d, pf, q)
              && (o.Going? ==> |o.frames| == i)
              && (o.OutOfFrames? ==> |o.frames| < i && Full(c, o.b, pf))
    decreases i
  {
    hide Progress, Good, RunUnmapped, OnePage, Full, ZeroTable;
    if i == 0 {
      NoProgress(c, b, d, pf, q);
    } else {
      RunUnmappedPart(b.mem, d, q, i);
      GoodParts(c, b, d);
      hide Grow;
      GrowProgress(c, b, d, pf, q, i - 1);
      var o := Grow(c, b, d, pf, q, i - 1);
      GrowUnfold(c, b, d, pf, q, i);
      if o.Going? {
        OnePageParts(c, o, d, pf, q + i - 1);
        if Zeros(o.tables) <= Spare(b.mem, d) && !Full(c, o.b, pf) {
          GrowTurn(c, b, o, d, pf, q);
        }
      }
    }
  }

  lemma GrowNone(c: Pools, b: Books, d: FrameNo, pf: PoolFlag, q: PageNo)
    requires PoolsOk(c) && Sized(c, b)
    ensures Grow(c, b, d, pf, q, 0) == Going(b, [], [])
  {
  }

  lemma GrowUnfold(c: Pools, b: Books, d: FrameNo, pf: PoolFlag, q: PageNo, i: nat)
    requires PoolsOk(c) && Sized(c, b) && q + i <= 0x10_0000 && i > 0
    ensures var o := Grow(c, b, d, pf, q, i - 1);
            Grow(c, b, d, pf, q, i) == if o.Going? then OnePage(c, o, d, pf, q + i - 1) else o
  {
  }

  lemma OnePageParts(c: Pools, o: Growth, d: FrameNo, pf: PoolFlag, q: PageNo)
    requires PoolsOk(c) && o.Going? && Sized(c, o.b)
    ensures var r := OnePage(c, o, d, pf, q);
            && (Full(c, o.b, pf) ==> r == OutOfFrames(o.b, o.frames, o.tables))
            && (r.OutOfFrames? ==> Full(c, o.b, pf))
            && Zeros(o.tables) <= Zeros(r.tables)
  {
    hide Full, FirstFree, Mapped;
  }

  lemma NoProgress(c: Pools, b: Books, d: FrameNo, pf: PoolFlag, q: PageNo)
    requires Good(c, b, d)
    ensures Progress(c, b, Going(b, [], []), d, pf, q)
  {
  }

  lemma RunUnmappedPart(mem: Phys, d: FrameNo, q: PageNo, n: nat)
    requires 0 < n && q + n <= 0x10_0000 && RunUnmapped(mem, d, q, n)
    ensures RunUnmapped(mem, d, q, n - 1) && PageAt(mem, d, q + n - 1) == None
  {
  }

  /** What one more page makes of the loop. */
  lemma GrowTurn(c: Pools, b: Books, o: Growth, d: FrameNo, pf: PoolFlag, q: PageNo)
    requires PoolsOk(c) && Sized(c, b) && Progress(c, b, o, d, pf, q) && !Full(c, o.b, pf)
    requires OrdinaryRun(q, |o.frames| + 1)
    requires PageAt(b.mem, d, q + |o.frames|) == None && (o.frames == [] ==> o.b == b)
    requires Zeros(o.tables) <= Spare(b.mem, d)
    ensures var r := OnePage(c, o, d, pf, q + |o.frames|);
            && (Zeros(r.tables) <= Spare(b.mem, d) ==>
                  r.Going? && |r.frames| == |o.frames| + 1 && Progress(c, b, r, d, pf, q))
  {
    hide FreeIn, Good, Taken, At, Present, Pde, FrameOf, PageAt, WereFree, Palloc, AfterPalloc, Full, RunMapped,
         DirectoryGrown, Turn, PageTableAdd, Addr, Mapped, ZeroTable;
    var at: PageNo := q + |o.frames|;
    GoodParts(c, o.b, d);
    assert Ordinary(at);
    assert PageAt(o.b.mem, d, at) == PageAt(b.mem, d, at);
    hide OthersSame, Progress;
    var had := Present(Pde(o.b.mem, d, Addr(at)));
    var b1 := AfterPalloc(c, o.b, pf);
    var p, t := Palloc(c, o.b, pf), Palloc(c, b1, Kernel);
    AddMakesTable(c, b1, d, at, p);
    TableBits(c, b1, pf);
    var r := OnePage(c, o, d, pf, at);
    if Zeros(r.tables) <= Spare(b.mem, d) {
      if !had && t == 0 { NoZeroTable(c, b, o, d, pf, q); }
      OneTurn(c, o.b, d, pf, at);
      var b2 := PageTableAdd(c, b1, d, Addr(at), p).value;
      var tables := if had then [] else [t];
      ProgressTurn(c, b, o, d, pf, q, b2, p, tables);
      assert o.tables + [] == o.tables;
    }
  }

  lemma NoZeroTable(c: Pools, b: Books, o: Growth, d: FrameNo, pf: PoolFlag, q: PageNo)
    requires PoolsOk(c) && Sized(c, b) && Progress(c, b, o, d, pf, q) && Zeros(o.tables + [0]) <= Spare(b.mem, d)
    ensures !ZeroTable(o.b.mem, d)
  {
    hide Good, WereFree, Taken, RunMapped, OthersSame, SlotsWithin, DirectoryGrown, ZeroTable;
    assert multiset(o.tables + [0]) == multiset(o.tables) + multiset{0};
    ZeroTables(b.mem, o.b.mem, d, o.tables);
  }

  lemma AddMakesTable(c: Pools, b: Books, d: FrameNo, q: PageNo, p: FrameNo)
    requires PoolsOk(c) && Sized(c, b)
    ensures !Present(Pde(b.mem, d, Addr(q))) ==> PageTableAdd(c, b, d, Addr(q), p).Some?
  {
  }

  // ----- page_table_add finds its way -----

  /** What is needed for page_table_add to find its way: the directory maps itself, no page table is the
      directory, and no pool will hand it out. */
  ghost predicate Reachable(c: Pools, b: Books, d: FrameNo) {
    PoolsOk(c) && Sized(c, b) && SelfMapped(b.mem, d) && TablesOutside(b.mem, d) && d != 0 && !Free(c, b, d)
  }

  lemma GoodReachable(c: Pools, b: Books, d: FrameNo)
    requires Good(c, b, d)
    ensures Reachable(c, b, d)
  {
  }

  lemma ReachableParts(c: Pools, b: Books, d: FrameNo)
    requires Reachable(c, b, d)
    ensures PoolsOk(c) && Sized(c, b) && SelfMapped(b.mem, d) && Palloc(c, b, Kernel) != d
  {
    if !Full(c, b, Kernel) { PallocTakes(c, b, Kernel); }
  }

  /** The page that page_table_add maps can be written in user mode, unless the directory entry that it found
      says otherwise. */
  lemma AddUsable(c: Pools, b: Books, d: FrameNo, v: Word, p: FrameNo)
    requires Reachable(c, b, d) && Slot(v) < 1023
    ensures PoolsOk(c) && Sized(c, b)
    ensures var r, pde := PageTableAdd(c, b, d, v, p), Pde(b.mem, d, v);
            r.Some? ==> (Usable(r.value.mem, d, v, p) <==> (Present(pde) ==> Open(pde)))
  {
    ReachableParts(c, b, d);
    hide Usable, Mapped, Palloc, AfterPalloc, Free, SelfMapped, Open;
    MapUsableIff(b.mem, d, v, p, if Present(Pde(b.mem, d, v)) then 0 else Palloc(c, b, Kernel));
  }

  /** page_table_add keeps finding its way. */
  lemma ReachableTurn(c: Pools, b: Books, d: FrameNo, pf: PoolFlag, q: PageNo)
    requires Reachable(c, b, d) && Ordinary(q)
    ensures Reachable(c, AfterPalloc(c, b, pf), d)
    ensures var r := PageTableAdd(c, AfterPalloc(c, b, pf), d, Addr(q), Palloc(c, b, pf));
            r.Some? ==> Reachable(c, r.value, d)
  {
    hide At, Palloc, AfterPalloc, Full, Present, Mapped, FrameOf, EntryFor, SelfMapped, TablesOutside;
    var b1 := AfterPalloc(c, b, pf);
    AfterPallocFree(c, b, pf);
    AfterPallocFree(c, b1, Kernel);
    var v := Addr(q);
    var t := Palloc(c, b1, Kernel);
    assert t != d by { ReachableParts(c, b1, d); }
    var made := if Present(Pde(b.mem, d, v)) then 0 else t;
    MappedReachable(b.mem, d, v, Palloc(c, b, pf), made);
  }

  lemma AfterPallocFree(c: Pools, b: Books, pf: PoolFlag)
    requires PoolsOk(c) && Sized(c, b)
    ensures Sized(c, AfterPalloc(c, b, pf)) && AfterPalloc(c, b, pf).mem == b.mem
    ensures forall f: FrameNo :: Free(c, AfterPalloc(c, b, pf), f) ==> Free(c, b, f)
  {
    if !Full(c, b, pf) { PallocTakes(c, b, pf); }
    hide FreeIn, PallocBit;
  }

  lemma MappedReachable(mem: Phys, d: FrameNo, v: Word, p: FrameNo, made: FrameNo)
    requires SelfMapped(mem, d) && TablesOutside(mem, d) && d != 0 && Slot(v) < 1023
    requires !Present(Pde(mem, d, v)) ==> made != d
    ensures SelfMapped(Mapped(mem, d, v, p, made), d) && TablesOutside(Mapped(mem, d, v, p, made), d)
  {
    forall k | InFrame(k)
      ensures At(Mapped(mem, d, v, p, made), d, k) ==
              if k == Slot(v) && !Present(Pde(mem, d, v)) then EntryFor(made) else At(mem, d, k)
    {
      AddDirectory(mem, d, v, p, made, k);
    }
    hide At, Present, FrameOf, Mapped, EntryFor;
    assert forall k :: 0 <= k < 1024 ==> InFrame(k);
    assert InFrame(1023);
  }
}
