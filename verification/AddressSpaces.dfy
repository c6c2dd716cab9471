/** All page directories hold the same kernel half, in every reachable state. */
module AddressSpaces {
  import opened Paging

  const BOOT: FrameNo := 0x100      // PAGE_DIR_TABLE
  const KERNEL_SLOT := 768          // 0xc0000000
  const SELF_SLOT := 1023

  /** Physical memory and the frames that are page directories. */
  datatype Spaces = Spaces(mem: Phys, dirs: set<FrameNo>)

  // ----- the tables that the loader leaves behind -----

  function BootEntry(k: int): Word
    requires InFrame(k)
  {
    if k == 0 || k == KERNEL_SLOT then EntryFor(BOOT + 1)
    else if KERNEL_SLOT < k < SELF_SLOT then EntryFor(BOOT + 2 + (k - 769))
    else if k == SELF_SLOT then EntryFor(BOOT)
    else 0
  }

  /** The first MB of physical memory is mapped, at 0 and at 0xc0000000, through one page table. */
  ghost predicate Booted(s: Spaces) {
    && s.dirs == {BOOT}
    && (forall k :: InFrame(k) ==> At(s.mem, BOOT, k) == BootEntry(k))
    && (forall i :: InFrame(i) ==> At(s.mem, BOOT + 1, i) == if i < 256 then EntryFor(i) else 0)
    && (forall f: FrameNo, i :: BOOT + 2 <= f <= BOOT + 255 && InFrame(i) ==> At(s.mem, f, i) == 0)
  }

  // ----- the invariant -----

  ghost predicate SelfMaps(s: Spaces) {
    forall d :: d in s.dirs ==> SelfMapped(s.mem, d)
  }

  /** Every directory has the entries 768..1022 that the loader wrote. */
  ghost predicate KernelHalfAgrees(s: Spaces) {
    forall d: FrameNo, k {:trigger At(s.mem, d, k)} :: d in s.dirs && KERNEL_SLOT <= k < SELF_SLOT ==>
      At(s.mem, d, k) == BootEntry(k)
  }

  /** No page table is a directory. */
  ghost predicate TablesApart(s: Spaces) {
    forall d: FrameNo, k {:trigger At(s.mem, d, k)} :: d in s.dirs && 0 <= k < SELF_SLOT && Present(At(s.mem, d, k)) ==>
      FrameOf(At(s.mem, d, k)) !in s.dirs
  }

  /** A page table below 0xc0000000 of a process is in no other slot of any directory. */
  ghost predicate UserTablesOwned(s: Spaces) {
    forall d: FrameNo, j, e: FrameNo, k {:trigger At(s.mem, d, j), At(s.mem, e, k)} ::
      && d in s.dirs && d != BOOT && 0 <= j < KERNEL_SLOT && Present(At(s.mem, d, j))
      && e in s.dirs && 0 <= k < SELF_SLOT && Present(At(s.mem, e, k)) && (d != e || j != k) ==>
      FrameOf(At(s.mem, d, j)) != FrameOf(At(s.mem, e, k))
  }

  /** The boot directory has nothing between its first 4 MB and 0xc0000000. */
  ghost predicate BootLowEmpty(s: Spaces) {
    forall k {:trigger At(s.mem, BOOT, k)} :: 1 <= k < KERNEL_SLOT ==> !Present(At(s.mem, BOOT, k))
  }

  ghost predicate Inv(s: Spaces) {
    BOOT in s.dirs && SelfMaps(s) && KernelHalfAgrees(s) && TablesApart(s) && UserTablesOwned(s) && BootLowEmpty(s)
  }

  // ----- what can happen -----

  /** Frame f is no directory and no page table. */
  ghost predicate Fresh(s: Spaces, f: FrameNo) {
    && f !in s.dirs
    && forall d: FrameNo, k {:trigger At(s.mem, d, k)} ::
        d in s.dirs && 0 <= k < SELF_SLOT && Present(At(s.mem, d, k)) ==>
         FrameOf(At(s.mem, d, k)) != f
  }

  /** create_page_dir: frame f gets the slots from 768 on of the current directory, and itself at the end. */
  function Installed(mem: Phys, current: FrameNo, f: FrameNo): (r: Phys)
    ensures forall g: FrameNo, k {:trigger At(r, g, k)} :: InFrame(k) ==>
              At(r, g, k) == if g != f then At(mem, g, k)
                             else if k < KERNEL_SLOT then 0
                             else if k < SELF_SLOT then At(mem, current, k)
                             else EntryFor(f)
  {
    var frame: seq<Word> := seq(1024, k requires 0 <= k < 1024 =>
      if k < KERNEL_SLOT then 0 else if k < SELF_SLOT then At(mem, current, k) else EntryFor(f));
    mem[f := frame]
  }

  datatype Op =
    | Map(d: FrameNo, v: Word, p: FrameNo, made: FrameNo)    // page_table_add with directory d active
    | Unmap(d: FrameNo, v: Word)                             // page_table_pte_remove
    | Create(current: FrameNo, f: FrameNo)                   // create_page_dir
    | Store(f: FrameNo, i: int, w: Word)                     // any other write, to a page of data

  ghost predicate Allowed(s: Spaces, op: Op) {
    match op
    case Map(d, v, p, made) =>
      // kernel threads, which run on the boot directory, map kernel addresses only
      && d in s.dirs && Slot(v) < SELF_SLOT && (d == BOOT ==> Slot(v) >= KERNEL_SLOT)
      && (!Present(Pde(s.mem, d, v)) ==> Fresh(s, made))
    case Unmap(d, v) => d in s.dirs && Slot(v) < SELF_SLOT && Present(Pde(s.mem, d, v))
    case Create(current, f) => current in s.dirs && Fresh(s, f)
    case Store(f, i, w) => InFrame(i) && Fresh(s, f)
  }

  function Step(s: Spaces, op: Op): Spaces
    requires op.Store? ==> InFrame(op.i)
  {
    match op
    case Map(d, v, p, made) => s.(mem := Mapped(s.mem, d, v, p, made))
    case Unmap(d, v) => s.(mem := PteRemoved(s.mem, d, v))
    case Create(current, f) => Spaces(Installed(s.mem, current, f), s.dirs + {f})
    case Store(f, i, w) => s.(mem := Poke(s.mem, f, i, w))
  }

  ghost predicate IsRun(run: seq<Spaces>, ops: seq<Op>) {
    && |run| == |ops| + 1 && Booted(run[0])
    && forall i :: 0 <= i < |ops| ==> Allowed(run[i], ops[i]) && run[i + 1] == Step(run[i], ops[i])
  }

  // ----- preservation -----

  lemma BootInv(s: Spaces)
    requires Booted(s)
    ensures Inv(s)
  {
    assert InFrame(SELF_SLOT);
    forall k | 0 <= k < 1024 ensures At(s.mem, BOOT, k) == BootEntry(k) {
      assert InFrame(k);
    }
  }

  /** What the loader maps: the first MB of physical memory, at 0 and at 0xc0000000, and nothing else below the
      self-map; and where its page tables are, one behind the other, behind the directory. */
  lemma BootTranslates(s: Spaces, v: Word)
    requires Booted(s) && Slot(v) < SELF_SLOT
    ensures Walk(s.mem, BOOT, v) == if v < 0x10_0000 then Some(v)
                                    else if 0xc000_0000 <= v < 0xc010_0000 then Some(v - 0xc000_0000) else None
    ensures Slot(v) >= KERNEL_SLOT ==> FrameOf(Pde(s.mem, BOOT, v)) == 0x101 + (Slot(v) - KERNEL_SLOT)
  {
    var k, i := Slot(v), Index(v);
    assert InFrame(k) && InFrame(i);
    assert At(s.mem, BOOT, k) == BootEntry(k);
    VirtualParts(v);
    if k == 0 || k == KERNEL_SLOT {
      assert At(s.mem, BOOT + 1, i) == if i < 256 then EntryFor(i) else 0;
    } else if k > KERNEL_SLOT {
      assert At(s.mem, BOOT + 2 + (k - 769), i) == 0;
    }
  }

  lemma VirtualParts(v: Word)
    ensures v == 0x40_0000 * Slot(v) + 0x1000 * Index(v) + Offset(v)
  {
  }

  /** A change outside the directories that leaves the set of directories alone. */
  lemma SameDirs(s: Spaces, s': Spaces)
    requires Inv(s) && s'.dirs == s.dirs
    requires forall d: FrameNo, k {:trigger At(s'.mem, d, k)} ::
        d in s.dirs && InFrame(k) ==> At(s'.mem, d, k) == At(s.mem, d, k)
    ensures Inv(s')
  {
    hide Present, FrameOf, At;
    assert forall d: FrameNo, k :: d in s.dirs && 0 <= k < 1024 ==> InFrame(k) && At(s'.mem, d, k) == At(s.mem, d, k);
    assert InFrame(SELF_SLOT);
  }

  lemma NewTableInv(s: Spaces, s': Spaces, d: FrameNo, k0: int, made: FrameNo)
    requires Inv(s) && s'.dirs == s.dirs && d in s.dirs && d != BOOT && 0 <= k0 < KERNEL_SLOT
    requires !Present(At(s.mem, d, k0)) && Fresh(s, made)
    requires forall e: FrameNo, k {:trigger At(s'.mem, e, k)} :: e in s.dirs && InFrame(k) ==>
               At(s'.mem, e, k) == if e == d && k == k0 then EntryFor(made) else At(s.mem, e, k)
    ensures Inv(s')
  {
    hide Present, FrameOf, At;
    assert forall e: FrameNo, k :: e in s.dirs && 0 <= k < 1024 ==>
             InFrame(k) && At(s'.mem, e, k) == if e == d && k == k0 then EntryFor(made) else At(s.mem, e, k);
    assert InFrame(SELF_SLOT);
  }

  lemma CreateInv(s: Spaces, current: FrameNo, f: FrameNo)
    requires Inv(s) && current in s.dirs && Fresh(s, f)
    ensures Inv(Step(s, Create(current, f)))
  {
    var s' := Step(s, Create(current, f));
    assert !Present(0);
    hide Present, FrameOf, At, Installed;
    forall g: FrameNo, k: int | 0 <= k < 1024
      ensures At(s'.mem, g, k) == (if g != f then At(s.mem, g, k)
                                   else if k < KERNEL_SLOT then 0
                                   else if k < SELF_SLOT then At(s.mem, current, k)
                                   else EntryFor(f))
    {
      assert InFrame(k);
    }
    assert InFrame(SELF_SLOT) && BOOT != f;
  }

  lemma StepInv(s: Spaces, op: Op)
    requires Inv(s) && Allowed(s, op)
    ensures Inv(Step(s, op))
  {
    var s' := Step(s, op);
    match op
    case Map(d, v, p, made) =>
      hide Present, FrameOf, At, Poke, Cleared, EntryFor, Index;
      if Present(Pde(s.mem, d, v)) {
        SameDirs(s, s');
      } else {
        NewTableInv(s, s', d, Slot(v), made);
      }
    case Unmap(d, v) =>
      hide Present, FrameOf, At, Poke, Index;
      SameDirs(s, s');
    case Create(current, f) =>
      CreateInv(s, current, f);
    case Store(f, i, w) =>
      SameDirs(s, s');
  }

  /** In every reachable state all page directories hold the same, present, entries 768..1022. */
  lemma {:induction false} KernelHalfInvariant(run: seq<Spaces>, ops: seq<Op>, n: nat)
    requires IsRun(run, ops) && n < |run|
    ensures Inv(run[n])
    decreases n
  {
    if n == 0 {
      BootInv(run[0]);
    } else {
      KernelHalfInvariant(run, ops, n - 1);
      StepInv(run[n - 1], ops[n - 1]);
    }
  }

  // ----- what follows -----

  /** The same kernel addresses in every address space. */
  lemma KernelSeenAlike(s: Spaces, d: FrameNo, e: FrameNo, v: Word)
    requires Inv(s) && d in s.dirs && e in s.dirs && KERNEL_SLOT <= Slot(v) < SELF_SLOT
    ensures Walk(s.mem, d, v) == Walk(s.mem, e, v)
  {
    assert At(s.mem, d, Slot(v)) == BootEntry(Slot(v)) == At(s.mem, e, Slot(v));
  }

  /** A kernel page mapped in one process, or before the process existed, is there in all. */
  lemma KernelMapSeenByAll(s: Spaces, d: FrameNo, v: Word, p: FrameNo, made: FrameNo, e: FrameNo, o: int)
    requires Inv(s) && Allowed(s, Map(d, v, p, made)) && KERNEL_SLOT <= Slot(v) && e in s.dirs && 0 <= o < PAGE_SIZE
    ensures var w: Word := v / 0x1000 * 0x1000 + o;
            Walk(Step(s, Map(d, v, p, made)).mem, e, w) == Some(0x1000 * p + o)
  {
    var w: Word := v / 0x1000 * 0x1000 + o;
    assert w / 0x1000 == v / 0x1000;
    PageParts(v, w);
    assert At(s.mem, d, Slot(v)) == BootEntry(Slot(v));
    StepInv(s, Map(d, v, p, made));
    MapTranslates(s.mem, d, v, p, made, o);
    KernelSeenAlike(Step(s, Map(d, v, p, made)), d, e, w);
  }

  /** A page that a process maps below 0xc0000000 changes no other address space, and in its own no
      other page. */
  lemma UserMapIsPrivate(s: Spaces, d: FrameNo, v: Word, p: FrameNo, made: FrameNo, e: FrameNo, w: Word)
    requires Inv(s) && Allowed(s, Map(d, v, p, made)) && Slot(v) < KERNEL_SLOT && e in s.dirs && Slot(w) < SELF_SLOT
    requires e != d || !SamePage(v, w)
    ensures Walk(Step(s, Map(d, v, p, made)).mem, e, w) == Walk(s.mem, e, w)
  {
    PageParts(v, w);
    hide At, Present, FrameOf, Slot, Index, Mapped, Poke, Cleared, SamePage;
    if Present(Pde(s.mem, d, v)) {
      MapFrame(s.mem, d, v, p, made, e, w);
    } else if e == d {
      NewTableFits(s, d, made);
      MapFrameNewTable(s.mem, d, v, p, made, w);
    } else {
      UserMapElsewhere(s, d, v, p, made, e, w);
    }
  }

  lemma NewTableFits(s: Spaces, d: FrameNo, made: FrameNo)
    requires Inv(s) && d in s.dirs && Fresh(s, made)
    ensures NotATable(s.mem, d, made) && TablesOutside(s.mem, d)
  {
    hide At, Present, FrameOf;
    forall k | InFrame(k) && Present(At(s.mem, d, k)) ensures FrameOf(At(s.mem, d, k)) != made {
      assert k < SELF_SLOT || k == SELF_SLOT;
    }
  }

  /** The tables of another directory e are neither directory d nor the new table. */
  lemma UserMapElsewhere(s: Spaces, d: FrameNo, v: Word, p: FrameNo, made: FrameNo, e: FrameNo, w: Word)
    requires Inv(s) && d in s.dirs && e in s.dirs && e != d && Fresh(s, made) && !Present(Pde(s.mem, d, v))
    requires Slot(w) < SELF_SLOT
    ensures Walk(Mapped(s.mem, d, v, p, made), e, w) == Walk(s.mem, e, w)
  {
    hide Present, FrameOf, At, Slot, Index, Poke, Cleared, EntryFor, KernelHalfAgrees, UserTablesOwned, BootLowEmpty,
         SelfMaps;
    assert Pde(Mapped(s.mem, d, v, p, made), e, w) == Pde(s.mem, e, w);
    if Present(Pde(s.mem, e, w)) {
      assert Pte(Mapped(s.mem, d, v, p, made), e, w) == Pte(s.mem, e, w);
    }
  }

  /** The exception, in the boot directory only: its entries 0 and 768 hold one page table, so that the
      first page of the kernel heap, once mapped, is also mapped at 0x00100000. */
  lemma LowAlias(s: Spaces, p: FrameNo, made: FrameNo)
    requires Booted(s)
    ensures Walk(s.mem, BOOT, 0x0010_0000) == None
    ensures Walk(Step(s, Map(BOOT, 0xc010_0000, p, made)).mem, BOOT, 0x0010_0000) == Some(0x1000 * p)
  {
    LowParts();
    hide Slot, Index, Offset;
    assert InFrame(0) && InFrame(768) && InFrame(256);
    assert At(s.mem, BOOT, 0) == BootEntry(0) && At(s.mem, BOOT, 768) == BootEntry(768);
    assert At(s.mem, BOOT + 1, 256) == 0;
    hide At, EntryFor, Mapped;
    MapFrame(s.mem, BOOT, 0xc010_0000, p, made, BOOT, 0x0010_0000);
  }

  lemma LowParts()
    ensures Slot(0xc010_0000) == 768 && Index(0xc010_0000) == 256
    ensures Slot(0x0010_0000) == 0 && Index(0x0010_0000) == 256 && Offset(0x0010_0000) == 0
  {
  }

  /** In each directory no page table is in two slots, the first slot aside. */
  lemma TablesOnce(s: Spaces, d: FrameNo, j: int, k: int)
    requires Inv(s) && d in s.dirs && 1 <= j < k < SELF_SLOT
    requires Present(At(s.mem, d, j)) && Present(At(s.mem, d, k))
    ensures FrameOf(At(s.mem, d, j)) != FrameOf(At(s.mem, d, k))
  {
    hide At, Present, FrameOf;
    if j >= KERNEL_SLOT {
      assert At(s.mem, d, j) == BootEntry(j) && At(s.mem, d, k) == BootEntry(k);
    }
  }
}
