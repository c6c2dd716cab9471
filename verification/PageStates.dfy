/** What the page allocator has handed out of one virtual pool: the state, its invariant, and the account of
    bits, frames and pages since a start. */
module PageStates {
  import opened Paging
  import opened PageBooks
  import opened PageCounts
  import opened PageRelease
  import Bitmaps
  import UP = UserProcess
  import PM = PageManager

  /** One virtual pool and the pool of frames it draws on. */
  datatype Setting = Setting(c: Pools, d: FrameNo, pf: PoolFlag, first: nat)

  /** The books, the bits of the virtual pool, and what has happened: the live allocations by their first
      page, with the frames behind their pages; pages and frames that a malloc_pages without enough frames
      kept; and the frames that became page tables. */
  datatype State = State(b: Books, bits: seq<bool>, live: map<nat, seq<FrameNo>>,
                         lostPages: set<nat>, lostFrames: set<FrameNo>, tables: seq<FrameNo>)

  // ----- the invariant -----

  predicate FramesApart(a: seq<FrameNo>, b: seq<FrameNo>) {
    forall f :: f in a ==> f !in b
  }

  /** A frame that malloc_pages took and that is not back: in use, of the right pool, and no page table. */
  ghost predicate HeldFrame(e: Setting, b: Books, f: FrameNo)
    requires PoolsOk(e.c) && Sized(e.c, b)
  {
    && !Free(e.c, b, f) && NotATable(b.mem, e.d, f)
    && StartOf(e.c, e.pf) <= f < StartOf(e.c, e.pf) + LenOf(e.c, e.pf)
  }

  /** The pages from q on are in the pool, their bits set, mapped one by one to different frames; the first
      user frame can only come first. */
  ghost predicate Held(e: Setting, s: State, q: nat, frames: seq<FrameNo>) {
    && PoolsOk(e.c) && Sized(e.c, s.b)
    && frames != [] && e.first <= q && q + |frames| <= e.first + |s.bits| <= 0x10_0000
    && RunMapped(s.b.mem, e.d, q, frames) && PageBooks.Distinct(frames)
    && (forall x {:trigger s.bits[x]} :: q - e.first <= x < q - e.first + |frames| ==> s.bits[x])
    && (forall f :: f in frames ==> HeldFrame(e, s.b, f))
    && (forall j :: 0 < j < |frames| ==> frames[j] != e.c.uStart)
  }

  predicate InRun(x: int, q: int, n: nat) {
    q <= x < q + n
  }

  /** Page x is in a live allocation. */
  ghost predicate LivePage(s: State, x: int) {
    exists p {:trigger p in s.live} :: p in s.live && InRun(x, p, |s.live[p]|)
  }

  /** Frame f is behind a page of a live allocation. */
  ghost predicate LiveFrame(s: State, f: FrameNo) {
    exists p {:trigger p in s.live} :: p in s.live && f in s.live[p]
  }

  /** What was lost stays set, and apart from what is live. */
  ghost predicate LostKept(e: Setting, s: State) {
    && PoolsOk(e.c) && Sized(e.c, s.b)
    && (forall x {:trigger x in s.lostPages} :: x in s.lostPages ==>
          e.first <= x < e.first + |s.bits| && s.bits[x - e.first] && !LivePage(s, x))
    && (forall f {:trigger f in s.lostFrames} :: f in s.lostFrames ==> HeldFrame(e, s.b, f) && !LiveFrame(s, f))
  }

  /** For the kernel pool every page table is there from the start. */
  ghost predicate KernelReady(e: Setting, s: State) {
    e.pf.Kernel? ==> UP.KernelTables(s.b.mem, e.d) && 1024 * 768 <= e.first
  }

  ghost predicate AllHeld(e: Setting, s: State) {
    && (forall p {:trigger p in s.live} :: p in s.live ==> Held(e, s, p, s.live[p]))
    && forall p, q {:trigger s.live[p], s.live[q]} :: p in s.live && q in s.live && p < q ==>
         p + |s.live[p]| <= q && FramesApart(s.live[p], s.live[q])
  }

  /** An address space that the allocator can work in, whose free bits stand for unmapped pages. */
  ghost predicate Ready(e: Setting, s: State) {
    && Good(e.c, s.b, e.d)
    && OrdinaryRun(e.first, |s.bits|)
    && UP.FreeBitsUnmapped(s.b.mem, e.d, e.first, s.bits)
    && KernelReady(e, s)
  }

  ghost predicate Inv(e: Setting, s: State) {
    Ready(e, s) && LostKept(e, s) && AllHeld(e, s)
  }

  // ----- the operations -----

  /** malloc_pages for a run of n free bits, as bitmap_scan finds one, for whose pages the page tables suffice;
      it may run out of frames. */
  ghost predicate Mallocs(e: Setting, s: State, start: nat, n: nat) {
    && PoolsOk(e.c) && Sized(e.c, s.b)
    && n >= 1 && Bitmaps.FreeRun(s.bits, start, n) && e.first + |s.bits| <= 0x10_0000
    && TablesSuffice(e.c, s.b, e.d, e.pf, e.first + start, n)
  }

  function PageRange(q: nat, n: nat): (r: set<nat>)
    ensures forall x: nat :: x in r <==> InRun(x, q, n)
  {
    set x: nat | q <= x < q + n && InRun(x, q, n)
  }

  ghost function AfterMalloc(e: Setting, s: State, start: nat, n: nat): State
    requires Mallocs(e, s, start, n)
  {
    var q := e.first + start;
    var o := Grow(e.c, s.b, e.d, e.pf, q, n);
    if o.AssertFailed? then s else      // not in an address space that is good
    var s1 := s.(b := o.b, bits := PM.RunSet(s.bits, start, n, true), tables := s.tables + o.tables);
    if o.Going? then s1.(live := s.live[q := o.frames])
    else s1.(lostPages := s.lostPages + PageRange(q, n), lostFrames := s.lostFrames + Members(o.frames))
  }

  /** A live allocation within the pool. */
  predicate Allocated(e: Setting, s: State, q: nat) {
    && q in s.live && e.first <= q && q - e.first + |s.live[q]| <= |s.bits| && q + |s.live[q]| < 0x10_0000
    && PoolsOk(e.c) && Sized(e.c, s.b)
  }

  /** free_pages of a live allocation gets to its end. */
  ghost predicate Releases(e: Setting, s: State, q: nat) {
    Allocated(e, s, q) && FreePages(e.c, s.b, e.d, q, |s.live[q]|).Done?
  }

  ghost function AfterRelease(e: Setting, s: State, q: nat): State
    requires Releases(e, s, q)
  {
    var n := |s.live[q]|;
    s.(b := FreePages(e.c, s.b, e.d, q, n).b, bits := PM.RunSet(s.bits, q - e.first, n, false), live := s.live - {q})
  }

  // ----- the account since a start -----

  /** Page x belongs to an allocation, and it is not free again. */
  ghost predicate TakenPage(s: State, x: int) {
    x in s.lostPages || LivePage(s, x)
  }

  /** Frame f was taken for a page, and it is not back. */
  ghost predicate TakenFrame(s: State, f: FrameNo) {
    f in s.lostFrames || LiveFrame(s, f)
  }

  ghost predicate NothingTaken(s: State) {
    s.live == map[] && s.lostPages == {} && s.lostFrames == {}
  }

  /** A bit of the virtual pool is set exactly when it was set at the start, or its page was taken since. */
  ghost predicate BitsSince(e: Setting, s0: State, s: State) {
    && |s.bits| == |s0.bits|
    && (forall x {:trigger s.bits[x]} :: 0 <= x < |s.bits| ==> (s.bits[x] <==> s0.bits[x] || TakenPage(s, e.first + x)))
    && (forall x {:trigger s0.bits[x]} :: 0 <= x < |s.bits| && s0.bits[x] ==> !TakenPage(s, e.first + x))
  }

  /** Frame number f, when it is one, was taken for a page from this pool, or for a page table. */
  ghost predicate Gone(s: State, f: int, mine: bool, tables: seq<FrameNo>) {
    0 <= f < 0x10_0000 && ((mine && TakenFrame(s, f)) || f in tables)
  }

  /** A bit of a pool is set exactly when it was set at the start, or its frame is gone. */
  ghost predicate PoolSince(start: FrameNo, was: seq<bool>, now: seq<bool>, s: State, mine: bool, tables: seq<FrameNo>) {
    && |now| == |was|
    && forall x: int {:trigger now[x]} :: 0 <= x < |was| ==> (now[x] <==> was[x] || Gone(s, start + x, mine, tables))
  }

  ghost predicate FramesSince(e: Setting, s0: State, s: State) {
    && PoolsOk(e.c) && Sized(e.c, s0.b)
    && PoolSince(e.c.kStart, s0.b.kernel, s.b.kernel, s, e.pf.Kernel?, s.tables)
    && PoolSince(e.c.uStart, s0.b.user, s.b.user, s, e.pf.User?, [])
    && (forall f {:trigger TakenFrame(s, f)} :: TakenFrame(s, f) ==> FreeIn(e.c, s0.b, e.pf, f) && f !in s.tables)
    && (forall t :: t in s.tables ==> TableFrame(e.c, s0.b, t))
  }

  /** Every other page is mapped as at the start, directory entries appeared for the tables only, and no entry
      that was open to the user is closed. */
  ghost predicate PagesSince(e: Setting, s0: State, s: State) {
    && DirectoryGrown(s0.b.mem, s.b.mem, e.d, s.tables)
    && StaysOpen(s0.b.mem, s.b.mem, e.d)
    && forall r: PageNo {:trigger PageAt(s.b.mem, e.d, r)} ::
         Ordinary(r) && !TakenPage(s, r) ==> PageAt(s.b.mem, e.d, r) == PageAt(s0.b.mem, e.d, r)
  }

  ghost predicate Since(e: Setting, s0: State, s: State) {
    && BitsSince(e, s0, s) && FramesSince(e, s0, s) && PagesSince(e, s0, s)
    && (e.pf.Kernel? ==> s.tables == [])
  }
}
