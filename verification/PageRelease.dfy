/** free_pages, and that it undoes malloc_pages. */
module PageRelease {
  import opened Paging
  import opened PageBooks
  import opened PageCounts

  /** Done; stopped on a failed assertion; a page fault, where addr_virtual_to_phy was asked for an address
      that has no page table; or a bit cleared behind the user bitmap. */
  datatype Release = Done(b: Books) | Stopped | Fault | Stray

  /** A frame that pfree accounts for in one of the bitmaps. */
  predicate InPools(c: Pools, f: FrameNo) {
    c.kStart <= f < c.uStart + c.uLen
  }

  /** pfree, with its comparison as written: the first frame of the user pool goes to the kernel bitmap. */
  function Pfree(c: Pools, b: Books, f: FrameNo): (r: Books)
    requires PoolsOk(c) && Sized(c, b) && InPools(c, f)
    ensures Sized(c, r) && r.mem == b.mem
  {
    if f > c.uStart then b.(user := b.user[f - c.uStart := false])
    else b.(kernel := b.kernel[f - c.kStart := false])
  }

  /** Afterwards the frame can be handed out again, and no other frame changes, unless it is the first frame of the
      user pool: that one stays taken. */
  lemma PfreeFrees(c: Pools, b: Books, f: FrameNo)
    requires PoolsOk(c) && Sized(c, b) && InPools(c, f)
    ensures forall pg, g {:trigger FreeIn(c, Pfree(c, b, f), pg, g)} ::
        FreeIn(c, Pfree(c, b, f), pg, g) <==>
        FreeIn(c, b, pg, g) || (g == f != c.uStart && StartOf(c, pg) <= f < StartOf(c, pg) + LenOf(c, pg))
  {
  }

  /** The frame that addr_virtual_to_phy finds for page q, present or not; there must be a page table. */
  function FrameFor(mem: Phys, d: FrameNo, q: PageNo): FrameNo {
    FrameOf(Pte(mem, d, Addr(q)))
  }

  predicate HasTable(mem: Phys, d: FrameNo, q: PageNo) {
    Present(Pde(mem, d, Addr(q)))
  }

  /** The assertion in the loop that runs when the first frame lies behind (user) the first user frame, or
      not. */
  predicate FrameAllowed(c: Pools, user: bool, f: FrameNo) {
    if user then f >= c.uStart else c.kStart <= f < c.uStart
  }

  /** The loop of free_pages after i pages. */
  function Shrink(c: Pools, b: Books, d: FrameNo, user: bool, q: PageNo, i: nat): (r: Release)
    requires PoolsOk(c) && Sized(c, b) && q + i < 0x10_0000
    ensures r.Done? ==> Sized(c, r.b)
    decreases i
  {
    if i == 0 then if HasTable(b.mem, d, q) then Done(b) else Fault
    else
      var r := Shrink(c, b, d, user, q, i - 1);
      if !r.Done? then r else
      var f := FrameFor(r.b.mem, d, q + i - 1);
      if !FrameAllowed(c, user, f) then Stopped else
      if !InPools(c, f) then Stray else
      var b1 := Pfree(c, r.b, f);
      var mem := PteRemoved(b1.mem, d, Addr(q + i - 1));
      if HasTable(mem, d, q + i) then Done(b1.(mem := mem)) else Fault
  }

  /** free_pages of n pages from page q on. */
  function FreePages(c: Pools, b: Books, d: FrameNo, q: PageNo, n: nat): Release
    requires PoolsOk(c) && Sized(c, b) && q + n < 0x10_0000
  {
    if n < 1 then Stopped
    else if !HasTable(b.mem, d, q) then Fault
    else if FrameFor(b.mem, d, q) < 0x102 then Stopped
    else Shrink(c, b, d, FrameFor(b.mem, d, q) > c.uStart, q, n)
  }

  // ----- one page -----

  /** Taking away the P bit of one page changes that page only. */
  lemma RemovePage(mem: Phys, d: FrameNo, q: PageNo, r: PageNo)
    requires Ordinary(q) && Ordinary(r)
    requires OwnTables(mem, d) && TablesOutside(mem, d) && HasTable(mem, d, q)
    ensures PageAt(PteRemoved(mem, d, Addr(q)), d, r) == if r == q then None else PageAt(mem, d, r)
  {
    var v, w := Addr(q), Addr(r);
    var after := PteRemoved(mem, d, v);
    WalkByPage(mem, d, w);
    WalkByPage(after, d, w);
    PageParts(v, w);
    WalkAfterPoke(mem, d, w, FrameOf(Pde(mem, d, v)), Index(v), WithoutP(Pte(mem, d, v)));
  }

  lemma RemoveKeepsOpen(mem: Phys, d: FrameNo, q: PageNo)
    requires Ordinary(q) && OwnTables(mem, d) && TablesOutside(mem, d) && HasTable(mem, d, q)
    ensures StaysOpen(mem, PteRemoved(mem, d, Addr(q)), d)
  {
    var after := PteRemoved(mem, d, Addr(q));
    forall r: PageNo | Ordinary(r) && OpenAt(mem, d, r) ensures OpenAt(after, d, r) {
      RemoveOpen(mem, d, q, r);
    }
  }

  lemma RemoveOpen(mem: Phys, d: FrameNo, q: PageNo, r: PageNo)
    requires Ordinary(q) && Ordinary(r)
    requires OwnTables(mem, d) && TablesOutside(mem, d) && HasTable(mem, d, q) && OpenAt(mem, d, r)
    ensures OpenAt(PteRemoved(mem, d, Addr(q)), d, r)
  {
    var v, w := Addr(q), Addr(r);
    var after := PteRemoved(mem, d, v);
    PageParts(v, w);
    if Slot(v) != Slot(w) && Present(Pde(mem, d, w)) { TablesDiffer(mem, d, q, r, 0); }
    assert FrameOf(Pde(mem, d, v)) != d;
    hide Present, Open, FrameOf, Slot, Index, At, Poke, WithoutP, Addr, OwnTables, TablesOutside;
    assert Pde(after, d, w) == Pde(mem, d, w);
    if Present(Pde(mem, d, w)) {
      assert Pte(after, d, w) == if Slot(w) == Slot(v) && Index(w) == Index(v) then WithoutP(Pte(mem, d, v)) else Pte(mem, d, w);
    }
  }

  ghost predicate SameDirectory(mem: Phys, mem2: Phys, d: FrameNo) {
    forall k {:trigger At(mem2, d, k)} :: InFrame(k) ==> At(mem2, d, k) == At(mem, d, k)
  }

  lemma DirectoryShape(mem: Phys, mem2: Phys, d: FrameNo)
    requires SameDirectory(mem, mem2, d)
    ensures OwnTables(mem, d) ==> OwnTables(mem2, d)
    ensures TablesOutside(mem, d) ==> TablesOutside(mem2, d)
    ensures SelfMapped(mem, d) ==> SelfMapped(mem2, d)
    ensures forall q: PageNo :: HasTable(mem2, d, q) == HasTable(mem, d, q)
  {
    hide At, Present, FrameOf;
    assert forall k :: 0 <= k < 1024 ==> InFrame(k) && At(mem2, d, k) == At(mem, d, k);
  }

  lemma RemoveKeepsDirectory(mem: Phys, d: FrameNo, q: PageNo)
    requires TablesOutside(mem, d) && HasTable(mem, d, q) && q / 1024 < 1023
    ensures SameDirectory(mem, PteRemoved(mem, d, Addr(q)), d)
  {
  }

  // ----- the run -----

  /** Exactly the frames of fs are clear in addition. */
  ghost predicate BitsGiven(start: FrameNo, was: seq<bool>, now: seq<bool>, fs: seq<FrameNo>) {
    |now| == |was| && forall x :: 0 <= x < |was| ==> (now[x] <==> was[x] && start + x !in fs)
  }

  ghost predicate Given(c: Pools, b: Books, b2: Books, pf: PoolFlag, fs: seq<FrameNo>) {
    && BitsGiven(c.kStart, b.kernel, b2.kernel, if pf.Kernel? then fs else [])
    && BitsGiven(c.uStart, b.user, b2.user, if pf.User? then fs else [])
  }

  /** The pool that pfree returns f to is the one it was taken from. */
  predicate Homeward(c: Pools, pf: PoolFlag, f: FrameNo) {
    InPools(c, f) && if pf.Kernel? then f < c.uStart else f > c.uStart
  }

  lemma PfreeGives(c: Pools, b: Books, pf: PoolFlag, f: FrameNo)
    requires PoolsOk(c) && Sized(c, b) && Homeward(c, pf, f)
    ensures Given(c, b, Pfree(c, b, f), pf, [f])
  {
  }

  lemma BitsGivenMore(start: FrameNo, u: seq<bool>, v: seq<bool>, w: seq<bool>, fs: seq<FrameNo>, gs: seq<FrameNo>)
    requires BitsGiven(start, u, v, fs) && BitsGiven(start, v, w, gs)
    ensures BitsGiven(start, u, w, fs + gs)
  {
  }

  lemma GivenMore(c: Pools, b0: Books, b1: Books, b2: Books, pf: PoolFlag, fs: seq<FrameNo>, gs: seq<FrameNo>)
    requires Given(c, b0, b1, pf, fs) && Given(c, b1, b2, pf, gs)
    ensures Given(c, b0, b2, pf, fs + gs)
  {
    var none: seq<FrameNo> := [];
    BitsGivenMore(c.kStart, b0.kernel, b1.kernel, b2.kernel, if pf.Kernel? then fs else none, if pf.Kernel? then gs else none);
    BitsGivenMore(c.uStart, b0.user, b1.user, b2.user, if pf.User? then fs else none, if pf.User? then gs else none);
    hide BitsGiven;
    assert none + none == none;
  }

  /** An address space in which the pages from q on are mapped to the frames, and the frames can go home. */
  ghost predicate Occupied(c: Pools, b: Books, d: FrameNo, pf: PoolFlag, q: int, frames: seq<FrameNo>) {
    && PoolsOk(c) && Sized(c, b)
    && OrdinaryRun(q, |frames|)
    && OwnTables(b.mem, d) && TablesOutside(b.mem, d)
    && RunMapped(b.mem, d, q, frames)
    && (forall f :: f in frames ==> Homeward(c, pf, f))
  }

  /** After i pages: those are gone, nothing else is. */
  ghost predicate Returned(c: Pools, b: Books, b2: Books, d: FrameNo, pf: PoolFlag, q: int, frames: seq<FrameNo>,
                           i: nat)
    requires i <= |frames| && 0 <= q && q + |frames| <= 0x10_0000
  {
    && Given(c, b, b2, pf, frames[..i])
    && SameDirectory(b.mem, b2.mem, d)
    && (forall r: PageNo {:trigger PageAt(b2.mem, d, r)} :: Ordinary(r) ==>
          PageAt(b2.mem, d, r) == if q <= r < q + i then None else PageAt(b.mem, d, r))
    && StaysOpen(b.mem, b2.mem, d)
  }

  /** The loop of free_pages gives the pages back one by one; it gets to its end exactly when the page
      after the last one has a page table. */
  lemma {:induction false} ShrinkReturns(c: Pools, b: Books, d: FrameNo, pf: PoolFlag, q: PageNo,
                                         frames: seq<FrameNo>, i: nat)
    requires Occupied(c, b, d, pf, q, frames) && frames != [] && i <= |frames|
    ensures var r := Shrink(c, b, d, pf.User?, q, i);
            && (if i < |frames| || HasTable(b.mem, d, q + i) then r.Done? else r.Fault?)
            && (r.Done? ==> Returned(c, b, r.b, d, pf, q, frames, i))
    decreases i
  {
    hide Shrink, HasTable, FrameFor, PteRemoved, Pfree, FrameAllowed, InPools, Returned, OwnTables, TablesOutside,
         PageAt, RunMapped;
    ShrinkUnfold(c, b, d, pf.User?, q, i);
    if i < |frames| { PageHasTable(b.mem, d, q, frames, i); }
    if i == 0 {
      NoneReturned(c, b, d, pf, q, frames);
    } else {
      ShrinkReturns(c, b, d, pf, q, frames, i - 1);
      var r := Shrink(c, b, d, pf.User?, q, i - 1);
      ShrinkTurn(c, b, r.b, d, pf, q, frames, i - 1);
    }
  }

  lemma PageHasTable(mem: Phys, d: FrameNo, q: PageNo, frames: seq<FrameNo>, i: nat)
    requires q + |frames| <= 0x10_0000 && RunMapped(mem, d, q, frames) && i < |frames|
    ensures HasTable(mem, d, q + i) && FrameFor(mem, d, q + i) == frames[i] && PageAt(mem, d, q + i) == Some(frames[i])
  {
    assert PageAt(mem, d, q + i) == Some(frames[i]);
  }

  lemma NoneReturned(c: Pools, b: Books, d: FrameNo, pf: PoolFlag, q: PageNo, frames: seq<FrameNo>)
    requires q + |frames| <= 0x10_0000
    ensures Returned(c, b, b, d, pf, q, frames, 0)
  {
  }

  /** One turn of the loop. */
  lemma ShrinkTurn(c: Pools, b: Books, b1: Books, d: FrameNo, pf: PoolFlag, q: PageNo, frames: seq<FrameNo>, i: nat)
    requires Occupied(c, b, d, pf, q, frames) && i < |frames|
    requires Sized(c, b1) && Returned(c, b, b1, d, pf, q, frames, i)
    ensures var f := FrameFor(b1.mem, d, q + i);
            && FrameAllowed(c, pf.User?, f) && InPools(c, f)
            && var b2 := Pfree(c, b1, f).(mem := PteRemoved(b1.mem, d, Addr(q + i)));
               && Returned(c, b, b2, d, pf, q, frames, i + 1)
               && (forall r: PageNo :: HasTable(b2.mem, d, r) == HasTable(b.mem, d, r))
  {
    hide At, Present, FrameOf, OwnTables, TablesOutside, PageAt, Given, SameDirectory, StaysOpen, RunMapped, PteRemoved,
         FrameFor, HasTable;
    var at: PageNo := q + i;
    assert Ordinary(at);
    DirectoryShape(b.mem, b1.mem, d);
    PageHasTable(b.mem, d, q, frames, i);
    assert PageAt(b1.mem, d, at) == Some(frames[i]);
    FrameIs(b1.mem, d, at);
    PfreeGives(c, b1, pf, frames[i]);
    var mem2 := PteRemoved(b1.mem, d, Addr(at));
    var b2 := Pfree(c, b1, frames[i]).(mem := mem2);
    GivenMem(c, b1, Pfree(c, b1, frames[i]), mem2, pf, [frames[i]]);
    hide Pfree;
    GivenMore(c, b, b1, b2, pf, frames[..i], [frames[i]]);
    assert frames[..i] + [frames[i]] == frames[..i + 1];
    RemoveKeepsDirectory(b1.mem, d, at);
    RemoveKeepsOpen(b1.mem, d, at);
    OpenTwice(b.mem, b1.mem, mem2, d);
    SameDirectoryTwice(b.mem, b1.mem, mem2, d);
    DirectoryShape(b.mem, mem2, d);
    forall r: PageNo | Ordinary(r)
      ensures PageAt(mem2, d, r) == if q <= r < q + i + 1 then None else PageAt(b.mem, d, r)
    {
      RemovePage(b1.mem, d, at, r);
      assert PageAt(b1.mem, d, r) == if q <= r < q + i then None else PageAt(b.mem, d, r);
    }
  }

  lemma FrameIs(mem: Phys, d: FrameNo, q: PageNo)
    requires PageAt(mem, d, q).Some?
    ensures FrameFor(mem, d, q) == PageAt(mem, d, q).value
  {
  }

  lemma GivenMem(c: Pools, b: Books, b1: Books, mem: Phys, pf: PoolFlag, fs: seq<FrameNo>)
    requires Given(c, b, b1, pf, fs)
    ensures Given(c, b, b1.(mem := mem), pf, fs)
  {
  }

  lemma SameDirectoryTwice(mem: Phys, mem1: Phys, mem2: Phys, d: FrameNo)
    requires SameDirectory(mem, mem1, d) && SameDirectory(mem1, mem2, d)
    ensures SameDirectory(mem, mem2, d)
  {
  }

  lemma ShrinkUnfold(c: Pools, b: Books, d: FrameNo, user: bool, q: PageNo, i: nat)
    requires PoolsOk(c) && Sized(c, b) && q + i < 0x10_0000
    ensures Shrink(c, b, d, user, q, 0) == if HasTable(b.mem, d, q) then Done(b) else Fault
    ensures i > 0 ==>
              var r := Shrink(c, b, d, user, q, i - 1);
              r.Done? ==>
                var f := FrameFor(r.b.mem, d, q + i - 1);
                if !FrameAllowed(c, user, f) then Shrink(c, b, d, user, q, i) == Stopped
                else if !InPools(c, f) then Shrink(c, b, d, user, q, i) == Stray
                else
                  var b2 := Pfree(c, r.b, f).(mem := PteRemoved(r.b.mem, d, Addr(q + i - 1)));
                  Shrink(c, b, d, user, q, i) == if HasTable(b2.mem, d, q + i) then Done(b2) else Fault
  {
  }

  /** A page whose frame is of the other pool, or of none, stops the loop, after the pages before it. */
  lemma {:induction false} StopsAtStranger(c: Pools, b: Books, d: FrameNo, pf: PoolFlag, q: PageNo,
                                           frames: seq<FrameNo>, f: FrameNo, n: nat)
    requires Occupied(c, b, d, pf, q, frames) && frames != [] && |frames| < n && q + n < 1023 * 1024
    requires PageAt(b.mem, d, q + |frames|) == Some(f)
    requires if pf.User? then f < c.uStart else f < c.kStart || f >= c.uStart
    ensures Shrink(c, b, d, pf.User?, q, n).Stopped?
    decreases n
  {
    hide Shrink, HasTable, FrameFor, PteRemoved, Pfree, InPools, Occupied, PageAt, SameDirectory, Given, StaysOpen;
    var i := |frames|;
    OccupiedParts(c, b, d, pf, q, frames);
    ShrinkUnfold(c, b, d, pf.User?, q, n);
    if n > i + 1 {
      StopsAtStranger(c, b, d, pf, q, frames, f, n - 1);
      StoppedStays(c, b, d, pf.User?, q, n);
    } else {
      ShrinkReturns(c, b, d, pf, q, frames, i);
      FrameIs(b.mem, d, q + i);
      var r := Shrink(c, b, d, pf.User?, q, i);
      assert Ordinary(q + i);
      FrameIs(r.b.mem, d, q + i);
    }
  }

  lemma OccupiedParts(c: Pools, b: Books, d: FrameNo, pf: PoolFlag, q: PageNo, frames: seq<FrameNo>)
    requires Occupied(c, b, d, pf, q, frames) && q + |frames| < 0x10_0000
    ensures PoolsOk(c) && Sized(c, b) && 1024 <= q
    ensures PageAt(b.mem, d, q + |frames|).Some? ==> HasTable(b.mem, d, q + |frames|)
  {
    hide RunMapped, OwnTables, TablesOutside;
  }

  lemma StoppedStays(c: Pools, b: Books, d: FrameNo, user: bool, q: PageNo, n: nat)
    requires PoolsOk(c) && Sized(c, b) && 0 < n && q + n < 0x10_0000 && Shrink(c, b, d, user, q, n - 1).Stopped?
    ensures Shrink(c, b, d, user, q, n).Stopped?
  {
  }

  // ----- any page -----

  /** free_pages of one page, whatever it is: it faults where a page table is missing, for the page or for the one
      behind it; it stops if the frame lies below the kernel pool or is the first of the user pool; otherwise,
      for a frame of the pools, the page and the bit of its frame go, and nothing else. */
  lemma ReleaseOnePage(c: Pools, b: Books, d: FrameNo, q: PageNo)
    requires Good(c, b, d) && Ordinary(q)
    ensures PoolsOk(c) && Sized(c, b)
    ensures var f, r := FrameFor(b.mem, d, q), FreePages(c, b, d, q, 1);
            if !HasTable(b.mem, d, q) then r.Fault?
            else if f < c.kStart || f == c.uStart then r.Stopped?
            else if f >= c.uStart + c.uLen then r.Stray?
            else if !HasTable(b.mem, d, q + 1) then r.Fault?
            else
              && r.Done? && SameDirectory(b.mem, r.b.mem, d)
              && Given(c, b, r.b, if f < c.uStart then Kernel else User, [f])
              && forall p: PageNo :: Ordinary(p) ==> PageAt(r.b.mem, d, p) == if p == q then None else PageAt(b.mem, d, p)
  {
    hide Given, SameDirectory, PageAt, At, Present, FrameOf, PteRemoved, Pfree, HasTable, FrameFor, OwnTables, TablesOutside;
    GoodParts(c, b, d);
    var f := FrameFor(b.mem, d, q);
    ShrinkUnfold(c, b, d, f > c.uStart, q, 1);
    if HasTable(b.mem, d, q) && c.kStart <= f < c.uStart + c.uLen && f != c.uStart {
      var pf := if f < c.uStart then Kernel else User;
      PfreeGives(c, b, pf, f);
      var mem2 := PteRemoved(b.mem, d, Addr(q));
      GivenMem(c, b, Pfree(c, b, f), mem2, pf, [f]);
      RemoveKeepsDirectory(b.mem, d, q);
      DirectoryShape(b.mem, mem2, d);
      forall p: PageNo | Ordinary(p) ensures PageAt(mem2, d, p) == if p == q then None else PageAt(b.mem, d, p) {
        RemovePage(b.mem, d, q, p);
      }
    }
  }

  // ----- malloc_pages undone -----

  /** Every ordinary page and every bit is as it was, but for the frames that became page tables. */
  ghost predicate Restored(c: Pools, b: Books, b2: Books, d: FrameNo, tables: seq<FrameNo>) {
    && (forall r: PageNo {:trigger PageAt(b2.mem, d, r)} :: Ordinary(r) ==> PageAt(b2.mem, d, r) == PageAt(b.mem, d, r))
    && DirectoryGrown(b.mem, b2.mem, d, tables)
    && b2.user == b.user
    && BitsTaken(c.kStart, b.kernel, b2.kernel, [], tables)
  }

  /** The first frame of the user pool, which pfree mistakes for a kernel frame, is still to be handed out. */
  predicate FirstUserFrameFree(c: Pools, b: Books)
    requires Sized(c, b)
  {
    FreeIn(c, b, User, c.uStart)
  }

  /** Each frame that malloc_pages took is one that pfree would return to the pool it came from, exactly
      when the first user frame is not among them. */
  lemma FramesHomeward(c: Pools, b: Books, o: Growth, d: FrameNo, pf: PoolFlag, q: PageNo)
    requires PoolsOk(c) && Sized(c, b) && Progress(c, b, o, d, pf, q) && o.frames != []
    ensures c.kStart <= o.frames[0] && (pf.User? && FirstUserFrameFree(c, b) ==> o.frames[0] == c.uStart)
    ensures !(pf.User? && FirstUserFrameFree(c, b)) ==> forall f :: f in o.frames ==> Homeward(c, pf, f)
  {
    hide Good, Taken, RunMapped, OthersSame, DirectoryGrown;
    assert o.frames[0] in o.frames;
  }

  lemma ProgressOccupied(c: Pools, b: Books, o: Growth, d: FrameNo, pf: PoolFlag, q: PageNo)
    requires PoolsOk(c) && Sized(c, b) && Progress(c, b, o, d, pf, q)
    requires OrdinaryRun(q, |o.frames|)
    requires forall f :: f in o.frames ==> Homeward(c, pf, f)
    ensures Occupied(c, o.b, d, pf, q, o.frames)
  {
    hide Taken, OthersSame, DirectoryGrown, WereFree, Good, Homeward, OwnTables, TablesOutside, RunMapped;
    GoodParts(c, o.b, d);
  }

  lemma BitsBack(start: FrameNo, u: seq<bool>, v: seq<bool>, w: seq<bool>, fs: seq<FrameNo>, gs: seq<FrameNo>)
    requires BitsTaken(start, u, v, fs, gs) && BitsGiven(start, v, w, fs)
    requires forall x :: 0 <= x < |u| && start + x in fs ==> !u[x] && start + x !in gs
    ensures BitsTaken(start, u, w, [], gs)
  {
  }

  lemma SameBits(start: FrameNo, u: seq<bool>, v: seq<bool>)
    requires BitsTaken(start, u, v, [], [])
    ensures u == v
  {
  }

  /** Taking frames and tables, and giving the frames back, leaves the tables taken. */
  lemma TakenGiven(c: Pools, b: Books, b1: Books, b2: Books, pf: PoolFlag, frames: seq<FrameNo>, tables: seq<FrameNo>)
    requires PoolsOk(c) && Sized(c, b) && WereFree(c, b, pf, frames, tables)
    requires Taken(c, b, b1, pf, frames, tables) && Given(c, b1, b2, pf, frames)
    ensures Taken(c, b, b2, pf, [], tables)
    ensures b2.user == b.user && BitsTaken(c.kStart, b.kernel, b2.kernel, [], tables)
  {
    var none: seq<FrameNo> := [];
    BitsBack(c.kStart, b.kernel, b1.kernel, b2.kernel, if pf.Kernel? then frames else none, tables);
    BitsBack(c.uStart, b.user, b1.user, b2.user, if pf.User? then frames else none, none);
    SameBits(c.uStart, b.user, b2.user);
  }

  /** The address space is good again. */
  lemma ReturnedGood(c: Pools, b: Books, o: Growth, b2: Books, d: FrameNo, pf: PoolFlag, q: PageNo)
    requires Good(c, b, d) && Progress(c, b, o, d, pf, q)
    requires Taken(c, b, b2, pf, [], o.tables) && SameDirectory(o.b.mem, b2.mem, d)
    ensures Good(c, b2, d)
  {
    hide Taken, OthersSame, RunMapped, FreeIn, OwnTables, At, Present, FrameOf;
    DirectoryShape(o.b.mem, b2.mem, d);
    assert Sized(c, b2) by { TakenFree(c, b, b2, pf, [], o.tables, Kernel, 0); }
    forall f: FrameNo, pg ensures FreeIn(c, b2, pg, f) <==> FreeIn(c, b, pg, f) && f !in o.tables {
      TakenFree(c, b, b2, pf, [], o.tables, pg, f);
    }
    forall k | 0 <= k < 1023 && Present(At(b2.mem, d, k))
      ensures FrameOf(At(b2.mem, d, k)) != d && !Free(c, b2, FrameOf(At(b2.mem, d, k)))
    {
      assert InFrame(k) && At(b2.mem, d, k) == At(o.b.mem, d, k);
    }
  }

  lemma RestoredPages(mem: Phys, mem1: Phys, mem2: Phys, d: FrameNo, q: PageNo, n: nat, tables: seq<FrameNo>)
    requires q + n <= 0x10_0000 && RunUnmapped(mem, d, q, n) && OthersSame(mem, mem1, d, q, n)
    requires SameDirectory(mem1, mem2, d) && DirectoryGrown(mem, mem1, d, tables)
    requires forall r: PageNo {:trigger PageAt(mem2, d, r)} :: Ordinary(r) ==>
               PageAt(mem2, d, r) == if q <= r < q + n then None else PageAt(mem1, d, r)
    ensures DirectoryGrown(mem, mem2, d, tables)
    ensures forall r: PageNo {:trigger PageAt(mem2, d, r)} :: Ordinary(r) ==> PageAt(mem2, d, r) == PageAt(mem, d, r)
  {
    hide At, Present, FrameOf, PageAt;
    forall t | t in tables ensures exists k :: InFrame(k) && !Present(At(mem, d, k)) && At(mem2, d, k) == EntryFor(t) {
      var k :| InFrame(k) && !Present(At(mem, d, k)) && At(mem1, d, k) == EntryFor(t);
      assert At(mem2, d, k) == At(mem1, d, k);
    }
  }

  /** free_pages after a malloc_pages for which there were frames and page tables.  It stops on a failed assertion
      exactly when the first user frame was free to be handed out; otherwise it runs through exactly when the page
      behind the run has a page table, and faults without one.  When it runs through, all pages and both bitmaps
      are restored, but for the new page tables. */
  lemma FreeUndoesMalloc(c: Pools, b: Books, d: FrameNo, pf: PoolFlag, q: PageNo, n: nat)
    requires Good(c, b, d) && n >= 1
    requires OrdinaryRun(q, n) && RunUnmapped(b.mem, d, q, n)
    requires n <= FreeFrames(c, b, pf) && TablesSuffice(c, b, d, pf, q, n)
    ensures var o := Grow(c, b, d, pf, q, n);
            o.Going? &&
            var r := FreePages(c, o.b, d, q, n);
            && (r.Stopped? <==> pf.User? && FirstUserFrameFree(c, b))
            && (r.Fault? <==> !(pf.User? && FirstUserFrameFree(c, b)) && !TableBehind(b.mem, d, q, n))
            && (r.Done? <==> !(pf.User? && FirstUserFrameFree(c, b)) && TableBehind(b.mem, d, q, n))
            && (r.Done? ==> Restored(c, b, r.b, d, o.tables) && Good(c, r.b, d))
  {
    GrowExactly(c, b, d, pf, q, n);
    GoodParts(c, b, d);
    hide Good, Progress, Grow, FreePages, FreeFrames, TablesSuffice;
    BehindHasTable(c, b, Grow(c, b, d, pf, q, n), d, pf, q, n);
    UndoProgress(c, b, Grow(c, b, d, pf, q, n), d, pf, q, n);
  }

  /** The page behind a run of n pages from q on will have a page table: it has one, or it is in one 4 MB with the
      last page of the run. */
  predicate TableBehind(mem: Phys, d: FrameNo, q: nat, n: nat)
    requires q + n < 0x10_0000
  {
    HasTable(mem, d, q + n) || (q + n) % 1024 != 0
  }

  lemma BehindHasTable(c: Pools, b: Books, o: Growth, d: FrameNo, pf: PoolFlag, q: PageNo, n: nat)
    requires PoolsOk(c) && Sized(c, b) && Progress(c, b, o, d, pf, q) && |o.frames| == n >= 1 && OrdinaryRun(q, n)
    ensures HasTable(o.b.mem, d, q + n) <==> TableBehind(b.mem, d, q, n)
  {
    hide Progress, Present, At;
    SlotPresent(c, b, o, d, pf, q);
    assert SlotOfRun((q + n) / 1024, q, n) <==> (q + n) % 1024 != 0;
  }

  lemma UndoProgress(c: Pools, b: Books, o: Growth, d: FrameNo, pf: PoolFlag, q: PageNo, n: nat)
    requires Good(c, b, d) && Progress(c, b, o, d, pf, q) && |o.frames| == n >= 1
    requires OrdinaryRun(q, n) && RunUnmapped(b.mem, d, q, n)
    ensures q + n < 0x10_0000
    ensures var r := FreePages(c, o.b, d, q, n);
            && (r.Stopped? <==> pf.User? && FirstUserFrameFree(c, b))
            && (r.Fault? <==> !(pf.User? && FirstUserFrameFree(c, b)) && !HasTable(o.b.mem, d, q + n))
            && (r.Done? <==> !(pf.User? && FirstUserFrameFree(c, b)) && HasTable(o.b.mem, d, q + n))
            && (r.Done? ==> Restored(c, b, r.b, d, o.tables) && Good(c, r.b, d))
  {
    hide Good, RunUnmapped, Occupied, HasTable, FrameFor, Taken, RunMapped, OthersSame, DirectoryGrown, WereFree,
         FirstUserFrameFree, Restored, Returned, Shrink, PageAt;
    GoodParts(c, b, d);
    GoodParts(c, o.b, d);
    FramesHomeward(c, b, o, d, pf, q);
    PageHasTable(o.b.mem, d, q, o.frames, 0);
    if pf.User? && FirstUserFrameFree(c, b) {
      ShrinkStops(c, o.b, d, q, n);
      hide Progress;
    } else {
      assert o.frames[0] in o.frames;
      assert o.frames[0] > c.uStart <==> pf.User?;
      ProgressOccupied(c, b, o, d, pf, q);
      ShrinkReturns(c, o.b, d, pf, q, o.frames, n);
      hide Homeward;
      var r := Shrink(c, o.b, d, pf.User?, q, n);
      if r.Done? {
        ReturnedRestored(c, b, o, r.b, d, pf, q);
      }
    }
  }

  lemma ReturnedRestored(c: Pools, b: Books, o: Growth, b2: Books, d: FrameNo, pf: PoolFlag, q: PageNo)
    requires Good(c, b, d) && Progress(c, b, o, d, pf, q) && RunUnmapped(b.mem, d, q, |o.frames|)
    requires Returned(c, o.b, b2, d, pf, q, o.frames, |o.frames|)
    ensures Restored(c, b, b2, d, o.tables) && Good(c, b2, d)
  {
    hide Good, RunUnmapped, Taken, RunMapped, OthersSame, DirectoryGrown, WereFree, SameDirectory, Given, PageAt;
    GoodParts(c, b, d);
    assert o.frames[..|o.frames|] == o.frames;
    TakenGiven(c, b, o.b, b2, pf, o.frames, o.tables);
    ReturnedGood(c, b, o, b2, d, pf, q);
    RestoredPages(b.mem, o.b.mem, b2.mem, d, q, |o.frames|, o.tables);
  }

  /** A run that starts with the first user frame fails the assertion of the branch for kernel frames. */
  lemma {:induction false} ShrinkStops(c: Pools, b: Books, d: FrameNo, q: PageNo, n: nat)
    requires PoolsOk(c) && Sized(c, b) && n >= 1 && q + n < 0x10_0000
    requires HasTable(b.mem, d, q) && FrameFor(b.mem, d, q) == c.uStart
    ensures Shrink(c, b, d, false, q, n) == Stopped
    decreases n
  {
    if n > 1 {
      ShrinkStops(c, b, d, q, n - 1);
    } else {
      assert Shrink(c, b, d, false, q, 0) == Done(b);
    }
  }
}
