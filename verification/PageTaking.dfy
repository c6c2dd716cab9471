/** malloc_pages keeps the invariant and the account. */
module PageTaking {
  import opened Paging
  import opened PageBooks
  import opened PageCounts
  import opened PageStates
  import Bitmaps
  import UP = UserProcess
  import PM = PageManager

  // ----- the run of free bits -----

  lemma FreeRunFits(v: seq<bool>, start: nat, n: nat)
    requires Bitmaps.FreeRun(v, start, n)
    ensures start + n <= |v|
  {
  }

  lemma FreeRunUnmapped(e: Setting, s: State, start: nat, n: nat)
    requires OrdinaryRun(e.first, |s.bits|) && UP.FreeBitsUnmapped(s.b.mem, e.d, e.first, s.bits)
    requires Bitmaps.FreeRun(s.bits, start, n)
    ensures OrdinaryRun(e.first + start, n) && RunUnmapped(s.b.mem, e.d, e.first + start, n)
  {
    hide PageAt;
    forall r: PageNo | e.first + start <= r < e.first + start + n ensures PageAt(s.b.mem, e.d, r) == None {
      assert !s.bits[r - e.first];
    }
  }

  /** A run of free bits and a run of set bits do not overlap. */
  lemma RunsApart(v: seq<bool>, start: nat, n: nat, at: nat, m: nat)
    requires Bitmaps.FreeRun(v, start, n) && n >= 1 && m >= 1 && at + m <= |v|
    requires forall x {:trigger v[x]} :: at <= x < at + m ==> v[x]
    ensures at + m <= start || start + n <= at
  {
    var x := if at < start then start else at;
    assert at <= x < at + m ==> v[x];
    assert start <= x < start + n ==> !v[x];
  }

  // ----- what the loop did -----

  /** A run of n free bits for which malloc_pages got the frames, not more than n, and the tables; and the
      books it left. */
  datatype Extent = Extent(start: nat, n: nat, b: Books, frames: seq<FrameNo>, tables: seq<FrameNo>)

  function Loop(k: Extent): Growth {
    Going(k.b, k.frames, k.tables)
  }

  ghost predicate Grown(e: Setting, s: State, k: Extent) {
    && PoolsOk(e.c) && Sized(e.c, s.b) && Sized(e.c, k.b)
    && k.n >= 1 && |k.frames| <= k.n && Bitmaps.FreeRun(s.bits, k.start, k.n)
    && k.start + k.n <= |s.bits| && e.first + k.start + k.n <= 0x10_0000
    && Progress(e.c, s.b, Loop(k), e.d, e.pf, e.first + k.start)
  }

  /** The state afterwards: a run without a frame for each page is lost. */
  ghost predicate Malloced(e: Setting, s: State, k: Extent, s': State) {
    && k.start + k.n <= |s.bits|
    && s'.b == k.b && s'.bits == PM.RunSet(s.bits, k.start, k.n, true) && s'.tables == s.tables + k.tables
    && if |k.frames| == k.n then
         s'.live == s.live[e.first + k.start := k.frames] && s'.lostPages == s.lostPages && s'.lostFrames == s.lostFrames
       else
         && s'.live == s.live && s'.lostPages == s.lostPages + PageRange(e.first + k.start, k.n)
         && s'.lostFrames == s.lostFrames + Members(k.frames)
  }

  lemma MallocGrows(e: Setting, s: State, start: nat, n: nat) returns (k: Extent)
    requires Ready(e, s) && Mallocs(e, s, start, n)
    ensures PoolsOk(e.c) && Sized(e.c, s.b) && e.first + start < 0x10_0000 && e.first + start + n <= 0x10_0000
    ensures k.start == start && k.n == n && Grown(e, s, k) && Malloced(e, s, k, AfterMalloc(e, s, start, n))
    ensures KernelReady(e, AfterMalloc(e, s, start, n)) && (e.pf.Kernel? ==> k.tables == [])
    ensures |k.frames| == Min(n, FreeFrames(e.c, s.b, e.pf))
  {
    hide Good, KernelReady, UP.FreeBitsUnmapped, RunUnmapped, Progress, Bitmaps.FreeRun, Grow, FreeFrames, Lacking,
         ZeroTable;
    GoodParts(e.c, s.b, e.d);
    FreeRunFits(s.bits, start, n);
    FreeRunUnmapped(e, s, start, n);
    GrowExactly(e.c, s.b, e.d, e.pf, e.first + start, n);
    var o := Grow(e.c, s.b, e.d, e.pf, e.first + start, n);
    k := Extent(start, n, o.b, o.frames, o.tables);
    ProgressGood(e.c, s.b, Loop(k), e.d, e.pf, e.first + start);
    KernelStaysReady(e, s, AfterMalloc(e, s, start, n), start, n);
  }

  /** No page table of the kernel half is ever made. */
  lemma KernelStaysReady(e: Setting, s: State, s': State, start: nat, n: nat)
    requires Ready(e, s) && OrdinaryRun(e.first + start, n) && RunUnmapped(s.b.mem, e.d, e.first + start, n)
    requires PoolsOk(e.c) && Sized(e.c, s.b)
    requires var o := Grow(e.c, s.b, e.d, e.pf, e.first + start, n); !o.AssertFailed? && s'.b == o.b
    ensures KernelReady(e, s')
    ensures e.pf.Kernel? ==> Grow(e.c, s.b, e.d, e.pf, e.first + start, n).tables == []
  {
    hide Good, UP.FreeBitsUnmapped, UP.KernelTables, RunUnmapped, Progress, Grow, FreeFrames, TablesSuffice;
    if e.pf.Kernel? {
      var q: PageNo := e.first + start;
      UP.KernelNeedsNoTable(e.c, s.b, e.d, q, n);
      TablesStay(e.c, s.b, Kept(Grow(e.c, s.b, e.d, e.pf, q, n)), e.d, e.pf, q);
    }
  }

  lemma TablesStay(c: Pools, b: Books, o: Growth, d: FrameNo, pf: PoolFlag, q: PageNo)
    requires PoolsOk(c) && Sized(c, b) && Progress(c, b, o, d, pf, q) && UP.KernelTables(b.mem, d)
    ensures UP.KernelTables(o.b.mem, d)
  {
    hide Good, WereFree, Taken, RunMapped, OthersSame, SlotsWithin, At, Present, FrameOf;
    assert forall k :: 0 <= k < 1023 ==> InFrame(k);
  }

  lemma ProgressGood(c: Pools, b: Books, o: Growth, d: FrameNo, pf: PoolFlag, q: PageNo)
    requires PoolsOk(c) && Sized(c, b) && Progress(c, b, o, d, pf, q)
    ensures o.Going? && Good(c, o.b, d) && Sized(c, o.b) && 0 <= q && q + |o.frames| <= 0x10_0000
    ensures RunMapped(o.b.mem, d, q, o.frames) && PageBooks.Distinct(o.frames)
  {
    hide Taken, OthersSame, DirectoryGrown, SlotsWithin, RunMapped, FreeIn;
  }

  lemma GrownGood(e: Setting, s: State, k: Extent)
    requires Grown(e, s, k)
    ensures Good(e.c, k.b, e.d) && RunMapped(k.b.mem, e.d, e.first + k.start, k.frames) && PageBooks.Distinct(k.frames)
  {
    hide Good, Progress, RunMapped, Bitmaps.FreeRun, PageBooks.Distinct;
    ProgressGood(e.c, s.b, Loop(k), e.d, e.pf, e.first + k.start);
  }

  // ----- frames -----

  /** A frame that was held stays held. */
  lemma StillHeld(e: Setting, s: State, k: Extent, f: FrameNo)
    requires Grown(e, s, k) && HeldFrame(e, s.b, f)
    ensures HeldFrame(e, k.b, f)
  {
    hide Good, RunMapped, OthersSame, SlotsWithin, At, Present, FrameOf, Taken, FreeIn, Bitmaps.FreeRun;
    TakenFree(e.c, s.b, k.b, e.pf, k.frames, k.tables, Kernel, f);
    TakenFree(e.c, s.b, k.b, e.pf, k.frames, k.tables, User, f);
    forall j | InFrame(j) && Present(At(k.b.mem, e.d, j)) ensures FrameOf(At(k.b.mem, e.d, j)) != f {
      if FrameOf(At(k.b.mem, e.d, j)) in k.tables {
        assert TableFrame(e.c, s.b, FrameOf(At(k.b.mem, e.d, j)));
      }
    }
  }

  /** Frames and tables that the run took were free. */
  lemma NewFrame(e: Setting, s: State, k: Extent, f: FrameNo)
    requires Grown(e, s, k)
    ensures f in k.frames ==> FreeIn(e.c, s.b, e.pf, f) && f !in k.tables
    ensures f in k.tables ==> TableFrame(e.c, s.b, f)
  {
    hide Good, Taken, RunMapped, OthersSame, SlotsWithin, DirectoryGrown, FreeIn, Bitmaps.FreeRun;
  }

  /** A frame that the run took is held now. */
  lemma NewHeld(e: Setting, s: State, k: Extent, f: FrameNo)
    requires Good(e.c, s.b, e.d) && Grown(e, s, k) && f in k.frames
    ensures HeldFrame(e, k.b, f)
  {
    hide Taken, Good, RunMapped, OthersSame, SlotsWithin, NotATable, DirectoryGrown, Bitmaps.FreeRun;
    UP.FramesAreData(e.c, s.b, Loop(k), e.d, e.pf, e.first + k.start, f);
    TakenFree(e.c, s.b, k.b, e.pf, k.frames, k.tables, Kernel, f);
    TakenFree(e.c, s.b, k.b, e.pf, k.frames, k.tables, User, f);
    assert FreeIn(e.c, s.b, e.pf, f);
  }

  /** The first user frame is the first that its pool hands out. */
  lemma FirstFrameFirst(e: Setting, s: State, k: Extent, j: nat)
    requires Grown(e, s, k) && 0 < j < |k.frames|
    ensures k.frames[j] != e.c.uStart
  {
    FramesInOrder(e, s, k, j);
    hide Grown, Palloc;
    if e.pf.User? && k.frames[j] == e.c.uStart { FirstFrameNext(e.c, s.b); }
  }

  lemma FirstFrameNext(c: Pools, b: Books)
    requires PoolsOk(c) && Sized(c, b) && FreeIn(c, b, User, c.uStart)
    ensures Palloc(c, b, User) == c.uStart
  {
    var v := b.user[..c.uLen];
    assert !v[0];
    hide FirstFree;
  }

  lemma FramesInOrder(e: Setting, s: State, k: Extent, j: nat)
    requires Grown(e, s, k) && 0 < j < |k.frames|
    ensures PoolsOk(e.c) && Sized(e.c, s.b) && FreeIn(e.c, s.b, e.pf, k.frames[j])
    ensures k.frames[j] != k.frames[0] == Palloc(e.c, s.b, e.pf)
  {
    hide Taken, Good, RunMapped, OthersSame, SlotsWithin, DirectoryGrown, FreeIn, Palloc, Bitmaps.FreeRun;
    assert k.frames[j] in k.frames && k.frames[0] in k.frames;
  }

  // ----- allocations -----

  /** The run is an allocation. */
  lemma NewRunHeld(e: Setting, s: State, k: Extent, s': State)
    requires Good(e.c, s.b, e.d) && OrdinaryRun(e.first, |s.bits|) && Grown(e, s, k) && |k.frames| == k.n
    requires s'.b == k.b && s'.bits == PM.RunSet(s.bits, k.start, k.n, true)
    ensures Held(e, s', e.first + k.start, k.frames)
  {
    hide Good, Progress, RunMapped, HeldFrame, Bitmaps.FreeRun;
    GrownGood(e, s, k);
    forall f | f in k.frames ensures HeldFrame(e, k.b, f) {
      NewHeld(e, s, k, f);
    }
    forall j | 0 < j < |k.frames| ensures k.frames[j] != e.c.uStart {
      FirstFrameFirst(e, s, k, j);
    }
  }

  /** An older allocation stays, and the run does not touch it. */
  lemma OldRunHeld(e: Setting, s: State, k: Extent, s': State, q: nat, frames: seq<FrameNo>)
    requires OrdinaryRun(e.first, |s.bits|) && Grown(e, s, k) && Held(e, s, q, frames)
    requires s'.b == k.b && s'.bits == PM.RunSet(s.bits, k.start, k.n, true)
    ensures Held(e, s', q, frames)
  {
    hide Progress, RunMapped, Free, NotATable, Bitmaps.FreeRun;
    RunApart(e, s, k, q, frames);
    forall f | f in frames ensures HeldFrame(e, k.b, f) {
      assert HeldFrame(e, s.b, f);
      StillHeld(e, s, k, f);
    }
    RunStays(e.c, s.b, Loop(k), e.d, e.pf, e.first + k.start, q, frames);
  }

  lemma RunApart(e: Setting, s: State, k: Extent, q: nat, frames: seq<FrameNo>)
    requires Grown(e, s, k) && Held(e, s, q, frames)
    ensures (q + |frames| <= e.first + k.start || e.first + k.start + k.n <= q) && FramesApart(frames, k.frames)
  {
    hide Progress, RunMapped, NotATable, FreeIn, Bitmaps.FreeRun;
    RunsApart(s.bits, k.start, k.n, q - e.first, |frames|);
    forall f | f in frames ensures f !in k.frames {
      NewFrame(e, s, k, f);
      assert HeldFrame(e, s.b, f);
    }
  }

  lemma RunStays(c: Pools, b: Books, o: Growth, d: FrameNo, pf: PoolFlag, at: PageNo, q: nat, frames: seq<FrameNo>)
    requires PoolsOk(c) && Sized(c, b) && Progress(c, b, o, d, pf, at)
    requires OrdinaryRun(q, |frames|) && RunMapped(b.mem, d, q, frames)
    requires q + |frames| <= at || at + |o.frames| <= q
    ensures RunMapped(o.b.mem, d, q, frames)
  {
    hide Good, WereFree, Taken, DirectoryGrown, SlotsWithin, PageAt;
    forall j | 0 <= j < |frames| ensures PageAt(o.b.mem, d, q + j) == Some(frames[j]) {
      var r: PageNo := q + j;
      assert PageAt(b.mem, d, r) == Some(frames[j]);
      assert Ordinary(r) && !(at <= r < at + |o.frames|);
    }
  }

  lemma FreeBitsStay(e: Setting, s: State, k: Extent)
    requires OrdinaryRun(e.first, |s.bits|) && Grown(e, s, k)
    requires UP.FreeBitsUnmapped(s.b.mem, e.d, e.first, s.bits)
    ensures UP.FreeBitsUnmapped(k.b.mem, e.d, e.first, PM.RunSet(s.bits, k.start, k.n, true))
  {
    hide Good, WereFree, Taken, DirectoryGrown, SlotsWithin, PageAt, RunMapped, Bitmaps.FreeRun;
    var bits := PM.RunSet(s.bits, k.start, k.n, true);
    forall r: PageNo | e.first <= r < e.first + |bits| && !bits[r - e.first] ensures PageAt(k.b.mem, e.d, r) == None {
      assert Ordinary(r) && !s.bits[r - e.first];
      assert PageAt(s.b.mem, e.d, r) == None;
    }
  }

  // ----- what is taken -----

  /** No page and no frame of the run was taken before. */
  ghost predicate Untouched(e: Setting, s: State, k: Extent) {
    && (forall x :: InRun(x, e.first + k.start, k.n) ==> !TakenPage(s, x))
    && (forall f {:trigger f in k.frames} :: f in k.frames ==> !TakenFrame(s, f))
    && (forall f {:trigger f in k.tables} :: f in k.tables ==> !TakenFrame(s, f))
    && (forall p {:trigger p in s.live} :: p in s.live ==>
          && (p + |s.live[p]| <= e.first + k.start || e.first + k.start + k.n <= p)
          && s.live[p] != [] && FramesApart(s.live[p], k.frames))
  }

  lemma RunWasUntouched(e: Setting, s: State, k: Extent)
    requires AllHeld(e, s) && LostKept(e, s) && Grown(e, s, k)
    ensures Untouched(e, s, k)
  {
    hide Grown, Held, LostKept, FramesApart;
    forall p | p in s.live
      ensures p + |s.live[p]| <= e.first + k.start || e.first + k.start + k.n <= p
      ensures s.live[p] != [] && FramesApart(s.live[p], k.frames)
    {
      RunApart(e, s, k, p, s.live[p]);
      HeldSome(e, s, p, s.live[p]);
    }
    forall x | InRun(x, e.first + k.start, k.n) ensures x !in s.lostPages {
      LostApart(e, s, k, x);
    }
    forall f | TakenFrame(s, f) ensures f !in k.frames && f !in k.tables {
      TakenNotFree(e, s, f);
      NewFrame(e, s, k, f);
    }
  }

  lemma HeldSome(e: Setting, s: State, q: nat, frames: seq<FrameNo>)
    requires Held(e, s, q, frames)
    ensures frames != [] && e.first <= q && q + |frames| <= e.first + |s.bits|
    ensures forall f :: f in frames ==> HeldFrame(e, s.b, f)
  {
    hide RunMapped, NotATable, FreeIn;
  }

  lemma LostApart(e: Setting, s: State, k: Extent, x: nat)
    requires LostKept(e, s) && Grown(e, s, k)
    ensures x in s.lostPages ==> !InRun(x, e.first + k.start, k.n)
  {
    hide Progress, Free, NotATable, LivePage, LiveFrame;
    if x in s.lostPages { assert s.bits[x - e.first]; }
  }

  lemma TakenNotFree(e: Setting, s: State, f: FrameNo)
    requires AllHeld(e, s) && LostKept(e, s) && TakenFrame(s, f)
    ensures PoolsOk(e.c) && Sized(e.c, s.b) && HeldFrame(e, s.b, f) && f != 0 && !Free(e.c, s.b, f)
  {
    hide Held, Free, NotATable;
    if LiveFrame(s, f) {
      var p :| p in s.live && f in s.live[p];
      HeldSome(e, s, p, s.live[p]);
    }
  }

  // ----- the invariant -----

  /** What the allocation, or the loss, adds to the account. */
  ghost predicate Adds(e: Setting, s: State, k: Extent, s': State) {
    && (forall x :: TakenPage(s', x) <==> TakenPage(s, x) || InRun(x, e.first + k.start, k.n))
    && (forall f :: TakenFrame(s', f) <==> TakenFrame(s, f) || f in k.frames)
  }

  lemma MallocAdds(e: Setting, s: State, k: Extent, s': State)
    requires Untouched(e, s, k) && Malloced(e, s, k, s') && k.n >= 1
    ensures var full := |k.frames| == k.n;
            && (forall x :: LivePage(s', x) <==> LivePage(s, x) || (full && InRun(x, e.first + k.start, k.n)))
            && (forall f :: LiveFrame(s', f) <==> LiveFrame(s, f) || (full && f in k.frames))
    ensures Adds(e, s, k, s')
  {
    var q, full := e.first + k.start, |k.frames| == k.n;
    hide PM.RunSet;
    assert q !in s.live;
    hide Untouched;
    forall x: int ensures LivePage(s', x) <==> LivePage(s, x) || (full && InRun(x, q, k.n)) {
      if LivePage(s, x) {
        var p :| p in s.live && InRun(x, p, |s.live[p]|);
        assert p in s'.live && s'.live[p] == s.live[p];
      }
      if full && InRun(x, q, k.n) { assert q in s'.live; }
      if LivePage(s', x) {
        var p :| p in s'.live && InRun(x, p, |s'.live[p]|);
        assert p == q || (p in s.live && s'.live[p] == s.live[p]);
      }
    }
    forall f: FrameNo ensures LiveFrame(s', f) <==> LiveFrame(s, f) || (full && f in k.frames) {
      if LiveFrame(s, f) {
        var p :| p in s.live && f in s.live[p];
        assert p in s'.live && s'.live[p] == s.live[p];
      }
      if full && f in k.frames { assert q in s'.live; }
      if LiveFrame(s', f) {
        var p :| p in s'.live && f in s'.live[p];
        assert p == q || (p in s.live && s'.live[p] == s.live[p]);
      }
    }
    hide LivePage, LiveFrame;
    assert forall x: nat :: x in s'.lostPages <==> x in s.lostPages || (!full && InRun(x, q, k.n));
  }

  /** What was lost stays lost, and the run that is lost now is with it. */
  lemma MallocLost(e: Setting, s: State, k: Extent, s': State)
    requires Good(e.c, s.b, e.d) && OrdinaryRun(e.first, |s.bits|)
    requires LostKept(e, s) && Untouched(e, s, k) && Grown(e, s, k) && Malloced(e, s, k, s')
    ensures LostKept(e, s')
  {
    hide Untouched, Grown, Malloced, Good, LivePage, LiveFrame, HeldFrame;
    LostPagesStay(e, s, k, s');
    forall f | f in s'.lostFrames ensures HeldFrame(e, s'.b, f) && !LiveFrame(s', f) {
      LostStays(e, s, k, s', f);
      LostFramesApart(e, s, k, s', f);
    }
  }

  lemma LostPagesStay(e: Setting, s: State, k: Extent, s': State)
    requires LostKept(e, s) && Untouched(e, s, k) && Grown(e, s, k) && Malloced(e, s, k, s')
    ensures PoolsOk(e.c) && Sized(e.c, s'.b)
    ensures forall x {:trigger x in s'.lostPages} :: x in s'.lostPages ==>
              e.first <= x < e.first + |s'.bits| && s'.bits[x - e.first] && !LivePage(s', x)
  {
    hide Progress, Bitmaps.FreeRun, LivePage, LiveFrame, Free, NotATable, Untouched, LostKept, PM.RunSet;
    forall x | x in s'.lostPages
      ensures e.first <= x < e.first + |s'.bits| && s'.bits[x - e.first] && !LivePage(s', x)
    {
      LostPageStays(e, s, k, s', x);
    }
  }

  lemma LostPageStays(e: Setting, s: State, k: Extent, s': State, x: nat)
    requires LostKept(e, s) && Untouched(e, s, k) && Grown(e, s, k) && Malloced(e, s, k, s') && x in s'.lostPages
    ensures e.first <= x < e.first + |s'.bits| && s'.bits[x - e.first] && !LivePage(s', x)
  {
    hide Progress, Bitmaps.FreeRun, LivePage, LiveFrame, Free, NotATable;
    MallocAdds(e, s, k, s');
    GrownLess(e, s, k);
    if x in s.lostPages {
      assert s.bits[x - e.first] && TakenPage(s, x);
    } else {
      assert InRun(x, e.first + k.start, k.n) && !TakenPage(s, x);
    }
  }

  lemma LostFramesApart(e: Setting, s: State, k: Extent, s': State, f: FrameNo)
    requires LostKept(e, s) && Untouched(e, s, k) && Grown(e, s, k) && Malloced(e, s, k, s') && f in s'.lostFrames
    ensures !LiveFrame(s', f)
  {
    GrownLess(e, s, k);
    MallocAdds(e, s, k, s');
    hide LivePage, LiveFrame, Free, NotATable, PM.RunSet, Grown;
  }

  lemma LostStays(e: Setting, s: State, k: Extent, s': State, f: FrameNo)
    requires Good(e.c, s.b, e.d) && LostKept(e, s) && Grown(e, s, k) && Malloced(e, s, k, s') && f in s'.lostFrames
    ensures PoolsOk(e.c) && Sized(e.c, s'.b) && HeldFrame(e, s'.b, f)
  {
    hide Progress, Free, NotATable, Good, LivePage, LiveFrame, Bitmaps.FreeRun;
    if f in s.lostFrames {
      StillHeld(e, s, k, f);
    } else {
      NewHeld(e, s, k, f);
    }
  }

  /** All allocations, the new one with them. */
  lemma MallocLive(e: Setting, s: State, k: Extent, s': State)
    requires Good(e.c, s.b, e.d) && OrdinaryRun(e.first, |s.bits|)
    requires AllHeld(e, s) && Untouched(e, s, k) && Grown(e, s, k) && Malloced(e, s, k, s')
    ensures AllHeld(e, s')
  {
    hide Grown, Good, Held, TakenPage, TakenFrame, FramesApart;
    GrownLess(e, s, k);
    forall p | p in s'.live ensures Held(e, s', p, s'.live[p]) {
      if p in s.live {
        OldRunHeld(e, s, k, s', p, s.live[p]);
        assert p != e.first + k.start;
      } else {
        NewRunHeld(e, s, k, s');
      }
    }
    ApartAgain(e, s, k, s');
  }

  lemma ApartAgain(e: Setting, s: State, k: Extent, s': State)
    requires AllHeld(e, s) && Untouched(e, s, k) && Malloced(e, s, k, s') && k.n >= 1
    ensures forall p, q {:trigger s'.live[p], s'.live[q]} :: p in s'.live && q in s'.live && p < q ==>
              p + |s'.live[p]| <= q && FramesApart(s'.live[p], s'.live[q])
  {
    hide Held, TakenPage, TakenFrame, PM.RunSet;
    var at := e.first + k.start;
    assert at !in s.live;
    forall p, q | p in s'.live && q in s'.live && p < q
      ensures p + |s'.live[p]| <= q && FramesApart(s'.live[p], s'.live[q])
    {
      assert p != at ==> p in s.live && s'.live[p] == s.live[p];
      assert q != at ==> q in s.live && s'.live[q] == s.live[q];
    }
  }

  lemma MallocInv(e: Setting, s: State, start: nat, n: nat)
    requires Inv(e, s) && Mallocs(e, s, start, n)
    ensures Inv(e, AfterMalloc(e, s, start, n))
  {
    var s' := AfterMalloc(e, s, start, n);
    var k := MallocGrows(e, s, start, n);
    hide Mallocs, AfterMalloc, Grown, AllHeld, LostKept, Good, UP.FreeBitsUnmapped, Untouched;
    RunWasUntouched(e, s, k);
    GrownGood(e, s, k);
    FreeBitsStay(e, s, k);
    MallocLost(e, s, k, s');
    MallocLive(e, s, k, s');
  }

  /** A request for more pages than there are frames is not rolled back: all frames of the pool are gone
      afterwards, and the pages of the run with them.  Only a pool that had none keeps its books. */
  lemma RefusedTakesAll(e: Setting, s: State, start: nat, n: nat)
    requires Inv(e, s) && Mallocs(e, s, start, n) && n > FreeFrames(e.c, s.b, e.pf)
    ensures var s' := AfterMalloc(e, s, start, n);
            && Sized(e.c, s'.b) && FreeFrames(e.c, s'.b, e.pf) == 0
            && s'.live == s.live && s'.lostPages == s.lostPages + PageRange(e.first + start, n)
            && |s'.lostFrames - s.lostFrames| == FreeFrames(e.c, s.b, e.pf)
            && s'.bits != s.bits
            && (s'.b == s.b <==> FreeFrames(e.c, s.b, e.pf) == 0)
  {
    var s' := AfterMalloc(e, s, start, n);
    var k := MallocGrows(e, s, start, n);
    hide Mallocs, AfterMalloc, Grown, AllHeld, LostKept, Good, UP.FreeBitsUnmapped, TablesSuffice, FreeFrames, Malloced;
    RunWasUntouched(e, s, k);
    LostMore(e, s, k, s');
    RefusedBooks(e, s, start, n);
  }

  lemma LostMore(e: Setting, s: State, k: Extent, s': State)
    requires Grown(e, s, k) && Untouched(e, s, k) && Malloced(e, s, k, s') && |k.frames| < k.n
    ensures s'.live == s.live && s'.lostPages == s.lostPages + PageRange(e.first + k.start, k.n)
    ensures |s'.lostFrames - s.lostFrames| == |k.frames| && s'.bits != s.bits && s'.b == k.b
  {
    hide Progress, LivePage, LiveFrame;
    assert s'.bits[k.start] && !s.bits[k.start];
    GrownDistinct(e, s, k);
    DistinctCount(k.frames);
    assert s'.lostFrames - s.lostFrames == Members(k.frames) by {
      assert forall f :: f in k.frames ==> !TakenFrame(s, f);
    }
  }

  lemma GrownDistinct(e: Setting, s: State, k: Extent)
    requires Grown(e, s, k)
    ensures PageBooks.Distinct(k.frames)
  {
    hide Good, Taken, RunMapped, OthersSame, SlotsWithin, DirectoryGrown, FreeIn, Bitmaps.FreeRun;
  }

  lemma {:induction false} DistinctCount(fs: seq<FrameNo>)
    requires PageBooks.Distinct(fs)
    ensures |Members(fs)| == |fs|
  {
    if fs == [] {
      assert Members(fs) == {};
    } else {
      DistinctCount(fs[1..]);
      assert fs == [fs[0]] + fs[1..];
      assert Members(fs) == Members(fs[1..]) + {fs[0]};
    }
  }

  lemma RefusedBooks(e: Setting, s: State, start: nat, n: nat)
    requires Ready(e, s) && Mallocs(e, s, start, n) && n > FreeFrames(e.c, s.b, e.pf)
    ensures var s' := AfterMalloc(e, s, start, n);
            && Sized(e.c, s'.b) && FreeFrames(e.c, s'.b, e.pf) == 0
            && (s'.b == s.b <==> FreeFrames(e.c, s.b, e.pf) == 0)
  {
    hide Good, UP.FreeBitsUnmapped, RunUnmapped, Progress, Bitmaps.FreeRun, Grow, OnePage, FreeFrames, TablesSuffice;
    GoodParts(e.c, s.b, e.d);
    FreeRunFits(s.bits, start, n);
    FreeRunUnmapped(e, s, start, n);
    var q: PageNo := e.first + start;
    GrowExactly(e.c, s.b, e.d, e.pf, q, n);
    if FreeFrames(e.c, s.b, e.pf) == 0 {
      FullIsNone(e.c, s.b, e.pf);
      GrowNone(e.c, s.b, e.d, e.pf, q);
      GrowUnfold(e.c, s.b, e.d, e.pf, q, 1);
      OnePageParts(e.c, Going(s.b, [], []), e.d, e.pf, q);
      PM.GrowStuck(e.c, s.b, e.d, e.pf, q, 1, n);
    }
  }

  // ----- the account -----

  lemma BitsStill(e: Setting, s0: State, s: State, k: Extent, s': State)
    requires BitsSince(e, s0, s) && Grown(e, s, k) && Malloced(e, s, k, s') && Adds(e, s, k, s')
    ensures BitsSince(e, s0, s')
  {
    hide Progress, TakenPage, TakenFrame;
    var q := e.first + k.start;
    forall x | 0 <= x < |s'.bits| && s0.bits[x] ensures !TakenPage(s', e.first + x) {
      assert s.bits[x];
    }
    forall x | 0 <= x < |s'.bits| ensures s'.bits[x] <==> s0.bits[x] || TakenPage(s', e.first + x) {
      assert s.bits[x] <==> s0.bits[x] || TakenPage(s, e.first + x);
    }
  }

  lemma PoolStill(start: FrameNo, v0: seq<bool>, v: seq<bool>, v2: seq<bool>, s: State, s': State, mine: bool,
                  frames: seq<FrameNo>, before: seq<FrameNo>, tables: seq<FrameNo>)
    requires PoolSince(start, v0, v, s, mine, before)
    requires BitsTaken(start, v, v2, if mine then frames else [], tables)
    requires forall f :: TakenFrame(s', f) <==> TakenFrame(s, f) || f in frames
    ensures PoolSince(start, v0, v2, s', mine, before + tables)
  {
    hide TakenFrame;
    forall x | 0 <= x < |v0| ensures v2[x] <==> v0[x] || Gone(s', start + x, mine, before + tables) {
      assert v[x] <==> v0[x] || Gone(s, start + x, mine, before);
    }
  }

  /** What was free after s0 was free at s0. */
  lemma FreeThen(e: Setting, s0: State, s: State, pg: PoolFlag, f: FrameNo)
    requires FramesSince(e, s0, s) && Sized(e.c, s.b) && FreeIn(e.c, s.b, pg, f)
    ensures FreeIn(e.c, s0.b, pg, f) && (pg.Kernel? ==> f !in s.tables)
  {
    hide TakenFrame;
    var x := f - StartOf(e.c, pg);
    if pg.Kernel? { assert !s.b.kernel[x]; } else { assert !s.b.user[x]; }
  }

  lemma FramesStill(e: Setting, s0: State, s: State, k: Extent, s': State)
    requires FramesSince(e, s0, s) && Grown(e, s, k) && Malloced(e, s, k, s') && Adds(e, s, k, s')
    requires Untouched(e, s, k)
    ensures FramesSince(e, s0, s')
  {
    var none: seq<FrameNo> := [];
    GrownTaken(e, s, k);
    hide Progress, Bitmaps.FreeRun, TakenFrame, TakenPage, PoolSince, BitsTaken, PM.RunSet, FreeIn;
    PoolStill(e.c.kStart, s0.b.kernel, s.b.kernel, s'.b.kernel, s, s', e.pf.Kernel?, k.frames, s.tables, k.tables);
    PoolStill(e.c.uStart, s0.b.user, s.b.user, s'.b.user, s, s', e.pf.User?, k.frames, none, none);
    assert none + none == none;
    forall t | t in k.tables ensures TableFrame(e.c, s0.b, t) {
      NewFrame(e, s, k, t);
      if t != 0 { FreeThen(e, s0, s, Kernel, t); }
    }
    forall f | f in k.frames ensures FreeIn(e.c, s0.b, e.pf, f) && f !in s'.tables {
      NewFrame(e, s, k, f);
      FreeThen(e, s0, s, e.pf, f);
      if e.pf.User? && f in s.tables { PoolsDiffer(e.c, s0.b, f); }
    }
  }

  lemma PoolsDiffer(c: Pools, b: Books, f: FrameNo)
    requires PoolsOk(c) && Sized(c, b)
    ensures !(FreeIn(c, b, Kernel, f) && FreeIn(c, b, User, f))
  {
  }

  lemma GrownTaken(e: Setting, s: State, k: Extent)
    requires Grown(e, s, k)
    ensures BitsTaken(e.c.kStart, s.b.kernel, k.b.kernel, if e.pf.Kernel? then k.frames else [], k.tables)
    ensures BitsTaken(e.c.uStart, s.b.user, k.b.user, if e.pf.User? then k.frames else [], [])
    ensures OthersSame(s.b.mem, k.b.mem, e.d, e.first + k.start, |k.frames|)
    ensures DirectoryGrown(s.b.mem, k.b.mem, e.d, k.tables) && StaysOpen(s.b.mem, k.b.mem, e.d)
  {
    hide Good, RunMapped, OthersSame, SlotsWithin, DirectoryGrown, StaysOpen, BitsTaken, Bitmaps.FreeRun, WereFree;
  }

  lemma DirectoryGrownTwice(m0: Phys, m1: Phys, m2: Phys, d: FrameNo, gs: seq<FrameNo>, hs: seq<FrameNo>)
    requires DirectoryGrown(m0, m1, d, gs) && DirectoryGrown(m1, m2, d, hs)
    ensures DirectoryGrown(m0, m2, d, gs + hs)
  {
    hide At, Present, FrameOf, EntryFor;
    forall t | t in gs + hs ensures exists k :: InFrame(k) && !Present(At(m0, d, k)) && At(m2, d, k) == EntryFor(t) {
      if t in gs {
        var k :| InFrame(k) && !Present(At(m0, d, k)) && At(m1, d, k) == EntryFor(t);
        EntryPresent(t);
        assert At(m2, d, k) == At(m1, d, k);
      } else {
        var k :| InFrame(k) && !Present(At(m1, d, k)) && At(m2, d, k) == EntryFor(t);
        assert At(m1, d, k) == At(m0, d, k);
      }
    }
  }

  lemma EntryPresent(t: FrameNo)
    ensures Present(EntryFor(t))
  {
  }

  lemma PagesStill(e: Setting, s0: State, s: State, k: Extent, s': State)
    requires PagesSince(e, s0, s) && Grown(e, s, k) && Malloced(e, s, k, s') && Adds(e, s, k, s')
    ensures PagesSince(e, s0, s')
  {
    GrownTaken(e, s, k);
    GrownLess(e, s, k);
    hide Grown, TakenPage, TakenFrame, BitsTaken, PageAt, PM.RunSet, DirectoryGrown, StaysOpen;
    DirectoryGrownTwice(s0.b.mem, s.b.mem, s'.b.mem, e.d, s.tables, k.tables);
    OpenTwice(s0.b.mem, s.b.mem, s'.b.mem, e.d);
    forall r: PageNo | Ordinary(r) && !TakenPage(s', r) ensures PageAt(s'.b.mem, e.d, r) == PageAt(s0.b.mem, e.d, r) {
      assert !TakenPage(s, r) && !InRun(r, e.first + k.start, k.n);
      assert PageAt(k.b.mem, e.d, r) == PageAt(s.b.mem, e.d, r);
    }
  }

  lemma GrownLess(e: Setting, s: State, k: Extent)
    requires Grown(e, s, k)
    ensures |k.frames| <= k.n && k.n >= 1
  {
    hide Progress, Bitmaps.FreeRun;
  }

  lemma MallocSince(e: Setting, s0: State, s: State, start: nat, n: nat)
    requires Inv(e, s) && Mallocs(e, s, start, n) && Since(e, s0, s)
    ensures Since(e, s0, AfterMalloc(e, s, start, n))
  {
    var s' := AfterMalloc(e, s, start, n);
    var k := MallocGrows(e, s, start, n);
    hide Mallocs, AfterMalloc, Grown, AllHeld, LostKept, Ready, BitsSince, FramesSince, PagesSince, Untouched, Adds;
    RunWasUntouched(e, s, k);
    GrownLess(e, s, k);
    MallocAdds(e, s, k, s');
    BitsStill(e, s0, s, k, s');
    FramesStill(e, s0, s, k, s');
    PagesStill(e, s0, s, k, s');
  }
}
