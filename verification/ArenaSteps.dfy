/** What the writes of sys_malloc and sys_free do to a consistent heap. */
module ArenaSteps {
  import IL = IntrusiveLists
  import opened RamLists
  import opened Arenas
  import opened ArenaLists

  /** m2 is m but for the addresses from lo up to hi. */
  ghost predicate SameOutside(m: Ram, m2: Ram, lo: int, hi: int) {
    forall b {:trigger W(m2, b)} :: Aligned(b) && !(lo <= b < hi) ==> W(m2, b) == W(m, b)
  }

  ghost predicate HeadersExcept(c: Config, m: Ram, g: Model, but: set<nat>) {
    forall p :: p in g.arenas && p !in but ==> HeaderOk(c, m, g, p)
  }

  ghost predicate AllUsedExcept(g: Model, but: set<nat>)
    requires |g.frees| == CLASSES
  {
    forall p :: p in g.arenas && p !in but && g.arenas[p].Small? && g.arenas[p].k < CLASSES ==>
      var k := g.arenas[p].k; |FreeIn(g.frees[k], p, PerArena(k))| < PerArena(k)
  }

  /** The lists stay when the change touches no descriptor and no element. */
  lemma QuietLists(c: Config, m: Ram, m2: Ram, g: Model, lo: int, hi: int)
    requires Lists(c, m, g) && SameOutside(m, m2, lo, hi)
    requires hi <= c.descs || c.descs + DESC_SIZE * CLASSES <= lo
    requires forall k, i {:trigger Nodes(c, k, g.frees[k])[i]} :: 0 <= k < CLASSES && 0 <= i < |g.frees[k]| + 2 ==>
               Nodes(c, k, g.frees[k])[i] + 8 <= lo || hi <= Nodes(c, k, g.frees[k])[i]
    ensures Lists(c, m2, g)
  {
    assert |g.frees| == CLASSES;
    forall k | 0 <= k < CLASSES ensures ListOk(c, m2, g, k) {
      assert ListOk(c, m, g, k);
      QuietList(c, m, m2, g, k, lo, hi);
    }
  }

  lemma QuietList(c: Config, m: Ram, m2: Ram, g: Model, k: nat, lo: int, hi: int)
    requires ConfigOk(c) && ArenasOk(c, g) && FreesOk(g) && k < CLASSES && ListOk(c, m, g, k)
    requires SameOutside(m, m2, lo, hi)
    requires hi <= c.descs || c.descs + DESC_SIZE * CLASSES <= lo
    requires forall i {:trigger Nodes(c, k, g.frees[k])[i]} :: 0 <= i < |g.frees[k]| + 2 ==>
               Nodes(c, k, g.frees[k])[i] + 8 <= lo || hi <= Nodes(c, k, g.frees[k])[i]
    ensures ListOk(c, m2, g, k)
  {
    assert |g.frees| == CLASSES;
    hide W, Nodes, ListOk, IsBlock, BlockAt;
    forall j {:trigger Nodes(c, k, g.frees[k])[j]} | 0 <= j < |g.frees[k]| + 2
      ensures var a := Nodes(c, k, g.frees[k])[j]; ElemAddr(a) && W(m2, a) == W(m, a) && W(m2, a + 4) == W(m, a + 4)
    {
      NodePlace(c, g, k, j);
      var a := Nodes(c, k, g.frees[k])[j];
      assert a + 8 <= lo || hi <= a;
    }
    ListFrame(c, m, m2, g, k);
  }

  /** Writing the header of a page of the region. */
  lemma HeaderWrite(c: Config, m: Ram, m2: Ram, g: Model, p: nat)
    requires Lists(c, m, g) && c.first <= p < c.first + c.total + 1
    requires SameOutside(m, m2, PAGE_SIZE * p, PAGE_SIZE * p + HEADER)
    ensures Lists(c, m2, g)
    ensures forall but :: HeadersExcept(c, m, g, but) ==> HeadersExcept(c, m2, g, but + {p})
  {
    forall k, i {:trigger Nodes(c, k, g.frees[k])[i]} | 0 <= k < CLASSES && 0 <= i < |g.frees[k]| + 2
      ensures Nodes(c, k, g.frees[k])[i] + 8 <= PAGE_SIZE * p || PAGE_SIZE * p + HEADER <= Nodes(c, k, g.frees[k])[i]
    {
      NodePlace(c, g, k, i);
      PlacesApart(c, g, k, i, p);
    }
    hide ListOk, HeaderOk, Nodes, ArenasOk, FreesOk;
    QuietLists(c, m, m2, g, PAGE_SIZE * p, PAGE_SIZE * p + HEADER);
    forall q: nat | q in g.arenas && q != p && HeaderOk(c, m, g, q) ensures HeaderOk(c, m2, g, q) {
      HeaderSame(c, m, m2, g, q, PAGE_SIZE * p, PAGE_SIZE * p + HEADER);
    }
  }

  lemma PlacesApart(c: Config, g: Model, k: nat, i: nat, p: nat)
    requires ConfigOk(c) && ArenasOk(c, g) && FreesOk(g) && k < CLASSES && i < |g.frees[k]| + 2
    requires c.first <= p < c.first + c.total + 1
    ensures Nodes(c, k, g.frees[k])[i] + 8 <= PAGE_SIZE * p || PAGE_SIZE * p + HEADER <= Nodes(c, k, g.frees[k])[i]
  {
    NodePlace(c, g, k, i);
    assert |g.frees| == CLASSES;
    hide BlockAt, IsBlock, ArenasOk, FreesOk, Nodes;
    if 1 <= i <= |g.frees[k]| {
      var q := g.frees[k][i - 1].p;
      assert q < p ==> PAGE_SIZE * (q + 1) <= PAGE_SIZE * p;
      assert q > p ==> PAGE_SIZE * (p + 1) <= PAGE_SIZE * q;
    }
  }

  /** A header outside the change. */
  lemma HeaderSame(c: Config, m: Ram, m2: Ram, g: Model, p: nat, lo: int, hi: int)
    requires p in g.arenas && HeaderOk(c, m, g, p) && SameOutside(m, m2, lo, hi)
    requires PAGE_SIZE * p + HEADER <= lo || hi <= PAGE_SIZE * p
    ensures HeaderOk(c, m2, g, p)
  {
    hide W, PerArena, FreeIn;
  }

  /** Writing into a block that is in no list. */
  lemma BlockWrite(c: Config, m: Ram, m2: Ram, g: Model, k: nat, s: Slot, but: set<nat>)
    requires Lists(c, m, g) && HeadersExcept(c, m, g, but) && IsBlock(g, k, s) && s !in g.frees[k]
    requires SameOutside(m, m2, BlockAt(k, s), BlockAt(k, s) + BlockSize(k))
    ensures Lists(c, m2, g) && HeadersExcept(c, m2, g, but)
  {
    BlockInPage(k, s);
    var lo, hi := BlockAt(k, s), BlockAt(k, s) + BlockSize(k);
    forall k2, i {:trigger Nodes(c, k2, g.frees[k2])[i]} | 0 <= k2 < CLASSES && 0 <= i < |g.frees[k2]| + 2
      ensures Nodes(c, k2, g.frees[k2])[i] + 8 <= lo || hi <= Nodes(c, k2, g.frees[k2])[i]
    {
      BlockApart(c, g, k, s, k2, i);
    }
    assert s.p in g.arenas && c.first <= s.p && s.p + 1 <= c.first + c.total + 1;
    hide ListOk, HeaderOk, Nodes, ArenasOk, FreesOk, IsBlock, BlockAt, BlockSize;
    QuietLists(c, m, m2, g, lo, hi);
    forall q: nat | q in g.arenas && HeaderOk(c, m, g, q) ensures HeaderOk(c, m2, g, q) {
      assert q < s.p ==> PAGE_SIZE * (q + 1) <= PAGE_SIZE * s.p;
      assert q > s.p ==> PAGE_SIZE * (s.p + 1) <= PAGE_SIZE * q;
      HeaderSame(c, m, m2, g, q, lo, hi);
    }
  }

  // ----- counting free blocks -----

  lemma FreeInAppended(fs: seq<Slot>, s: Slot, p: nat, n: nat)
    requires s !in fs && (s.p == p ==> s.i < n)
    ensures |FreeIn(fs + [s], p, n)| == |FreeIn(fs, p, n)| + if s.p == p then 1 else 0
  {
    if s.p == p {
      assert FreeIn(fs + [s], p, n) == FreeIn(fs, p, n) + {s.i};
    } else {
      assert FreeIn(fs + [s], p, n) == FreeIn(fs, p, n);
    }
  }

  lemma FreeInRemoved(fs: seq<Slot>, gs: seq<Slot>, s: Slot, p: nat, n: nat)
    requires s in fs && (s.p == p ==> s.i < n) && forall t :: t in gs <==> t in fs && t != s
    ensures |FreeIn(gs, p, n)| == |FreeIn(fs, p, n)| - if s.p == p then 1 else 0
  {
    if s.p == p {
      assert FreeIn(gs, p, n) == FreeIn(fs, p, n) - {s.i};
    } else {
      assert FreeIn(gs, p, n) == FreeIn(fs, p, n);
    }
  }

  // ----- live bytes -----

  /** No word of a live region changed, that at x aside. */
  ghost predicate KeepsLive(m: Ram, m2: Ram, g: Model, x: int) {
    forall a: nat, b {:trigger Live(g, a), W(m2, b)} ::
        Live(g, a) && a != x && Aligned(b) && a <= b < a + Usable(g, a) ==> W(m2, b) == W(m, b)
  }

  /** What is live in g, x aside, is live in g2 and as large. */
  ghost predicate LiveExtends(g: Model, g2: Model, x: int) {
    forall a: nat {:trigger Live(g, a)} {:trigger Live(g2, a)} ::
        Live(g, a) && a != x ==> Live(g2, a) && Usable(g2, a) == Usable(g, a)
  }

  lemma KeepsLiveOn(m: Ram, m1: Ram, m2: Ram, g: Model, g1: Model, x: int)
    requires KeepsLive(m, m1, g, x) && LiveExtends(g, g1, x) && KeepsLive(m1, m2, g1, x)
    ensures KeepsLive(m, m2, g, x)
  {
    hide Live, Usable, W;
    forall a: nat, b | Live(g, a) && a != x && Aligned(b) && a <= b < a + Usable(g, a) ensures W(m2, b) == W(m, b) {
      assert Live(g1, a);
      assert W(m1, b) == W(m, b);
    }
  }

  lemma KeepsLiveOutside(c: Config, m: Ram, m2: Ram, g: Model, lo: int, hi: int, x: int)
    requires ArenasOk(c, g) && SameOutside(m, m2, lo, hi)
    requires forall a: nat {:trigger Live(g, a)} :: Live(g, a) && a != x ==> a + Usable(g, a) <= lo || hi <= a
    ensures KeepsLive(m, m2, g, x)
  {
    hide Live, Usable, W;
  }

  lemma HeaderKeepsLive(c: Config, m: Ram, m2: Ram, g: Model, p: nat)
    requires ArenasOk(c, g) && p in g.arenas && SameOutside(m, m2, PAGE_SIZE * p, PAGE_SIZE * p + HEADER)
    ensures KeepsLive(m, m2, g, -1)
  {
    forall a: nat | Live(g, a) ensures a + Usable(g, a) <= PAGE_SIZE * p || PAGE_SIZE * p + HEADER <= a {
      LiveInArena(c, g, a);
      var q := a / PAGE_SIZE;
      assert q < p ==> PAGE_SIZE * (q + PagesOf(g.arenas[q])) <= PAGE_SIZE * p;
      assert q > p ==> PAGE_SIZE * (p + 1) <= PAGE_SIZE * q;
    }
    KeepsLiveOutside(c, m, m2, g, PAGE_SIZE * p, PAGE_SIZE * p + HEADER, -1);
  }

  lemma BlockKeepsLive(c: Config, m: Ram, m2: Ram, g: Model, k: nat, s: Slot)
    requires ArenasOk(c, g) && IsBlock(g, k, s) && SameOutside(m, m2, BlockAt(k, s), BlockAt(k, s) + BlockSize(k))
    ensures KeepsLive(m, m2, g, BlockAt(k, s))
  {
    BlockInPage(k, s);
    forall a: nat | Live(g, a) && a != BlockAt(k, s)
      ensures a + Usable(g, a) <= BlockAt(k, s) || BlockAt(k, s) + BlockSize(k) <= a
    {
      LiveBesideBlock(c, g, a, k, s);
    }
    KeepsLiveOutside(c, m, m2, g, BlockAt(k, s), BlockAt(k, s) + BlockSize(k), BlockAt(k, s));
  }

  lemma LiveBesideBlock(c: Config, g: Model, a: nat, k: nat, s: Slot)
    requires ArenasOk(c, g) && IsBlock(g, k, s) && Live(g, a) && a != BlockAt(k, s)
    ensures a + Usable(g, a) <= BlockAt(k, s) || BlockAt(k, s) + BlockSize(k) <= a
  {
    LiveInArena(c, g, a);
    BlockInPage(k, s);
    var p := a / PAGE_SIZE;
    if p == s.p {
      BlocksApart(k, SlotOf(k, a), s);
    } else {
      assert p < s.p ==> PAGE_SIZE * (p + PagesOf(g.arenas[p])) <= PAGE_SIZE * s.p;
      assert p > s.p ==> PAGE_SIZE * (s.p + 1) <= PAGE_SIZE * p;
    }
  }

  // ----- list operations, seen from the headers and the live regions -----

  ghost predicate HeaderUntouched(m: Ram, m2: Ram, p: nat) {
    forall desc, cnt, large {:trigger Header(m2, p, desc, cnt, large)} ::
        Header(m, p, desc, cnt, large) ==> Header(m2, p, desc, cnt, large)
  }

  /** list_append of a block. */
  lemma AppendStep(c: Config, m: Ram, g: Model, k: nat, s: Slot, but: set<nat>)
    requires Lists(c, m, g) && IsBlock(g, k, s) && s !in g.frees[k] && HeadersExcept(c, m, g, but)
    ensures ElemAddr(BlockAt(k, s)) && ElemAddr(Tail(c, k)) && ElemAddr(Prev(m, Tail(c, k)))
    ensures var m2, g2 := InsertBefore(m, Tail(c, k), BlockAt(k, s)), WithFrees(g, k, g.frees[k] + [s]);
            && Lists(c, m2, g2) && HeadersExcept(c, m2, g2, but + {s.p})
            && HeaderUntouched(m, m2, s.p) && KeepsLive(m, m2, g, BlockAt(k, s))
  {
    BlockClass(g, k, s);
    AppendBlock(c, m, g, k, s);
    var m2, g2 := InsertBefore(m, Tail(c, k), BlockAt(k, s)), WithFrees(g, k, g.frees[k] + [s]);
    hide InsertBefore, ListOk;
    assert s.p in g.arenas;
    forall p: nat | p in g.arenas ensures HeaderUntouched(m, m2, p) {
      assert c.first <= p < c.first + c.total + 1;
      AppendKeepsHeader(c, m, m2, g, k, s, p);
    }
    forall p: nat | p in g.arenas && p !in but + {s.p} ensures HeaderOk(c, m2, g2, p) {
      assert HeaderOk(c, m, g, p);
      FreeInAppended(g.frees[k], s, p, PerArena(k));
    }
    AppendKeepsLive(c, m, m2, g, k, s);
  }

  lemma AppendKeepsHeader(c: Config, m: Ram, m2: Ram, g: Model, k: nat, s: Slot, p: nat)
    requires Lists(c, m, g) && IsBlock(g, k, s) && s !in g.frees[k] && c.first <= p < c.first + c.total + 1
    requires forall b {:trigger W(m2, b)} ::
        Aligned(b) && Outside(c, k, g.frees[k], b) && !InBlock(k, s, b) ==> W(m2, b) == W(m, b)
    ensures HeaderUntouched(m, m2, p)
  {
    BlockClass(g, k, s);
    HeaderOutside(c, g, k, p, 0);
    HeaderOutside(c, g, k, p, 4);
    HeaderOutside(c, g, k, p, 8);
    BlockInPage(k, s);
    hide Outside, BlockAt, BlockSize, W, ArenasOk, FreesOk, ListOk;
    assert s.p < p ==> PAGE_SIZE * (s.p + 1) <= PAGE_SIZE * p;
    assert s.p > p ==> PAGE_SIZE * (p + 1) <= PAGE_SIZE * s.p;
  }

  lemma AppendKeepsLive(c: Config, m: Ram, m2: Ram, g: Model, k: nat, s: Slot)
    requires Lists(c, m, g) && IsBlock(g, k, s)
    requires forall b {:trigger W(m2, b)} ::
        Aligned(b) && Outside(c, k, g.frees[k], b) && !InBlock(k, s, b) ==> W(m2, b) == W(m, b)
    ensures KeepsLive(m, m2, g, BlockAt(k, s))
  {
    BlockClass(g, k, s);
    forall a: nat, b | Live(g, a) && a != BlockAt(k, s) && Aligned(b) && a <= b < a + Usable(g, a)
      ensures W(m2, b) == W(m, b)
    {
      LiveOutside(c, g, k, a, b);
      LiveBesideBlock(c, g, a, k, s);
    }
  }

  /** list_remove of block j of a list. */
  lemma RemoveStep(c: Config, m: Ram, g: Model, k: nat, j: nat, but: set<nat>)
    requires Lists(c, m, g) && k < CLASSES && j < |g.frees[k]| && HeadersExcept(c, m, g, but)
    ensures var x, s := BlockAt(k, g.frees[k][j]), g.frees[k][j];
            && ElemAddr(x) && ElemAddr(Prev(m, x)) && ElemAddr(Next(m, x)) && Apart(Prev(m, x), x)
            && var m2, g2 := Remove(m, x), WithFrees(g, k, IL.Removed(g.frees[k], j));
               && Lists(c, m2, g2) && HeadersExcept(c, m2, g2, but + {s.p})
               && HeaderUntouched(m, m2, s.p) && KeepsLive(m, m2, g, -1)
  {
    var s := g.frees[k][j];
    assert s in g.frees[k] && IsBlock(g, k, s) && s.p in g.arenas;
    RemoveBlock(c, m, g, k, j);
    FreesRemoved(g, k, j);
    var m2, g2 := Remove(m, BlockAt(k, s)), WithFrees(g, k, IL.Removed(g.frees[k], j));
    hide Remove, ListOk;
    forall p: nat | p in g.arenas ensures HeaderUntouched(m, m2, p) {
      assert c.first <= p < c.first + c.total + 1;
      RemoveKeepsHeader(c, m, m2, g, k, p);
    }
    forall p: nat | p in g.arenas && p !in but + {s.p} ensures HeaderOk(c, m2, g2, p) {
      assert HeaderOk(c, m, g, p);
      FreeInRemoved(g.frees[k], g2.frees[k], s, p, PerArena(k));
    }
    RemoveKeepsLive(c, m, m2, g, k);
  }

  lemma RemoveKeepsHeader(c: Config, m: Ram, m2: Ram, g: Model, k: nat, p: nat)
    requires Lists(c, m, g) && k < CLASSES && c.first <= p < c.first + c.total + 1
    requires forall b {:trigger W(m2, b)} :: Aligned(b) && Outside(c, k, g.frees[k], b) ==> W(m2, b) == W(m, b)
    ensures HeaderUntouched(m, m2, p)
  {
    HeaderOutside(c, g, k, p, 0);
    HeaderOutside(c, g, k, p, 4);
    HeaderOutside(c, g, k, p, 8);
    hide Outside, W, ArenasOk, FreesOk, ListOk;
  }

  lemma RemoveKeepsLive(c: Config, m: Ram, m2: Ram, g: Model, k: nat)
    requires Lists(c, m, g) && k < CLASSES
    requires forall b {:trigger W(m2, b)} :: Aligned(b) && Outside(c, k, g.frees[k], b) ==> W(m2, b) == W(m, b)
    ensures KeepsLive(m, m2, g, -1)
  {
    forall a: nat, b | Live(g, a) && Aligned(b) && a <= b < a + Usable(g, a) ensures W(m2, b) == W(m, b) {
      LiveOutside(c, g, k, a, b);
    }
  }

  // ----- what is live afterwards -----

  /** Exactly x has become live (or was). */
  ghost predicate LiveGains(g: Model, g2: Model, x: int) {
    && (forall a: nat {:trigger Live(g2, a)} :: Live(g2, a) <==> Live(g, a) || a == x)
    && (forall a: nat {:trigger Usable(g2, a)} :: Live(g, a) ==> Live(g2, a) && Usable(g2, a) == Usable(g, a))
  }

  /** Exactly x is no longer live. */
  ghost predicate LiveLoses(g: Model, g2: Model, x: int) {
    && (forall a: nat {:trigger Live(g2, a)} :: Live(g2, a) <==> Live(g, a) && a != x)
    && (forall a: nat {:trigger Usable(g2, a)} :: Live(g, a) && a != x ==> Live(g2, a) && Usable(g2, a) == Usable(g, a))
  }

  lemma LiveAppended(g: Model, k: nat, s: Slot)
    requires FreesOk(g) && IsBlock(g, k, s) && s !in g.frees[k]
    ensures LiveLoses(g, WithFrees(g, k, g.frees[k] + [s]), BlockAt(k, s))
    ensures BlockAt(k, s) >= 0 && Live(g, BlockAt(k, s))
  {
    SlotOfBlock(k, s);
    BlockInPage(k, s);
    var g2 := WithFrees(g, k, g.frees[k] + [s]);
    forall a: nat ensures Live(g2, a) <==> Live(g, a) && a != BlockAt(k, s) {
      if a / PAGE_SIZE in g.arenas && g.arenas[a / PAGE_SIZE].Small? {
        var k2 := g.arenas[a / PAGE_SIZE].k;
        if k2 < CLASSES {
          hide BlockAt;
          assert k2 == k ==> (SlotOf(k2, a) in g2.frees[k2] <==> SlotOf(k2, a) in g.frees[k2] || SlotOf(k2, a) == s);
        }
      }
    }
  }

  lemma LiveRemoved(g: Model, k: nat, j: nat)
    requires FreesOk(g) && k < CLASSES && j < |g.frees[k]|
    ensures LiveGains(g, WithFrees(g, k, IL.Removed(g.frees[k], j)), BlockAt(k, g.frees[k][j]))
    ensures BlockAt(k, g.frees[k][j]) >= 0 && !Live(g, BlockAt(k, g.frees[k][j]))
  {
    var s := g.frees[k][j];
    assert s in g.frees[k] && IsBlock(g, k, s);
    SlotOfBlock(k, s);
    BlockInPage(k, s);
    RemovedMembers(g.frees[k], j);
    var g2 := WithFrees(g, k, IL.Removed(g.frees[k], j));
    forall a: nat ensures Live(g2, a) <==> Live(g, a) || a == BlockAt(k, s) {
      if a / PAGE_SIZE in g.arenas && g.arenas[a / PAGE_SIZE].Small? {
        var k2 := g.arenas[a / PAGE_SIZE].k;
        if k2 < CLASSES {
          hide BlockAt;
          assert k2 == k ==> (SlotOf(k2, a) in g2.frees[k2] <==> SlotOf(k2, a) in g.frees[k2] && SlotOf(k2, a) != s);
        }
      }
    }
  }

  /** The model with an arena more. */
  function WithArena(g: Model, p: nat, a: Arena): Model {
    g.(arenas := g.arenas[p := a])
  }

  function WithoutArena(g: Model, p: nat): Model {
    g.(arenas := map q | q in g.arenas && q != p :: g.arenas[q])
  }

  /** With a large arena its one region is live in addition. */
  lemma LiveLarge(c: Config, g: Model, p: nat, n: nat)
    requires ArenasOk(c, g) && p !in g.arenas && n >= 1
    ensures LiveGains(g, WithArena(g, p, Large(n)), PAGE_SIZE * p + HEADER)
    ensures LiveLoses(WithArena(g, p, Large(n)), g, PAGE_SIZE * p + HEADER)
    ensures Usable(WithArena(g, p, Large(n)), PAGE_SIZE * p + HEADER) == PAGE_SIZE * n - HEADER
  {
    hide BlockAt, SlotOf;
  }

  /** The list of a class is the same in both models but for blocks of page p, which are all free. */
  lemma LiveWholeArena(g: Model, g2: Model, p: nat, k: nat)
    requires |g.frees| == CLASSES && |g2.frees| == CLASSES && k < CLASSES && p !in g.arenas
    requires g2.arenas == g.arenas[p := Small(k)]
    requires forall i {:trigger Slot(p, i)} :: 0 <= i < PerArena(k) ==> Slot(p, i) in g2.frees[k]
    requires forall j, t: Slot {:trigger t in g2.frees[j]} ::
        0 <= j < CLASSES && t.p != p ==> (t in g2.frees[j] <==> t in g.frees[j])
    ensures forall a: nat {:trigger Live(g2, a)} {:trigger Live(g, a)} :: Live(g2, a) <==> Live(g, a)
    ensures forall a: nat {:trigger Usable(g2, a)} {:trigger Usable(g, a)} ::
        Live(g, a) ==> Usable(g2, a) == Usable(g, a)
  {
    hide BlockAt;
    forall a: nat ensures Live(g2, a) <==> Live(g, a) {
      if a / PAGE_SIZE == p {
        assert SlotOf(k, a) == Slot(p, SlotOf(k, a).i);
      }
    }
  }

  // ----- arenas coming and going -----

  ghost predicate Owned(g: Model, p: nat) {
    exists q :: q in g.arenas && q <= p < q + PagesOf(g.arenas[q])
  }

  ghost predicate PagesUnowned(g: Model, p: nat, n: nat) {
    forall x: nat {:trigger Owned(g, x)} :: p <= x < p + n ==> !Owned(g, x)
  }

  predicate InRegion(c: Config, p: nat, n: nat) {
    c.first <= p && p + n <= c.first + c.total + 1
  }

  /** Pages that nobody owns lie apart from the pages of every arena. */
  lemma UnownedApart(c: Config, g: Model, p: nat, n: nat, q: nat)
    requires ArenasOk(c, g) && PagesUnowned(g, p, n) && n >= 1 && q in g.arenas
    ensures q + PagesOf(g.arenas[q]) <= p || p + n <= q
  {
    var x := if q < p then p else q;
    assert q <= x < q + PagesOf(g.arenas[q]) ==> Owned(g, x);
  }

  /** Writing to pages that nobody owns. */
  lemma PageWrite(c: Config, m: Ram, m2: Ram, g: Model, p: nat, n: nat)
    requires Lists(c, m, g) && HeadersExcept(c, m, g, {}) && PagesUnowned(g, p, n) && n >= 1 && InRegion(c, p, n)
    requires SameOutside(m, m2, PAGE_SIZE * p, PAGE_SIZE * (p + n))
    ensures Lists(c, m2, g) && HeadersExcept(c, m2, g, {}) && KeepsLive(m, m2, g, -1)
  {
    var lo, hi := PAGE_SIZE * p, PAGE_SIZE * (p + n);
    forall q: nat | q in g.arenas ensures PAGE_SIZE * (q + PagesOf(g.arenas[q])) <= lo || hi <= PAGE_SIZE * q {
      UnownedApart(c, g, p, n, q);
    }
    assert |g.frees| == CLASSES;
    forall k, i {:trigger Nodes(c, k, g.frees[k])[i]} | 0 <= k < CLASSES && 0 <= i < |g.frees[k]| + 2
      ensures Nodes(c, k, g.frees[k])[i] + 8 <= lo || hi <= Nodes(c, k, g.frees[k])[i]
    {
      NodePlace(c, g, k, i);
      if 1 <= i <= |g.frees[k]| {
        var q := g.frees[k][i - 1].p;
        assert q in g.arenas && PagesOf(g.arenas[q]) == 1;
      }
    }
    forall a: nat | Live(g, a) ensures a + Usable(g, a) <= lo || hi <= a {
      LiveInArena(c, g, a);
    }
    hide ListOk, HeaderOk, Nodes, FreesOk, IsBlock, BlockAt, BlockSize, Live, Usable;
    KeepsLiveOutside(c, m, m2, g, lo, hi, -1);
    QuietLists(c, m, m2, g, lo, hi);
    forall q: nat | q in g.arenas && HeaderOk(c, m, g, q) ensures HeaderOk(c, m2, g, q) {
      assert PagesOf(g.arenas[q]) >= 1;
      HeaderSame(c, m, m2, g, q, lo, hi);
    }
  }

  /** A new arena among the others; its own header is still to be shown right. */
  lemma ArenaAdded(c: Config, m: Ram, g: Model, p: nat, a: Arena)
    requires Lists(c, m, g) && HeadersExcept(c, m, g, {}) && InRegion(c, p, PagesOf(a))
    requires PagesUnowned(g, p, PagesOf(a)) && (match a case Small(k) => k < CLASSES case Large(n) => n >= 1)
    ensures Lists(c, m, WithArena(g, p, a)) && HeadersExcept(c, m, WithArena(g, p, a), {p}) && p !in g.arenas
  {
    var g2 := WithArena(g, p, a);
    ModelAdded(c, g, p, a);
    hide ListOk, Header, ArenasOk, FreesOk, PagesUnowned, Owned;
    forall k | 0 <= k < CLASSES ensures ListOk(c, m, g2, k) {
      ListOf(c, m, g, g2, k);
    }
  }

  lemma ModelAdded(c: Config, g: Model, p: nat, a: Arena)
    requires ArenasOk(c, g) && FreesOk(g) && InRegion(c, p, PagesOf(a)) && PagesUnowned(g, p, PagesOf(a))
    requires match a case Small(k) => k < CLASSES case Large(n) => n >= 1
    ensures p !in g.arenas && ArenasOk(c, WithArena(g, p, a)) && FreesOk(WithArena(g, p, a))
  {
    forall q: nat | q in g.arenas ensures q + PagesOf(g.arenas[q]) <= p || p + PagesOf(a) <= q {
      UnownedApart(c, g, p, PagesOf(a), q);
    }
    FreesAdded(g, p, a);
    hide PagesUnowned, FreesOk;
    assert forall q :: q in WithArena(g, p, a).arenas <==> q in g.arenas || q == p;
  }

  lemma FreesAdded(g: Model, p: nat, a: Arena)
    requires FreesOk(g) && p !in g.arenas
    ensures FreesOk(WithArena(g, p, a))
  {
    hide PerArena, Distinct;
  }

  /** An arena none of whose blocks is in a list disappears. */
  lemma ArenaDropped(c: Config, m: Ram, g: Model, p: nat)
    requires Lists(c, m, g) && HeadersExcept(c, m, g, {p}) && p in g.arenas
    requires forall k, s {:trigger s in g.frees[k]} :: 0 <= k < CLASSES && s in g.frees[k] ==> s.p != p
    ensures var g2 := WithoutArena(g, p);
            Lists(c, m, g2) && HeadersExcept(c, m, g2, {})
  {
    var g2 := WithoutArena(g, p);
    FreesDropped(g, p);
    assert ArenasOk(c, g2);
    hide ListOk, Header, ArenasOk, FreesOk;
    forall k | 0 <= k < CLASSES ensures ListOk(c, m, g2, k) {
      assert ListOk(c, m, g, k);
      ListOf(c, m, g, g2, k);
    }
  }

  lemma FreesDropped(g: Model, p: nat)
    requires FreesOk(g)
    requires forall k, s {:trigger s in g.frees[k]} :: 0 <= k < CLASSES && s in g.frees[k] ==> s.p != p
    ensures FreesOk(WithoutArena(g, p))
  {
    hide PerArena, Distinct;
  }

  // ----- whole operations -----

  lemma KeepsLiveTwice(m: Ram, m1: Ram, m2: Ram, g: Model, x: int)
    requires KeepsLive(m, m1, g, -1) || KeepsLive(m, m1, g, x)
    requires KeepsLive(m1, m2, g, -1) || KeepsLive(m1, m2, g, x)
    ensures KeepsLive(m, m2, g, x)
  {
    hide Live, Usable, W;
    forall a: nat, b | Live(g, a) && a != x && Aligned(b) && a <= b < a + Usable(g, a) ensures W(m2, b) == W(m, b) {
      assert W(m1, b) == W(m, b);
      assert W(m2, b) == W(m1, b);
    }
  }

  /** The count of a small arena brought up to date. */
  lemma CountStep(c: Config, m: Ram, g: Model, p: nat, k: nat, was: int, v: Word)
    requires Lists(c, m, g) && HeadersExcept(c, m, g, {p}) && p in g.arenas && g.arenas[p] == Small(k)
    requires Header(m, p, Desc(c, k), was, 0) && k < CLASSES && v == |FreeIn(g.frees[k], p, PerArena(k))|
    ensures Aligned(PAGE_SIZE * p + 4)
    ensures var m2 := Put(m, PAGE_SIZE * p + 4, v);
            Lists(c, m2, g) && HeadersExcept(c, m2, g, {}) && KeepsLive(m, m2, g, -1)
  {
    var m2 := Put(m, PAGE_SIZE * p + 4, v);
    assert SameOutside(m, m2, PAGE_SIZE * p, PAGE_SIZE * p + HEADER);
    HeaderWrite(c, m, m2, g, p);
    HeaderKeepsLive(c, m, m2, g, p);
    assert Header(m2, p, Desc(c, k), v, 0);
    assert {p} + {p} == {p};
    hide Lists, Header, W, KeepsLive;
    forall q: nat | q in g.arenas ensures HeaderOk(c, m2, g, q) {
      assert q != p ==> q !in {p};
    }
  }

  /** There are at most as many free blocks as blocks, and if as many, all are free. */
  lemma FreeCount(c: Config, g: Model, p: nat, k: nat)
    requires k < CLASSES && k < |g.frees|
    ensures |FreeIn(g.frees[k], p, PerArena(k))| <= PerArena(k)
    ensures |FreeIn(g.frees[k], p, PerArena(k))| == PerArena(k) ==>
              forall i: nat {:trigger Slot(p, i)} :: i < PerArena(k) ==> Slot(p, i) in g.frees[k]
  {
    SubsetSize(FreeIn(g.frees[k], p, PerArena(k)), PerArena(k));
  }

  /** Block s has left the list of class k: what is left to do is to lower the count of its arena. */
  ghost predicate Leaving(c: Config, m: Ram, g: Model, k: nat, s: Slot, m1: Ram, g1: Model) {
    && k < CLASSES && |g.frees| == CLASSES && |g1.frees| == CLASSES
    && g1 == WithFrees(g, k, g1.frees[k])
    && s in g.frees[k] && (forall t :: t in g1.frees[k] <==> t in g.frees[k] && t != s)
    && IsBlock(g, k, s)
    && Lists(c, m1, g1) && HeadersExcept(c, m1, g1, {s.p}) && HeaderUntouched(m, m1, s.p) && KeepsLive(m, m1, g, -1)
  }

  /** list_pop of the first block. */
  lemma PopLeaves(c: Config, m: Ram, g: Model, k: nat, s: Slot)
    requires Lists(c, m, g) && HeadersExcept(c, m, g, {}) && k < CLASSES
    requires g.frees[k] != [] && s == g.frees[k][0]
    ensures var x := BlockAt(k, s);
            && ElemAddr(x) && ElemAddr(Prev(m, x)) && ElemAddr(Next(m, x)) && Apart(Prev(m, x), x)
            && Leaving(c, m, g, k, s, Remove(m, x), WithFrees(g, k, IL.Removed(g.frees[k], 0)))
            && LiveGains(g, WithFrees(g, k, IL.Removed(g.frees[k], 0)), x) && x > 0 && !Live(g, x)
  {
    assert s in g.frees[k] && IsBlock(g, k, s);
    BlockInPage(k, s);
    RemoveStep(c, m, g, k, 0, {});
    FreesRemoved(g, k, 0);
    LiveRemoved(g, k, 0);
    hide Remove, Lists, KeepsLive, LiveGains, Live, BlockAt, IsBlock, HeaderUntouched;
    assert {} + {s.p} == {s.p};
  }

  /** Lowering the count. */
  lemma LeftCount(c: Config, m: Ram, g: Model, k: nat, s: Slot, m1: Ram, g1: Model)
    requires Leaving(c, m, g, k, s, m1, g1) && s.p in g.arenas && HeaderOk(c, m, g, s.p) && ArenasOk(c, g)
    ensures Aligned(PAGE_SIZE * s.p + 4) && W(m1, PAGE_SIZE * s.p + 4) >= 1
    ensures var m2 := Put(m1, PAGE_SIZE * s.p + 4, W(m1, PAGE_SIZE * s.p + 4) - 1);
            Lists(c, m2, g1) && HeadersExcept(c, m2, g1, {}) && KeepsLive(m, m2, g, -1)
  {
    var p := s.p;
    var n := |FreeIn(g.frees[k], p, PerArena(k))|;
    assert g.arenas[p] == Small(k) && s.i < PerArena(k) && g1.arenas == g.arenas;
    assert Header(m, p, Desc(c, k), n, 0);
    hide IsBlock, Lists, ArenasOk, KeepsLive;
    FreeInRemoved(g.frees[k], g1.frees[k], s, p, PerArena(k));
    assert s.i in FreeIn(g.frees[k], p, PerArena(k));
    assert Header(m1, p, Desc(c, k), n, 0);
    assert Aligned(PAGE_SIZE * p + 4) && W(m1, PAGE_SIZE * p + 4) == n && n >= 1;
    hide FreeIn, PerArena, HeadersExcept, HeaderUntouched, Header, Aligned;
    CountStep(c, m1, g1, p, k, n, n - 1);
    HeaderChange(c, m1, g, p, n - 1);
    KeepsLiveTwice(m, m1, Put(m1, PAGE_SIZE * p + 4, n - 1), g, -1);
  }

  /** An arena with a block in use has fewer free blocks than blocks, and the others are as they were. */
  lemma LeftUsed(c: Config, m: Ram, g: Model, k: nat, s: Slot, m1: Ram, g1: Model)
    requires Leaving(c, m, g, k, s, m1, g1) && AllUsedExcept(g, {s.p})
    ensures AllUsed(g1)
  {
    assert s.i < PerArena(k);
    hide Lists, KeepsLive, HeadersExcept, HeaderUntouched, IsBlock, FreeIn, PerArena;
    FreeCount(c, g, s.p, k);
    forall q: nat | q in g1.arenas && g1.arenas[q].Small? && g1.arenas[q].k < CLASSES
      ensures |FreeIn(g1.frees[g1.arenas[q].k], q, PerArena(g1.arenas[q].k))| < PerArena(g1.arenas[q].k)
    {
      if g1.arenas[q].k == k {
        FreeInRemoved(g.frees[k], g1.frees[k], s, q, PerArena(k));
      } else {
        assert q != s.p by { BlockArena(g, k, s); }
      }
    }
  }

  lemma BlockArena(g: Model, k: nat, s: Slot)
    requires IsBlock(g, k, s)
    ensures s.p in g.arenas && g.arenas[s.p] == Small(k)
  {
  }

  lemma HeaderChange(c: Config, m: Ram, g: Model, p: nat, v: Word)
    requires ArenasOk(c, g) && p in g.arenas && Aligned(PAGE_SIZE * p + 4)
    ensures KeepsLive(m, Put(m, PAGE_SIZE * p + 4, v), g, -1)
  {
    var m2 := Put(m, PAGE_SIZE * p + 4, v);
    HeaderKeepsLive(c, m, m2, g, p);
  }

  // ----- a new arena is split -----

  /** g is g0 with the arena of class k at page p in addition, and some of its blocks in the list. */
  ghost predicate Splitting(g0: Model, g: Model, p: nat, k: nat, n: nat) {
    && |g0.frees| == CLASSES && |g.frees| == CLASSES && k < CLASSES && p !in g0.arenas
    && g.arenas == g0.arenas[p := Small(k)] && g.frees == g0.frees[k := g.frees[k]]
    && g0.frees[k] == []
    && (forall t :: t in g.frees[k] <==> t.p == p && t.i < n)
    && |g.frees[k]| == n && forall i {:trigger g.frees[k][i]} :: 0 <= i < n ==> g.frees[k][i] == Slot(p, i)
  }

  lemma SplittingLive(g0: Model, g: Model, p: nat, k: nat, n: nat)
    requires Splitting(g0, g, p, k, n)
    ensures LiveExtends(g0, g, -1)
    ensures forall a: nat {:trigger Live(g0, a)} :: Live(g0, a) ==> a / PAGE_SIZE != p
  {
    hide BlockAt;
  }

  /** When all blocks are in the list, the same regions are live as before. */
  lemma SplitLive(g0: Model, g: Model, p: nat, k: nat)
    requires k < CLASSES && Splitting(g0, g, p, k, PerArena(k))
    ensures forall a: nat {:trigger Live(g, a)} {:trigger Live(g0, a)} :: Live(g, a) <==> Live(g0, a)
    ensures forall a: nat {:trigger Usable(g, a)} {:trigger Usable(g0, a)} ::
        Live(g0, a) ==> Usable(g, a) == Usable(g0, a)
  {
    hide BlockAt;
    LiveWholeArena(g0, g, p, k);
  }

  /** One more block. */
  lemma SplitStep(c: Config, m: Ram, g0: Model, g: Model, p: nat, k: nat, i: nat)
    requires Splitting(g0, g, p, k, i) && i < PerArena(k) && Lists(c, m, g) && HeadersExcept(c, m, g, {p})
    ensures var s, x := Slot(p, i), BlockAt(k, Slot(p, i));
            && s !in g.frees[k] && x > 0 && ElemAddr(x) && ElemAddr(Tail(c, k)) && ElemAddr(Prev(m, Tail(c, k)))
            && var m2, g2 := InsertBefore(m, Tail(c, k), x), WithFrees(g, k, g.frees[k] + [s]);
               && Lists(c, m2, g2) && HeadersExcept(c, m2, g2, {p}) && HeaderUntouched(m, m2, p)
               && Splitting(g0, g2, p, k, i + 1) && KeepsLive(m, m2, g0, -1)
  {
    var s := Slot(p, i);
    assert IsBlock(g, k, s);
    BlockInPage(k, s);
    AppendStep(c, m, g, k, s, {p});
    SplittingLive(g0, g, p, k, i);
    var m2 := InsertBefore(m, Tail(c, k), BlockAt(k, s));
    hide InsertBefore, Lists, HeadersExcept, HeaderUntouched, Live, Usable, W, BlockAt;
    assert {p} + {p} == {p};
    forall a: nat, b | Live(g0, a) && Aligned(b) && a <= b < a + Usable(g0, a) ensures W(m2, b) == W(m, b) {
      assert Live(g, a) && Usable(g, a) == Usable(g0, a) && a != BlockAt(k, s);
    }
  }

  /** The count of a wholly free arena. */
  lemma SplitDone(c: Config, m: Ram, g0: Model, g: Model, p: nat, k: nat)
    requires k < CLASSES && Splitting(g0, g, p, k, PerArena(k)) && HeadersExcept(c, m, g, {p})
    requires Header(m, p, Desc(c, k), PerArena(k), 0)
    requires AllUsed(g0)
    ensures HeadersExcept(c, m, g, {}) && g.frees[k] != [] && g.frees[k][0] == Slot(p, 0) && AllUsedExcept(g, {p})
  {
    assert forall i: nat :: 0 <= i < PerArena(k) ==> i in FreeIn(g.frees[k], p, PerArena(k));
    AllFree(g.frees[k], p, PerArena(k));
    FreeCount(c, g, p, k);
    assert Slot(p, 0) in g.frees[k];
    assert g.frees[k][0] in g.frees[k];
    hide Header, PerArena;
    forall q: nat | q in g.arenas && q != p && g.arenas[q].Small? && g.arenas[q].k < CLASSES
      ensures |FreeIn(g.frees[g.arenas[q].k], q, PerArena(g.arenas[q].k))| < PerArena(g.arenas[q].k)
    {
      assert FreeIn(g.frees[g.arenas[q].k], q, PerArena(g.arenas[q].k)) == FreeIn(g0.frees[g.arenas[q].k], q, PerArena(g.arenas[q].k));
    }
  }

  // ----- sys_free -----

  /** Block s has come into the list of class k: what is left to do is to raise the count of its arena. */
  ghost predicate Entered(c: Config, m: Ram, g: Model, k: nat, s: Slot, m1: Ram, g1: Model) {
    && k < CLASSES && |g.frees| == CLASSES && g1 == WithFrees(g, k, g.frees[k] + [s]) && s !in g.frees[k]
    && IsBlock(g, k, s)
    && Lists(c, m1, g1) && HeadersExcept(c, m1, g1, {s.p}) && HeaderUntouched(m, m1, s.p)
    && KeepsLive(m, m1, g, BlockAt(k, s)) && LiveLoses(g, g1, BlockAt(k, s))
  }

  /** list_append of the block that is freed. */
  lemma AppendEnters(c: Config, m: Ram, g: Model, k: nat, s: Slot)
    requires Lists(c, m, g) && HeadersExcept(c, m, g, {}) && IsBlock(g, k, s) && s !in g.frees[k]
    ensures ElemAddr(BlockAt(k, s)) && ElemAddr(Tail(c, k)) && ElemAddr(Prev(m, Tail(c, k)))
    ensures Entered(c, m, g, k, s, InsertBefore(m, Tail(c, k), BlockAt(k, s)), WithFrees(g, k, g.frees[k] + [s]))
  {
    BlockArena(g, k, s);
    AppendStep(c, m, g, k, s, {});
    LiveAppended(g, k, s);
    hide InsertBefore, Lists, KeepsLive, LiveLoses, Live, BlockAt, IsBlock, HeaderUntouched, HeadersExcept;
    assert {} + {s.p} == {s.p};
  }

  /** Raising the count. */
  lemma EnteredCount(c: Config, m: Ram, g: Model, k: nat, s: Slot, m1: Ram, g1: Model)
    requires Entered(c, m, g, k, s, m1, g1) && s.p in g.arenas && HeaderOk(c, m, g, s.p) && ArenasOk(c, g)
    ensures Aligned(PAGE_SIZE * s.p) && Aligned(PAGE_SIZE * s.p + 4) && W(m1, PAGE_SIZE * s.p) == Desc(c, k)
    ensures var v := W(m1, PAGE_SIZE * s.p + 4) + 1;
            && v == |FreeIn(g1.frees[k], s.p, PerArena(k))| <= PerArena(k)
            && Header(Put(m1, PAGE_SIZE * s.p + 4, v), s.p, Desc(c, k), v, 0)
            && Lists(c, Put(m1, PAGE_SIZE * s.p + 4, v), g1) && HeadersExcept(c, Put(m1, PAGE_SIZE * s.p + 4, v), g1, {})
            && KeepsLive(m, Put(m1, PAGE_SIZE * s.p + 4, v), g, BlockAt(k, s))
  {
    var p := s.p;
    var n := |FreeIn(g.frees[k], p, PerArena(k))|;
    BlockArena(g, k, s);
    assert s.i < PerArena(k);
    assert Header(m, p, Desc(c, k), n, 0);
    hide IsBlock, Lists, ArenasOk, KeepsLive, LiveLoses, BlockAt, HeadersExcept;
    FreeInAppended(g.frees[k], s, p, PerArena(k));
    FreeCount(c, g1, p, k);
    assert Header(m1, p, Desc(c, k), n, 0);
    hide FreeIn, PerArena, HeaderUntouched;
    PutCount(m1, p, Desc(c, k), n, n + 1);
    hide Header, Aligned;
    CountStep(c, m1, g1, p, k, n, n + 1);
    HeaderChange(c, m1, g, p, n + 1);
    KeepsLiveTwice(m, m1, Put(m1, PAGE_SIZE * p + 4, n + 1), g, BlockAt(k, s));
  }

  lemma PutCount(m: Ram, p: nat, desc: int, was: int, v: Word)
    requires Header(m, p, desc, was, 0)
    ensures Aligned(PAGE_SIZE * p) && Aligned(PAGE_SIZE * p + 4) && W(m, PAGE_SIZE * p + 4) == was
    ensures W(m, PAGE_SIZE * p) == desc
    ensures Header(Put(m, PAGE_SIZE * p + 4, v), p, desc, v, 0)
  {
  }

  /** The other arenas have a block in use as before. */
  lemma OthersUsed(g: Model, k: nat, s: Slot)
    requires FreesOk(g) && AllUsed(g) && IsBlock(g, k, s) && s !in g.frees[k]
    ensures AllUsedExcept(WithFrees(g, k, g.frees[k] + [s]), {s.p})
    ensures |FreeIn(g.frees[k] + [s], s.p, PerArena(k))| < PerArena(k) ==> AllUsed(WithFrees(g, k, g.frees[k] + [s]))
  {
    var g1 := WithFrees(g, k, g.frees[k] + [s]);
    BlockArena(g, k, s);
    assert s.i < PerArena(k);
    hide FreeIn, PerArena, IsBlock, FreesOk;
    forall q: nat | q in g1.arenas && q != s.p && g1.arenas[q].Small? && g1.arenas[q].k < CLASSES
      ensures |FreeIn(g1.frees[g1.arenas[q].k], q, PerArena(g1.arenas[q].k))| < PerArena(g1.arenas[q].k)
    {
      if g1.arenas[q].k == k {
        FreeInAppended(g.frees[k], s, q, PerArena(k));
      }
    }
  }

  /** The blocks of page p below i have left the list of class k. */
  ghost predicate Draining(g1: Model, g: Model, p: nat, k: nat, i: nat) {
    && |g1.frees| == CLASSES && |g.frees| == CLASSES && k < CLASSES
    && g.arenas == g1.arenas && g.frees == g1.frees[k := g.frees[k]]
    && p in g1.arenas && g1.arenas[p] == Small(k)
    && (forall j: nat {:trigger Slot(p, j)} :: j < PerArena(k) ==> Slot(p, j) in g1.frees[k])
    && forall t :: t in g.frees[k] <==> t in g1.frees[k] && !(t.p == p && t.i < i)
  }

  lemma DrainStep(c: Config, m: Ram, g1: Model, g: Model, p: nat, k: nat, i: nat, j: nat)
    requires Draining(g1, g, p, k, i) && i < PerArena(k) && Lists(c, m, g) && HeadersExcept(c, m, g, {p})
    requires j < |g.frees[k]| && g.frees[k][j] == Slot(p, i) && LiveExtends(g1, g, -1)
    ensures var x := BlockAt(k, Slot(p, i));
            && ElemAddr(x) && ElemAddr(Prev(m, x)) && ElemAddr(Next(m, x)) && Apart(Prev(m, x), x)
            && var m2, g2 := Remove(m, x), WithFrees(g, k, IL.Removed(g.frees[k], j));
               && Lists(c, m2, g2) && HeadersExcept(c, m2, g2, {p}) && HeaderUntouched(m, m2, p)
               && Draining(g1, g2, p, k, i + 1) && LiveExtends(g1, g2, -1) && KeepsLive(m, m2, g1, -1)
  {
    RemoveStep(c, m, g, k, j, {p});
    FreesRemoved(g, k, j);
    LiveRemoved(g, k, j);
    var m2, g2 := Remove(m, BlockAt(k, Slot(p, i))), WithFrees(g, k, IL.Removed(g.frees[k], j));
    hide Remove, Lists, HeadersExcept, HeaderUntouched, Live, Usable, W, BlockAt, PerArena;
    assert {p} + {p} == {p};
    assert KeepsLive(m, m2, g1, -1) by {
      forall a: nat, b | Live(g1, a) && Aligned(b) && a <= b < a + Usable(g1, a) ensures W(m2, b) == W(m, b) {
        assert Live(g, a) && Usable(g, a) == Usable(g1, a);
      }
    }
    assert LiveExtends(g1, g2, -1);
  }

  /** All blocks are out: the arena goes, and nothing that is live goes with it. */
  lemma Drained(c: Config, m: Ram, g1: Model, g: Model, p: nat, k: nat)
    requires Lists(c, m, g) && k < CLASSES && Draining(g1, g, p, k, PerArena(k)) && FreesOk(g1)
    requires HeadersExcept(c, m, g, {p}) && AllUsedExcept(g1, {p})
    ensures Inv(c, m, WithoutArena(g, p))
    ensures SameLive(g1, WithoutArena(g, p))
  {
    var g2 := WithoutArena(g, p);
    NoneLeft(g1, g, p, k);
    ArenaDropped(c, m, g, p);
    assert g1.arenas == g2.arenas[p := Small(k)];
    LiveWholeArena(g2, g1, p, k);
    DrainedUsed(c, g1, g, p, k);
    hide ListOk, HeaderOk, Live, Usable, FreeIn, PerArena, ArenasOk, FreesOk, Draining;
    assert Inv(c, m, g2);
  }

  lemma NoneLeft(g1: Model, g: Model, p: nat, k: nat)
    requires k < CLASSES && Draining(g1, g, p, k, PerArena(k)) && FreesOk(g1)
    ensures forall k2, s {:trigger s in g.frees[k2]} :: 0 <= k2 < CLASSES && s in g.frees[k2] ==> s.p != p
  {
    forall k2, s | 0 <= k2 < CLASSES && s in g.frees[k2] ensures s.p != p {
      assert s in g1.frees[k2];
      assert IsBlock(g1, k2, s);
    }
  }

  lemma DrainedUsed(c: Config, g1: Model, g: Model, p: nat, k: nat)
    requires k < CLASSES && Draining(g1, g, p, k, PerArena(k)) && AllUsedExcept(g1, {p})
    ensures AllUsed(WithoutArena(g, p))
  {
    var g2 := WithoutArena(g, p);
    forall q: nat | q in g2.arenas && g2.arenas[q].Small? && g2.arenas[q].k < CLASSES
      ensures |FreeIn(g2.frees[g2.arenas[q].k], q, PerArena(g2.arenas[q].k))| < PerArena(g2.arenas[q].k)
    {
      var k2 := g2.arenas[q].k;
      assert q != p && q in g1.arenas;
      assert FreeIn(g2.frees[k2], q, PerArena(k2)) == FreeIn(g1.frees[k2], q, PerArena(k2));
    }
  }

  /** The same regions are live. */
  ghost predicate SameLive(g: Model, g2: Model) {
    && (forall a: nat {:trigger Live(g2, a)} {:trigger Live(g, a)} :: Live(g2, a) <==> Live(g, a))
    && (forall a: nat {:trigger Usable(g2, a)} {:trigger Usable(g, a)} :: Live(g, a) ==> Usable(g2, a) == Usable(g, a))
  }
}
