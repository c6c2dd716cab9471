/** Free blocks entering and leaving their lists, and everything that stays as it is meanwhile. */
module ArenaLists {
  import IL = IntrusiveLists
  import opened RamLists
  import opened Arenas

  /** The free lists of the model with the list of class k replaced. */
  function WithFrees(g: Model, k: nat, fs: seq<Slot>): Model
    requires k < |g.frees|
  {
    g.(frees := g.frees[k := fs])
  }

  /** Word b belongs to no element of the list. */
  predicate Outside(c: Config, k: nat, fs: seq<Slot>, b: int)
    requires k < CLASSES
  {
    forall i :: 0 <= i < |fs| + 2 ==> !WordOf(Nodes(c, k, fs)[i], b)
  }

  ghost predicate Lists(c: Config, m: Ram, g: Model) {
    && ConfigOk(c) && ArenasOk(c, g) && FreesOk(g)
    && forall k :: 0 <= k < CLASSES ==> ListOk(c, m, g, k)
  }

  // ----- what lies outside the lists -----

  predicate BlockPlace(c: Config, g: Model, k: nat, s: Slot, a: int) {
    && IsBlock(g, k, s) && a == BlockAt(k, s)
    && PAGE_SIZE * s.p + HEADER <= a && a + 8 <= PAGE_SIZE * (s.p + 1)
    && c.first <= s.p && s.p < c.first + c.total + 1
  }

  /** A node of a list is a sentinel or a block behind a header. */
  lemma NodePlace(c: Config, g: Model, k: nat, i: nat)
    requires ConfigOk(c) && ArenasOk(c, g) && FreesOk(g) && k < CLASSES && i < |g.frees[k]| + 2
    ensures var a := Nodes(c, k, g.frees[k])[i];
            && ElemAddr(a)
            && if i == 0 then a == Head(c, k) else if i == |g.frees[k]| + 1 then a == Tail(c, k)
               else BlockPlace(c, g, k, g.frees[k][i - 1], a)
  {
    if 1 <= i <= |g.frees[k]| {
      var s := g.frees[k][i - 1];
      assert s in g.frees[k];
      BlockInPage(k, s);
    }
  }

  lemma HeaderOutside(c: Config, g: Model, k: nat, p: nat, o: nat)
    requires ConfigOk(c) && ArenasOk(c, g) && FreesOk(g) && k < CLASSES && o < HEADER
    requires c.first <= p < c.first + c.total + 1
    ensures Outside(c, k, g.frees[k], PAGE_SIZE * p + o)
  {
    assert |g.frees| == CLASSES;
    hide BlockAt, IsBlock, ArenasOk, FreesOk, Nodes;
    forall i | 0 <= i < |g.frees[k]| + 2 ensures !WordOf(Nodes(c, k, g.frees[k])[i], PAGE_SIZE * p + o) {
      NodePlace(c, g, k, i);
      if 1 <= i <= |g.frees[k]| {
        var q := g.frees[k][i - 1].p;
        assert q < p ==> PAGE_SIZE * (q + 1) <= PAGE_SIZE * p;
        assert q > p ==> PAGE_SIZE * (p + 1) <= PAGE_SIZE * q;
      }
    }
  }

  lemma DescOutside(c: Config, g: Model, k: nat, k2: nat, o: nat)
    requires ConfigOk(c) && ArenasOk(c, g) && FreesOk(g) && k < CLASSES && k2 < CLASSES && o < 8
    ensures Outside(c, k, g.frees[k], Desc(c, k2) + o)
  {
    forall i | 0 <= i < |g.frees[k]| + 2 ensures !WordOf(Nodes(c, k, g.frees[k])[i], Desc(c, k2) + o) {
      NodePlace(c, g, k, i);
      hide BlockAt, IsBlock;
    }
  }

  lemma LiveOutside(c: Config, g: Model, k: nat, a: nat, b: nat)
    requires ConfigOk(c) && ArenasOk(c, g) && FreesOk(g) && k < CLASSES
    requires Live(g, a) && a <= b < a + Usable(g, a)
    ensures Outside(c, k, g.frees[k], b)
  {
    LiveInArena(c, g, a);
    forall i | 0 <= i < |g.frees[k]| + 2 ensures !WordOf(Nodes(c, k, g.frees[k])[i], b) {
      NodePlace(c, g, k, i);
      if 1 <= i <= |g.frees[k]| {
        var s := g.frees[k][i - 1];
        LiveNotFree(c, g, a, k, s);
        BlockInPage(k, s);
        hide BlockAt, IsBlock, Live, Usable;
      } else {
        hide BlockAt, IsBlock, Live, Usable;
      }
    }
  }

  /** Elements of different lists are different places. */
  lemma NodesApart(c: Config, g: Model, k: nat, i: nat, k2: nat, j: nat)
    requires ConfigOk(c) && ArenasOk(c, g) && FreesOk(g) && k < CLASSES && k2 < CLASSES && k != k2
    requires i < |g.frees[k]| + 2 && j < |g.frees[k2]| + 2
    ensures Apart(Nodes(c, k, g.frees[k])[i], Nodes(c, k2, g.frees[k2])[j])
  {
    NodePlace(c, g, k, i);
    NodePlace(c, g, k2, j);
    hide BlockAt;
  }

  /** A block that is in no list lies apart from every element of every list. */
  lemma BlockApart(c: Config, g: Model, k: nat, s: Slot, k2: nat, j: nat)
    requires ConfigOk(c) && ArenasOk(c, g) && FreesOk(g) && IsBlock(g, k, s) && s !in g.frees[k]
    requires k2 < CLASSES && j < |g.frees[k2]| + 2
    ensures ElemAddr(BlockAt(k, s))
    ensures var a := Nodes(c, k2, g.frees[k2])[j]; a + 8 <= BlockAt(k, s) || BlockAt(k, s) + BlockSize(k) <= a
  {
    NodePlace(c, g, k2, j);
    BlockInPage(k, s);
    if 1 <= j <= |g.frees[k2]| {
      var t := g.frees[k2][j - 1];
      assert t in g.frees[k2];
      BlockInPage(k2, t);
      if k2 == k { BlocksApart(k, s, t); }
    }
    hide BlockAt, BlockSize;
  }

  // ----- frames -----

  lemma ListFrame(c: Config, m: Ram, m2: Ram, g: Model, k: nat)
    requires k < CLASSES && k < |g.frees| && ConfigOk(c) && ListOk(c, m, g, k)
    requires W(m2, Desc(c, k)) == W(m, Desc(c, k)) && W(m2, Desc(c, k) + 4) == W(m, Desc(c, k) + 4)
    requires forall i {:trigger Nodes(c, k, g.frees[k])[i]} :: 0 <= i < |g.frees[k]| + 2 ==>
               var a := Nodes(c, k, g.frees[k])[i]; W(m2, a) == W(m, a) && W(m2, a + 4) == W(m, a + 4)
    ensures ListOk(c, m2, g, k)
  {
    hide W, Nodes;
    LinkedFrame(m, m2, Nodes(c, k, g.frees[k]));
  }

  /** The words that may change in a block of class k that is in no list. */
  predicate InBlock(k: nat, s: Slot, b: int)
    requires k < CLASSES
  {
    BlockAt(k, s) <= b < BlockAt(k, s) + BlockSize(k)
  }

  // ----- entering and leaving -----

  lemma FreesAppended(g: Model, k: nat, s: Slot)
    requires FreesOk(g) && IsBlock(g, k, s) && s !in g.frees[k]
    ensures FreesOk(WithFrees(g, k, g.frees[k] + [s]))
  {
    BlockClass(g, k, s);
    hide IsBlock;
    var g2 := WithFrees(g, k, g.frees[k] + [s]);
    forall k2, t | 0 <= k2 < CLASSES && t in g2.frees[k2] ensures IsBlock(g, k2, t) {
      assert t in g.frees[k2] || (k2 == k && t == s);
    }
    forall k2, t | 0 <= k2 < CLASSES && t in g2.frees[k2] ensures IsBlock(g2, k2, t) {
      SameBlocks(g, g2, k2, t);
    }
  }

  lemma BlockClass(g: Model, k: nat, s: Slot)
    requires IsBlock(g, k, s)
    ensures k < CLASSES
  {
  }

  lemma SameBlocks(g: Model, g2: Model, k: nat, s: Slot)
    requires g2.arenas == g.arenas
    ensures IsBlock(g2, k, s) == IsBlock(g, k, s)
  {
  }

  /** The block at the end of its list. */
  lemma AppendBlock(c: Config, m: Ram, g: Model, k: nat, s: Slot)
    requires Lists(c, m, g) && IsBlock(g, k, s) && s !in g.frees[k]
    ensures ElemAddr(BlockAt(k, s)) && ElemAddr(Tail(c, k)) && ElemAddr(Prev(m, Tail(c, k)))
    ensures var m2 := InsertBefore(m, Tail(c, k), BlockAt(k, s));
            && Lists(c, m2, WithFrees(g, k, g.frees[k] + [s]))
            && forall b {:trigger W(m2, b)} ::
                Aligned(b) && Outside(c, k, g.frees[k], b) && !InBlock(k, s, b) ==> W(m2, b) == W(m, b)
  {
    BlockClass(g, k, s);
    AppendLinks(c, m, g, k, s);
    FreesAppended(g, k, s);
    var m2 := InsertBefore(m, Tail(c, k), BlockAt(k, s));
    var g2 := WithFrees(g, k, g.frees[k] + [s]);
    hide IsBlock, BlockAt, ListOk, ArenasOk, FreesOk, W, InsertBefore, Prev, Outside, PerArena, InBlock, Tail;
    forall k2 | 0 <= k2 < CLASSES ensures ListOk(c, m2, g2, k2) {
      if k2 == k {
        ListOf(c, m2, g2, WithFrees(g, k, g.frees[k] + [s]), k);
      } else {
        OtherList(c, m, m2, g, k, s, k2);
        ListOf(c, m2, g, g2, k2);
      }
    }
  }

  lemma ListOf(c: Config, m: Ram, g: Model, g2: Model, k: nat)
    requires k < CLASSES && k < |g.frees| && k < |g2.frees| && g.frees[k] == g2.frees[k] && ConfigOk(c)
    ensures ListOk(c, m, g, k) == ListOk(c, m, g2, k)
  {
  }

  lemma AppendLinks(c: Config, m: Ram, g: Model, k: nat, s: Slot)
    requires Lists(c, m, g) && IsBlock(g, k, s) && s !in g.frees[k]
    ensures ElemAddr(BlockAt(k, s)) && ElemAddr(Tail(c, k)) && ElemAddr(Prev(m, Tail(c, k)))
    ensures var m2 := InsertBefore(m, Tail(c, k), BlockAt(k, s));
            && ListOk(c, m2, WithFrees(g, k, g.frees[k] + [s]), k)
            && forall b {:trigger W(m2, b)} ::
                Aligned(b) && Outside(c, k, g.frees[k], b) && !InBlock(k, s, b) ==> W(m2, b) == W(m, b)
  {
    BlockClass(g, k, s);
    assert |g.frees| == CLASSES && ListOk(c, m, g, k);
    BlockAllApart(c, g, k, s);
    BlockOutsideDesc(c, g, k, s);
    DescOutside(c, g, k, k, 0);
    DescOutside(c, g, k, k, 4);
    hide IsBlock, ArenasOk, FreesOk, Lists;
    LinksAppended(c, m, g, k, s);
  }

  /** A block in no list is apart from all elements of the list of its class. */
  lemma BlockAllApart(c: Config, g: Model, k: nat, s: Slot)
    requires ConfigOk(c) && ArenasOk(c, g) && FreesOk(g) && IsBlock(g, k, s) && s !in g.frees[k]
    ensures k < CLASSES && ElemAddr(BlockAt(k, s))
    ensures forall i {:trigger Nodes(c, k, g.frees[k])[i]} ::
        0 <= i < |g.frees[k]| + 2 ==> Apart(Nodes(c, k, g.frees[k])[i], BlockAt(k, s))
  {
    BlockClass(g, k, s);
    BlockApart(c, g, k, s, k, 0);
    hide IsBlock, BlockAt, BlockSize, Nodes, ArenasOk, ConfigOk;
    forall i {:trigger Nodes(c, k, g.frees[k])[i]} | 0 <= i < |g.frees[k]| + 2
      ensures Apart(Nodes(c, k, g.frees[k])[i], BlockAt(k, s))
    {
      BlockApart(c, g, k, s, k, i);
    }
  }

  lemma LinksAppended(c: Config, m: Ram, g: Model, k: nat, s: Slot)
    requires k < CLASSES && |g.frees| == CLASSES && ConfigOk(c) && ListOk(c, m, g, k) && ElemAddr(BlockAt(k, s))
    requires forall i {:trigger Nodes(c, k, g.frees[k])[i]} ::
        0 <= i < |g.frees[k]| + 2 ==> Apart(Nodes(c, k, g.frees[k])[i], BlockAt(k, s))
    requires Outside(c, k, g.frees[k], Desc(c, k)) && Outside(c, k, g.frees[k], Desc(c, k) + 4)
    requires !InBlock(k, s, Desc(c, k)) && !InBlock(k, s, Desc(c, k) + 4)
    ensures ElemAddr(Tail(c, k)) && ElemAddr(Prev(m, Tail(c, k)))
    ensures var m2 := InsertBefore(m, Tail(c, k), BlockAt(k, s));
            && ListOk(c, m2, WithFrees(g, k, g.frees[k] + [s]), k)
            && forall b {:trigger W(m2, b)} ::
                Aligned(b) && Outside(c, k, g.frees[k], b) && !InBlock(k, s, b) ==> W(m2, b) == W(m, b)
  {
    hide BlockAt, Separate, Linked, W, InsertBefore, Prev, PerArena, Nodes;
    var fs := g.frees[k];
    var q, n, x := Nodes(c, k, fs), |fs| + 1, BlockAt(k, s);
    InsertLinks(m, q, n, x);
    NodesAppended(c, k, fs, s);
    assert ElemAddr(q[n]) && ElemAddr(q[n - 1]) by { SeparateElem(q, n); SeparateElem(q, n - 1); }
    var m2 := InsertBefore(m, Tail(c, k), x);
    forall b | Aligned(b) && Outside(c, k, fs, b) && !InBlock(k, s, b) ensures W(m2, b) == W(m, b) {
      assert !WordOf(q[n - 1], b) && !WordOf(q[n], b) && !WordOf(x, b);
    }
  }

  lemma SeparateElem(q: seq<int>, i: nat)
    requires Separate(q) && i < |q|
    ensures ElemAddr(q[i])
  {
  }

  lemma NodesAppended(c: Config, k: nat, fs: seq<Slot>, s: Slot)
    requires k < CLASSES
    ensures Nodes(c, k, fs + [s]) == IL.Inserted(Nodes(c, k, fs), |fs| + 1, BlockAt(k, s))
  {
    hide BlockAt;
  }

  lemma BlockOutsideDesc(c: Config, g: Model, k: nat, s: Slot)
    requires ConfigOk(c) && ArenasOk(c, g) && IsBlock(g, k, s)
    ensures forall b :: c.descs <= b < c.descs + DESC_SIZE * CLASSES ==> !InBlock(k, s, b)
  {
    BlockInPage(k, s);
  }

  /** The other lists stay. */
  lemma OtherList(c: Config, m: Ram, m2: Ram, g: Model, k: nat, s: Slot, k2: nat)
    requires Lists(c, m, g) && IsBlock(g, k, s) && k2 < CLASSES && k2 != k
    requires forall b {:trigger W(m2, b)} ::
        Aligned(b) && Outside(c, k, g.frees[k], b) && !InBlock(k, s, b) ==> W(m2, b) == W(m, b)
    requires s !in g.frees[k]
    ensures ListOk(c, m2, g, k2)
  {
    hide W, Outside, InBlock, Nodes, IsBlock, BlockAt, PerArena;
    BlockClass(g, k, s);
    assert |g.frees| == CLASSES && ListOk(c, m, g, k2);
    hide ListOk;
    DescOutside(c, g, k, k2, 0);
    DescOutside(c, g, k, k2, 4);
    BlockOutsideDesc(c, g, k, s);
    forall j {:trigger Nodes(c, k2, g.frees[k2])[j]} | 0 <= j < |g.frees[k2]| + 2
      ensures var a := Nodes(c, k2, g.frees[k2])[j]; ElemAddr(a) && W(m2, a) == W(m, a) && W(m2, a + 4) == W(m, a + 4)
    {
      NodeElsewhere(c, g, k, s, k2, j);
    }
    ListFrame(c, m, m2, g, k2);
  }

  /** The words of an element of another list. */
  lemma NodeElsewhere(c: Config, g: Model, k: nat, s: Slot, k2: nat, j: nat)
    requires ConfigOk(c) && ArenasOk(c, g) && FreesOk(g) && IsBlock(g, k, s) && s !in g.frees[k]
    requires k2 < CLASSES && k2 != k && j < |g.frees[k2]| + 2
    ensures var a := Nodes(c, k2, g.frees[k2])[j];
            && ElemAddr(a)
            && Outside(c, k, g.frees[k], a) && Outside(c, k, g.frees[k], a + 4)
            && !InBlock(k, s, a) && !InBlock(k, s, a + 4)
  {
    BlockClass(g, k, s);
    BlockApart(c, g, k, s, k2, j);
    NodeOutside(c, g, k, k2, j);
  }

  lemma NodeOutside(c: Config, g: Model, k: nat, k2: nat, j: nat)
    requires ConfigOk(c) && ArenasOk(c, g) && FreesOk(g) && k < CLASSES && k2 < CLASSES && k2 != k
    requires j < |g.frees[k2]| + 2
    ensures var a := Nodes(c, k2, g.frees[k2])[j];
            ElemAddr(a) && Outside(c, k, g.frees[k], a) && Outside(c, k, g.frees[k], a + 4)
  {
    NodePlace(c, g, k2, j);
    assert |g.frees| == CLASSES;
    hide BlockAt, IsBlock, ArenasOk, FreesOk, Nodes, ConfigOk;
    forall i | 0 <= i < |g.frees[k]| + 2
      ensures !WordOf(Nodes(c, k, g.frees[k])[i], Nodes(c, k2, g.frees[k2])[j])
      ensures !WordOf(Nodes(c, k, g.frees[k])[i], Nodes(c, k2, g.frees[k2])[j] + 4)
    {
      NodesApart(c, g, k, i, k2, j);
    }
  }

  lemma FreesRemoved(g: Model, k: nat, j: nat)
    requires FreesOk(g) && k < CLASSES && j < |g.frees[k]|
    ensures FreesOk(WithFrees(g, k, IL.Removed(g.frees[k], j)))
    ensures forall t :: t in IL.Removed(g.frees[k], j) <==> t in g.frees[k] && t != g.frees[k][j]
  {
    hide IsBlock;
    var g2 := WithFrees(g, k, IL.Removed(g.frees[k], j));
    RemovedMembers(g.frees[k], j);
    forall k2, t | 0 <= k2 < CLASSES && t in g2.frees[k2] ensures IsBlock(g2, k2, t) {
      SameBlocks(g, g2, k2, t);
    }
  }

  lemma RemovedMembers(fs: seq<Slot>, j: nat)
    requires j < |fs| && Distinct(fs)
    ensures Distinct(IL.Removed(fs, j))
    ensures forall t :: t in IL.Removed(fs, j) <==> t in fs && t != fs[j]
  {
    var r := IL.Removed(fs, j);
    forall t | t in fs && t != fs[j] ensures t in r {
      var i :| 0 <= i < |fs| && fs[i] == t;
      assert r[if i < j then i else i - 1] == t;
    }
  }

  /** Block j of the list of class k leaves it. */
  lemma RemoveBlock(c: Config, m: Ram, g: Model, k: nat, j: nat)
    requires Lists(c, m, g) && k < CLASSES && j < |g.frees[k]|
    ensures var x := BlockAt(k, g.frees[k][j]);
            && ElemAddr(x) && ElemAddr(Prev(m, x)) && ElemAddr(Next(m, x)) && Apart(Prev(m, x), x)
            && var m2 := Remove(m, x);
               && Lists(c, m2, WithFrees(g, k, IL.Removed(g.frees[k], j)))
               && forall b {:trigger W(m2, b)} :: Aligned(b) && Outside(c, k, g.frees[k], b) ==> W(m2, b) == W(m, b)
  {
    assert ListOk(c, m, g, k);
    DescOutside(c, g, k, k, 0);
    DescOutside(c, g, k, k, 4);
    LinksRemoved(c, m, g, k, j);
    FreesRemoved(g, k, j);
    var m2 := Remove(m, BlockAt(k, g.frees[k][j]));
    var g2 := WithFrees(g, k, IL.Removed(g.frees[k], j));
    hide IsBlock, BlockAt, ListOk, ArenasOk, FreesOk, W, Remove, Prev, Next, Outside, PerArena;
    forall k2 | 0 <= k2 < CLASSES ensures ListOk(c, m2, g2, k2) {
      if k2 != k {
        OtherListOnRemove(c, m, m2, g, k, k2);
        ListOf(c, m2, g, g2, k2);
      }
    }
  }

  lemma LinksRemoved(c: Config, m: Ram, g: Model, k: nat, j: nat)
    requires k < CLASSES && |g.frees| == CLASSES && ConfigOk(c) && ListOk(c, m, g, k) && j < |g.frees[k]|
    requires Outside(c, k, g.frees[k], Desc(c, k)) && Outside(c, k, g.frees[k], Desc(c, k) + 4)
    ensures var x := BlockAt(k, g.frees[k][j]);
            && ElemAddr(x) && ElemAddr(Prev(m, x)) && ElemAddr(Next(m, x)) && Apart(Prev(m, x), x)
            && var m2 := Remove(m, x);
               && ListOk(c, m2, WithFrees(g, k, IL.Removed(g.frees[k], j)), k)
               && forall b {:trigger W(m2, b)} :: Aligned(b) && Outside(c, k, g.frees[k], b) ==> W(m2, b) == W(m, b)
  {
    hide BlockAt, Separate, Linked, W, Remove, Prev, Next, PerArena, Nodes;
    var fs := g.frees[k];
    var q := Nodes(c, k, fs);
    SeparateElem(q, j);
    SeparateElem(q, j + 1);
    SeparateElem(q, j + 2);
    RemoveLinks(m, q, j + 1);
    NodesRemoved(c, k, fs, j);
    var m2 := Remove(m, q[j + 1]);
    forall b | Aligned(b) && Outside(c, k, fs, b) ensures W(m2, b) == W(m, b) {
      assert !WordOf(q[j], b) && !WordOf(q[j + 2], b);
    }
  }

  lemma NodesRemoved(c: Config, k: nat, fs: seq<Slot>, j: nat)
    requires k < CLASSES && j < |fs|
    ensures Nodes(c, k, IL.Removed(fs, j)) == IL.Removed(Nodes(c, k, fs), j + 1)
  {
    hide BlockAt;
  }

  lemma OtherListOnRemove(c: Config, m: Ram, m2: Ram, g: Model, k: nat, k2: nat)
    requires Lists(c, m, g) && k < CLASSES && k2 < CLASSES && k2 != k
    requires forall b {:trigger W(m2, b)} :: Aligned(b) && Outside(c, k, g.frees[k], b) ==> W(m2, b) == W(m, b)
    ensures ListOk(c, m2, g, k2)
  {
    assert |g.frees| == CLASSES && ListOk(c, m, g, k2);
    DescOutside(c, g, k, k2, 0);
    DescOutside(c, g, k, k2, 4);
    hide W, Outside, Nodes, ListOk, IsBlock;
    forall j {:trigger Nodes(c, k2, g.frees[k2])[j]} | 0 <= j < |g.frees[k2]| + 2
      ensures var a := Nodes(c, k2, g.frees[k2])[j]; ElemAddr(a) && W(m2, a) == W(m, a) && W(m2, a + 4) == W(m, a + 4)
    {
      NodeOutside(c, g, k, k2, j);
    }
    ListFrame(c, m, m2, g, k2);
  }
}
