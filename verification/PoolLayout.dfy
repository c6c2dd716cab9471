/** How mem_pool_init divides physical memory between the two pools of frames. */
module PoolLayout {
  import opened Paging
  import opened PageBooks

  /** uint16_t */
  function Short(x: nat): nat {
    x % 0x1_0000
  }

  /** The pools for a memory of allMem bytes: bitmap lengths are in bytes, and the page counts 16-bit numbers. */
  function InitPools(allMem: Word): Pools
    requires 0x20_0000 <= allMem
  {
    var freeMemPage := (allMem - 0x20_0000) / 0x1000;
    var kernelMemPage := Short(freeMemPage / 2);
    var userMemPage := Short(freeMemPage - kernelMemPage);
    Pools(0x200, 8 * (kernelMemPage / 8), 0x200 + kernelMemPage, 8 * (userMemPage / 8))
  }

  lemma PageCounts(n: nat)
    ensures var k := Short(n / 2);
            var u := Short(n - k);
            && k <= n / 2 && k + u <= n && 8 * (k / 8) <= k < 8 * (k / 8) + 8 && 8 * (u / 8) <= u < 8 * (u / 8) + 8
            && (n < 131071 ==> k == n / 2 && u == n - n / 2) && (n >= 131071 ==> k + u <= n - 65536)
  {
    var k := Short(n / 2);
    if n >= 131072 {
      assert k == n / 2 - 0x1_0000 * (n / 2 / 0x1_0000);
    }
  }

  predicate InPool(c: Pools, pf: PoolFlag, f: int) {
    StartOf(c, pf) <= f < StartOf(c, pf) + LenOf(c, pf)
  }

  /** The pools lie behind the boot tables and inside memory, apart from each other, with less than a byte of the
      bitmap between them. */
  lemma InitPoolsOk(allMem: Word)
    requires 0x20_0000 <= allMem
    ensures var c := InitPools(allMem);
            && PoolsOk(c) && c.kStart == 0x200
            && (forall f, pf :: InPool(c, pf, f) ==> 0x20_0000 <= 0x1000 * f && 0x1000 * (f + 1) <= allMem)
            && (forall f :: !(InPool(c, Kernel, f) && InPool(c, User, f)))
  {
    hide Short;
    var n := (allMem - 0x20_0000) / 0x1000;
    PageCounts(n);
    assert 0x1000 * n <= allMem - 0x20_0000 < 0x1000 * n + 0x1000;
  }

  /** They share all frames behind the boot tables but at most fourteen, half and half, if and only if these are
      fewer than 131071, that is for less than 514 MB of memory; with more, the 16-bit counts lose 65536 or more. */
  lemma InitPoolsShare(allMem: Word)
    requires 0x20_0000 <= allMem
    ensures var c, n := InitPools(allMem), (allMem - 0x20_0000) / 0x1000;
            && (n < 131071 ==> n - 14 <= c.kLen + c.uLen <= n && c.kLen <= c.uLen + 7 && c.uLen <= c.kLen + 8)
            && (n >= 131071 ==> c.kLen + c.uLen <= n - 65536)
  {
    hide Short;
    PageCounts((allMem - 0x20_0000) / 0x1000);
  }

  /** With 514 MB there is no frame in either pool. */
  lemma LargeMemoryLost()
    ensures var c := InitPools(0x2020_0000); c.kLen == 0 && c.uLen == 0
  {
  }
}
