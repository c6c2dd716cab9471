/** Two-level page tables, and their self-map (Intel SDM Volume 3A, section 4.3).

    Physical memory is a sequence of 4 KB frames of 1024 words.  Bit masks and shifts of addresses are
    written as divisions; the module AddressBits shows the same address forms on 32-bit vectors. */
module Paging {

  const PAGE_SIZE := 4096

  type Word = w: int | 0 <= w < 0x1_0000_0000
  type FrameNo = f: int | 0 <= f < 0x10_0000
  type Phys = m: seq<seq<Word>> | |m| == 0x10_0000 && forall f :: 0 <= f < |m| ==> |m[f]| == 1024
    witness seq(0x10_0000, _ => seq(1024, _ => 0))

  datatype Option<T> = None | Some(value: T)

  // ----- words of physical memory -----

  predicate InFrame(i: int) {
    0 <= i < 1024
  }

  function At(mem: Phys, f: FrameNo, i: int): Word
    requires InFrame(i)
  {
    mem[f][i]
  }

  function Poke(mem: Phys, f: FrameNo, i: int, w: Word): (r: Phys)
    requires InFrame(i)
    ensures forall g: FrameNo, j {:trigger At(r, g, j)} ::
        InFrame(j) ==> At(r, g, j) == if g == f && j == i then w else At(mem, g, j)
  {
    var frame: seq<Word> := mem[f];
    mem[f := frame[i := w]]
  }

  /** A frame filled with zeros. */
  function Cleared(mem: Phys, f: FrameNo): (r: Phys)
    ensures forall g: FrameNo, j {:trigger At(r, g, j)} ::
        InFrame(j) ==> At(r, g, j) == if g == f then 0 else At(mem, g, j)
  {
    var frame: seq<Word> := seq(1024, _ => 0);
    mem[f := frame]
  }

  /** Memories with the same words are equal. */
  lemma SameWords(a: Phys, b: Phys)
    requires forall f: FrameNo, i :: InFrame(i) ==> At(a, f, i) == At(b, f, i)
    ensures a == b
  {
    forall f: int | 0 <= f < 0x10_0000 ensures a[f] == b[f] {
      forall i | 0 <= i < 1024 ensures a[f][i] == b[f][i] {
        assert InFrame(i);
        assert At(a, f, i) == At(b, f, i);
      }
    }
  }

  // ----- entries -----

  /** The P bit. */
  predicate Present(e: Word) {
    e % 2 == 1
  }

  function FrameOf(e: Word): FrameNo {
    e / 0x1000
  }

  /** address | PG_P_1 | PG_RW_W | PG_US_U */
  function EntryFor(f: FrameNo): (e: Word)
    ensures Present(e) && FrameOf(e) == f
  {
    0x1000 * f + 7
  }

  /** The R/W bit. */
  predicate Writable(e: Word) {
    e / 2 % 2 == 1
  }

  /** The U/S bit. */
  predicate ForUser(e: Word) {
    e / 4 % 2 == 1
  }

  /** User mode may write through the entry. */
  predicate Open(e: Word) {
    Writable(e) && ForUser(e)
  }

  /** P, R/W and U/S, and no other bit below the frame. */
  lemma EntryBits(f: FrameNo)
    ensures Present(EntryFor(f)) && Open(EntryFor(f)) && EntryFor(f) % 0x1000 < 8
  {
  }

  lemma LowBit(e: Word)
    requires e % 2 == 1
    ensures (e - 1) % 2 == 0 && (e - 1) / 0x1000 == e / 0x1000 && (e - 1) / 2 == e / 2
  {
    var q, r, h := e / 0x1000, e % 0x1000, e / 2;
    assert e == 0x1000 * q + r && e == 2 * h + 1;
    assert r == 2 * (h - 0x800 * q) + 1;
  }

  /** *pte & ~PG_P_1 */
  function WithoutP(e: Word): (r: Word)
    ensures !Present(r) && r / 2 == e / 2 && FrameOf(r) == FrameOf(e)
  {
    if e % 2 == 1 then
      LowBit(e);
      e - 1
    else e
  }

  // ----- virtual addresses -----

  function Slot(v: Word): (k: int)
    ensures InFrame(k)
  {
    v / 0x40_0000
  }

  function Index(v: Word): (i: int)
    ensures InFrame(i)
  {
    v / 0x1000 % 0x400
  }

  function Offset(v: Word): (o: int)
    ensures 0 <= o < PAGE_SIZE
  {
    v % 0x1000
  }

  predicate SamePage(v: Word, w: Word) {
    v / 0x1000 == w / 0x1000
  }

  lemma PageParts(v: Word, w: Word)
    ensures SamePage(v, w) <==> Slot(v) == Slot(w) && Index(v) == Index(w)
  {
    assert v / 0x1000 / 0x400 == v / 0x40_0000;
    assert w / 0x1000 / 0x400 == w / 0x40_0000;
  }

  /** Where the page-table entry of v can be read through the self-map. */
  function PteAddr(v: Word): Word {
    0xffc0_0000 + v / 0x40_0000 * 0x1000 + 4 * (v / 0x1000 % 0x400)
  }

  /** Where the page-directory entry of v can be read. */
  function PdeAddr(v: Word): Word {
    0xffff_f000 + v / 0x40_0000 * 4
  }

  lemma PteAddrParts(v: Word)
    ensures Slot(PteAddr(v)) == 1023 && Index(PteAddr(v)) == Slot(v) && Offset(PteAddr(v)) == 4 * Index(v)
  {
  }

  lemma EntryAddrAligned(v: Word)
    ensures PteAddr(v) % 4 == 0 && PdeAddr(v) % 4 == 0
  {
    var k, i := v / 0x40_0000, v / 0x1000 % 0x400;
    assert PteAddr(v) == 4 * (0x3ff0_0000 + 0x400 * k + i);
    assert PdeAddr(v) == 4 * (0x3fff_fc00 + k);
  }

  lemma PdeAddrParts(v: Word)
    ensures Slot(PdeAddr(v)) == 1023 && Index(PdeAddr(v)) == 1023 && Offset(PdeAddr(v)) == 4 * Slot(v)
  {
  }

  /** The directory entry of v is the table entry of the table entry of v. */
  lemma PdeIsPteTwice(v: Word)
    ensures PdeAddr(v) == PteAddr(PteAddr(v))
  {
    PteAddrParts(v);
  }

  // ----- translation -----

  function Pde(mem: Phys, d: FrameNo, v: Word): Word {
    At(mem, d, Slot(v))
  }

  function Pte(mem: Phys, d: FrameNo, v: Word): Word {
    At(mem, FrameOf(Pde(mem, d, v)), Index(v))
  }

  /** What the processor makes of v when the page directory is frame d; None is a page fault. */
  function Walk(mem: Phys, d: FrameNo, v: Word): Option<Word> {
    if Present(Pde(mem, d, v)) && Present(Pte(mem, d, v)) then
      Some(FrameOf(Pte(mem, d, v)) * 0x1000 + Offset(v))
    else
      None
  }

  /** What it makes of v in user mode: both entries must be for the user, and for a write both must allow
      writing (Intel SDM Volume 3A, section 4.6). */
  function UserWalk(mem: Phys, d: FrameNo, v: Word, write: bool): Option<Word> {
    var pde, pte := Pde(mem, d, v), Pte(mem, d, v);
    if ForUser(pde) && ForUser(pte) && (write ==> Writable(pde) && Writable(pte)) then Walk(mem, d, v) else None
  }

  predicate SelfMapped(mem: Phys, d: FrameNo) {
    Present(At(mem, d, 1023)) && FrameOf(At(mem, d, 1023)) == d
  }

  /** pte_addr reaches the page-table entry whenever there is a table. */
  lemma SelfMapPte(mem: Phys, d: FrameNo, v: Word)
    requires SelfMapped(mem, d) && Present(Pde(mem, d, v))
    ensures Walk(mem, d, PteAddr(v)) == Some(0x1000 * FrameOf(Pde(mem, d, v)) + 4 * Index(v))
  {
    PteAddrParts(v);
    hide PteAddr, Slot, Index, Offset, Present, FrameOf;
  }

  /** pde_addr always reaches the page-directory entry. */
  lemma SelfMapPde(mem: Phys, d: FrameNo, v: Word)
    requires SelfMapped(mem, d)
    ensures Walk(mem, d, PdeAddr(v)) == Some(0x1000 * d + 4 * Slot(v))
  {
    PdeAddrParts(v);
    hide PdeAddr, Slot, Index, Offset, Present, FrameOf;
  }

  // ----- what page_table_add makes of memory -----

  /** The page-table frame of v afterwards; `made` is what palloc returns for a new one. */
  function TableOf(mem: Phys, d: FrameNo, v: Word, made: FrameNo): FrameNo {
    if Present(Pde(mem, d, v)) then FrameOf(Pde(mem, d, v)) else made
  }

  function WithTable(mem: Phys, d: FrameNo, v: Word, made: FrameNo): Phys {
    if Present(Pde(mem, d, v)) then mem
    else Cleared(Poke(mem, d, Slot(v), EntryFor(made)), made)
  }

  function Mapped(mem: Phys, d: FrameNo, v: Word, p: FrameNo, made: FrameNo): Phys {
    Poke(WithTable(mem, d, v, made), TableOf(mem, d, v, made), Index(v), EntryFor(p))
  }

  /** page_table_pte_remove */
  function PteRemoved(mem: Phys, d: FrameNo, v: Word): Phys {
    Poke(mem, FrameOf(Pde(mem, d, v)), Index(v), WithoutP(Pte(mem, d, v)))
  }

  /** Frame t is neither the directory d nor one of its page tables. */
  ghost predicate NotATable(mem: Phys, d: FrameNo, t: FrameNo) {
    t != d && forall k :: InFrame(k) && Present(At(mem, d, k)) ==> FrameOf(At(mem, d, k)) != t
  }

  /** No slot but the last holds the directory itself. */
  ghost predicate TablesOutside(mem: Phys, d: FrameNo) {
    forall k :: 0 <= k < 1023 && Present(At(mem, d, k)) ==> FrameOf(At(mem, d, k)) != d
  }

  /** w is translated through word i of frame t. */
  predicate Through(mem: Phys, d: FrameNo, w: Word, t: FrameNo, i: int) {
    Present(Pde(mem, d, w)) && FrameOf(Pde(mem, d, w)) == t && Index(w) == i
  }

  /** Changing one word of a frame that is not the directory changes exactly the translations that go
      through that word. */
  lemma WalkAfterPoke(mem: Phys, d: FrameNo, w: Word, t: FrameNo, i: int, e: Word)
    requires InFrame(i) && t != d
    ensures Walk(Poke(mem, t, i, e), d, w) ==
            if !Through(mem, d, w, t, i) then Walk(mem, d, w)
            else if Present(e) then Some(FrameOf(e) * 0x1000 + Offset(w)) else None
  {
    hide Present, FrameOf, Slot, Index, Offset, At, Poke;
  }

  /** The page of v is translated to frame p, byte by byte, and addr_virtual_to_phy agrees. */
  lemma MapTranslates(mem: Phys, d: FrameNo, v: Word, p: FrameNo, made: FrameNo, o: int)
    requires 0 <= o < PAGE_SIZE && TableOf(mem, d, v, made) != d
    ensures var w: Word := v / 0x1000 * 0x1000 + o;
            Walk(Mapped(mem, d, v, p, made), d, w) == Some(0x1000 * p + o)
  {
    var w: Word := v / 0x1000 * 0x1000 + o;
    assert w / 0x1000 == v / 0x1000 && Offset(w) == o;
    PageParts(v, w);
    var mid := WithTable(mem, d, v, made);
    assert Pde(mid, d, w) == if Present(Pde(mem, d, v)) then Pde(mem, d, v) else EntryFor(made);
    hide Present, FrameOf, Slot, Index, Offset, At, Poke, Cleared, EntryFor;
    WalkAfterPoke(mid, d, w, TableOf(mem, d, v, made), Index(v), EntryFor(p));
  }

  /** User mode can read and write every byte of the page if and only if the page table is new, or the directory
      entry it was found in allows that. */
  lemma MapUsable(mem: Phys, d: FrameNo, v: Word, p: FrameNo, made: FrameNo, o: int, write: bool)
    requires 0 <= o < PAGE_SIZE && TableOf(mem, d, v, made) != d
    ensures var w: Word, pde := v / 0x1000 * 0x1000 + o, Pde(mem, d, v);
            UserWalk(Mapped(mem, d, v, p, made), d, w, write) ==
            if Present(pde) && !(ForUser(pde) && (write ==> Writable(pde))) then None else Some(0x1000 * p + o)
  {
    var w: Word := v / 0x1000 * 0x1000 + o;
    MapTranslates(mem, d, v, p, made, o);
    assert w / 0x1000 == v / 0x1000;
    PageParts(v, w);
    EntryBits(p);
    EntryBits(made);
    hide Present, Writable, ForUser, FrameOf, Slot, Index, Offset, At, Poke, Cleared, EntryFor, Walk;
    var mem2 := Mapped(mem, d, v, p, made);
    assert Pde(mem2, d, w) == if Present(Pde(mem, d, v)) then Pde(mem, d, v) else EntryFor(made);
    assert Pte(mem2, d, w) == EntryFor(p);
  }

  /** Byte o of the page of v. */
  function ByteOf(v: Word, o: int): Word
    requires 0 <= o < PAGE_SIZE
  {
    v / 0x1000 * 0x1000 + o
  }

  /** User mode can write every byte of the page of v, and finds it in frame p. */
  ghost predicate Usable(mem: Phys, d: FrameNo, v: Word, p: FrameNo) {
    forall o {:trigger ByteOf(v, o)} :: 0 <= o < PAGE_SIZE ==> UserWalk(mem, d, ByteOf(v, o), true) == Some(0x1000 * p + o)
  }

  lemma MapUsableIff(mem: Phys, d: FrameNo, v: Word, p: FrameNo, made: FrameNo)
    requires TableOf(mem, d, v, made) != d
    ensures Usable(Mapped(mem, d, v, p, made), d, v, p) <==> (Present(Pde(mem, d, v)) ==> Open(Pde(mem, d, v)))
  {
    hide Mapped, UserWalk, Present, Writable, ForUser, Pde, TableOf;
    var mem2, w := Mapped(mem, d, v, p, made), ByteOf(v, 0);
    forall o | 0 <= o < PAGE_SIZE
      ensures UserWalk(Mapped(mem, d, v, p, made), d, ByteOf(v, o), true) ==
              if Present(Pde(mem, d, v)) && !Open(Pde(mem, d, v)) then None else Some(0x1000 * p + o)
    {
      MapUsable(mem, d, v, p, made, o, true);
    }
    if Usable(mem2, d, v, p) { assert UserWalk(mem2, d, w, true).Some?; }
  }

  /** With a page table present: the translation of any other address changes exactly when it goes
      through the same word of the same table. */
  lemma MapFrame(mem: Phys, d: FrameNo, v: Word, p: FrameNo, made: FrameNo, e: FrameNo, w: Word)
    requires Present(Pde(mem, d, v)) && FrameOf(Pde(mem, d, v)) != e
    ensures Walk(Mapped(mem, d, v, p, made), e, w) ==
            if Through(mem, e, w, FrameOf(Pde(mem, d, v)), Index(v)) then Some(0x1000 * p + Offset(w))
            else Walk(mem, e, w)
  {
    WalkAfterPoke(mem, e, w, FrameOf(Pde(mem, d, v)), Index(v), EntryFor(p));
  }

  /** With a new page table in a frame that was no table: the page of v is mapped, the new table shows
      in the self-map window, and no other translation changes; every other page of the 4 MB that the
      table serves still faults. */
  lemma MapFrameNewTable(mem: Phys, d: FrameNo, v: Word, p: FrameNo, made: FrameNo, w: Word)
    requires !Present(Pde(mem, d, v)) && Slot(v) < 1023 && SelfMapped(mem, d)
    requires NotATable(mem, d, made) && TablesOutside(mem, d)
    ensures Walk(Mapped(mem, d, v, p, made), d, w) ==
            if SamePage(v, w) then Some(0x1000 * p + Offset(w))
            else if Slot(w) == 1023 && Index(w) == Slot(v) then Some(0x1000 * made + Offset(w))
            else Walk(mem, d, w)
  {
    PageParts(v, w);
    var mid := WithTable(mem, d, v, made);
    assert !Present(0);
    hide Present, FrameOf, Slot, Index, Offset, At, Poke, Cleared, EntryFor;
    assert Pde(mid, d, w) == if Slot(w) == Slot(v) then EntryFor(made) else Pde(mem, d, w);
    assert Slot(w) != Slot(v) && Present(Pde(mem, d, w)) ==> FrameOf(Pde(mem, d, w)) != made;
    WalkAfterPoke(mid, d, w, made, Index(v), EntryFor(p));
    if Slot(w) == 1023 {
      assert Pte(mid, d, w) == At(mid, d, Index(w));
    } else if Slot(w) == Slot(v) {
      assert Pte(mid, d, w) == 0;
    } else if Present(Pde(mem, d, w)) {
      assert Pte(mid, d, w) == Pte(mem, d, w);
    }
  }

  /** An address outside the page of v and outside the self-map window. */
  predicate Elsewhere(v: Word, w: Word) {
    !SamePage(v, w) && Slot(w) < 1023
  }

  /** With a page table present, mapping v leaves the rest of the address space alone if and only if no
      other slot of the directory holds the same table. */
  lemma MapAloneIff(mem: Phys, d: FrameNo, v: Word, p: FrameNo, made: FrameNo)
    requires Slot(v) < 1023 && Present(Pde(mem, d, v)) && FrameOf(Pde(mem, d, v)) != d && Walk(mem, d, v) == None
    ensures (forall w: Word :: Elsewhere(v, w) ==> Walk(Mapped(mem, d, v, p, made), d, w) == Walk(mem, d, w))
       <==> (forall k ::
           0 <= k < 1023 && k != Slot(v) && Present(At(mem, d, k)) ==> FrameOf(At(mem, d, k)) != FrameOf(Pde(mem, d, v)))
  {
    hide Walk, Mapped, Elsewhere, At, Pde, Slot, Present, FrameOf;
    forall k | 0 <= k < 1023 && k != Slot(v) && Present(At(mem, d, k)) && FrameOf(At(mem, d, k)) == FrameOf(Pde(mem, d, v))
      ensures exists w: Word :: Elsewhere(v, w) && Walk(Mapped(mem, d, v, p, made), d, w) != Walk(mem, d, w)
    {
      var w := SharedShows(mem, d, v, p, made, k);
    }
    if forall k :: 0 <= k < 1023 && k != Slot(v) && Present(At(mem, d, k)) ==> FrameOf(At(mem, d, k)) != FrameOf(Pde(mem, d, v)) {
      forall w: Word | Elsewhere(v, w) ensures Walk(Mapped(mem, d, v, p, made), d, w) == Walk(mem, d, w) {
        OwnedHides(mem, d, v, p, made, w);
      }
    }
  }

  /** Another slot with the same table translates another address anew. */
  lemma SharedShows(mem: Phys, d: FrameNo, v: Word, p: FrameNo, made: FrameNo, k: int) returns (w: Word)
    requires Slot(v) < 1023 && Present(Pde(mem, d, v)) && FrameOf(Pde(mem, d, v)) != d && Walk(mem, d, v) == None
    requires 0 <= k < 1023 && k != Slot(v) && Present(At(mem, d, k)) && FrameOf(At(mem, d, k)) == FrameOf(Pde(mem, d, v))
    ensures Elsewhere(v, w) && Walk(Mapped(mem, d, v, p, made), d, w) != Walk(mem, d, w)
  {
    hide Slot, Index, SamePage, Mapped, At, Present, FrameOf, Offset;
    w := 0x40_0000 * k + 0x1000 * Index(v);
    SlotAndIndex(k, Index(v));
    PageParts(v, w);
    MapFrame(mem, d, v, p, made, d, w);
  }

  lemma SlotAndIndex(k: int, i: int)
    requires InFrame(k) && InFrame(i)
    ensures var w: Word := 0x40_0000 * k + 0x1000 * i; Slot(w) == k && Index(w) == i
  {
    assert (0x40_0000 * k + 0x1000 * i) / 0x1000 == 0x400 * k + i;
  }

  lemma OwnedHides(mem: Phys, d: FrameNo, v: Word, p: FrameNo, made: FrameNo, w: Word)
    requires Present(Pde(mem, d, v)) && FrameOf(Pde(mem, d, v)) != d && Elsewhere(v, w)
    requires forall k :: 0 <= k < 1023 && k != Slot(v) && Present(At(mem, d, k)) ==> FrameOf(At(mem, d, k)) != FrameOf(Pde(mem, d, v))
    ensures Walk(Mapped(mem, d, v, p, made), d, w) == Walk(mem, d, w)
  {
    hide Slot, Index, SamePage, Mapped, At, Present, FrameOf, Offset, Walk;
    PageParts(v, w);
    MapFrame(mem, d, v, p, made, d, w);
  }
}

/** The address forms of pte_addr and pde_addr as the C code writes them, and that they are those of Paging. */
module AddressBits {
  import opened Paging

  function PteBits(p: bv32): bv32 {
    0xffc0_0000 | ((p & 0xffc0_0000) >> 10) | (4 * ((p & 0x003f_f000) >> 12))
  }

  function PdeBits(p: bv32): bv32 {
    0xffff_f000 | (((p & 0xffc0_0000) >> 22) * 4)
  }

  lemma PdeBitsTwice(p: bv32)
    ensures PdeBits(p) == PteBits(PteBits(p))
  {
  }

  // ----- the number that 32 bits stand for -----

  function Bit(p: bv32, mask: bv32): (b: int)
    ensures 0 <= b <= 1
  {
    if p & mask != 0 then 1 else 0
  }

  /** Bits 0 to 11. */
  function Low12(p: bv32): int {
    Bit(p, 0x1) + 0x2 * Bit(p, 0x2) + 0x4 * Bit(p, 0x4) + 0x8 * Bit(p, 0x8)
    + 0x10 * Bit(p, 0x10) + 0x20 * Bit(p, 0x20) + 0x40 * Bit(p, 0x40) + 0x80 * Bit(p, 0x80)
    + 0x100 * Bit(p, 0x100) + 0x200 * Bit(p, 0x200) + 0x400 * Bit(p, 0x400) + 0x800 * Bit(p, 0x800)
  }

  /** Bits 12 to 21. */
  function Mid10(p: bv32): int {
    Bit(p, 0x1000) + 0x2 * Bit(p, 0x2000) + 0x4 * Bit(p, 0x4000) + 0x8 * Bit(p, 0x8000)
    + 0x10 * Bit(p, 0x10000) + 0x20 * Bit(p, 0x20000) + 0x40 * Bit(p, 0x40000) + 0x80 * Bit(p, 0x80000)
    + 0x100 * Bit(p, 0x100000) + 0x200 * Bit(p, 0x200000)
  }

  /** Bits 22 to 31. */
  function High10(p: bv32): int {
    Bit(p, 0x400000) + 0x2 * Bit(p, 0x800000) + 0x4 * Bit(p, 0x1000000) + 0x8 * Bit(p, 0x2000000)
    + 0x10 * Bit(p, 0x4000000) + 0x20 * Bit(p, 0x8000000) + 0x40 * Bit(p, 0x10000000) + 0x80 * Bit(p, 0x20000000)
    + 0x100 * Bit(p, 0x40000000) + 0x200 * Bit(p, 0x80000000)
  }

  lemma PartsFit(p: bv32)
    ensures 0 <= Low12(p) < 0x1000 && 0 <= Mid10(p) < 0x400 && 0 <= High10(p) < 0x400
  {
  }

  /** Each bit counts its power of two. */
  function Value(p: bv32): Word {
    PartsFit(p);
    0x40_0000 * High10(p) + 0x1000 * Mid10(p) + Low12(p)
  }

  lemma ValueParts(p: bv32)
    ensures Value(p) / 0x40_0000 == High10(p) && Value(p) / 0x1000 % 0x400 == Mid10(p)
  {
    PartsFit(p);
    var h, m, l := High10(p), Mid10(p), Low12(p);
    hide High10, Mid10, Low12;
    assert Value(p) / 0x1000 == 0x400 * h + m;
  }

  // ----- bit by bit: a page-table entry's address -----

  lemma PteMiddleBits(p: bv32)
    ensures PteBits(p) & 0x1000 != 0 <==> p & 0x400000 != 0
    ensures PteBits(p) & 0x2000 != 0 <==> p & 0x800000 != 0
    ensures PteBits(p) & 0x4000 != 0 <==> p & 0x1000000 != 0
    ensures PteBits(p) & 0x8000 != 0 <==> p & 0x2000000 != 0
    ensures PteBits(p) & 0x10000 != 0 <==> p & 0x4000000 != 0
    ensures PteBits(p) & 0x20000 != 0 <==> p & 0x8000000 != 0
    ensures PteBits(p) & 0x40000 != 0 <==> p & 0x10000000 != 0
    ensures PteBits(p) & 0x80000 != 0 <==> p & 0x20000000 != 0
    ensures PteBits(p) & 0x100000 != 0 <==> p & 0x40000000 != 0
    ensures PteBits(p) & 0x200000 != 0 <==> p & 0x80000000 != 0
  {
  }

  lemma PteLowBits(p: bv32)
    ensures PteBits(p) & 0x1 == 0
    ensures PteBits(p) & 0x2 == 0
    ensures PteBits(p) & 0x4 != 0 <==> p & 0x1000 != 0
    ensures PteBits(p) & 0x8 != 0 <==> p & 0x2000 != 0
    ensures PteBits(p) & 0x10 != 0 <==> p & 0x4000 != 0
    ensures PteBits(p) & 0x20 != 0 <==> p & 0x8000 != 0
    ensures PteBits(p) & 0x40 != 0 <==> p & 0x10000 != 0
    ensures PteBits(p) & 0x80 != 0 <==> p & 0x20000 != 0
    ensures PteBits(p) & 0x100 != 0 <==> p & 0x40000 != 0
    ensures PteBits(p) & 0x200 != 0 <==> p & 0x80000 != 0
    ensures PteBits(p) & 0x400 != 0 <==> p & 0x100000 != 0
    ensures PteBits(p) & 0x800 != 0 <==> p & 0x200000 != 0
  {
  }

  lemma PteHighBits(p: bv32)
    ensures PteBits(p) & 0x400000 != 0
    ensures PteBits(p) & 0x800000 != 0
    ensures PteBits(p) & 0x1000000 != 0
    ensures PteBits(p) & 0x2000000 != 0
    ensures PteBits(p) & 0x4000000 != 0
    ensures PteBits(p) & 0x8000000 != 0
    ensures PteBits(p) & 0x10000000 != 0
    ensures PteBits(p) & 0x20000000 != 0
    ensures PteBits(p) & 0x40000000 != 0
    ensures PteBits(p) & 0x80000000 != 0
  {
  }

  lemma PteMiddle(p: bv32)
    ensures Mid10(PteBits(p)) == High10(p)
  {
    hide PteBits;
    PteMiddleBits(p);
  }

  lemma PteLow(p: bv32)
    ensures Low12(PteBits(p)) == 4 * Mid10(p)
  {
    hide PteBits;
    PteLowBits(p);
  }

  lemma PteHigh(p: bv32)
    ensures High10(PteBits(p)) == 0x3ff
  {
    hide PteBits;
    PteHighBits(p);
  }

  /** The C expression of pte_addr is the address form that Paging uses. */
  lemma PteBitsValue(p: bv32)
    ensures Value(PteBits(p)) == PteAddr(Value(p))
  {
    hide PteBits, High10, Mid10, Low12;
    PteMiddle(p);
    PteLow(p);
    PteHigh(p);
    ValueParts(p);
  }

  // ----- bit by bit: a directory entry's address -----

  lemma PdeMiddleBits(p: bv32)
    ensures PdeBits(p) & 0x1000 != 0
    ensures PdeBits(p) & 0x2000 != 0
    ensures PdeBits(p) & 0x4000 != 0
    ensures PdeBits(p) & 0x8000 != 0
    ensures PdeBits(p) & 0x10000 != 0
    ensures PdeBits(p) & 0x20000 != 0
    ensures PdeBits(p) & 0x40000 != 0
    ensures PdeBits(p) & 0x80000 != 0
    ensures PdeBits(p) & 0x100000 != 0
    ensures PdeBits(p) & 0x200000 != 0
    ensures PdeBits(p) & 0x400000 != 0
    ensures PdeBits(p) & 0x800000 != 0
    ensures PdeBits(p) & 0x1000000 != 0
    ensures PdeBits(p) & 0x2000000 != 0
    ensures PdeBits(p) & 0x4000000 != 0
    ensures PdeBits(p) & 0x8000000 != 0
    ensures PdeBits(p) & 0x10000000 != 0
    ensures PdeBits(p) & 0x20000000 != 0
    ensures PdeBits(p) & 0x40000000 != 0
    ensures PdeBits(p) & 0x80000000 != 0
  {
  }

  lemma PdeLowBits(p: bv32)
    ensures PdeBits(p) & 0x1 == 0
    ensures PdeBits(p) & 0x2 == 0
    ensures PdeBits(p) & 0x4 != 0 <==> p & 0x400000 != 0
    ensures PdeBits(p) & 0x8 != 0 <==> p & 0x800000 != 0
    ensures PdeBits(p) & 0x10 != 0 <==> p & 0x1000000 != 0
    ensures PdeBits(p) & 0x20 != 0 <==> p & 0x2000000 != 0
    ensures PdeBits(p) & 0x40 != 0 <==> p & 0x4000000 != 0
    ensures PdeBits(p) & 0x80 != 0 <==> p & 0x8000000 != 0
    ensures PdeBits(p) & 0x100 != 0 <==> p & 0x10000000 != 0
    ensures PdeBits(p) & 0x200 != 0 <==> p & 0x20000000 != 0
    ensures PdeBits(p) & 0x400 != 0 <==> p & 0x40000000 != 0
    ensures PdeBits(p) & 0x800 != 0 <==> p & 0x80000000 != 0
  {
  }

  lemma PdeUpper(p: bv32)
    ensures High10(PdeBits(p)) == 0x3ff && Mid10(PdeBits(p)) == 0x3ff
  {
    hide PdeBits;
    PdeMiddleBits(p);
  }

  lemma PdeLow(p: bv32)
    ensures Low12(PdeBits(p)) == 4 * High10(p)
  {
    hide PdeBits;
    PdeLowBits(p);
  }

  /** And the C expression of pde_addr. */
  lemma PdeBitsValue(p: bv32)
    ensures Value(PdeBits(p)) == PdeAddr(Value(p))
  {
    hide PdeBits, High10, Mid10, Low12;
    PdeUpper(p);
    PdeLow(p);
    ValueParts(p);
  }
}
