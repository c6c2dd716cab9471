/** The doubly linked list of free blocks, inside the memory that it manages. */
module RamLists {
  import opened IL = IntrusiveLists

  type Word = w: int | 0 <= w < 0x1_0000_0000

  /** Virtual memory as 2^30 words. */
  type Ram = m: seq<Word> | |m| == 0x4000_0000 witness seq(0x4000_0000, _ => 0)

  predicate Aligned(a: int) {
    0 <= a < 0x1_0000_0000 && a % 4 == 0
  }

  function W(m: Ram, a: int): Word
    requires Aligned(a)
  {
    m[a / 4]
  }

  function Put(m: Ram, a: int, w: Word): (r: Ram)
    requires Aligned(a)
    ensures forall b {:trigger W(r, b)} :: Aligned(b) ==> W(r, b) == if b == a then w else W(m, b)
  {
    m[a / 4 := w]
  }

  /** Room for a struct list_elem: prev at a, next at a + 4. */
  predicate ElemAddr(a: int) {
    Aligned(a) && Aligned(a + 4)
  }

  function Prev(m: Ram, a: int): Word
    requires ElemAddr(a)
  {
    W(m, a)
  }

  function Next(m: Ram, a: int): Word
    requires ElemAddr(a)
  {
    W(m, a + 4)
  }

  predicate Apart(a: int, b: int) {
    a + 8 <= b || b + 8 <= a
  }

  /** The elements at the addresses of q do not overlap. */
  predicate Separate(q: seq<int>) {
    && (forall i :: 0 <= i < |q| ==> ElemAddr(q[i]))
    && (forall i, j :: 0 <= i < j < |q| ==> Apart(q[i], q[j]))
  }

  ghost predicate Linked(m: Ram, q: seq<int>)
    requires Separate(q)
  {
    && (forall i {:trigger Next(m, q[i])} :: 0 <= i < |q| - 1 ==> Next(m, q[i]) == q[i + 1])
    && (forall i {:trigger Prev(m, q[i])} :: 1 <= i < |q| ==> Prev(m, q[i]) == q[i - 1])
  }

  /** b is one of the two words of the element at a. */
  predicate WordOf(a: int, b: int) {
    b == a || b == a + 4
  }

  // ----- list.c on memory -----

  function InsertBefore(m: Ram, before: int, elem: Word): Ram
    requires ElemAddr(before) && ElemAddr(elem) && ElemAddr(Prev(m, before))
  {
    var m1 := Put(m, Prev(m, before) + 4, elem);
    var m2 := Put(m1, elem, W(m1, before));
    var m3 := Put(m2, elem + 4, before);
    Put(m3, before, elem)
  }

  function Remove(m: Ram, elem: int): Ram
    requires ElemAddr(elem) && ElemAddr(Prev(m, elem)) && ElemAddr(Next(m, elem)) && Apart(Prev(m, elem), elem)
  {
    var m1 := Put(m, Prev(m, elem) + 4, Next(m, elem));
    Put(m1, Next(m1, elem), Prev(m1, elem))
  }

  lemma SeparateInserted(q: seq<int>, k: nat, x: int)
    requires k <= |q| && Separate(q) && ElemAddr(x) && forall i :: 0 <= i < |q| ==> Apart(q[i], x)
    ensures Separate(Inserted(q, k, x))
  {
  }

  lemma SeparateRemoved(q: seq<int>, k: nat)
    requires k < |q| && Separate(q)
    ensures Separate(Removed(q, k))
  {
  }

  /** The list gets the element in front of node k; no other word changes than its own two, the `next` of
      node k - 1 and the `prev` of node k. */
  lemma InsertLinks(m: Ram, q: seq<int>, k: nat, x: Word)
    requires 1 <= k < |q| && Separate(q) && Linked(m, q)
    requires ElemAddr(x) && forall i :: 0 <= i < |q| ==> Apart(q[i], x)
    ensures Prev(m, q[k]) == q[k - 1]
    ensures Separate(Inserted(q, k, x)) && Linked(InsertBefore(m, q[k], x), Inserted(q, k, x))
    ensures forall b {:trigger W(InsertBefore(m, q[k], x), b)} ::
        Aligned(b) && b != q[k - 1] + 4 && b != q[k] && !WordOf(x, b) ==>
              W(InsertBefore(m, q[k], x), b) == W(m, b)
  {
    SeparateInserted(q, k, x);
    var m2 := InsertBefore(m, q[k], x);
    var r := Inserted(q, k, x);
    assert ElemAddr(q[k]) && ElemAddr(q[k - 1]) && Apart(q[k - 1], q[k]) && Apart(q[k], x) && Apart(q[k - 1], x);
    hide Aligned;
    forall i | 0 <= i < |r| - 1 ensures Next(m2, r[i]) == r[i + 1] {
      if i < k - 1 { assert Next(m, q[i]) == q[i + 1] && Apart(q[i], q[k]) && Apart(q[i], q[k - 1]) && Apart(q[i], x); }
      if i > k { assert Next(m, q[i - 1]) == q[i] && Apart(q[k - 1], q[i - 1]) && Apart(q[i - 1], x); }
    }
    forall i | 1 <= i < |r| ensures Prev(m2, r[i]) == r[i - 1] {
      if i < k { assert Prev(m, q[i]) == q[i - 1] && Apart(q[i], q[k]) && Apart(q[i], x); }
      if i > k + 1 { assert Prev(m, q[i - 1]) == q[i - 2] && Apart(q[k], q[i - 1]) && Apart(q[k - 1], q[i - 1]) && Apart(q[i - 1], x); }
    }
  }

  /** The list loses node k; no other word changes than the `next` of node k - 1 and the `prev` of node
      k + 1. */
  lemma RemoveLinks(m: Ram, q: seq<int>, k: nat)
    requires 1 <= k < |q| - 1 && Separate(q) && Linked(m, q)
    ensures Prev(m, q[k]) == q[k - 1] && Next(m, q[k]) == q[k + 1] && Apart(q[k - 1], q[k])
    ensures Separate(Removed(q, k)) && Linked(Remove(m, q[k]), Removed(q, k))
    ensures forall b {:trigger W(Remove(m, q[k]), b)} :: Aligned(b) && b != q[k - 1] + 4 && b != q[k + 1] ==>
              W(Remove(m, q[k]), b) == W(m, b)
  {
    SeparateRemoved(q, k);
    assert Prev(m, q[k]) == q[k - 1] && Next(m, q[k]) == q[k + 1];
    var m2 := Remove(m, q[k]);
    var r := Removed(q, k);
    assert ElemAddr(q[k - 1]) && ElemAddr(q[k]) && ElemAddr(q[k + 1]);
    assert Apart(q[k - 1], q[k]) && Apart(q[k], q[k + 1]) && Apart(q[k - 1], q[k + 1]);
    hide Aligned;
    forall i | 0 <= i < |r| - 1 ensures Next(m2, r[i]) == r[i + 1] {
      if i < k - 1 { assert Next(m, q[i]) == q[i + 1] && Apart(q[i], q[k + 1]) && Apart(q[i], q[k - 1]); }
      if i >= k { assert Next(m, q[i + 1]) == q[i + 2] && Apart(q[k - 1], q[i + 1]); }
    }
    forall i | 1 <= i < |r| ensures Prev(m2, r[i]) == r[i - 1] {
      if i < k { assert Prev(m, q[i]) == q[i - 1] && Apart(q[i], q[k + 1]) && i < k - 1 ==> Apart(q[i], q[k - 1]); }
      if i > k { assert Prev(m, q[i + 1]) == q[i] && Apart(q[k + 1], q[i + 1]) && Apart(q[k - 1], q[i + 1]); }
    }
  }

  /** A list none of whose words changed. */
  lemma LinkedFrame(m: Ram, m2: Ram, q: seq<int>)
    requires Separate(q) && Linked(m, q)
    requires forall i {:trigger q[i]} ::
        0 <= i < |q| ==> Prev(m2, q[i]) == Prev(m, q[i]) && Next(m2, q[i]) == Next(m, q[i])
    ensures Linked(m2, q)
  {
    hide Next, Prev;
  }
}
