/** The intrusive doubly linked list: nodes are embedded in other structures, two sentinels mark the
    ends, and the pointers refine a sequence. */
module IntrusiveLists {

  class Elem {
    var prev: Elem?
    var next: Elem?
    const owner: nat     // the structure that it is embedded in, as get_pcb computes it

    constructor (owner: nat)
      ensures this.owner == owner
    {
      prev, next := null, null;
      this.owner := owner;
    }
  }

  function Inserted<T>(q: seq<T>, k: nat, x: T): (r: seq<T>)
    requires k <= |q|
    ensures |r| == |q| + 1 && r[k] == x
    ensures forall i :: 0 <= i < k ==> r[i] == q[i]
    ensures forall i :: k < i < |r| ==> r[i] == q[i - 1]
  {
    q[..k] + [x] + q[k..]
  }

  function Removed<T>(q: seq<T>, k: nat): (r: seq<T>)
    requires k < |q|
    ensures |r| == |q| - 1
    ensures forall i :: 0 <= i < k ==> r[i] == q[i]
    ensures forall i :: k <= i < |r| ==> r[i] == q[i + 1]
  {
    q[..k] + q[k + 1..]
  }

  lemma MembersInserted<T>(q: seq<T>, k: nat, x: T)
    requires k <= |q|
    ensures forall y :: y in Inserted(q, k, x) ==> y == x || y in q
  {
  }

  lemma MembersRemoved<T>(q: seq<T>, k: nat)
    requires k < |q|
    ensures forall y :: y in Removed(q, k) ==> y in q
  {
  }

  predicate Distinct(q: seq<Elem>) {
    forall i, j :: 0 <= i < j < |q| ==> q[i] != q[j]
  }

  lemma DistinctInserted(q: seq<Elem>, k: nat, x: Elem)
    requires k <= |q| && Distinct(q) && x !in q
    ensures Distinct(Inserted(q, k, x))
  {
  }

  lemma DistinctRemoved(q: seq<Elem>, k: nat)
    requires k < |q| && Distinct(q)
    ensures Distinct(Removed(q, k)) && q[k] !in Removed(q, k)
  {
  }

  /** `prev` and `next` along q are mutually inverse. */
  ghost predicate Linked(q: seq<Elem>)
    reads q
  {
    && (forall i {:trigger q[i].next} :: 0 <= i < |q| - 1 ==> q[i].next == q[i + 1])
    && (forall i {:trigger q[i].prev} :: 1 <= i < |q| ==> q[i].prev == q[i - 1])
  }

  class List {
    const head: Elem
    const tail: Elem
    ghost var nodes: seq<Elem>   // the elements between the two sentinels

    ghost predicate Valid()
      reads this, head, tail, nodes
    {
      && |nodes| >= 2 && nodes[0] == head && nodes[|nodes| - 1] == tail
      && Distinct(nodes)
      && Linked(nodes)
      && head.prev == null
      && tail.next == null
    }

    ghost function Elems(): seq<Elem>
      requires |nodes| >= 2
      reads this
    {
      nodes[1..|nodes| - 1]
    }

    ghost function Node(k: nat): Elem
      requires k < |nodes|
      reads this
    {
      nodes[k]
    }

    /** list_init */
    constructor ()
      ensures Valid() && Elems() == [] && nodes == [head, tail] && fresh(nodes) && fresh(this)
    {
      head := new Elem(0);
      tail := new Elem(0);
      new;
      head.prev := null;
      tail.next := null;
      head.next := tail;
      tail.prev := head;
      nodes := [head, tail];
    }

    /** list_insert_before, where `before` is node k. */
    method InsertBefore(before: Elem, elem: Elem, ghost k: nat)
      requires Valid() && 1 <= k < |nodes| && before == nodes[k] && elem !in nodes
      modifies this`nodes, Node(k - 1)`next, before`prev, elem
      ensures Valid() && nodes == Inserted(old(nodes), k, elem)
    {
      DistinctInserted(nodes, k, elem);
      assert before.prev == nodes[k - 1];
      before.prev.next := elem;
      elem.prev := before.prev;
      elem.next := before;
      before.prev := elem;
      nodes := Inserted(nodes, k, elem);
    }

    /** list_remove, where `elem` is node k.  The removed element keeps its two pointers. */
    method Remove(elem: Elem, ghost k: nat)
      requires Valid() && 1 <= k < |nodes| - 1 && elem == nodes[k]
      modifies this`nodes, Node(k - 1)`next, Node(k + 1)`prev
      ensures Valid() && nodes == Removed(old(nodes), k) && elem !in nodes
      ensures elem.prev == old(nodes[k - 1]) && elem.next == old(nodes[k + 1])
    {
      DistinctRemoved(nodes, k);
      assert elem.prev == nodes[k - 1] && elem.next == nodes[k + 1];
      elem.prev.next := elem.next;
      elem.next.prev := elem.prev;
      nodes := Removed(nodes, k);
    }

    /** list_push */
    method Push(elem: Elem)
      requires Valid() && elem !in nodes
      modifies this`nodes, head`next, Node(1)`prev, elem
      ensures Valid() && Elems() == [elem] + old(Elems()) && nodes == Inserted(old(nodes), 1, elem)
    {
      assert nodes[0].next == nodes[1];
      InsertBefore(head.next, elem, 1);
    }

    /** list_append */
    method Append(elem: Elem)
      requires Valid() && elem !in nodes
      modifies this`nodes, Node(|nodes| - 2)`next, tail`prev, elem
      ensures Valid() && Elems() == old(Elems()) + [elem] && nodes == Inserted(old(nodes), |old(nodes)| - 1, elem)
    {
      InsertBefore(tail, elem, |nodes| - 1);
    }

    /** list_pop, of a list that is not empty. */
    method Pop() returns (elem: Elem)
      requires Valid() && Elems() != []
      modifies this`nodes, head`next, Node(2)`prev
      ensures Valid() && elem == old(Elems()[0]) && Elems() == old(Elems()[1..])
      ensures nodes == Removed(old(nodes), 1) && elem !in nodes
      ensures elem.prev == head && elem.next == nodes[1]
    {
      assert nodes[0].next == nodes[1];
      elem := head.next;
      Remove(elem, 1);
    }

    /** elem_find stops at the tail sentinel and sees every element on the way. */
    method Find(obj: Elem) returns (found: bool)
      requires Valid()
      ensures found <==> obj in Elems()
    {
      ghost var i := 1;
      assert nodes[0].next == nodes[1];
      var help := head.next;
      while help != tail
        invariant 1 <= i < |nodes| && help == nodes[i]
        invariant obj !in nodes[1..i]
        decreases |nodes| - i
      {
        if help == obj {
          assert help == Elems()[i - 1];
          return true;
        }
        assert nodes[i].next == nodes[i + 1];
        help := help.next;
        i := i + 1;
      }
      return false;
    }

    /** list_len */
    method Len() returns (len: nat)
      requires Valid()
      ensures len == |Elems()|
    {
      assert nodes[0].next == nodes[1];
      var help := head.next;
      len := 0;
      while help != tail
        invariant len + 1 < |nodes| && help == nodes[len + 1]
        decreases |nodes| - len
      {
        assert nodes[len + 1].next == nodes[len + 2];
        len := len + 1;
        help := help.next;
      }
    }

    /** list_empty */
    method IsEmpty() returns (empty: bool)
      requires Valid()
      ensures empty <==> Elems() == []
    {
      assert nodes[0].next == nodes[1];
      empty := head.next == tail;
    }
  }

  /** Two lists that share no node. */
  ghost predicate Apart(a: List, b: List)
    reads a, b
  {
    a != b && forall x :: x in a.nodes ==> x !in b.nodes
  }

  /** The step at the centre of sem_up and of schedule: the first element of one list becomes the
      first of another.  One tag per thread is enough, because the element leaves the first list
      before it enters the second; the pop leaves the other list as it was. */
  method MoveFirst(from: List, to: List)
    requires from.Valid() && to.Valid() && Apart(from, to) && from.Elems() != []
    modifies from, to, from.nodes, to.nodes
    ensures from.Valid() && to.Valid() && Apart(from, to)
    ensures from.Elems() == old(from.Elems()[1..])
    ensures to.Elems() == [old(from.Elems()[0])] + old(to.Elems())
  {
    assert from.nodes[0] == from.head && from.Node(2) in from.nodes && from.nodes[1] in from.nodes;
    assert to.nodes[0] == to.head && to.nodes[|to.nodes| - 1] == to.tail;
    hide Linked, Distinct;
    var elem := from.Pop();
    assert to.Valid() && elem !in to.nodes;
    assert to.Node(1) in to.nodes;
    label popped:
    to.Push(elem);
    assert from.Valid();
    MembersInserted(old(to.nodes), 1, elem);
    MembersRemoved(old(from.nodes), 1);
  }

  /** Removing what was just appended restores the list, pointer by pointer. */
  method AppendThenRemove(list: List, elem: Elem)
    requires list.Valid() && elem !in list.nodes
    modifies list, list.nodes, elem
    ensures list.Valid() && list.nodes == old(list.nodes)
    ensures forall x :: x in list.nodes ==> x.prev == old(x.prev) && x.next == old(x.next)
  {
    list.Append(elem);
    list.Remove(elem, |list.nodes| - 2);
    assert list.nodes == old(list.nodes);
    forall i | 0 <= i < |list.nodes|
      ensures var x := list.nodes[i]; x.prev == old(x.prev) && x.next == old(x.next)
    {
    }
  }
}
