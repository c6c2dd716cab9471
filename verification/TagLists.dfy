/** The ready list and the waiter lists at the level of pointers.  A thread has one general_tag, which is
    linked into at most one of these lists at a time. */
module TagLists {
  import opened IntrusiveLists
  import opened ThreadSteps

  /** Which list: that of the scheduler, or that of a semaphore. */
  datatype Queue = ReadyList | WaiterList(sem: Sid)

  type Tags = map<Tid, Elem>

  /** No thread is in two of the queues. */
  ghost predicate Exclusive(queues: map<Queue, seq<Tid>>) {
    forall p, q, t {:trigger t in queues[p], t in queues[q]} ::
      p in queues && q in queues && t in queues[p] && t in queues[q] ==> p == q
  }

  /** Thread t is in none of them. */
  ghost predicate Loose(queues: map<Queue, seq<Tid>>, t: Tid) {
    forall q {:trigger queues[q]} :: q in queues ==> t !in queues[q]
  }

  lemma ExclusiveAdded(queues: map<Queue, seq<Tid>>, q: Queue, t: Tid)
    requires Exclusive(queues) && Loose(queues, t) && q in queues
    ensures Exclusive(queues[q := queues[q] + [t]]) && Exclusive(queues[q := [t] + queues[q]])
  {
  }

  lemma ExclusiveRemoved(queues: map<Queue, seq<Tid>>, q: Queue)
    requires Exclusive(queues) && q in queues && queues[q] != []
    requires queues[q][0] !in queues[q][1..]
    ensures Exclusive(queues[q := queues[q][1..]]) && Loose(queues[q := queues[q][1..]], queues[q][0])
  {
    assert forall t :: t in queues[q][1..] ==> t in queues[q];
    assert queues[q][0] in queues[q];
  }

  /** Sentinels and tags are different objects. */
  ghost predicate Places(tags: Tags, lists: map<Queue, List>, objects: set<object>) {
    && (forall t {:trigger tags[t]} :: t in tags ==> tags[t] in objects && tags[t].owner == t)
    && (forall q {:trigger lists[q]} :: q in lists ==>
          lists[q] in objects && lists[q].head in objects && lists[q].tail in objects)
    && (forall q, t {:trigger lists[q], tags[t]} :: q in lists && t in tags ==>
          tags[t] != lists[q].head && tags[t] != lists[q].tail)
    && (forall p, q {:trigger lists[p], lists[q]} :: p in lists && q in lists && p != q ==>
          && lists[p] != lists[q]
          && lists[p].head != lists[q].head && lists[p].tail != lists[q].tail
          && lists[p].head != lists[q].tail && lists[p].tail != lists[q].head)
  }

  lemma PlacesTag(tags: Tags, lists: map<Queue, List>, objects: set<object>, t: Tid, tag: Elem)
    requires Places(tags, lists, objects) && t !in tags && tag.owner == t && tag !in objects
    ensures Places(tags[t := tag], lists, objects + {tag})
  {
  }

  lemma PlacesList(lists: map<Queue, List>, objects: set<object>, q: Queue, l: List)
    requires Places(map[], lists, objects) && q !in lists
    requires l !in objects && l.head !in objects && l.tail !in objects
    ensures Places(map[], lists[q := l], objects + {l, l.head, l.tail})
  {
  }

  /** The nodes n of list l are its sentinels and, between them, the tags of the threads fs. */
  ghost predicate Nodes(tags: Tags, objects: set<object>, l: List, n: seq<Elem>, fs: seq<Tid>) {
    && |n| == |fs| + 2 && n[0] == l.head && n[|fs| + 1] == l.tail
    && (forall i {:trigger n[i]} :: 0 <= i < |n| ==> n[i] in objects)
    && forall i {:trigger fs[i]} :: 0 <= i < |fs| ==> fs[i] in tags && n[i + 1] == tags[fs[i]]
  }

  /** A node is a sentinel or the tag of one of the threads. */
  lemma NodeIs(tags: Tags, objects: set<object>, l: List, n: seq<Elem>, fs: seq<Tid>, x: Elem)
    requires Nodes(tags, objects, l, n, fs) && x in n
    ensures x == l.head || x == l.tail || exists t :: t in fs && t in tags && x == tags[t]
  {
    var i :| 0 <= i < |n| && n[i] == x;
    if 1 <= i < |n| - 1 { assert fs[i - 1] in fs; }
  }

  lemma NodesAppended(tags: Tags, objects: set<object>, l: List, n: seq<Elem>, fs: seq<Tid>, t: Tid)
    requires Nodes(tags, objects, l, n, fs) && t in tags && tags[t] in objects
    ensures Nodes(tags, objects, l, Inserted(n, |n| - 1, tags[t]), fs + [t])
  {
  }

  lemma NodesPushed(tags: Tags, objects: set<object>, l: List, n: seq<Elem>, fs: seq<Tid>, t: Tid)
    requires Nodes(tags, objects, l, n, fs) && t in tags && tags[t] in objects
    ensures Nodes(tags, objects, l, Inserted(n, 1, tags[t]), [t] + fs)
  {
  }

  lemma NodesRemoved(tags: Tags, objects: set<object>, l: List, n: seq<Elem>, fs: seq<Tid>)
    requires Nodes(tags, objects, l, n, fs) && fs != []
    ensures Nodes(tags, objects, l, Removed(n, 1), fs[1..]) && fs[0] in tags && n[1] == tags[fs[0]]
  {
  }

  lemma NodesMore(tags: Tags, objects: set<object>, l: List, n: seq<Elem>, fs: seq<Tid>, tags2: Tags, objects2: set<object>)
    requires Nodes(tags, objects, l, n, fs) && objects <= objects2
    requires forall t :: t in tags ==> t in tags2 && tags2[t] == tags[t]
    ensures Nodes(tags2, objects2, l, n, fs)
  {
  }

  class Lists {
    var tags: Tags
    var lists: map<Queue, List>
    ghost var queues: map<Queue, seq<Tid>>    // the threads whose tags are in each list, in order
    ghost var objects: set<object>            // the lists, their sentinels, and the tags

    ghost predicate Valid()
      reads this, objects
    {
      && queues.Keys == lists.Keys && Places(tags, lists, objects) && Exclusive(queues)
      && forall q {:trigger lists[q]} :: q in lists ==>
           Nodes(tags, objects, lists[q], lists[q].nodes, queues[q]) && lists[q].Valid()
    }

    /** list_init for the ready list and, by sem_init, for the waiter list of each semaphore. */
    constructor (sems: set<Sid>)
      ensures Valid() && fresh(objects) && this !in objects && tags == map[]
      ensures forall q {:trigger q in lists} :: q in lists <==> q == ReadyList || (q.WaiterList? && q.sem in sems)
      ensures forall q {:trigger queues[q]} :: q in queues ==> queues[q] == []
    {
      tags, lists, queues, objects := map[], map[], map[], {};
      new;
      NothingYet();
      hide Valid;
      Fill(sems);
    }

    lemma NothingYet()
      requires tags == map[] && lists == map[] && queues == map[] && objects == {}
      ensures Valid()
    {
    }

    method Fill(sems: set<Sid>)
      requires Valid() && this !in objects && tags == map[] && lists == map[] && queues == map[]
      modifies this
      ensures Valid() && fresh(objects - old(objects)) && this !in objects && tags == map[]
      ensures forall q {:trigger q in lists} :: q in lists <==> q == ReadyList || (q.WaiterList? && q.sem in sems)
      ensures forall q {:trigger queues[q]} :: q in queues ==> queues[q] == []
    {
      hide Valid;
      AddList(ReadyList);
      var rest := sems;
      while rest != {}
        invariant Valid() && fresh(objects - old(objects)) && this !in objects && tags == map[] && rest <= sems
        invariant forall q {:trigger q in lists} ::
            q in lists <==> q == ReadyList || (q.WaiterList? && q.sem in sems && q.sem !in rest)
        invariant forall q {:trigger queues[q]} :: q in queues ==> queues[q] == []
      {
        var k :| k in rest;
        AddList(WaiterList(k));
        rest := rest - {k};
      }
    }

    method AddList(q: Queue)
      requires Valid() && q !in lists && tags == map[] && this !in objects
      modifies this`lists, this`queues, this`objects
      ensures Valid() && lists.Keys == old(lists).Keys + {q} && queues == old(queues)[q := []] && tags == old(tags)
      ensures fresh(objects - old(objects)) && old(objects) <= objects && this !in objects
    {
      hide Places, Exclusive, Linked, Distinct, Nodes, List.Valid;
      var l := new List();
      PlacesList(lists, objects, q, l);
      ghost var more := objects + {l, l.head, l.tail};
      forall p | p in lists ensures Nodes(tags, more, lists[p], lists[p].nodes, queues[p]) {
        NodesMore(tags, objects, lists[p], lists[p].nodes, queues[p], tags, more);
      }
      NoNodes(tags, more, l);
      ExclusiveMore(queues, q);
      lists := lists[q := l];
      queues := queues[q := []];
      objects := more;
    }

    /** The tag of a new thread. */
    method AddTag(t: Tid)
      requires Valid() && t !in tags && this !in objects
      modifies this`tags, this`objects
      ensures Valid() && tags.Keys == old(tags).Keys + {t} && lists == old(lists) && queues == old(queues)
      ensures fresh(objects - old(objects)) && old(objects) <= objects && this !in objects
    {
      hide Places, Exclusive, Linked, Distinct, Nodes, List.Valid;
      var tag := new Elem(t);
      PlacesTag(tags, lists, objects, t, tag);
      forall p | p in lists ensures Nodes(tags[t := tag], objects + {tag}, lists[p], lists[p].nodes, queues[p]) {
        NodesMore(tags, objects, lists[p], lists[p].nodes, queues[p], tags[t := tag], objects + {tag});
      }
      tags := tags[t := tag];
      objects := objects + {tag};
    }

    /** No two lists share a node. */
    lemma AllApart(p: Queue, q: Queue)
      requires Valid() && p in lists && q in lists && p != q
      ensures Apart(lists[p], lists[q])
    {
      hide Linked, Distinct;
      forall x | x in lists[p].nodes ensures x !in lists[q].nodes {
        if x in lists[q].nodes {
          NodeIs(tags, objects, lists[p], lists[p].nodes, queues[p], x);
          NodeIs(tags, objects, lists[q], lists[q].nodes, queues[q], x);
        }
      }
    }

    /** The tag of a thread that is not in a queue is not in the list. */
    lemma LooseOutside(q: Queue, t: Tid)
      requires Valid() && q in lists && t in tags && t !in queues[q]
      ensures tags[t] !in lists[q].nodes
    {
      hide Linked, Distinct;
      if tags[t] in lists[q].nodes { NodeIs(tags, objects, lists[q], lists[q].nodes, queues[q], tags[t]); }
    }

    /** elem_find for the tag of t. */
    method Find(q: Queue, t: Tid) returns (found: bool)
      requires Valid() && q in lists && t in tags
      ensures found <==> t in queues[q]
    {
      found := lists[q].Find(tags[t]);
      ghost var es := lists[q].Elems();
      assert forall i :: 0 <= i < |queues[q]| ==> es[i] == tags[queues[q][i]];
      if found {
        ghost var i :| 0 <= i < |es| && es[i] == tags[t];
        assert queues[q][i] == t;
      }
      if t in queues[q] {
        ghost var i :| 0 <= i < |queues[q]| && queues[q][i] == t;
        assert es[i] == tags[t];
      }
    }

    /** list_empty */
    method Empty(q: Queue) returns (empty: bool)
      requires Valid() && q in lists
      ensures empty <==> queues[q] == []
    {
      empty := lists[q].IsEmpty();
    }

    /** What an operation on list l with element x may write. */
    ghost function Touched(l: List, x: Elem): (r: set<object>)
      reads l
      ensures l in r && x in r && forall n :: n in l.nodes ==> n in r
    {
      {l, x} + set n | n in l.nodes
    }

    /** The lists other than q hold the queues qs, and lie outside of what is touched. */
    ghost predicate OthersOk(q: Queue, touched: set<object>, qs: map<Queue, seq<Tid>>)
      reads this`tags, this`lists, this`objects, objects - touched
    {
      forall p {:trigger lists[p]} :: p in lists && p != q ==>
        && {lists[p], lists[p].head, lists[p].tail} <= objects - touched
        && (forall i {:trigger lists[p].nodes[i]} :: 0 <= i < |lists[p].nodes| ==> lists[p].nodes[i] in objects - touched)
        && p in qs && Nodes(tags, objects, lists[p], lists[p].nodes, qs[p]) && lists[p].Valid()
    }

    /** What is to be known before a tag enters list q. */
    lemma BeforeEntry(q: Queue, t: Tid)
      requires Valid() && q in lists && t in tags && Loose(queues, t)
      ensures tags[t] !in lists[q].nodes && OthersOk(q, Touched(lists[q], tags[t]), queues) && tags[t] in objects
    {
      LooseOutside(q, t);
      hide Linked, Distinct, Exclusive;
      var touched := Touched(lists[q], tags[t]);
      forall p | p in lists && p != q
        ensures {lists[p], lists[p].head, lists[p].tail} <= objects - touched
        ensures forall i {:trigger lists[p].nodes[i]} :: 0 <= i < |lists[p].nodes| ==> lists[p].nodes[i] in objects - touched
      {
        LooseOutside(p, t);
        OtherOutside(p, q, tags[t]);
      }
    }

    lemma BeforePop(q: Queue)
      requires Valid() && q in lists && queues[q] != []
      ensures OthersOk(q, Touched(lists[q], lists[q].head), queues) && queues[q][0] in tags && queues[q][0] !in queues[q][1..]
    {
      ghost var n, fs := lists[q].nodes, queues[q];
      forall i | 1 <= i < |fs| ensures fs[i] != fs[0] {
        assert n[i + 1] != n[1];
      }
      hide Linked, Distinct, Exclusive;
      var touched := Touched(lists[q], lists[q].head);
      forall p | p in lists && p != q
        ensures {lists[p], lists[p].head, lists[p].tail} <= objects - touched
        ensures forall i {:trigger lists[p].nodes[i]} :: 0 <= i < |lists[p].nodes| ==> lists[p].nodes[i] in objects - touched
      {
        AllApart(p, q);
        assert lists[q].nodes[0] in lists[q].nodes;
        OtherOutside(p, q, lists[q].head);
      }
    }

    /** List p lies outside of what an operation on list q with x touches. */
    lemma OtherOutside(p: Queue, q: Queue, x: Elem)
      requires Valid() && p in lists && q in lists && p != q && x !in lists[p].nodes
      ensures var rest := objects - Touched(lists[q], x);
              && {lists[p], lists[p].head, lists[p].tail} <= rest
              && forall i {:trigger lists[p].nodes[i]} :: 0 <= i < |lists[p].nodes| ==> lists[p].nodes[i] in rest
    {
      hide Valid, Places, Nodes, Linked, Distinct, Exclusive, List.Valid;
      AllApart(p, q);
      Parts(p);
      var n := lists[p].nodes;
      assert n[0] in n && n[|n| - 1] in n;
      forall i | 0 <= i < |n| ensures n[i] != x && n[i] !in lists[q].nodes {
        assert n[i] in n;
      }
    }

    lemma Keys()
      requires Valid()
      ensures queues.Keys == lists.Keys
    {
    }

    lemma Parts(q: Queue)
      requires Valid() && q in lists
      ensures queues.Keys == lists.Keys && Places(tags, lists, objects) && Exclusive(queues)
      ensures Nodes(tags, objects, lists[q], lists[q].nodes, queues[q]) && lists[q].Valid()
      ensures lists[q] in objects && lists[q].tail in objects && lists[q].head in objects
      ensures forall i {:trigger lists[q].nodes[i]} :: 0 <= i < |lists[q].nodes| ==> lists[q].nodes[i] in objects
      ensures forall p {:trigger lists[p]} :: p in lists ==>
                && lists[p] in objects && |lists[p].nodes| >= 2
                && lists[p].head == lists[p].nodes[0] && lists[p].tail == lists[p].nodes[|lists[p].nodes| - 1]
                && Nodes(tags, objects, lists[p], lists[p].nodes, queues[p]) && lists[p].Valid()
    {
      hide Linked, Distinct;
    }

    /** list_append of the tag of t, which is in no list. */
    method Append(q: Queue, t: Tid)
      requires Valid() && q in lists && t in tags && Loose(queues, t) && this !in objects
      modifies this`queues, objects
      ensures Valid() && tags == old(tags) && lists == old(lists) && objects == old(objects)
      ensures queues == old(queues)[q := old(queues)[q] + [t]]
    {
      hide Valid, Places, Nodes, Exclusive, Loose, Linked, Distinct, List.Valid, OthersOk, Touched;
      ghost var qs, touched := queues, Touched(lists[q], tags[t]);
      BeforeEntry(q, t);
      Parts(q);
      ExclusiveAdded(queues, q, t);
      NodesAppended(tags, objects, lists[q], lists[q].nodes, queues[q], t);
      assert lists[q].Node(|lists[q].nodes| - 2) in lists[q].nodes;
      lists[q].Append(tags[t]);
      queues := queues[q := queues[q] + [t]];
      Finish(q, touched, qs);
    }

    /** list_push of the tag of t, which is in no list. */
    method Push(q: Queue, t: Tid)
      requires Valid() && q in lists && t in tags && Loose(queues, t) && this !in objects
      modifies this`queues, objects
      ensures Valid() && tags == old(tags) && lists == old(lists) && objects == old(objects)
      ensures queues == old(queues)[q := [t] + old(queues)[q]]
    {
      hide Valid, Places, Nodes, Exclusive, Loose, Linked, Distinct, List.Valid, OthersOk, Touched;
      ghost var qs, touched := queues, Touched(lists[q], tags[t]);
      BeforeEntry(q, t);
      Parts(q);
      ExclusiveAdded(queues, q, t);
      NodesPushed(tags, objects, lists[q], lists[q].nodes, queues[q], t);
      assert lists[q].Node(1) in lists[q].nodes;
      lists[q].Push(tags[t]);
      queues := queues[q := [t] + queues[q]];
      Finish(q, touched, qs);
    }

    /** list_pop of a list that is not empty, and get_pcb of what it gives, which is now in no list. */
    method Pop(q: Queue) returns (t: Tid)
      requires Valid() && q in lists && queues[q] != [] && this !in objects
      modifies this`queues, objects
      ensures Valid() && tags == old(tags) && lists == old(lists) && objects == old(objects)
      ensures t == old(queues[q][0]) && queues == old(queues)[q := old(queues)[q][1..]]
      ensures t in tags && Loose(queues, t)
    {
      hide Valid, Nodes, Exclusive, Loose, Linked, Distinct, List.Valid, OthersOk, Touched;
      ghost var qs, touched := queues, Touched(lists[q], lists[q].head);
      BeforePop(q);
      Parts(q);
      ExclusiveRemoved(queues, q);
      NodesRemoved(tags, objects, lists[q], lists[q].nodes, queues[q]);
      assert lists[q].Node(2) in lists[q].nodes;
      var elem := lists[q].Pop();
      t := elem.owner;
      queues := queues[q := queues[q][1..]];
      Finish(q, touched, qs);
    }

    /** The queues are qs but for q, whose list is right again. */
    lemma Finish(q: Queue, touched: set<object>, qs: map<Queue, seq<Tid>>)
      requires qs.Keys == lists.Keys && Places(tags, lists, objects) && Exclusive(queues)
      requires q in lists && q in queues && queues == qs[q := queues[q]]
      requires Nodes(tags, objects, lists[q], lists[q].nodes, queues[q]) && lists[q].Valid()
      requires OthersOk(q, touched, qs)
      ensures Valid()
    {
      hide Exclusive, Places, Nodes, List.Valid;
    }
  }

  lemma NoNodes(tags: Tags, objects: set<object>, l: List)
    requires l.Valid() && l.nodes == [l.head, l.tail] && l.head in objects && l.tail in objects
    ensures Nodes(tags, objects, l, l.nodes, [])
  {
  }

  lemma ExclusiveMore(queues: map<Queue, seq<Tid>>, q: Queue)
    requires Exclusive(queues) && q !in queues
    ensures Exclusive(queues[q := []])
  {
  }
}
