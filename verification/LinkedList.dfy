/** The intrusive doubly linked list, on the heap. */
module LinkedList {
  import opened Sequences

  /** A local variable that a node may point to, which the node's destructor sets. `watched` is the id
      of the node. */
  class Flag {
    ghost const watched: nat
    var raised: bool

    constructor (ghost watched: nat)
      ensures !raised && this.watched == watched
    {
      this.watched := watched;
      raised := false;
    }
  }

  class Node<T> {
    const value: T
    ghost const id: nat
    var next: Node?<T>
    var prev: Node?<T>
    var deleteFlag: Flag?

    constructor (value: T, ghost id: nat)
      ensures this.value == value && this.id == id && next == null && prev == null && deleteFlag == null
    {
      this.value, this.id := value, id;
      next, prev, deleteFlag := null, null, null;
    }

    /** The destructor. */
    method Destroy()
      modifies deleteFlag
      ensures deleteFlag != null ==> deleteFlag.raised
    {
      if deleteFlag != null {
        deleteFlag.raised := true;
      }
    }
  }

  predicate Distinct<T>(nodes: seq<Node<T>>) {
    forall i, j :: 0 <= i < j < |nodes| ==> nodes[i] != nodes[j]
  }

  function At<T>(nodes: seq<Node<T>>, i: int): Node?<T> {
    if 0 <= i < |nodes| then nodes[i] else null
  }

  /** `nodes` are coupled one after another, with nothing before and nothing behind. */
  ghost predicate Coupled<T>(nodes: seq<Node<T>>)
    reads nodes
  {
    && (forall i {:trigger nodes[i].next} :: 0 <= i < |nodes| ==> nodes[i].next == At(nodes, i + 1))
    && (forall i {:trigger nodes[i].prev} :: 0 <= i < |nodes| ==> nodes[i].prev == At(nodes, i - 1))
  }

  function Inserted<A>(s: seq<A>, k: nat, a: A): seq<A>
    requires k <= |s|
  {
    s[..k] + [a] + s[k..]
  }

  ghost function Index<A>(s: seq<A>, a: A): (k: nat)
    requires a in s
    ensures k < |s| && s[k] == a && a !in s[..k]
  {
    if s[0] == a then 0 else 1 + Index(s[1..], a)
  }

  /** A node coupled in before position `k`, between its neighbours. */
  lemma CoupledInserted<T>(nodes: seq<Node<T>>, k: nat, n: Node<T>)
    requires k <= |nodes| && n !in nodes && Distinct(nodes)
    requires forall i {:trigger nodes[i].next} :: 0 <= i < |nodes| ==>
      nodes[i].next == if i + 1 == k then n else At(nodes, i + 1)
    requires forall i {:trigger nodes[i].prev} :: 0 <= i < |nodes| ==>
      nodes[i].prev == if i == k then n else At(nodes, i - 1)
    requires n.next == At(nodes, k) && n.prev == At(nodes, k - 1)
    ensures Coupled(Inserted(nodes, k, n)) && Distinct(Inserted(nodes, k, n))
  {
    var after := Inserted(nodes, k, n);
    forall i | 0 <= i < |after|
      ensures after[i] == if i < k then nodes[i] else if i == k then n else nodes[i - 1]
    {}
  }

  /** A node decoupled from position `k`. */
  lemma CoupledWithout<T>(nodes: seq<Node<T>>, k: nat)
    requires k < |nodes| && Distinct(nodes)
    requires forall i {:trigger nodes[i].next} :: 0 <= i < |nodes| && i != k ==>
      nodes[i].next == if i + 1 == k then At(nodes, i + 2) else At(nodes, i + 1)
    requires forall i {:trigger nodes[i].prev} :: 0 <= i < |nodes| && i != k ==>
      nodes[i].prev == if i == k + 1 then At(nodes, i - 2) else At(nodes, i - 1)
    ensures Coupled(WithoutIndex(nodes, k)) && Distinct(WithoutIndex(nodes, k))
  {
    var after := WithoutIndex(nodes, k);
    forall i | 0 <= i < |after|
      ensures after[i] == if i < k then nodes[i] else nodes[i + 1]
    {}
  }

  class LinkedList<T> {
    var head: Node?<T>
    var tail: Node?<T>
    var count: nat
    ghost var nodes: seq<Node<T>>
    ghost var nextId: nat

    ghost predicate Valid()
      reads this, nodes
    {
      && count == |nodes| && Distinct(nodes) && Coupled(nodes)
      && head == At(nodes, 0) && tail == At(nodes, |nodes| - 1)
    }

    constructor ()
      ensures Valid() && nodes == [] && nextId == 0
    {
      head, tail, count := null, null, 0;
      nodes, nextId := [], 0;
    }

    /** The node is `nodes[k]`. */
    ghost predicate Holds(k: int, value: T, id: nat)
      reads this, nodes
    {
      0 <= k < |nodes| && nodes[k].value == value && nodes[k].id == id && nodes[k].deleteFlag == null
    }

    /** Couples a node that knows its neighbours into position `k`. */
    method Couple(node: Node<T>, ghost k: nat)
      requires Distinct(nodes) && Coupled(nodes) && k <= |nodes| && node !in nodes
      requires node.next == At(nodes, k) && node.prev == At(nodes, k - 1)
      modifies nodes`next, nodes`prev
      ensures Coupled(Inserted(nodes, k, node)) && Distinct(Inserted(nodes, k, node))
    {
      hide Inserted, Coupled, Distinct;
      CoupledMeans(nodes);
      if node.next != null {
        node.next.prev := node;
      }
      if node.prev != null {
        node.prev.next := node;
      }
      forall i | 0 <= i < |nodes|
        ensures nodes[i].next == if i + 1 == k then node else At(nodes, i + 1)
        ensures nodes[i].prev == if i == k then node else At(nodes, i - 1)
      {
        assert old(nodes[i].next) == At(nodes, i + 1) && old(nodes[i].prev) == At(nodes, i - 1);
        DistinctMeans(nodes, i, k);
        DistinctMeans(nodes, i, k - 1);
      }
      CoupledInserted(nodes, k, node);
    }

    /** Without a node to go after, the new node becomes the whole list; what was on it is lost and still
        counted. */
    method InsertAfter(after: Node?<T>, value: T)
      requires Valid() && (after == null || after in nodes)
      modifies this, nodes`next, nodes`prev
      ensures Valid() <==> after != null || old(nodes) == []
      ensures nextId == old(nextId) + 1 && count == old(count) + 1
      ensures after == null ==>
        |nodes| == 1 && head == tail == nodes[0] && Holds(0, value, old(nextId)) && fresh(nodes[0])
      ensures after != null ==> var k := Index(old(nodes), after) + 1;
        k < |nodes| && nodes == Inserted(old(nodes), k, nodes[k]) && Holds(k, value, old(nextId)) && fresh(nodes[k])
    {
      hide Inserted, Index, Coupled, Distinct;
      var node := new Node(value, nextId);
      if after == null {
        head, tail := node, node;
        SingleNode(node);
        nodes := [node];
      } else {
        ghost var k := Index(nodes, after) + 1;
        NextOf(nodes, Index(nodes, after));
        node.prev := after;
        node.next := after.next;
        if node.next == null {
          tail := node;
        }
        Couple(node, k);
        InsertedEnds(nodes, k, node);
        nodes := Inserted(nodes, k, node);
      }
      count := count + 1;
      nextId := nextId + 1;
    }

    /** The same in front of a node. */
    method InsertBefore(before: Node?<T>, value: T)
      requires Valid() && (before == null || before in nodes)
      modifies this, nodes`next, nodes`prev
      ensures Valid() <==> before != null || old(nodes) == []
      ensures nextId == old(nextId) + 1 && count == old(count) + 1
      ensures before == null ==>
        |nodes| == 1 && head == tail == nodes[0] && Holds(0, value, old(nextId)) && fresh(nodes[0])
      ensures before != null ==> var k := Index(old(nodes), before);
        k < |nodes| && nodes == Inserted(old(nodes), k, nodes[k]) && Holds(k, value, old(nextId)) && fresh(nodes[k])
    {
      hide Inserted, Index, Coupled, Distinct;
      var node := new Node(value, nextId);
      if before == null {
        head, tail := node, node;
        SingleNode(node);
        nodes := [node];
      } else {
        ghost var k := Index(nodes, before);
        NextOf(nodes, Index(nodes, before));
        node.next := before;
        node.prev := before.prev;
        if node.prev == null {
          head := node;
        }
        Couple(node, k);
        InsertedEnds(nodes, k, node);
        nodes := Inserted(nodes, k, node);
      }
      count := count + 1;
      nextId := nextId + 1;
    }

    method AddTail(value: T)
      requires Valid()
      modifies this, nodes`next, nodes`prev
      ensures Valid() && nextId == old(nextId) + 1
      ensures |nodes| == |old(nodes)| + 1 && nodes == old(nodes) + [nodes[|old(nodes)|]]
      ensures Holds(|old(nodes)|, value, old(nextId)) && fresh(nodes[|old(nodes)|])
    {
      hide Coupled, Index;
      if nodes != [] {
        IndexIs(nodes, |nodes| - 1);
      }
      InsertAfter(tail, value);
    }

    method AddHead(value: T)
      requires Valid()
      modifies this, nodes`next, nodes`prev
      ensures Valid() && nextId == old(nextId) + 1
      ensures nodes != [] && nodes == [nodes[0]] + old(nodes)
      ensures Holds(0, value, old(nextId)) && fresh(nodes[0])
    {
      hide Coupled, Index;
      if nodes != [] {
        IndexIs(nodes, 0);
      }
      InsertBefore(head, value);
    }

    /** Takes the neighbours of the node at position `k` past it. */
    method Decouple(node: Node<T>, ghost k: nat)
      requires Distinct(nodes) && Coupled(nodes) && k < |nodes| && nodes[k] == node
      modifies nodes`next, nodes`prev
      ensures Coupled(WithoutIndex(nodes, k)) && Distinct(WithoutIndex(nodes, k))
    {
      hide WithoutIndex, Coupled, Distinct;
      CoupledMeans(nodes);
      if node.next != null {
        node.next.prev := node.prev;
      }
      if node.prev != null {
        node.prev.next := node.next;
      }
      forall i | 0 <= i < |nodes| && i != k
        ensures nodes[i].next == if i + 1 == k then At(nodes, i + 2) else At(nodes, i + 1)
        ensures nodes[i].prev == if i == k + 1 then At(nodes, i - 2) else At(nodes, i - 1)
      {
        assert old(nodes[i].next) == At(nodes, i + 1) && old(nodes[i].prev) == At(nodes, i - 1);
        DistinctMeans(nodes, i, k + 1);
        DistinctMeans(nodes, i, k - 1);
      }
      CoupledWithout(nodes, k);
    }

    /** Removes the node; the destructor raises the flag it points to. */
    method Remove(node: Node<T>)
      requires Valid() && node in nodes
      modifies this, nodes`next, nodes`prev, node.deleteFlag
      ensures Valid() && nodes == WithoutIndex(old(nodes), Index(old(nodes), node)) && nextId == old(nextId)
      ensures node.deleteFlag != null ==> node.deleteFlag.raised
    {
      hide WithoutIndex, Index, Coupled, Distinct;
      ghost var k := Index(nodes, node);
      NextOf(nodes, k);
      if head == node {
        head := head.next;
      }
      if tail == node {
        tail := tail.prev;
      }
      DistinctMeans(nodes, 0, k);
      DistinctMeans(nodes, |nodes| - 1, k);
      Decouple(node, k);
      WithoutEnds(nodes, k);
      count := count - 1;
      nodes := WithoutIndex(nodes, k);
      node.Destroy();
    }

    ghost function Flags(): set<Flag?>
      reads this, nodes
    {
      set n: Node<T> | n in nodes :: n.deleteFlag
    }

    /** The first value that passes, if there is one, optionally removing it. */
    method Find(passes: T -> bool, notFoundValue: T, removeIfFound: bool) returns (value: T, ghost k: nat)
      requires Valid()
      modifies this, nodes`next, nodes`prev, Flags()
      ensures Valid() && k <= |old(nodes)| && forall i :: 0 <= i < k ==> !passes(old(nodes)[i].value)
      ensures k == |old(nodes)| ==> value == notFoundValue
      ensures k < |old(nodes)| ==> passes(value) && value == old(nodes)[k].value
      ensures nodes == if removeIfFound && k < |old(nodes)| then WithoutIndex(old(nodes), k) else old(nodes)
    {
      hide WithoutIndex, Coupled, Index;
      value, k := notFoundValue, 0;
      var node := head;
      while node != null
        invariant Valid() && nodes == old(nodes) && k <= |nodes| && node == At(nodes, k) && value == notFoundValue
        invariant forall i :: 0 <= i < k ==> !passes(nodes[i].value)
        decreases |nodes| - k
      {
        if passes(node.value) {
          value := node.value;
          if removeIfFound {
            IndexIs(nodes, k);
            Remove(node);
          }
          return;
        }
        NextOf(nodes, k);
        node := node.next;
        k := k + 1;
      }
    }

    method RemoveAll()
      requires Valid()
      modifies this, nodes`next, nodes`prev, Flags()
      ensures Valid() && nodes == []
      ensures forall n :: n in old(nodes) && n.deleteFlag != null ==> n.deleteFlag.raised
    {
      hide Coupled, Index, Distinct;
      while count > 0
        invariant Valid()
        invariant forall i :: 0 <= i < |nodes| ==> nodes[i] in old(nodes) && nodes[i].deleteFlag in old(Flags())
        invariant forall n :: n in old(nodes) && n.deleteFlag != null ==> n.deleteFlag.raised || n in nodes
        decreases |nodes|
      {
        HeadIs(nodes);
        Remove(head);
      }
    }
  }

  lemma HeadIs<T>(nodes: seq<Node<T>>)
    requires nodes != []
    ensures Index(nodes, nodes[0]) == 0
    ensures WithoutIndex(nodes, 0) == nodes[1..] && forall n :: n in nodes ==> n == nodes[0] || n in nodes[1..]
  {}

  lemma IndexIs<T>(nodes: seq<Node<T>>, k: nat)
    requires Distinct(nodes) && k < |nodes|
    ensures Index(nodes, nodes[k]) == k
  {}

  lemma WithoutEnds<T>(nodes: seq<Node<T>>, k: nat)
    requires k < |nodes|
    ensures |WithoutIndex(nodes, k)| == |nodes| - 1
    ensures At(WithoutIndex(nodes, k), 0) == if k == 0 then At(nodes, 1) else nodes[0]
    ensures At(WithoutIndex(nodes, k), |nodes| - 2) == if k == |nodes| - 1 then At(nodes, k - 1) else nodes[|nodes| - 1]
  {}

  lemma SingleNode<T>(node: Node<T>)
    requires node.next == null && node.prev == null
    ensures Coupled([node]) && Distinct([node])
  {}

  /** Once nodes have been lost, no nodes at all make up the list that its ends and its count describe. */
  lemma LostListIsNoList<T>(list: LinkedList<T>, nodes: seq<Node<T>>)
    requires list.head != null && list.head == list.tail && list.count > 1
    ensures !(list.count == |nodes| && Distinct(nodes) && list.head == At(nodes, 0)
      && list.tail == At(nodes, |nodes| - 1))
  {}

  lemma NextOf<T>(nodes: seq<Node<T>>, k: nat)
    requires Coupled(nodes) && k < |nodes|
    ensures nodes[k].next == At(nodes, k + 1) && nodes[k].prev == At(nodes, k - 1)
  {}

  lemma CoupledMeans<T>(nodes: seq<Node<T>>)
    requires Coupled(nodes)
    ensures forall i {:trigger nodes[i].next} :: 0 <= i < |nodes| ==> nodes[i].next == At(nodes, i + 1)
    ensures forall i {:trigger nodes[i].prev} :: 0 <= i < |nodes| ==> nodes[i].prev == At(nodes, i - 1)
  {}

  lemma DistinctMeans<T>(nodes: seq<Node<T>>, i: int, j: int)
    requires Distinct(nodes)
    ensures 0 <= i < |nodes| && 0 <= j < |nodes| && i != j ==> nodes[i] != nodes[j]
  {}

  lemma InsertedEnds<A>(s: seq<A>, k: nat, a: A)
    requires k <= |s|
    ensures |Inserted(s, k, a)| == |s| + 1 && Inserted(s, k, a)[k] == a
    ensures Inserted(s, k, a)[0] == if k == 0 then a else s[0]
    ensures Inserted(s, k, a)[|Inserted(s, k, a)| - 1] == if k == |s| then a else s[|s| - 1]
  {}
}
