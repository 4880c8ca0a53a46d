/** `ReduceList`: a pass over a list whose objects may change the list, or pass over it again, while
    they are being visited. */
module Reducer {
  import opened Sequences
  import opened Reduction
  import opened LinkedList

  /** What the objects do when they are visited, one call after another; after the last they do
      nothing. */
  datatype Calls<T> = NoCalls | Call(acts: Acts<T>, result: ReductionResult, rest: Calls<T>)

  /** What one object does to the list it is on. */
  datatype Acts<T> =
    | NoActs
    | Append(value: T, rest: Acts<T>)
    | RemoveAt(index: nat, rest: Acts<T>)
    | Pass(calls: Calls<T>, rest: Acts<T>)

  datatype Item<T> = Item(id: nat, value: T)

  datatype Contents<T> = Contents(items: seq<Item<T>>, nextId: nat)

  // ----- the simple form, without flags: an object is visited no further once it is off the list

  function Appended<T>(c: Contents<T>, value: T): Contents<T> {
    Contents(c.items + [Item(c.nextId, value)], c.nextId + 1)
  }

  function RemovedAt<T>(c: Contents<T>, k: nat): Contents<T> {
    if k < |c.items| then c.(items := WithoutIndex(c.items, k)) else c
  }

  ghost function Acted<T>(c: Contents<T>, acts: Acts<T>): Contents<T>
    decreases acts
  {
    match acts
    case NoActs => c
    case Append(value, rest) => Acted(Appended(c, value), rest)
    case RemoveAt(k, rest) => Acted(RemovedAt(c, k), rest)
    case Pass(calls, rest) => Acted(Passed(c, 0, calls), rest)
  }

  /** The pass from position `at` on. */
  ghost function Passed<T>(c: Contents<T>, at: nat, calls: Calls<T>): Contents<T>
    decreases calls
  {
    if at >= |c.items| then c
    else
      match calls
      case NoCalls => c
      case Call(acts, result, rest) =>
        var d := Acted(c, acts);
        if result == RESULT_BAIL || c.items[at] !in d.items then d
        else
          var k := Index(d.items, c.items[at]);
          if result == RESULT_DELETE then Passed(RemovedAt(d, k), k, rest) else Passed(d, k + 1, rest)
  }

  // ----- the list as contents

  ghost function ItemOf<T>(n: Node<T>): Item<T> {
    Item(n.id, n.value)
  }

  ghost function ItemsOf<T>(nodes: seq<Node<T>>): (r: seq<Item<T>>)
    ensures |r| == |nodes| && forall i :: 0 <= i < |r| ==> r[i] == ItemOf(nodes[i])
  {
    seq(|nodes|, i requires 0 <= i < |nodes| => ItemOf(nodes[i]))
  }

  ghost function ContentsOf<T>(list: LinkedList<T>): Contents<T>
    reads list
  {
    Contents(ItemsOf(list.nodes), list.nextId)
  }

  ghost predicate DistinctIds<T>(nodes: seq<Node<T>>, nextId: nat) {
    && (forall i :: 0 <= i < |nodes| ==> nodes[i].id < nextId)
    && (forall i, j :: 0 <= i < j < |nodes| ==> nodes[i].id != nodes[j].id)
  }

  /** The flags that nodes point to are their own and down. */
  ghost predicate FlagsDown<T>(nodes: seq<Node<T>>)
    reads nodes, set i | 0 <= i < |nodes| :: nodes[i].deleteFlag
  {
    forall i :: 0 <= i < |nodes| && nodes[i].deleteFlag != null ==>
      nodes[i].deleteFlag.watched == nodes[i].id && !nodes[i].deleteFlag.raised
  }

  ghost predicate Ready<T>(list: LinkedList<T>)
    reads list, list.nodes, list.Flags()
  {
    list.Valid() && DistinctIds(list.nodes, list.nextId) && FlagsDown(list.nodes)
  }

  // ----- positions and identities

  lemma ItemsAppended<T>(nodes: seq<Node<T>>, n: Node<T>)
    ensures ItemsOf(nodes + [n]) == ItemsOf(nodes) + [ItemOf(n)]
  {}

  lemma ItemsWithout<T>(nodes: seq<Node<T>>, k: nat)
    requires k < |nodes|
    ensures ItemsOf(WithoutIndex(nodes, k)) == WithoutIndex(ItemsOf(nodes), k)
  {}

  /** A node is on the list exactly when its item is, and at the same place. */
  lemma SamePlace<T>(nodes: seq<Node<T>>, nextId: nat, n: Node<T>)
    requires DistinctIds(nodes, nextId)
    requires forall i :: 0 <= i < |nodes| && nodes[i].id == n.id ==> nodes[i] == n
    ensures n in nodes <==> ItemOf(n) in ItemsOf(nodes)
    ensures n in nodes ==> Index(nodes, n) == Index(ItemsOf(nodes), ItemOf(n))
  {
    var items := ItemsOf(nodes);
    if ItemOf(n) in items {
      var k := Index(items, ItemOf(n));
      assert nodes[k] == n;
    }
    if n in nodes {
      var i, k := Index(nodes, n), Index(items, ItemOf(n));
      assert items[i] == ItemOf(n);
      assert nodes[k].id == n.id;
    }
  }

  lemma IdsWithout<T>(nodes: seq<Node<T>>, nextId: nat, k: nat)
    requires DistinctIds(nodes, nextId) && k < |nodes|
    ensures DistinctIds(WithoutIndex(nodes, k), nextId)
  {}

  /** No other node points to this one's flag. */
  lemma OtherFlags<T>(nodes: seq<Node<T>>, nextId: nat, k: nat)
    requires DistinctIds(nodes, nextId) && FlagsDown(nodes) && k < |nodes|
    ensures forall i :: 0 <= i < |nodes| && i != k && nodes[i].deleteFlag != null ==>
      nodes[i].deleteFlag != nodes[k].deleteFlag
  {}

  /** A node made since the list's counter stood at `nextId`. */
  ghost predicate IsNew<T>(n: Node<T>, nextId: nat)
    reads n
  {
    n.id >= nextId && n.deleteFlag == null
  }

  /** A node that was on the list is told from all others by its id. */
  lemma KnownById<T>(were: seq<Node<T>>, nextId: nat, node: Node<T>, nodes: seq<Node<T>>)
    requires DistinctIds(were, nextId) && node in were
    requires forall i :: 0 <= i < |nodes| ==> nodes[i] in were || nodes[i].id >= nextId
    ensures forall i :: 0 <= i < |nodes| && nodes[i].id == node.id ==> nodes[i] == node
    ensures node.id < nextId
  {
    forall i | 0 <= i < |nodes| && nodes[i].id == node.id
      ensures nodes[i] == node
    {
      if nodes[i] in were {
        var j, k := Index(were, nodes[i]), Index(were, node);
      }
    }
  }

  // ----- the pass itself

  // In each of these methods: nodes that stay keep their flags, nodes that go have theirs raised, and
  // nodes that come have none.

  ghost function CallsSize<T>(calls: Calls<T>): nat {
    match calls
    case NoCalls => 1
    case Call(acts, _, rest) => 1 + ActsSize(acts) + CallsSize(rest)
  }

  ghost function ActsSize<T>(acts: Acts<T>): nat {
    match acts
    case NoActs => 0
    case Append(_, rest) => 1 + ActsSize(rest)
    case RemoveAt(_, rest) => 1 + ActsSize(rest)
    case Pass(calls, rest) => 1 + CallsSize(calls) + ActsSize(rest)
  }

  method AppendTo<T>(list: LinkedList<T>, value: T)
    requires Ready(list)
    modifies list, list.nodes, list.Flags()
    ensures Ready(list) && old(list.nextId) <= list.nextId
    ensures ContentsOf(list) == Appended(old(ContentsOf(list)), value)
    ensures forall i :: 0 <= i < |list.nodes| ==>
      list.nodes[i] in old(list.nodes) || (fresh(list.nodes[i]) && IsNew(list.nodes[i], old(list.nextId)))
    ensures forall i :: 0 <= i < |old(list.nodes)| && old(list.nodes)[i] in list.nodes ==>
      old(list.nodes)[i].deleteFlag == old(list.nodes[i].deleteFlag)
    ensures forall i :: 0 <= i < |old(list.nodes)| && old(list.nodes)[i] !in list.nodes ==>
      old(list.nodes[i].deleteFlag) == null || old(list.nodes[i].deleteFlag).raised
  {
    ghost var were := list.nodes;
    list.AddTail(value);
    ItemsAppended(were, list.nodes[|were|]);
  }

  method RemoveFrom<T>(list: LinkedList<T>, node: Node<T>)
    requires Ready(list) && node in list.nodes
    modifies list, list.nodes, node.deleteFlag
    ensures Ready(list) && old(list.nextId) <= list.nextId
    ensures ContentsOf(list) == RemovedAt(old(ContentsOf(list)), Index(old(list.nodes), node))
    ensures list.nodes == WithoutIndex(old(list.nodes), Index(old(list.nodes), node))
    ensures forall i :: 0 <= i < |list.nodes| ==>
      list.nodes[i] in old(list.nodes) || (fresh(list.nodes[i]) && IsNew(list.nodes[i], old(list.nextId)))
    ensures forall i :: 0 <= i < |old(list.nodes)| && old(list.nodes)[i] in list.nodes ==>
      old(list.nodes)[i].deleteFlag == old(list.nodes[i].deleteFlag)
    ensures forall i :: 0 <= i < |old(list.nodes)| && old(list.nodes)[i] !in list.nodes ==>
      old(list.nodes[i].deleteFlag) == null || old(list.nodes[i].deleteFlag).raised
  {
    hide WithoutIndex, Index, Coupled, DistinctIds, ItemsOf, LinkedList.Valid;
    ghost var were, k := list.nodes, Index(list.nodes, node);
    OtherFlags(were, list.nextId, k);
    list.Remove(node);
    ItemsWithout(were, k);
    IdsWithout(were, list.nextId, k);
    WithoutHas(were, k);
  }

  /** The node at position `k`. */
  method NodeAt<T>(list: LinkedList<T>, k: nat) returns (node: Node?<T>)
    requires list.Valid()
    ensures node == At(list.nodes, k)
  {
    hide Coupled, Distinct;
    node := list.head;
    var i := 0;
    while i < k && node != null
      invariant 0 <= i <= k && if node == null then k >= |list.nodes| else i < |list.nodes| && node == list.nodes[i]
    {
      NextOf(list.nodes, i);
      node := node.next;
      i := i + 1;
    }
  }

  method RemoveFromAt<T>(list: LinkedList<T>, k: nat)
    requires Ready(list)
    modifies list, list.nodes, list.Flags()
    ensures Ready(list) && old(list.nextId) <= list.nextId
    ensures ContentsOf(list) == RemovedAt(old(ContentsOf(list)), k)
    ensures forall i :: 0 <= i < |list.nodes| ==>
      list.nodes[i] in old(list.nodes) || (fresh(list.nodes[i]) && IsNew(list.nodes[i], old(list.nextId)))
    ensures forall i :: 0 <= i < |old(list.nodes)| && old(list.nodes)[i] in list.nodes ==>
      old(list.nodes)[i].deleteFlag == old(list.nodes[i].deleteFlag)
    ensures forall i :: 0 <= i < |old(list.nodes)| && old(list.nodes)[i] !in list.nodes ==>
      old(list.nodes[i].deleteFlag) == null || old(list.nodes[i].deleteFlag).raised
  {
    hide Coupled, FlagsDown, DistinctIds, ItemsOf, WithoutIndex, Index, Distinct;
    var node := NodeAt(list, k);
    if node != null {
      IndexIs(list.nodes, k);
      RemoveFrom(list, node);
    }
  }

  /** What an object does while it is visited. */
  method Act<T>(list: LinkedList<T>, acts: Acts<T>)
    requires Ready(list)
    modifies list, list.nodes, list.Flags()
    ensures Ready(list) && old(list.nextId) <= list.nextId
    ensures ContentsOf(list) == Acted(old(ContentsOf(list)), acts)
    ensures forall i :: 0 <= i < |list.nodes| ==>
      list.nodes[i] in old(list.nodes) || (fresh(list.nodes[i]) && IsNew(list.nodes[i], old(list.nextId)))
    ensures forall i :: 0 <= i < |old(list.nodes)| && old(list.nodes)[i] in list.nodes ==>
      old(list.nodes)[i].deleteFlag == old(list.nodes[i].deleteFlag)
    ensures forall i :: 0 <= i < |old(list.nodes)| && old(list.nodes)[i] !in list.nodes ==>
      old(list.nodes[i].deleteFlag) == null || old(list.nodes[i].deleteFlag).raised
    decreases ActsSize(acts), 0
  {
    hide LinkedList.Valid, ItemsOf;
    match acts
    case NoActs =>
    case Append(value, rest) =>
      AppendTo(list, value);
      Act(list, rest);
    case RemoveAt(k, rest) =>
      RemoveFromAt(list, k);
      Act(list, rest);
    case Pass(calls, rest) =>
      ReduceList(list, calls);
      Act(list, rest);
  }

  lemma ReadyMeans<T>(list: LinkedList<T>)
    requires Ready(list)
    ensures list.Valid() && DistinctIds(list.nodes, list.nextId) && FlagsDown(list.nodes)
    ensures forall i :: 0 <= i < |list.nodes| && list.nodes[i].deleteFlag != null ==>
      list.nodes[i].deleteFlag.watched == list.nodes[i].id
  {}

  /** Makes a node on the list point to a flag of its own. */
  method PointTo<T>(list: LinkedList<T>, node: Node<T>, flag: Flag)
    requires Ready(list) && node in list.nodes && flag.watched == node.id && !flag.raised
    modifies node`deleteFlag
    ensures Ready(list) && node.deleteFlag == flag
  {
    node.deleteFlag := flag;
  }

  /** Ends a visit: the node points to the outer flag again, which learns what the inner one knows. */
  method Restore<T>(list: LinkedList<T>, node: Node<T>, deleteFlag: Flag, otherDeleteFlag: Flag?)
    requires Ready(list) && (node in list.nodes ==> node.deleteFlag == deleteFlag)
    requires node !in list.nodes ==> deleteFlag.raised
    requires deleteFlag != otherDeleteFlag && (otherDeleteFlag != null ==> otherDeleteFlag.watched == node.id)
    requires forall i :: 0 <= i < |list.nodes| && list.nodes[i].id == node.id ==> list.nodes[i] == node
    modifies node`deleteFlag, otherDeleteFlag
    ensures Ready(list) && node.deleteFlag == otherDeleteFlag
    ensures deleteFlag.raised <==> node !in list.nodes
    ensures otherDeleteFlag != null ==> otherDeleteFlag.raised == deleteFlag.raised
  {
    hide LinkedList.Valid, DistinctIds;
    Repoint(list, node, otherDeleteFlag);
    if otherDeleteFlag != null {
      otherDeleteFlag.raised := deleteFlag.raised;
    }
  }

  method Repoint<T>(list: LinkedList<T>, node: Node<T>, flag: Flag?)
    requires list.Valid()
    modifies node`deleteFlag
    ensures list.Valid() && node.deleteFlag == flag
  {
    node.deleteFlag := flag;
  }

  /** Visits one node. The pass's own flag, which the node points to meanwhile, is raised exactly when
      the node has gone; then it is passed on to the flag the node pointed to before. */
  method Visit<T>(list: LinkedList<T>, node: Node<T>, acts: Acts<T>) returns (gone: bool)
    requires Ready(list) && node in list.nodes
    modifies list, list.nodes, list.Flags()
    ensures Ready(list) && old(list.nextId) <= list.nextId
    ensures ContentsOf(list) == Acted(old(ContentsOf(list)), acts)
    ensures gone <==> node !in list.nodes
    ensures forall i :: 0 <= i < |list.nodes| ==>
      list.nodes[i] in old(list.nodes) || (fresh(list.nodes[i]) && IsNew(list.nodes[i], old(list.nextId)))
    ensures forall i :: 0 <= i < |old(list.nodes)| && old(list.nodes)[i] in list.nodes ==>
      old(list.nodes)[i].deleteFlag == old(list.nodes[i].deleteFlag)
    ensures forall i :: 0 <= i < |old(list.nodes)| && old(list.nodes)[i] !in list.nodes ==>
      old(list.nodes[i].deleteFlag) == null || old(list.nodes[i].deleteFlag).raised
    decreases ActsSize(acts), 1
  {
    hide ItemsOf, Acted, Ready, DistinctIds, FlagsDown, Coupled, Distinct, LinkedList.Valid, Index;
    ghost var were, nextId := list.nodes, list.nextId;
    ReadyMeans(list);
    OtherFlags(were, nextId, Index(were, node));
    var deleteFlag := new Flag(node.id);
    var otherDeleteFlag := node.deleteFlag;
    PointTo(list, node, deleteFlag);
    Act(list, acts);
    KnownById(were, nextId, node, list.nodes);
    Restore(list, node, deleteFlag, otherDeleteFlag);
    gone := deleteFlag.raised;
  }

  /** One turn of the pass: the visit, and the removal it may ask for. `at` is where the pass goes on. */
  method Turn<T>(list: LinkedList<T>, node: Node<T>, acts: Acts<T>, result: ReductionResult)
      returns (stop: bool, next: Node?<T>, ghost at: nat)
    requires Ready(list) && node in list.nodes
    modifies list, list.nodes, list.Flags()
    ensures Ready(list) && old(list.nextId) <= list.nextId
    ensures var d := Acted(old(ContentsOf(list)), acts);
      if result == RESULT_BAIL || ItemOf(node) !in d.items then stop && ContentsOf(list) == d
      else
        var k := Index(d.items, ItemOf(node));
        && !stop && next == At(list.nodes, at)
        && (if result == RESULT_DELETE then at == k && ContentsOf(list) == RemovedAt(d, k)
            else at == k + 1 && ContentsOf(list) == d)
    ensures forall i :: 0 <= i < |list.nodes| ==>
      list.nodes[i] in old(list.nodes) || (fresh(list.nodes[i]) && IsNew(list.nodes[i], old(list.nextId)))
    ensures forall i :: 0 <= i < |old(list.nodes)| && old(list.nodes)[i] in list.nodes ==>
      old(list.nodes)[i].deleteFlag == old(list.nodes[i].deleteFlag)
    ensures forall i :: 0 <= i < |old(list.nodes)| && old(list.nodes)[i] !in list.nodes ==>
      old(list.nodes[i].deleteFlag) == null || old(list.nodes[i].deleteFlag).raised
    decreases ActsSize(acts), 2
  {
    hide ItemsOf, Acted, FlagsDown, DistinctIds, Ready, LinkedList.Valid, Coupled, Distinct, WithoutIndex, Index,
         RemovedAt;
    ghost var were, nextId := list.nodes, list.nextId;
    ReadyMeans(list);
    OtherFlags(were, nextId, Index(were, node));
    next, at := null, 0;
    var gone := Visit(list, node, acts);
    ReadyMeans(list);
    KnownById(were, nextId, node, list.nodes);
    SamePlace(list.nodes, list.nextId, node);
    if result == RESULT_BAIL || gone {
      return true, null, 0;
    }
    ghost var k := Index(list.nodes, node);
    NextOf(list.nodes, k);
    next, at := node.next, k + 1;
    if result == RESULT_DELETE {
      NextAfterRemoval(list.nodes, k);
      at := k;
      RemoveFrom(list, node);
    }
    return false, next, at;
  }

  lemma NextAfterRemoval<T>(nodes: seq<Node<T>>, k: nat)
    requires k < |nodes|
    ensures At(WithoutIndex(nodes, k), k) == At(nodes, k + 1)
  {}

  /** One turn in the simple form; after the last call objects do nothing. */
  lemma PassedTurn<T>(nodes: seq<Node<T>>, nextId: nat, at: nat, left: Calls<T>, acts: Acts<T>,
                      result: ReductionResult, rest: Calls<T>)
    requires DistinctIds(nodes, nextId) && at < |nodes|
    requires match left
             case NoCalls => acts == NoActs && result == RESULT_NONE && rest == NoCalls
             case Call(a, r, l) => acts == a && result == r && rest == l
    ensures var c := Contents(ItemsOf(nodes), nextId); var d := Acted(c, acts);
      Passed(c, at, left) ==
      if result == RESULT_BAIL || ItemOf(nodes[at]) !in d.items then d
      else
        var k := Index(d.items, ItemOf(nodes[at]));
        if result == RESULT_DELETE then Passed(RemovedAt(d, k), k, rest) else Passed(d, k + 1, rest)
    ensures left.NoCalls? ==>
      && Index(ItemsOf(nodes), ItemOf(nodes[at])) == at
      && Acted(Contents(ItemsOf(nodes), nextId), acts) == Contents(ItemsOf(nodes), nextId)
  {
    var items := ItemsOf(nodes);
    assert items[at] == ItemOf(nodes[at]);
    var k := Index(items, ItemOf(nodes[at]));
    assert nodes[k].id == nodes[at].id;
  }

  /** One turn, against the simple form. */
  method Step<T>(list: LinkedList<T>, node: Node<T>, left: Calls<T>, ghost at: nat)
      returns (stop: bool, next: Node?<T>, rest: Calls<T>, ghost on: nat)
    requires Ready(list) && at < |list.nodes| && node == list.nodes[at]
    modifies list, list.nodes, list.Flags()
    ensures Ready(list) && old(list.nextId) <= list.nextId
    ensures stop ==> ContentsOf(list) == Passed(old(ContentsOf(list)), at, left)
    ensures !stop ==>
      next == At(list.nodes, on) && Passed(ContentsOf(list), on, rest) == Passed(old(ContentsOf(list)), at, left)
    ensures CallsSize(rest) < CallsSize(left)
      || (rest == left && !stop && on == at + 1 && |list.nodes| == |old(list.nodes)|)
    ensures forall i :: 0 <= i < |list.nodes| ==>
      list.nodes[i] in old(list.nodes) || (fresh(list.nodes[i]) && IsNew(list.nodes[i], old(list.nextId)))
    ensures forall i :: 0 <= i < |old(list.nodes)| && old(list.nodes)[i] in list.nodes ==>
      old(list.nodes)[i].deleteFlag == old(list.nodes[i].deleteFlag)
    ensures forall i :: 0 <= i < |old(list.nodes)| && old(list.nodes)[i] !in list.nodes ==>
      old(list.nodes[i].deleteFlag) == null || old(list.nodes[i].deleteFlag).raised
    decreases CallsSize(left), 0
  {
    hide ItemsOf, Acted, FlagsDown, DistinctIds, Coupled, Distinct, WithoutIndex, Index, RemovedAt, Passed;
    var acts, result := NoActs, RESULT_NONE;
    rest := NoCalls;
    if left.Call? {
      acts, result, rest := left.acts, left.result, left.rest;
    }
    ReadyMeans(list);
    PassedTurn(list.nodes, list.nextId, at, left, acts, result, rest);
    stop, next, on := Turn(list, node, acts, result);
  }

  method ReduceList<T>(list: LinkedList<T>, calls: Calls<T>)
    requires Ready(list)
    modifies list, list.nodes, list.Flags()
    ensures Ready(list) && old(list.nextId) <= list.nextId
    ensures ContentsOf(list) == Passed(old(ContentsOf(list)), 0, calls)
    ensures forall i :: 0 <= i < |list.nodes| ==>
      list.nodes[i] in old(list.nodes) || (fresh(list.nodes[i]) && IsNew(list.nodes[i], old(list.nextId)))
    ensures forall i :: 0 <= i < |old(list.nodes)| && old(list.nodes)[i] in list.nodes ==>
      old(list.nodes)[i].deleteFlag == old(list.nodes[i].deleteFlag)
    ensures forall i :: 0 <= i < |old(list.nodes)| && old(list.nodes)[i] !in list.nodes ==>
      old(list.nodes[i].deleteFlag) == null || old(list.nodes[i].deleteFlag).raised
    decreases CallsSize(calls), 1
  {
    hide ItemsOf, Acted, Coupled, Distinct, WithoutIndex, Index, RemovedAt, Passed, CallsSize;
    ghost var whole := Passed(ContentsOf(list), 0, calls);
    var node := list.head;
    var left := calls;
    ghost var at := 0;
    var done := false;
    while node != null && !done
      invariant Ready(list) && old(list.nextId) <= list.nextId
      invariant !done ==> node == At(list.nodes, at) && Passed(ContentsOf(list), at, left) == whole
      invariant done ==> ContentsOf(list) == whole
      invariant forall i :: 0 <= i < |list.nodes| ==>
        list.nodes[i] in old(list.nodes) || (fresh(list.nodes[i]) && IsNew(list.nodes[i], old(list.nextId)))
      invariant forall i :: 0 <= i < |old(list.nodes)| && old(list.nodes)[i] in list.nodes ==>
        old(list.nodes)[i].deleteFlag == old(list.nodes[i].deleteFlag)
      invariant forall i :: 0 <= i < |old(list.nodes)| && old(list.nodes)[i] !in list.nodes ==>
        old(list.nodes[i].deleteFlag) == null || old(list.nodes[i].deleteFlag).raised
      invariant CallsSize(left) <= CallsSize(calls)
      decreases !done, CallsSize(left), |list.nodes| - at
    {
      done, node, left, at := Step(list, node, left, at);
    }
    if !done {
      PassedEnd(ContentsOf(list), at, left);
    }
  }

  lemma PassedEnd<T>(c: Contents<T>, at: nat, left: Calls<T>)
    ensures at >= |c.items| || left.NoCalls? ==> Passed(c, at, left) == c
  {}

  // ----- what a pass does

  ghost predicate WellFormed<T>(c: Contents<T>) {
    && (forall i :: 0 <= i < |c.items| ==> c.items[i].id < c.nextId)
    && (forall i, j :: 0 <= i < j < |c.items| ==> c.items[i].id != c.items[j].id)
  }

  ghost predicate Quiet<T>(calls: Calls<T>) {
    match calls
    case NoCalls => true
    case Call(acts, _, rest) => acts.NoActs? && Quiet(rest)
  }

  /** The items without those that return DELETE before the first BAIL. */
  ghost function Kept<T>(items: seq<Item<T>>, calls: Calls<T>): seq<Item<T>> {
    if items == [] then []
    else
      match calls
      case NoCalls => items
      case Call(_, RESULT_BAIL, _) => items
      case Call(_, RESULT_DELETE, rest) => Kept(items[1..], rest)
      case Call(_, RESULT_NONE, rest) => [items[0]] + Kept(items[1..], rest)
  }

  lemma ItemPlace<T>(c: Contents<T>, at: nat)
    requires WellFormed(c) && at < |c.items|
    ensures Index(c.items, c.items[at]) == at
  {}

  ghost predicate OnlyAppends<T>(acts: Acts<T>) {
    match acts
    case NoActs => true
    case Append(_, rest) => OnlyAppends(rest)
    case _ => false
  }

  lemma {:induction false} AppendsStayBehind<T>(c: Contents<T>, acts: Acts<T>)
    requires OnlyAppends(acts)
    ensures c.items <= Acted(c, acts).items
    decreases acts
  {
    if acts.Append? {
      AppendsStayBehind(Appended(c, acts.value), acts.rest);
    }
  }

  /** A turn whose object at most appends: the pass goes on by position, as the cluster client's does. */
  lemma AppendingTurn<T>(c: Contents<T>, at: nat, acts: Acts<T>, result: ReductionResult, rest: Calls<T>)
    requires WellFormed(c) && at < |c.items| && OnlyAppends(acts)
    ensures var d := Acted(c, acts);
      && c.items <= d.items
      && Passed(c, at, Call(acts, result, rest)) ==
         (match result
          case RESULT_BAIL => d
          case RESULT_DELETE => Passed(RemovedAt(d, at), at, rest)
          case RESULT_NONE => Passed(d, at + 1, rest))
  {
    hide WellFormed, Acted, RemovedAt, Index;
    var d := Acted(c, acts);
    AppendsStayBehind(c, acts);
    ActedDerives(c, acts);
    ItemPlace(d, at);
    assert d.items[at] == c.items[at];
  }

  lemma KeptOn<T>(items: seq<Item<T>>, at: nat, result: ReductionResult, rest: Calls<T>)
    requires at < |items|
    ensures var kept := items[..at] + Kept(items[at..], Call(NoActs, result, rest));
      match result
      case RESULT_BAIL => kept == items
      case RESULT_DELETE => kept == items[..at] + Kept(items[at + 1..], rest)
      case RESULT_NONE => kept == items[..at + 1] + Kept(items[at + 1..], rest)
  {
    assert items[at..][1..] == items[at + 1..] && items[at..][0] == items[at];
    match result
    case RESULT_BAIL => assert items[..at] + items[at..] == items;
    case RESULT_DELETE =>
    case RESULT_NONE => assert items[..at + 1] == items[..at] + [items[at]];
  }

  lemma KeptEnds<T>(items: seq<Item<T>>, at: nat, calls: Calls<T>)
    requires at <= |items| && (at == |items| || calls.NoCalls?)
    ensures items[..at] + Kept(items[at..], calls) == items
  {
    assert items[..at] + items[at..] == items;
  }

  /** When the objects leave the list alone, a pass keeps its order and removes exactly the objects that
      return DELETE before the first BAIL. */
  lemma {:induction false} QuietPass<T>(c: Contents<T>, at: nat, calls: Calls<T>)
    requires WellFormed(c) && Quiet(calls) && at <= |c.items|
    ensures Passed(c, at, calls) == c.(items := c.items[..at] + Kept(c.items[at..], calls))
    decreases calls
  {
    hide Passed, Kept, WellFormed;
    if at == |c.items| || calls.NoCalls? {
      KeptEnds(c.items, at, calls);
      PassedEnd(c, at, calls);
    } else {
      AppendingTurn(c, at, NoActs, calls.result, calls.rest);
      assert Acted(c, NoActs) == c;
      KeptOn(c.items, at, calls.result, calls.rest);
      match calls.result
      case RESULT_BAIL =>
      case RESULT_DELETE =>
        var d := RemovedAt(c, at);
        assert d.items[..at] == c.items[..at] && d.items[at..] == c.items[at + 1..];
        WellFormedRemoval(c, at);
        QuietPass(d, at, calls.rest);
      case RESULT_NONE =>
        QuietPass(c, at + 1, calls.rest);
    }
  }

  lemma WellFormedRemoval<T>(c: Contents<T>, k: nat)
    requires WellFormed(c)
    ensures WellFormed(RemovedAt(c, k))
  {
    if k < |c.items| {
      WithoutHas(c.items, k);
    }
  }

  /** What came from `c` stands before what is new, in its old order. */
  ghost predicate Derived<T>(c: Contents<T>, d: Contents<T>) {
    && c.nextId <= d.nextId
    && (forall i :: 0 <= i < |d.items| && d.items[i].id < c.nextId ==> d.items[i] in c.items)
    && (forall i, j :: 0 <= i < j < |d.items| && d.items[j].id < c.nextId ==>
          d.items[i].id < c.nextId && Index(c.items, d.items[i]) < Index(c.items, d.items[j]))
  }

  lemma DerivedTwice<T>(c: Contents<T>, d: Contents<T>, e: Contents<T>)
    requires Derived(c, d) && Derived(d, e)
    ensures Derived(c, e)
  {
    forall i | 0 <= i < |e.items| && e.items[i].id < c.nextId
      ensures e.items[i] in c.items
    {
      var m := Index(d.items, e.items[i]);
    }
    forall i, j | 0 <= i < j < |e.items| && e.items[j].id < c.nextId
      ensures e.items[i].id < c.nextId && Index(c.items, e.items[i]) < Index(c.items, e.items[j])
    {
      var m, n := Index(d.items, e.items[i]), Index(d.items, e.items[j]);
      assert m < n;
    }
  }

  lemma DerivedFromSelf<T>(c: Contents<T>)
    requires WellFormed(c)
    ensures Derived(c, c)
  {
    forall i | 0 <= i < |c.items|
      ensures Index(c.items, c.items[i]) == i
    {
      ItemPlace(c, i);
    }
  }

  lemma WellFormedAppend<T>(c: Contents<T>, value: T)
    requires WellFormed(c)
    ensures WellFormed(Appended(c, value))
  {}

  lemma DerivedAppend<T>(c: Contents<T>, value: T)
    requires WellFormed(c)
    ensures Derived(c, Appended(c, value)) && WellFormed(Appended(c, value))
  {
    hide Index, WellFormed;
    WellFormedAppend(c, value);
    var d := Appended(c, value);
    forall i | 0 <= i < |c.items|
      ensures d.items[i] == c.items[i] && Index(c.items, d.items[i]) == i && d.items[i].id < c.nextId
    {
      ItemPlace(c, i);
      IdBelow(c, i);
    }
    assert d.items[|c.items|].id == c.nextId;
  }

  /** Items picked from `c` at increasing places. */
  lemma DerivedBySelection<T>(c: Contents<T>, d: Contents<T>, places: seq<nat>)
    requires WellFormed(c) && c.nextId == d.nextId && |places| == |d.items|
    requires forall i, j :: 0 <= i < j < |places| ==> places[i] < places[j]
    requires forall i :: 0 <= i < |places| ==> places[i] < |c.items| && d.items[i] == c.items[places[i]]
    ensures Derived(c, d)
  {
    hide Index, WellFormed;
    forall i | 0 <= i < |d.items|
      ensures Index(c.items, d.items[i]) == places[i] && d.items[i].id < c.nextId
    {
      ItemPlace(c, places[i]);
      IdBelow(c, places[i]);
    }
  }

  lemma DerivedRemoval<T>(c: Contents<T>, k: nat)
    requires WellFormed(c)
    ensures Derived(c, RemovedAt(c, k)) && WellFormed(RemovedAt(c, k))
  {
    hide WellFormed, Derived, WithoutIndex;
    WellFormedRemoval(c, k);
    DerivedFromSelf(c);
    if k < |c.items| {
      WithoutHas(c.items, k);
      DerivedBySelection(c, RemovedAt(c, k),
        seq(|c.items| - 1, i requires 0 <= i < |c.items| - 1 => if i < k then i else i + 1));
    }
  }

  lemma IdBelow<T>(c: Contents<T>, i: nat)
    requires WellFormed(c) && i < |c.items|
    ensures c.items[i].id < c.nextId
  {}

  lemma {:induction false} ActedDerives<T>(c: Contents<T>, acts: Acts<T>)
    requires WellFormed(c)
    ensures Derived(c, Acted(c, acts)) && WellFormed(Acted(c, acts))
    decreases acts
  {
    hide Derived, WellFormed, Appended, RemovedAt;
    match acts
    case NoActs => DerivedFromSelf(c);
    case Append(value, rest) =>
      DerivedAppend(c, value);
      ActedDerives(Appended(c, value), rest);
      DerivedTwice(c, Appended(c, value), Acted(c, acts));
    case RemoveAt(k, rest) =>
      DerivedRemoval(c, k);
      ActedDerives(RemovedAt(c, k), rest);
      DerivedTwice(c, RemovedAt(c, k), Acted(c, acts));
    case Pass(calls, rest) =>
      PassedDerives(c, 0, calls);
      ActedDerives(Passed(c, 0, calls), rest);
      DerivedTwice(c, Passed(c, 0, calls), Acted(c, acts));
  }

  lemma {:induction false} PassedDerives<T>(c: Contents<T>, at: nat, calls: Calls<T>)
    requires WellFormed(c)
    ensures Derived(c, Passed(c, at, calls)) && WellFormed(Passed(c, at, calls))
    decreases calls
  {
    hide Derived, WellFormed, RemovedAt;
    DerivedFromSelf(c);
    if at < |c.items| && calls.Call? {
      var d := Acted(c, calls.acts);
      ActedDerives(c, calls.acts);
      if calls.result != RESULT_BAIL && c.items[at] in d.items {
        var k := Index(d.items, c.items[at]);
        var e := if calls.result == RESULT_DELETE then RemovedAt(d, k) else d;
        DerivedRemoval(d, k);
        DerivedFromSelf(d);
        DerivedTwice(c, d, e);
        PassedDerives(e, if calls.result == RESULT_DELETE then k else k + 1, calls.rest);
        DerivedTwice(c, e, Passed(c, at, calls));
      }
    }
  }

  /** The items the pass visits, in order. */
  ghost function Visited<T>(c: Contents<T>, at: nat, calls: Calls<T>): seq<Item<T>>
    decreases calls
  {
    if at >= |c.items| then []
    else
      match calls
      case NoCalls => c.items[at..]
      case Call(acts, result, rest) =>
        var d := Acted(c, acts);
        [c.items[at]] +
        (if result == RESULT_BAIL || c.items[at] !in d.items then []
         else
           var k := Index(d.items, c.items[at]);
           if result == RESULT_DELETE then Visited(RemovedAt(d, k), k, rest) else Visited(d, k + 1, rest))
  }

  /** The pass bails out, or loses the node it is at. */
  ghost predicate Stops<T>(c: Contents<T>, at: nat, calls: Calls<T>)
    decreases calls
  {
    at < |c.items| && calls.Call? &&
    var d := Acted(c, calls.acts);
    (calls.result == RESULT_BAIL || c.items[at] !in d.items ||
     var k := Index(d.items, c.items[at]);
     if calls.result == RESULT_DELETE then Stops(RemovedAt(d, k), k, calls.rest) else Stops(d, k + 1, calls.rest))
  }

  /** What stands before the visited node afterwards stood before it when the visit began. */
  lemma BeforeStaysBefore<T>(c: Contents<T>, d: Contents<T>, at: nat, y: Item<T>)
    requires WellFormed(c) && Derived(c, d) && at < |c.items| && c.items[at] in d.items
    requires y in d.items[..Index(d.items, c.items[at])]
    ensures y in c.items[..at]
  {
    var k := Index(d.items, c.items[at]);
    var i :| 0 <= i < k && d.items[i] == y;
    ItemPlace(c, at);
    assert c.items[Index(c.items, y)] == y;
  }

  /** A pass that is not stopped misses nothing: whatever is on the list in the end, old or appended
      meanwhile, has been visited. */
  lemma {:induction false} PassReachesAll<T>(c: Contents<T>, at: nat, calls: Calls<T>, y: Item<T>)
    requires WellFormed(c) && at <= |c.items| && !Stops(c, at, calls) && y in Passed(c, at, calls).items
    ensures y in c.items[..at] || y in Visited(c, at, calls)
    decreases calls
  {
    hide Derived, WellFormed, Acted;
    if at < |c.items| {
      assert c.items == c.items[..at] + c.items[at..];
      match calls
      case NoCalls =>
      case Call(acts, result, rest) =>
        var d := Acted(c, acts);
        var k := Index(d.items, c.items[at]);
        ActedDerives(c, acts);
        DerivedRemoval(d, k);
        if result == RESULT_DELETE {
          PassReachesAll(RemovedAt(d, k), k, rest, y);
          assert RemovedAt(d, k).items[..k] == d.items[..k];
        } else {
          PassReachesAll(d, k + 1, rest, y);
          assert d.items[..k + 1] == d.items[..k] + [c.items[at]];
        }
        if y in d.items[..k] {
          BeforeStaysBefore(c, d, at, y);
        }
    } else {
      assert c.items[..at] == c.items;
    }
  }
}
