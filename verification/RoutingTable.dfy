/** The cluster client's table of nodes: how a CLUSTER SLOTS reply rebuilds it, and finding the node
    for a slot or an address. */
module RoutingTable {
  import opened Bytes
  import opened Protocol
  import opened HashSlot
  import opened Coverage

  /** An address with its host name already resolved. */
  datatype Address = Address(ip: seq<byte>, port: uint16)

  /** "127.0.0.1" and 6379 */
  const DEFAULT_ADDRESS := Address([49, 50, 55, 46, 48, 46, 48, 46, 49], 6379)

  datatype ClusterNode = ClusterNode(address: Address, slotRanges: seq<SlotRange>)

  // ----- reading a reply

  /** The cast from `int64_t`. */
  function ToUint16(n: int): uint16 {
    n % 0x10000
  }

  /** A number element as a 16-bit value; zero if it is something else. */
  function NumberOrZero(node: Node): uint16 {
    match node.data case Number(n) => ToUint16(n) case _ => 0
  }

  /** An element of the reply that names a slot range and the address of its master. */
  datatype Assignment = Assignment(address: Address, range: SlotRange)

  function AddressOf(ip: Node, port: Node): Address {
    Address(match ip.data
            case Blob(BlobString, bytes) => CString(bytes)
            case NullBlob(BlobString) => []
            case _ => DEFAULT_ADDRESS.ip,
            NumberOrZero(port))
  }

  function ReadAssignment(info: Node): Option<Assignment> {
    match info.data
    case Aggregate(Array, fields) =>
      if |fields| < 3 then None
      else (match fields[2].data
            case Aggregate(Array, ipPort) =>
              if |ipPort| < 2 then None
              else Some(Assignment(AddressOf(ipPort[0], ipPort[1]),
                                   SlotRange(NumberOrZero(fields[0]), NumberOrZero(fields[1]))))
            case _ => None)
    case _ => None
  }

  // ----- rebuilding the table

  function ClearRanges(table: seq<ClusterNode>): (r: seq<ClusterNode>)
    ensures |r| == |table|
  {
    seq(|table|, i requires 0 <= i < |table| => ClusterNode(table[i].address, []))
  }

  /** The position of the first node with this address, from `i` on; the length if there is none. */
  function IndexOfAddress(table: seq<ClusterNode>, address: Address, i: nat): (k: nat)
    requires i <= |table|
    ensures i <= k <= |table| && (k < |table| ==> table[k].address == address)
    ensures forall j :: i <= j < k ==> table[j].address != address
    decreases |table| - i
  {
    if i == |table| || table[i].address == address then i else IndexOfAddress(table, address, i + 1)
  }

  function AddAssignment(table: seq<ClusterNode>, a: Assignment): seq<ClusterNode> {
    var k := IndexOfAddress(table, a.address, 0);
    if k == |table| then table + [ClusterNode(a.address, [a.range])]
    else table[k := ClusterNode(a.address, table[k].slotRanges + [a.range])]
  }

  function AddAssignments(table: seq<ClusterNode>, infos: seq<Node>): seq<ClusterNode>
    decreases |infos|
  {
    if infos == [] then table
    else
      var next := match ReadAssignment(infos[0]) case Some(a) => AddAssignment(table, a) case None => table;
      AddAssignments(next, infos[1..])
  }

  function WithoutStale(table: seq<ClusterNode>): seq<ClusterNode> {
    if table == [] then []
    else (if table[0].slotRanges == [] then [] else [table[0]]) + WithoutStale(table[1..])
  }

  /** The table after a reply; anything but an array leaves it alone. */
  function ProcessReply(table: seq<ClusterNode>, reply: Node): seq<ClusterNode> {
    match reply.data
    case Aggregate(Array, infos) => WithoutStale(AddAssignments(ClearRanges(table), infos))
    case NullAggregate(Array) => []
    case _ => table
  }

  // ----- looking up

  predicate HandlesSlot(node: ClusterNode, slot: int) {
    Covered(node.slotRanges, slot)
  }

  /** The position of the first node that handles the slot, from `i` on; the length if there is none. */
  function IndexOfSlot(table: seq<ClusterNode>, slot: int, i: nat): (k: nat)
    requires i <= |table|
    ensures i <= k <= |table| && (k < |table| ==> HandlesSlot(table[k], slot))
    ensures forall j :: i <= j < k ==> !HandlesSlot(table[j], slot)
    decreases |table| - i
  {
    if i == |table| || HandlesSlot(table[i], slot) then i else IndexOfSlot(table, slot, i + 1)
  }

  predicate Routable(table: seq<ClusterNode>, slot: int) {
    IndexOfSlot(table, slot, 0) < |table|
  }

  predicate KnowsAddress(table: seq<ClusterNode>, address: Address) {
    IndexOfAddress(table, address, 0) < |table|
  }

  /** Every range in the table, in the order the coverage check collects them. */
  function AllRanges(table: seq<ClusterNode>): seq<SlotRange> {
    if table == [] then [] else table[0].slotRanges + AllRanges(table[1..])
  }

  // ----- what the table says after a reply

  /** The table gives `range` to the node at `address`. */
  predicate Gives(table: seq<ClusterNode>, a: Assignment) {
    exists i :: 0 <= i < |table| && table[i].address == a.address && a.range in table[i].slotRanges
  }

  predicate Mentions(infos: seq<Node>, a: Assignment) {
    exists i :: 0 <= i < |infos| && ReadAssignment(infos[i]) == Some(a)
  }

  lemma AddAssignmentGives(table: seq<ClusterNode>, new': Assignment, a: Assignment)
    ensures Gives(AddAssignment(table, new'), a) <==> Gives(table, a) || a == new'
  {
    var k, r := IndexOfAddress(table, new'.address, 0), AddAssignment(table, new');
    if a == new' {
      assert r[k].address == a.address && a.range in r[k].slotRanges;
    }
    if Gives(table, a) {
      var i :| 0 <= i < |table| && table[i].address == a.address && a.range in table[i].slotRanges;
      assert r[i].address == a.address && a.range in r[i].slotRanges;
    }
    if Gives(r, a) {
      var i :| 0 <= i < |r| && r[i].address == a.address && a.range in r[i].slotRanges;
      if i < |table| && a != new' {
        assert table[i].address == a.address && a.range in table[i].slotRanges;
      }
    }
  }

  lemma {:induction false} AddAssignmentsGive(table: seq<ClusterNode>, infos: seq<Node>, a: Assignment)
    ensures Gives(AddAssignments(table, infos), a) <==> Gives(table, a) || Mentions(infos, a)
    decreases |infos|
  {
    if infos != [] {
      var first := ReadAssignment(infos[0]);
      hide Gives, AddAssignment, ReadAssignment;
      if first.Some? {
        AddAssignmentGives(table, first.value, a);
      }
      var next := match first case Some(b) => AddAssignment(table, b) case None => table;
      AddAssignmentsGive(next, infos[1..], a);
      MentionsSplit(infos, a);
    }
  }

  lemma MentionsSplit(infos: seq<Node>, a: Assignment)
    requires infos != []
    ensures Mentions(infos, a) <==> ReadAssignment(infos[0]) == Some(a) || Mentions(infos[1..], a)
  {
    hide ReadAssignment;
    if Mentions(infos, a) {
      var i :| 0 <= i < |infos| && ReadAssignment(infos[i]) == Some(a);
      if i > 0 {
        assert infos[1..][i - 1] == infos[i];
      }
    }
    if Mentions(infos[1..], a) {
      var i :| 0 <= i < |infos[1..]| && ReadAssignment(infos[1..][i]) == Some(a);
      assert infos[i + 1] == infos[1..][i];
    }
  }

  lemma {:induction false} WithoutStaleGives(table: seq<ClusterNode>, a: Assignment)
    ensures Gives(WithoutStale(table), a) <==> Gives(table, a)
    ensures forall i :: 0 <= i < |WithoutStale(table)| ==> WithoutStale(table)[i].slotRanges != []
  {
    if table != [] {
      WithoutStaleGives(table[1..], a);
      GivesSplit(table, a);
      if table[0].slotRanges != [] {
        assert WithoutStale(table)[1..] == WithoutStale(table[1..]);
        GivesSplit(WithoutStale(table), a);
      }
    }
  }

  lemma GivesSplit(table: seq<ClusterNode>, a: Assignment)
    requires table != []
    ensures Gives(table, a) <==>
            (table[0].address == a.address && a.range in table[0].slotRanges) || Gives(table[1..], a)
  {
    if Gives(table, a) {
      var i :| 0 <= i < |table| && table[i].address == a.address && a.range in table[i].slotRanges;
      if i > 0 {
        assert table[1..][i - 1] == table[i];
      }
    }
    if Gives(table[1..], a) {
      var i :| 0 <= i < |table[1..]| && table[1..][i].address == a.address && a.range in table[1..][i].slotRanges;
      assert table[i + 1] == table[1..][i];
    }
  }

  /** After an array reply the table gives exactly the ranges the reply mentions, each to the address
      it mentions, and no node is left without a range. */
  lemma TableFollowsReply(table: seq<ClusterNode>, reply: Node, a: Assignment)
    requires reply.data.Aggregate? && reply.data.arrayKind == Array
    ensures Gives(ProcessReply(table, reply), a) <==> Mentions(reply.data.elements, a)
    ensures forall i :: 0 <= i < |ProcessReply(table, reply)| ==> ProcessReply(table, reply)[i].slotRanges != []
  {
    var infos := reply.data.elements;
    AddAssignmentsGive(ClearRanges(table), infos, a);
    WithoutStaleGives(AddAssignments(ClearRanges(table), infos), a);
    assert !Gives(ClearRanges(table), a);
  }

  // ----- no two nodes share an address

  predicate DistinctAddresses(table: seq<ClusterNode>) {
    forall i, j :: 0 <= i < j < |table| ==> table[i].address != table[j].address
  }

  lemma {:induction false} AddAssignmentsDistinct(table: seq<ClusterNode>, infos: seq<Node>)
    requires DistinctAddresses(table)
    ensures DistinctAddresses(AddAssignments(table, infos))
    decreases |infos|
  {
    if infos != [] {
      var next := match ReadAssignment(infos[0]) case Some(a) => AddAssignment(table, a) case None => table;
      assert DistinctAddresses(next);
      AddAssignmentsDistinct(next, infos[1..]);
    }
  }

  lemma {:induction false} WithoutStaleDistinct(table: seq<ClusterNode>)
    requires DistinctAddresses(table)
    ensures DistinctAddresses(WithoutStale(table))
    ensures forall n :: n in WithoutStale(table) ==> n in table
  {
    if table != [] {
      var rest := table[1..];
      assert forall i, j :: 0 <= i < j < |rest| ==> rest[i] == table[i + 1] && rest[j] == table[j + 1];
      WithoutStaleDistinct(rest);
      forall n | n in WithoutStale(rest)
        ensures n in table && n.address != table[0].address
      {
        var i :| 0 <= i < |rest| && rest[i] == n;
        assert table[i + 1] == n;
      }
    }
  }

  /** A node keeps one entry: processing a reply never makes two for one address. */
  lemma ReplyKeepsAddressesDistinct(table: seq<ClusterNode>, reply: Node)
    requires DistinctAddresses(table)
    ensures DistinctAddresses(ProcessReply(table, reply))
  {
    if reply.data.Aggregate? && reply.data.arrayKind == Array {
      AddAssignmentsDistinct(ClearRanges(table), reply.data.elements);
      WithoutStaleDistinct(AddAssignments(ClearRanges(table), reply.data.elements));
    }
  }

  // ----- coverage makes every slot routable

  lemma {:induction false} RangeIsSomewhere(table: seq<ClusterNode>, slot: int)
    requires Covered(AllRanges(table), slot)
    ensures exists i :: 0 <= i < |table| && HandlesSlot(table[i], slot)
  {
    var k :| 0 <= k < |AllRanges(table)| && Contains(AllRanges(table)[k], slot);
    var n := |table[0].slotRanges|;
    if k < n {
      assert Contains(table[0].slotRanges[k], slot);
      assert HandlesSlot(table[0], slot);
    } else {
      assert Contains(AllRanges(table[1..])[k - n], slot);
      RangeIsSomewhere(table[1..], slot);
      var i :| 0 <= i < |table[1..]| && HandlesSlot(table[1..][i], slot);
      assert HandlesSlot(table[i + 1], slot);
    }
  }

  lemma CoverageMakesRoutable(table: seq<ClusterNode>, slot: int)
    requires HasFullCoverage(AllRanges(table)) && 0 <= slot < SLOTS
    ensures Routable(table, slot)
  {
    CoverageIsSound(AllRanges(table), slot);
    RangeIsSomewhere(table, slot);
  }

  // ----- replies that leave no range

  lemma {:induction false} NoRanges(table: seq<ClusterNode>)
    ensures AllRanges(table) == [] <==> forall i :: 0 <= i < |table| ==> table[i].slotRanges == []
  {
    if table != [] {
      NoRanges(table[1..]);
      assert forall i :: 1 <= i < |table| ==> table[i] == table[1..][i - 1];
    }
  }

  /** The reply is an array in which no element reads as an assignment, or the null array; or it is no
      array, and no node has a range already. */
  predicate NamesNoRange(reply: Node, table: seq<ClusterNode>) {
    match reply.data
    case Aggregate(Array, infos) => forall i :: 0 <= i < |infos| ==> ReadAssignment(infos[i]) == None
    case NullAggregate(Array) => true
    case _ => forall i :: 0 <= i < |table| ==> table[i].slotRanges == []
  }

  lemma NoRangesExactlyWhen(table: seq<ClusterNode>, reply: Node)
    ensures AllRanges(ProcessReply(table, reply)) == [] <==> NamesNoRange(reply, table)
  {
    hide ReadAssignment, AddAssignments, WithoutStale;
    var after := ProcessReply(table, reply);
    NoRanges(after);
    if reply.data.Aggregate? && reply.data.arrayKind == Array {
      ArrayNamesNoRange(table, reply);
    }
  }

  lemma ArrayNamesNoRange(table: seq<ClusterNode>, reply: Node)
    requires reply.data.Aggregate? && reply.data.arrayKind == Array
    ensures (forall i :: 0 <= i < |ProcessReply(table, reply)| ==> ProcessReply(table, reply)[i].slotRanges == [])
       <==> forall i :: 0 <= i < |reply.data.elements| ==> ReadAssignment(reply.data.elements[i]) == None
  {
    hide ReadAssignment, ProcessReply;
    var after, infos := ProcessReply(table, reply), reply.data.elements;
    forall i | 0 <= i < |infos| && ReadAssignment(infos[i]) != None
      ensures exists k :: 0 <= k < |after| && after[k].slotRanges != []
    {
      var a := ReadAssignment(infos[i]).value;
      assert Mentions(infos, a);
      TableFollowsReply(table, reply, a);
    }
    forall k | 0 <= k < |after| && after[k].slotRanges != []
      ensures exists i :: 0 <= i < |infos| && ReadAssignment(infos[i]) != None
    {
      var a := Assignment(after[k].address, after[k].slotRanges[0]);
      TableFollowsReply(table, reply, a);
      assert Gives(after, a);
    }
  }
}
