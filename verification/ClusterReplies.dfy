/** What a CLUSTER SLOTS reply means: who gets the slots that its entries list. */
module ClusterReplies {
  import opened Bytes
  import opened Protocol
  import opened HashSlot
  import opened Coverage
  import opened RoutingTable
  import Shapes

  /** What an entry of the reply lists: the first and the last slot, the master's address, what else stands
      there about the master, and the replicas. `marks` are the attributes on the values, which change
      nothing. */
  datatype Share = Share(lo: uint16, hi: uint16, ip: seq<byte>, port: uint16, extra: seq<Node>, replicas: seq<Node>,
                         marks: nat -> Option<Table>)

  function Entry(x: Share): Node {
    Node(x.marks(0), Aggregate(Array, [
      Node(x.marks(1), Number(x.lo)),
      Node(x.marks(2), Number(x.hi)),
      Node(x.marks(3), Aggregate(Array, [
        Node(x.marks(4), Blob(BlobString, x.ip)),
        Node(x.marks(5), Number(x.port))] + x.extra))] + x.replicas))
  }

  function Entries(shares: seq<Share>): (r: seq<Node>)
    ensures |r| == |shares| && forall k :: 0 <= k < |r| ==> r[k] == Entry(shares[k])
  {
    seq(|shares|, k requires 0 <= k < |shares| => Entry(shares[k]))
  }

  /** The entry gives its slots to its master. */
  predicate Assigns(x: Share, a: Assignment) {
    a == Assignment(Address(x.ip, x.port), SlotRange(x.lo, x.hi))
  }

  lemma EntryReads(x: Share, a: Assignment)
    requires 0 !in x.ip
    ensures ReadAssignment(Entry(x)) == Some(a) <==> Assigns(x, a)
  {
    hide CString;
    Shapes.CStringWhole(x.ip);
  }

  /** After a reply of such entries, whatever the table was, it gives to each node exactly the ranges that the
      entries list for it as their master. */
  lemma MastersGetTheirSlots(table: seq<ClusterNode>, mark: Option<Table>, shares: seq<Share>, a: Assignment)
    requires forall k :: 0 <= k < |shares| ==> 0 !in shares[k].ip
    ensures Gives(ProcessReply(table, Node(mark, Aggregate(Array, Entries(shares)))), a)
       <==> exists k :: 0 <= k < |shares| && Assigns(shares[k], a)
  {
    hide ReadAssignment, ProcessReply, Entry, Assigns, Gives;
    var infos := Entries(shares);
    TableFollowsReply(table, Node(mark, Aggregate(Array, infos)), a);
    forall k | 0 <= k < |shares|
      ensures ReadAssignment(infos[k]) == Some(a) <==> Assigns(shares[k], a)
    {
      EntryReads(shares[k], a);
    }
  }

  predicate Lists(x: Share, slot: int) {
    x.lo <= slot <= x.hi
  }

  predicate Listed(shares: seq<Share>, slot: int) {
    exists k :: 0 <= k < |shares| && Lists(shares[k], slot)
  }

  /** After a reply of such entries a slot is found exactly when some entry lists it, and at the master of an
      entry that does; if only one does, at the master of that one. */
  lemma SlotIsAtItsMaster(table: seq<ClusterNode>, mark: Option<Table>, shares: seq<Share>, slot: int)
    requires forall k :: 0 <= k < |shares| ==> 0 !in shares[k].ip
    ensures var after := ProcessReply(table, Node(mark, Aggregate(Array, Entries(shares))));
      var at := IndexOfSlot(after, slot, 0);
      && (at < |after| <==> Listed(shares, slot))
      && (at < |after| ==> exists k :: 0 <= k < |shares| && Lists(shares[k], slot)
                                       && after[at].address == Address(shares[k].ip, shares[k].port))
      && (forall k :: 0 <= k < |shares| && Lists(shares[k], slot) ==>
            || (exists j :: 0 <= j < |shares| && j != k && Lists(shares[j], slot))
            || after[at].address == Address(shares[k].ip, shares[k].port))
  {
    hide ProcessReply, Entries, IndexOfSlot, Gives;
    var after := ProcessReply(table, Node(mark, Aggregate(Array, Entries(shares))));
    if IndexOfSlot(after, slot, 0) < |after| {
      var k := FoundIsListed(table, mark, shares, slot);
    }
    if k :| 0 <= k < |shares| && Lists(shares[k], slot) {
      ListedIsFound(table, mark, shares, slot, k);
    }
  }

  lemma FoundIsListed(table: seq<ClusterNode>, mark: Option<Table>, shares: seq<Share>, slot: int) returns (k: nat)
    requires forall k :: 0 <= k < |shares| ==> 0 !in shares[k].ip
    requires var after := ProcessReply(table, Node(mark, Aggregate(Array, Entries(shares))));
      IndexOfSlot(after, slot, 0) < |after|
    ensures k < |shares| && Lists(shares[k], slot)
    ensures var after := ProcessReply(table, Node(mark, Aggregate(Array, Entries(shares))));
      after[IndexOfSlot(after, slot, 0)].address == Address(shares[k].ip, shares[k].port)
  {
    hide ProcessReply, Entries, IndexOfSlot;
    var after := ProcessReply(table, Node(mark, Aggregate(Array, Entries(shares))));
    var node := after[IndexOfSlot(after, slot, 0)];
    var r :| 0 <= r < |node.slotRanges| && Contains(node.slotRanges[r], slot);
    var a := Assignment(node.address, node.slotRanges[r]);
    MastersGetTheirSlots(table, mark, shares, a);
    k :| 0 <= k < |shares| && Assigns(shares[k], a);
  }

  lemma ListedIsFound(table: seq<ClusterNode>, mark: Option<Table>, shares: seq<Share>, slot: int, k: nat)
    requires forall k :: 0 <= k < |shares| ==> 0 !in shares[k].ip
    requires k < |shares| && Lists(shares[k], slot)
    ensures Routable(ProcessReply(table, Node(mark, Aggregate(Array, Entries(shares)))), slot)
  {
    hide ProcessReply, Entries, IndexOfSlot;
    var after := ProcessReply(table, Node(mark, Aggregate(Array, Entries(shares))));
    var a := Assignment(Address(shares[k].ip, shares[k].port), SlotRange(shares[k].lo, shares[k].hi));
    assert Assigns(shares[k], a);
    MastersGetTheirSlots(table, mark, shares, a);
    var i :| 0 <= i < |after| && after[i].address == a.address && a.range in after[i].slotRanges;
    var r :| 0 <= r < |after[i].slotRanges| && after[i].slotRanges[r] == a.range;
    assert Contains(after[i].slotRanges[r], slot);
    assert HandlesSlot(after[i], slot);
  }

  // ----- whether the reply settles the configuration

  function Ranges(shares: seq<Share>): (r: seq<SlotRange>)
    ensures |r| == |shares| && forall k :: 0 <= k < |r| ==> r[k] == SlotRange(shares[k].lo, shares[k].hi)
  {
    seq(|shares|, k requires 0 <= k < |shares| => SlotRange(shares[k].lo, shares[k].hi))
  }

  /** Every slot from 0 to 16383 is listed once, and no other number is. */
  ghost predicate SharedOut(shares: seq<Share>) {
    && (forall slot :: Listed(shares, slot) <==> 0 <= slot < 16384)
    && (forall slot, j, k :: 0 <= j < k < |shares| ==> !(Lists(shares[j], slot) && Lists(shares[k], slot)))
  }

  lemma {:induction false} ClearHasNoRanges(table: seq<ClusterNode>)
    ensures AllRanges(ClearRanges(table)) == []
  {
    if table != [] {
      assert ClearRanges(table)[1..] == ClearRanges(table[1..]);
      ClearHasNoRanges(table[1..]);
    }
  }

  lemma {:induction false} RangesSplit(a: seq<ClusterNode>, b: seq<ClusterNode>)
    ensures AllRanges(a + b) == AllRanges(a) + AllRanges(b)
  {
    if a == [] {
      assert a + b == b;
    } else {
      assert (a + b)[1..] == a[1..] + b;
      RangesSplit(a[1..], b);
    }
  }

  lemma OneNodeRanges(node: ClusterNode)
    ensures AllRanges([node]) == node.slotRanges
  {
    assert [node][1..] == [];
  }

  lemma RangesAround(before: seq<ClusterNode>, node: ClusterNode, after: seq<ClusterNode>)
    ensures AllRanges(before + [node] + after) == AllRanges(before) + node.slotRanges + AllRanges(after)
  {
    hide AllRanges;
    RangesSplit(before + [node], after);
    RangesSplit(before, [node]);
    OneNodeRanges(node);
  }

  lemma AddKeepsRanges(table: seq<ClusterNode>, a: Assignment)
    ensures multiset(AllRanges(AddAssignment(table, a))) == multiset(AllRanges(table)) + multiset{a.range}
  {
    hide AllRanges, IndexOfAddress;
    var k := IndexOfAddress(table, a.address, 0);
    if k == |table| {
      RangesSplit(table, [ClusterNode(a.address, [a.range])]);
      OneNodeRanges(ClusterNode(a.address, [a.range]));
    } else {
      MoreRangesAt(table, k, ClusterNode(a.address, table[k].slotRanges + [a.range]), a.range);
    }
  }

  lemma MoreRangesAt(table: seq<ClusterNode>, k: nat, node: ClusterNode, range: SlotRange)
    requires k < |table| && node.slotRanges == table[k].slotRanges + [range]
    ensures multiset(AllRanges(table[k := node])) == multiset(AllRanges(table)) + multiset{range}
  {
    hide AllRanges;
    var before, after := table[..k], table[k + 1..];
    assert table == before + [table[k]] + after && table[k := node] == before + [node] + after;
    RangesAround(before, table[k], after);
    RangesAround(before, node, after);
  }

  lemma {:induction false} AddAllKeepsRanges(table: seq<ClusterNode>, shares: seq<Share>)
    requires forall k :: 0 <= k < |shares| ==> 0 !in shares[k].ip
    ensures multiset(AllRanges(AddAssignments(table, Entries(shares))))
         == multiset(AllRanges(table)) + multiset(Ranges(shares))
    decreases |shares|
  {
    hide AllRanges, Entry, ReadAssignment, AddAssignment;
    if shares == [] {
      assert Ranges(shares) == [];
    } else {
      var a := Assignment(Address(shares[0].ip, shares[0].port), SlotRange(shares[0].lo, shares[0].hi));
      EntryReads(shares[0], a);
      AddKeepsRanges(table, a);
      assert Entries(shares)[1..] == Entries(shares[1..]);
      AddAllKeepsRanges(AddAssignment(table, a), shares[1..]);
      assert Ranges(shares) == [a.range] + Ranges(shares[1..]);
    }
  }

  lemma {:induction false} StaleHasNoRanges(table: seq<ClusterNode>)
    ensures AllRanges(WithoutStale(table)) == AllRanges(table)
  {
    if table != [] {
      var first, rest := table[0], table[1..];
      StaleHasNoRanges(rest);
      RangesSplit([first], WithoutStale(rest));
      OneNodeRanges(first);
      assert first.slotRanges == [] ==> WithoutStale(table) == WithoutStale(rest);
      assert first.slotRanges != [] ==> WithoutStale(table) == [first] + WithoutStale(rest);
    }
  }

  /** After the reply the table holds the ranges of the entries, each as often as they list it. */
  lemma RangesOfReply(table: seq<ClusterNode>, mark: Option<Table>, shares: seq<Share>)
    requires forall k :: 0 <= k < |shares| ==> 0 !in shares[k].ip
    ensures multiset(AllRanges(ProcessReply(table, Node(mark, Aggregate(Array, Entries(shares))))))
         == multiset(Ranges(shares))
  {
    hide AllRanges, AddAssignments, WithoutStale, Entries, Ranges;
    ClearHasNoRanges(table);
    AddAllKeepsRanges(ClearRanges(table), shares);
    StaleHasNoRanges(AddAssignments(ClearRanges(table), Entries(shares)));
  }

  lemma {:induction false} TwicePlaced(list: seq<SlotRange>, r: SlotRange)
    requires multiset(list)[r] >= 2
    ensures exists i, j :: 0 <= i < j < |list| && list[i] == r && list[j] == r
  {
    var first, rest := list[0], list[1..];
    assert list == [first] + rest;
    if first == r {
      assert r in multiset(rest);
      var j :| 0 <= j < |rest| && rest[j] == r;
      assert list[0] == r && list[j + 1] == r;
    } else {
      TwicePlaced(rest, r);
      var i, j :| 0 <= i < j < |rest| && rest[i] == r && rest[j] == r;
      assert list[i + 1] == r && list[j + 1] == r;
    }
  }

  lemma PlacedTwice(list: seq<SlotRange>, i: nat, j: nat)
    requires i < j < |list| && list[i] == list[j]
    ensures multiset(list)[list[i]] >= 2
  {
    var front, back := list[..j], list[j..];
    assert list == front + back;
    assert front[i] in multiset(front) && back[0] in multiset(back);
  }

  lemma DisjointAlike(a: seq<SlotRange>, b: seq<SlotRange>)
    requires multiset(a) == multiset(b) && Disjoint(a)
    ensures Disjoint(b)
  {
    forall i, j | 0 <= i < j < |b|
      ensures Apart(b[i], b[j])
    {
      if b[i] == b[j] {
        PlacedTwice(b, i, j);
        TwicePlaced(a, b[i]);
      } else {
        assert b[i] in multiset(b) && b[j] in multiset(b);
        assert b[i] in a && b[j] in a;
      }
    }
  }

  lemma CoveredAlike(a: seq<SlotRange>, b: seq<SlotRange>, slot: int)
    requires multiset(a) == multiset(b)
    ensures Covered(a, slot) ==> Covered(b, slot)
  {
    if i :| 0 <= i < |a| && Contains(a[i], slot) {
      assert a[i] in multiset(a);
      assert a[i] in b;
    }
  }

  lemma PartitionsAlike(a: seq<SlotRange>, b: seq<SlotRange>)
    requires multiset(a) == multiset(b)
    ensures Partitions(a) <==> Partitions(b)
  {
    hide Covered;
    if Partitions(a) {
      DisjointAlike(a, b);
    }
    if Partitions(b) {
      DisjointAlike(b, a);
    }
    forall slot
      ensures Covered(a, slot) <==> Covered(b, slot)
    {
      CoveredAlike(a, b, slot);
      CoveredAlike(b, a, slot);
    }
  }

  lemma ForwardAlike(a: seq<SlotRange>, b: seq<SlotRange>)
    requires multiset(a) == multiset(b) && Forward(a)
    ensures Forward(b)
  {
    forall i | 0 <= i < |b|
      ensures b[i].minSlot <= b[i].maxSlot
    {
      assert b[i] in multiset(b);
      assert b[i] in a;
    }
  }

  lemma SharedOutIsPartition(shares: seq<Share>)
    requires forall k :: 0 <= k < |shares| ==> shares[k].lo <= shares[k].hi
    ensures SharedOut(shares) <==> Partitions(Ranges(shares))
  {
    var ranges := Ranges(shares);
    forall slot: int
      ensures Covered(ranges, slot) <==> Listed(shares, slot)
    {
      if k :| 0 <= k < |shares| && Lists(shares[k], slot) {
        assert Contains(ranges[k], slot);
      }
      if k :| 0 <= k < |ranges| && Contains(ranges[k], slot) {
        assert Lists(shares[k], slot);
      }
    }
    if SharedOut(shares) {
      forall i, j | 0 <= i < j < |ranges|
        ensures Apart(ranges[i], ranges[j])
      {
        var slot := if shares[i].lo <= shares[j].lo then shares[j].lo else shares[i].lo;
        assert !Lists(shares[i], slot) || !Lists(shares[j], slot);
      }
    }
    if Disjoint(ranges) {
      forall slot, j, k | 0 <= j < k < |shares|
        ensures !(Lists(shares[j], slot) && Lists(shares[k], slot))
      {
        assert Apart(ranges[j], ranges[k]);
      }
    }
  }

  /** After a reply of such entries the coverage check says yes exactly when they list every slot once. */
  lemma CoveredExactlyWhen(table: seq<ClusterNode>, mark: Option<Table>, shares: seq<Share>)
    requires forall k :: 0 <= k < |shares| ==> 0 !in shares[k].ip && shares[k].lo <= shares[k].hi
    ensures HasFullCoverage(AllRanges(ProcessReply(table, Node(mark, Aggregate(Array, Entries(shares))))))
       <==> SharedOut(shares)
  {
    hide ProcessReply, AllRanges, Entries, SharedOut, Partitions, HasFullCoverage;
    var ranges := AllRanges(ProcessReply(table, Node(mark, Aggregate(Array, Entries(shares)))));
    RangesOfReply(table, mark, shares);
    ForwardAlike(Ranges(shares), ranges);
    CoverageIsExact(ranges);
    PartitionsAlike(ranges, Ranges(shares));
    SharedOutIsPartition(shares);
  }

  // ----- other elements

  /** Exactly these elements of a reply name no range: what is no array or has fewer than three elements, or
      whose third is no array or has fewer than two. */
  lemma NamesNoneExactlyWhen(info: Node)
    ensures ReadAssignment(info) == None <==>
            match info.data
            case Aggregate(Array, fields) =>
              |fields| < 3
              || (match fields[2].data case Aggregate(Array, address) => |address| < 2 case _ => true)
            case _ => true
  {
    hide CString;
  }

  /** The host of a master is the text before the first NUL; a null one is empty, and another kind of element
      leaves the default, "127.0.0.1". */
  lemma HostsAreRead(mark: Option<Table>, text: seq<byte>, cut: seq<byte>, host: Node, port: Node)
    requires 0 !in text && (cut == [] || cut[0] == 0)
    ensures AddressOf(Node(mark, Blob(BlobString, text + cut)), port).ip == text
    ensures AddressOf(Node(mark, NullBlob(BlobString)), port).ip == []
    ensures host.data != NullBlob(BlobString) && !(host.data.Blob? && host.data.blobKind == BlobString) ==>
      AddressOf(host, port).ip == [49, 50, 55, 46, 48, 46, 48, 46, 49]
  {
    hide CString;
    CStringStops(text, cut);
  }

  /** How a number that does not fit, or an element of another kind, is read. */
  lemma NumbersAreCut(node: Node)
    ensures node.data.Number? ==>
      exists q: int :: node.data.number == 65536 * q + NumberOrZero(node) && 0 <= NumberOrZero(node) < 65536
    ensures !node.data.Number? ==> NumberOrZero(node) == 0
  {
    if node.data.Number? {
      assert node.data.number == 65536 * (node.data.number / 65536) + NumberOrZero(node);
    }
  }
}
