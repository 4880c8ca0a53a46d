/** Whether the slot ranges of a cluster configuration add up to the whole slot space: the client's
    merging loop, and what its answer means. */
module Coverage {
  import opened HashSlot

  type uint16 = n: int | 0 <= n < 0x10000 witness 0

  datatype SlotRange = SlotRange(minSlot: uint16, maxSlot: uint16)

  predicate Contains(r: SlotRange, slot: int) {
    r.minSlot <= slot <= r.maxSlot
  }

  /** `a` ends where `b` begins; the sum is taken in `int`, so it does not wrap. */
  predicate Precedes(a: SlotRange, b: SlotRange) {
    a.maxSlot + 1 == b.minSlot
  }

  predicate Adjacent(a: SlotRange, b: SlotRange) {
    Precedes(a, b) || Precedes(b, a)
  }

  function Combined(a: SlotRange, b: SlotRange): SlotRange {
    if Precedes(a, b) then SlotRange(a.minSlot, b.maxSlot) else SlotRange(b.minSlot, a.maxSlot)
  }

  // ----- the merging loop as a function

  /** The list after its elements at `i` and `j` have been combined. */
  function Merged(list: seq<SlotRange>, i: nat, j: nat): (r: seq<SlotRange>)
    requires i < j < |list|
    ensures |r| == |list| - 1
  {
    list[..i] + list[i + 1..j] + list[j + 1..] + [Combined(list[i], list[j])]
  }

  /** The first adjacent partner of element `i`, searching from `j`; the length if there is none. */
  function Partner(list: seq<SlotRange>, i: nat, j: nat): (p: nat)
    requires i < j <= |list|
    ensures j <= p <= |list|
    ensures p < |list| ==> Adjacent(list[i], list[p])
    ensures forall k :: j <= k < p ==> !Adjacent(list[i], list[k])
    decreases |list| - j
  {
    if j == |list| || Adjacent(list[i], list[j]) then j else Partner(list, i, j + 1)
  }

  /** The first element from `i` on that has an adjacent partner behind it. */
  function Leader(list: seq<SlotRange>, i: nat): (l: nat)
    requires i <= |list|
    ensures i <= l <= |list|
    ensures l < |list| ==> Partner(list, l, l + 1) < |list|
    ensures forall k, m :: i <= k < l && k < m < |list| ==> !Adjacent(list[k], list[m])
    decreases |list| - i
  {
    if i == |list| || Partner(list, i, i + 1) < |list| then i else Leader(list, i + 1)
  }

  function Merge(list: seq<SlotRange>): seq<SlotRange>
    decreases |list|
  {
    var l := Leader(list, 0);
    if l == |list| then list else Merge(Merged(list, l, Partner(list, l, l + 1)))
  }

  predicate IsWhole(list: seq<SlotRange>) {
    |list| == 1 && list[0] == SlotRange(0, SLOTS - 1)
  }

  /** The answer of the coverage check. */
  predicate HasFullCoverage(ranges: seq<SlotRange>) {
    IsWhole(Merge(ranges))
  }

  method Combine(a: SlotRange, b: SlotRange) returns (ok: bool, r: SlotRange)
    ensures ok <==> Adjacent(a, b)
    ensures ok ==> r == Combined(a, b)
  {
    if a.maxSlot + 1 == b.minSlot {
      return true, SlotRange(a.minSlot, b.maxSlot);
    }
    if b.maxSlot + 1 == a.minSlot {
      return true, SlotRange(b.minSlot, a.maxSlot);
    }
    return false, a;
  }

  /** One pass of the outer loop: combine the first adjacent pair, in list order. */
  method CombineFirstPair(list: seq<SlotRange>) returns (combined: bool, slotRangeList: seq<SlotRange>)
    ensures combined <==> Leader(list, 0) < |list|
    ensures slotRangeList ==
      if combined then Merged(list, Leader(list, 0), Partner(list, Leader(list, 0), Leader(list, 0) + 1)) else list
  {
    hide Adjacent, Combined;
    var i := 0;
    while i < |list|
      invariant 0 <= i <= |list| && Leader(list, i) == Leader(list, 0)
    {
      var j := i + 1;
      while j < |list|
        invariant i < j <= |list| && Partner(list, i, j) == Partner(list, i, i + 1)
      {
        var ok, r := Combine(list[i], list[j]);
        if ok {
          return true, list[..i] + list[i + 1..j] + list[j + 1..] + [r];
        }
        j := j + 1;
      }
      i := i + 1;
    }
    return false, list;
  }

  /** The check itself. The list must hold a range: its head is read at the end. */
  method ClusterConfigHasFullSlotCoverage(ranges: seq<SlotRange>) returns (full: bool)
    requires ranges != []
    ensures full <==> HasFullCoverage(ranges)
  {
    hide Merged;
    var slotRangeList := ranges;
    while |slotRangeList| > 1
      invariant slotRangeList != [] && Merge(slotRangeList) == Merge(ranges)
      decreases |slotRangeList|
    {
      var combined;
      combined, slotRangeList := CombineFirstPair(slotRangeList);
      if !combined {
        return false;
      }
    }
    var slotRange := slotRangeList[0];
    return slotRange.minSlot == 0 && slotRange.maxSlot == SLOTS - 1;
  }

  // ----- soundness, for any ranges at all

  predicate Covered(list: seq<SlotRange>, slot: int) {
    exists i :: 0 <= i < |list| && Contains(list[i], slot)
  }

  /** Merging adds no slot, even when ranges overlap or run backwards. */
  lemma MergedAddsNothing(list: seq<SlotRange>, i: nat, j: nat, slot: int)
    requires i < j < |list| && Adjacent(list[i], list[j])
    ensures Covered(Merged(list, i, j), slot) ==> Covered(list, slot)
  {
    var merged := Merged(list, i, j);
    if Covered(merged, slot) {
      var k :| 0 <= k < |merged| && Contains(merged[k], slot);
      if k == |merged| - 1 {
        assert Contains(list[i], slot) || Contains(list[j], slot);
      } else {
        assert merged[k] == list[if k < i then k else if k < j - 1 then k + 1 else k + 2];
      }
    }
  }

  lemma {:induction false} MergeAddsNothing(list: seq<SlotRange>, slot: int)
    ensures Covered(Merge(list), slot) ==> Covered(list, slot)
    decreases |list|
  {
    var l := Leader(list, 0);
    if l < |list| {
      var p := Partner(list, l, l + 1);
      MergedAddsNothing(list, l, p, slot);
      MergeAddsNothing(Merged(list, l, p), slot);
    }
  }

  /** A positive answer means that every slot lies in one of the given ranges. */
  lemma CoverageIsSound(ranges: seq<SlotRange>, slot: int)
    requires HasFullCoverage(ranges) && 0 <= slot < SLOTS
    ensures Covered(ranges, slot)
  {
    assert Contains(Merge(ranges)[0], slot);
    MergeAddsNothing(ranges, slot);
  }

  // ----- exactness, for ranges that do not run backwards

  predicate Forward(list: seq<SlotRange>) {
    forall i :: 0 <= i < |list| ==> list[i].minSlot <= list[i].maxSlot
  }

  predicate Apart(a: SlotRange, b: SlotRange) {
    a.maxSlot < b.minSlot || b.maxSlot < a.minSlot
  }

  predicate Disjoint(list: seq<SlotRange>) {
    forall i, j :: 0 <= i < j < |list| ==> Apart(list[i], list[j])
  }

  ghost predicate Partitions(list: seq<SlotRange>) {
    Disjoint(list) && forall slot :: Covered(list, slot) <==> 0 <= slot < SLOTS
  }

  /** Where element `k` of the merged list, other than the last, came from. */
  function Origin(i: nat, j: nat, k: nat): nat {
    if k < i then k else if k + 1 < j then k + 1 else k + 2
  }

  lemma MergedElement(list: seq<SlotRange>, i: nat, j: nat, k: nat)
    requires i < j < |list| && k < |list| - 2
    ensures Merged(list, i, j)[k] == list[Origin(i, j, k)]
    ensures Origin(i, j, k) < |list| && Origin(i, j, k) != i && Origin(i, j, k) != j
  {}

  /** Where element `m` of the list, other than `i` and `j`, went. */
  function Destination(i: nat, j: nat, m: nat): int {
    if m < i then m else if m < j then m - 1 else m - 2
  }

  lemma OriginOfDestination(list: seq<SlotRange>, i: nat, j: nat, m: nat)
    requires i < j < |list| && m < |list| && m != i && m != j
    ensures 0 <= Destination(i, j, m) < |list| - 2 && Origin(i, j, Destination(i, j, m)) == m
  {}

  lemma CombinedOfForward(a: SlotRange, b: SlotRange)
    requires a.minSlot <= a.maxSlot && b.minSlot <= b.maxSlot && Adjacent(a, b)
    ensures Combined(a, b).minSlot <= Combined(a, b).maxSlot && Apart(a, b)
    ensures forall slot :: Contains(Combined(a, b), slot) <==> Contains(a, slot) || Contains(b, slot)
    ensures forall r: SlotRange :: r.minSlot <= r.maxSlot ==>
              (Apart(Combined(a, b), r) <==> Apart(a, r) && Apart(b, r))
  {}

  lemma MergedForward(list: seq<SlotRange>, i: nat, j: nat)
    requires i < j < |list| && Adjacent(list[i], list[j]) && Forward(list)
    ensures Forward(Merged(list, i, j))
  {
    CombinedOfForward(list[i], list[j]);
    forall k | 0 <= k < |list| - 2
      ensures Merged(list, i, j)[k].minSlot <= Merged(list, i, j)[k].maxSlot
    {
      MergedElement(list, i, j, k);
    }
  }

  lemma MergedCovers(list: seq<SlotRange>, i: nat, j: nat, slot: int)
    requires i < j < |list| && Adjacent(list[i], list[j]) && Forward(list)
    ensures Covered(Merged(list, i, j), slot) <==> Covered(list, slot)
  {
    MergedAddsNothing(list, i, j, slot);
    CombinedOfForward(list[i], list[j]);
    var merged := Merged(list, i, j);
    if Covered(list, slot) {
      var m :| 0 <= m < |list| && Contains(list[m], slot);
      if m == i || m == j {
        assert Contains(merged[|merged| - 1], slot);
      } else {
        OriginOfDestination(list, i, j, m);
        MergedElement(list, i, j, Destination(i, j, m));
        assert Contains(merged[Destination(i, j, m)], slot);
      }
    }
  }

  lemma MergedKeepsDisjoint(list: seq<SlotRange>, i: nat, j: nat)
    requires i < j < |list| && Adjacent(list[i], list[j]) && Forward(list)
    requires Disjoint(list)
    ensures Disjoint(Merged(list, i, j))
  {
    var merged := Merged(list, i, j);
    CombinedOfForward(list[i], list[j]);
    forall k, m | 0 <= k < m < |merged|
      ensures Apart(merged[k], merged[m])
    {
      MergedElement(list, i, j, k);
      var o := Origin(i, j, k);
      if m < |merged| - 1 {
        MergedElement(list, i, j, m);
      } else {
        assert Apart(list[i], list[o]) && Apart(list[j], list[o]);
      }
    }
  }

  lemma MergedFromDisjoint(list: seq<SlotRange>, i: nat, j: nat)
    requires i < j < |list| && Adjacent(list[i], list[j]) && Forward(list)
    requires Disjoint(Merged(list, i, j))
    ensures Disjoint(list)
  {
    var merged := Merged(list, i, j);
    var last := |merged| - 1;
    CombinedOfForward(list[i], list[j]);
    forall k, m | 0 <= k < m < |list|
      ensures Apart(list[k], list[m])
    {
      if k != i && k != j {
        OriginOfDestination(list, i, j, k);
        MergedElement(list, i, j, Destination(i, j, k));
        assert Apart(merged[Destination(i, j, k)], merged[last]);
      }
      if m != i && m != j {
        OriginOfDestination(list, i, j, m);
        MergedElement(list, i, j, Destination(i, j, m));
        assert Apart(merged[Destination(i, j, m)], merged[last]);
      }
    }
  }

  /** Whichever adjacent pair is merged, the list partitions the slot space before iff it does after. */
  lemma MergedPartitions(list: seq<SlotRange>, i: nat, j: nat)
    requires i < j < |list| && Adjacent(list[i], list[j]) && Forward(list)
    ensures Partitions(Merged(list, i, j)) <==> Partitions(list)
  {
    forall slot
      ensures Covered(Merged(list, i, j), slot) <==> Covered(list, slot)
    {
      MergedCovers(list, i, j, slot);
    }
    if Disjoint(list) {
      MergedKeepsDisjoint(list, i, j);
    }
    if Disjoint(Merged(list, i, j)) {
      MergedFromDisjoint(list, i, j);
    }
  }

  lemma CoveredBy(list: seq<SlotRange>, slot: int) returns (i: nat)
    requires Covered(list, slot)
    ensures i < |list| && Contains(list[i], slot)
  {
    i :| 0 <= i < |list| && Contains(list[i], slot);
  }

  lemma UniqueOwner(list: seq<SlotRange>, i: nat, j: nat, slot: int)
    requires Disjoint(list) && i < |list| && j < |list| && Contains(list[i], slot) && Contains(list[j], slot)
    ensures i == j
  {}

  /** In a partition, a range that ends early is followed by another. */
  lemma NextRange(list: seq<SlotRange>, i: nat) returns (j: nat)
    requires Forward(list) && Partitions(list) && i < |list| && list[i].maxSlot < SLOTS - 1
    ensures j < |list| && j != i && Precedes(list[i], list[j])
  {
    var slot := list[i].maxSlot + 1;
    assert Covered(list, slot);
    j := CoveredBy(list, slot);
    if list[j].minSlot < slot {
      assert Contains(list[j], slot - 1) && Contains(list[i], slot - 1);
      UniqueOwner(list, i, j, slot - 1);
    }
  }

  lemma WholeRangeIsAlone(list: seq<SlotRange>, i: nat, j: nat)
    requires Forward(list) && Partitions(list) && i < |list| && j < |list| && list[i] == SlotRange(0, SLOTS - 1)
    ensures i == j
  {
    var slot := list[j].minSlot;
    assert Contains(list[j], slot);
    assert Covered(list, slot);
    UniqueOwner(list, i, j, slot);
  }

  /** A partition with no adjacent pair is the single whole range. */
  lemma UnmergeablePartition(list: seq<SlotRange>)
    requires Forward(list) && Partitions(list)
    requires forall k, m :: 0 <= k < m < |list| ==> !Adjacent(list[k], list[m])
    ensures IsWhole(list)
  {
    var i := CoveredBy(list, 0);
    assert Contains(list[i], list[i].maxSlot);
    assert Covered(list, list[i].maxSlot);
    if list[i].maxSlot < SLOTS - 1 {
      var j := NextRange(list, i);
    }
    WholeRangeIsAlone(list, i, 0);
    WholeRangeIsAlone(list, i, |list| - 1);
  }

  lemma WholePartitions(list: seq<SlotRange>)
    requires IsWhole(list)
    ensures Partitions(list)
  {
    forall slot
      ensures Covered(list, slot) <==> 0 <= slot < SLOTS
    {
      assert Contains(list[0], slot) <==> 0 <= slot < SLOTS;
    }
  }

  lemma {:induction false} MergeDecidesPartition(list: seq<SlotRange>)
    requires Forward(list)
    ensures IsWhole(Merge(list)) <==> Partitions(list)
    decreases |list|
  {
    var l := Leader(list, 0);
    if l == |list| {
      if Partitions(list) {
        UnmergeablePartition(list);
      } else if IsWhole(list) {
        WholePartitions(list);
      }
    } else {
      var p := Partner(list, l, l + 1);
      MergedForward(list, l, p);
      MergedPartitions(list, l, p);
      MergeDecidesPartition(Merged(list, l, p));
    }
  }

  /** For ranges that do not run backwards, the answer is yes exactly when they are pairwise disjoint
      and their union is the slot space. */
  lemma CoverageIsExact(ranges: seq<SlotRange>)
    requires Forward(ranges)
    ensures HasFullCoverage(ranges) <==> Partitions(ranges)
  {
    MergeDecidesPartition(ranges);
  }

  // ----- any order of merging

  /** The positions of two ranges to be merged. */
  datatype Step = Step(i: nat, j: nat)

  /** Each step merges two ranges of the list as it then is, and they are adjacent. */
  predicate CanMerge(list: seq<SlotRange>, steps: seq<Step>)
    decreases |steps|
  {
    steps == [] ||
    (var s := steps[0];
     s.i < s.j < |list| && Adjacent(list[s.i], list[s.j]) && CanMerge(Merged(list, s.i, s.j), steps[1..]))
  }

  function AfterMerges(list: seq<SlotRange>, steps: seq<Step>): seq<SlotRange>
    requires CanMerge(list, steps)
    decreases |steps|
  {
    if steps == [] then list else AfterMerges(Merged(list, steps[0].i, steps[0].j), steps[1..])
  }

  predicate NoneAdjacent(list: seq<SlotRange>) {
    forall k, m :: 0 <= k < m < |list| ==> !Adjacent(list[k], list[m])
  }

  lemma {:induction false} MergesKeepPartition(list: seq<SlotRange>, steps: seq<Step>)
    requires Forward(list) && CanMerge(list, steps)
    ensures Forward(AfterMerges(list, steps)) && (Partitions(AfterMerges(list, steps)) <==> Partitions(list))
    ensures |AfterMerges(list, steps)| == |list| - |steps|
    decreases |steps|
  {
    hide Partitions, Merged, Adjacent;
    if steps != [] {
      var s := steps[0];
      MergedForward(list, s.i, s.j);
      MergedPartitions(list, s.i, s.j);
      MergesKeepPartition(Merged(list, s.i, s.j), steps[1..]);
    }
  }

  /** Whichever adjacent pairs are merged, in whatever order, until none is left: there are fewer merges
      than ranges, and the answer is the same as the loop's. */
  lemma AnyMergeOrder(list: seq<SlotRange>, steps: seq<Step>)
    requires Forward(list) && list != [] && CanMerge(list, steps) && NoneAdjacent(AfterMerges(list, steps))
    ensures |steps| < |list|
    ensures IsWhole(AfterMerges(list, steps)) <==> HasFullCoverage(list)
  {
    var end := AfterMerges(list, steps);
    MergesKeepPartition(list, steps);
    MergesLeaveSomething(list, steps);
    CoverageIsExact(list);
    if Partitions(end) {
      UnmergeablePartition(end);
    } else if IsWhole(end) {
      WholePartitions(end);
    }
  }

  lemma {:induction false} MergesLeaveSomething(list: seq<SlotRange>, steps: seq<Step>)
    requires list != [] && CanMerge(list, steps)
    ensures AfterMerges(list, steps) != [] && |steps| < |list|
    decreases |steps|
  {
    if steps != [] {
      MergesLeaveSomething(Merged(list, steps[0].i, steps[0].j), steps[1..]);
    }
  }

  /** Overlapping ranges can cover every slot and still be refused. */
  lemma OverlapIsRefused()
    ensures var ranges := [SlotRange(0, 16383), SlotRange(5, 10)];
      Forward(ranges) && (forall slot :: 0 <= slot < SLOTS ==> Covered(ranges, slot)) && !HasFullCoverage(ranges)
  {
    var ranges := [SlotRange(0, 16383), SlotRange(5, 10)];
    forall slot | 0 <= slot < SLOTS
      ensures Covered(ranges, slot)
    {
      assert Contains(ranges[0], slot);
    }
    assert !Apart(ranges[0], ranges[1]);
    CoverageIsExact(ranges);
  }
}
