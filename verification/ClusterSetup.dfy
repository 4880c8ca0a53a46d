/** Setting up a cluster: the slots are shared out among the masters, and each master gets its slaves. */
module ClusterSetup {
  import opened Bytes
  import opened Decimal
  import opened Protocol
  import opened HashSlot
  import opened Coverage

  // ----- arithmetic of rows

  lemma AtLeastOnce(a: int, b: int)
    requires a >= 1 && b >= 0
    ensures a * b >= b
  {}

  lemma RowAndColumn(i: nat, w: nat, q: nat, o: nat)
    requires o < w && i == q * w + o
    ensures i / w == q && i % w == o
  {
    var d := i / w - q;
    assert d * w == (i / w) * w - q * w;
    if d > 0 {
      AtLeastOnce(d, w);
    } else if d < 0 {
      AtLeastOnce(0 - d, w);
    }
  }

  // ----- slots and batches

  /** The slots from `lo` up to `hi`, without `hi`. */
  function Interval(lo: int, hi: int): (r: seq<int>)
    ensures |r| == (if lo < hi then hi - lo else 0) && forall i :: 0 <= i < |r| ==> r[i] == lo + i
  {
    if lo < hi then seq(hi - lo, i => lo + i) else []
  }

  function Flatten(batches: seq<seq<int>>): seq<int> {
    if batches == [] then [] else Flatten(batches[..|batches| - 1]) + batches[|batches| - 1]
  }

  const BATCH := 100

  /** A server node: the slots of each ADDSLOTS command it has been sent, and the master it has been told
      to replicate. */
  datatype ClusterServer = ClusterServer(batches: seq<seq<int>>, master: Option<nat>)

  predicate SmallBatches(batches: seq<seq<int>>) {
    forall i :: 0 <= i < |batches| ==> 1 <= |batches[i]| <= BATCH
  }

  function SlotsOf(server: ClusterServer): seq<int> {
    Flatten(server.batches)
  }

  lemma FlattenAppended(batches: seq<seq<int>>, b: seq<int>)
    ensures Flatten(batches + [b]) == Flatten(batches) + b
  {
    assert (batches + [b])[..|batches|] == batches;
  }

  // ----- who gets what

  /** Where the share of master number `k` begins. */
  function Base(k: nat, slotsPerMaster: nat): nat {
    if k == 0 then 0 else Base(k - 1, slotsPerMaster) + slotsPerMaster
  }

  lemma {:induction false} BaseIsProduct(k: nat, slotsPerMaster: nat)
    ensures Base(k, slotsPerMaster) == k * slotsPerMaster
  {
    if k > 0 {
      BaseIsProduct(k - 1, slotsPerMaster);
    }
  }

  lemma {:induction false} BaseIncreases(j: nat, k: nat, slotsPerMaster: nat)
    requires j < k
    ensures Base(j, slotsPerMaster) + slotsPerMaster <= Base(k, slotsPerMaster)
  {
    if j < k - 1 {
      BaseIncreases(j, k - 1, slotsPerMaster);
    }
  }

  /** Every slot below the last base lies in the share of one master. */
  lemma {:induction false} ShareOf(slot: nat, k: nat, slotsPerMaster: nat) returns (m: nat)
    requires slot < Base(k, slotsPerMaster)
    ensures m < k && Base(m, slotsPerMaster) <= slot < Base(m + 1, slotsPerMaster)
  {
    if slot >= Base(k - 1, slotsPerMaster) {
      m := k - 1;
    } else {
      m := ShareOf(slot, k - 1, slotsPerMaster);
    }
  }

  lemma LastBase(masters: nat)
    requires 1 <= masters <= SLOTS
    ensures 1 <= SLOTS / masters && Base(masters, SLOTS / masters) <= SLOTS
  {
    BaseIsProduct(masters, SLOTS / masters);
  }

  class Cluster {
    const numMasters: nat
    const numSlavesPerMaster: nat
    var nodeArray: seq<ClusterServer>

    constructor (numMasters: nat, numSlavesPerMaster: nat)
      ensures this.numMasters == numMasters && this.numSlavesPerMaster == numSlavesPerMaster
      ensures |nodeArray| == numMasters * (1 + numSlavesPerMaster)
      ensures forall i :: 0 <= i < |nodeArray| ==> nodeArray[i] == ClusterServer([], None)
    {
      this.numMasters, this.numSlavesPerMaster := numMasters, numSlavesPerMaster;
      nodeArray := seq(numMasters + numSlavesPerMaster * numMasters, i => ClusterServer([], None));
    }

    method AddSlots(k: nat, minSlot: nat, maxSlot: nat)
      requires k < |nodeArray| && maxSlot < 0xFFFF_FFFF && SmallBatches(nodeArray[k].batches)
      modifies this`nodeArray
      ensures |nodeArray| == |old(nodeArray)|
      ensures nodeArray == old(nodeArray)[k := old(nodeArray)[k].(batches := nodeArray[k].batches)]
      ensures SlotsOf(nodeArray[k]) == SlotsOf(old(nodeArray)[k]) + Interval(minSlot, maxSlot + 1)
      ensures SmallBatches(nodeArray[k].batches)
    {
      hide Flatten, Interval;
      IntervalMeets(minSlot, minSlot, minSlot);
      var slot := minSlot;
      while slot <= maxSlot
        invariant minSlot <= slot && (slot <= maxSlot + 1 || slot == minSlot)
        invariant |nodeArray| == |old(nodeArray)|
        invariant nodeArray == old(nodeArray)[k := old(nodeArray)[k].(batches := nodeArray[k].batches)]
        invariant SlotsOf(nodeArray[k]) == SlotsOf(old(nodeArray)[k]) + Interval(minSlot, slot)
        invariant SmallBatches(nodeArray[k].batches)
        decreases maxSlot + 1 - slot
      {
        var batch, next := NextBatch(slot, maxSlot);
        FlattenAppended(nodeArray[k].batches, batch);
        IntervalMeets(minSlot, slot, next);
        nodeArray := nodeArray[k := nodeArray[k].(batches := nodeArray[k].batches + [batch])];
        slot := next;
      }
      IntervalEmpty(minSlot, maxSlot + 1);
    }

    /** Equal shares to the masters in turn. */
    method DistributeShares(slotsPerMaster: nat) returns (slotBase: nat)
      requires 1 <= numMasters && 1 <= slotsPerMaster && Base(numMasters, slotsPerMaster) <= SLOTS
      requires |nodeArray| == numMasters * (1 + numSlavesPerMaster)
      requires forall i :: 0 <= i < |nodeArray| ==> nodeArray[i] == ClusterServer([], None)
      modifies this`nodeArray
      ensures |nodeArray| == |old(nodeArray)| && slotBase == Base(numMasters, slotsPerMaster)
      ensures forall j :: 0 <= j < |nodeArray| ==>
        Served(nodeArray[j], Share(j, 1 + numSlavesPerMaster, slotsPerMaster))
    {
      hide *;
      slotBase := 0;
      ghost var w, q, o := 1 + numSlavesPerMaster, 0, 0;
      BaseSteps(0, slotsPerMaster);
      var i := 0;
      while i < |nodeArray|
        invariant 0 <= i <= |nodeArray| == |old(nodeArray)|
        invariant o < w && i == q * w + o && slotBase == Base(if o == 0 then q else q + 1, slotsPerMaster)
        invariant forall j :: 0 <= j < i ==> Served(nodeArray[j], Share(j, w, slotsPerMaster))
        invariant forall j :: i <= j < |nodeArray| ==> nodeArray[j] == ClusterServer([], None)
      {
        RowStep(i, w, q, o, numMasters, slotsPerMaster);
        if i % (1 + numSlavesPerMaster) == 0 {
          GiveShare(i, slotBase, slotBase + slotsPerMaster - 1);
          slotBase := slotBase + slotsPerMaster;
        } else {
          NoShare(nodeArray[i]);
        }
        q, o := if o + 1 == w then q + 1 else q, if o + 1 == w then 0 else o + 1;
        i := i + 1;
      }
      RowAndColumn(i, w, q, o);
      RowAndColumn(i, w, numMasters, 0);
    }

    method GiveShare(k: nat, minSlot: nat, maxSlot: nat)
      requires k < |nodeArray| && maxSlot < 0xFFFF_FFFF && nodeArray[k] == ClusterServer([], None)
      modifies this`nodeArray
      ensures |nodeArray| == |old(nodeArray)| && nodeArray == old(nodeArray)[k := nodeArray[k]]
      ensures Served(nodeArray[k], Interval(minSlot, maxSlot + 1))
    {
      hide Flatten, Interval;
      NothingYet();
      AddSlots(k, minSlot, maxSlot);
    }

    /** Step 6: equal shares to the masters in turn, and what is left over to the first. */
    method DistributeSlots()
      requires 1 <= numMasters <= SLOTS && |nodeArray| == numMasters * (1 + numSlavesPerMaster)
      requires forall i :: 0 <= i < |nodeArray| ==> nodeArray[i] == ClusterServer([], None)
      modifies this`nodeArray
      ensures Distributed(nodeArray, numMasters, numSlavesPerMaster)
      ensures forall i :: 0 <= i < |nodeArray| ==> nodeArray[i].master == None
    {
      hide Flatten, Interval, Base, Share;
      var totalSlots := SLOTS;
      var slotsPerMaster := totalSlots / numMasters;
      LastBase(numMasters);
      var slotBase := DistributeShares(slotsPerMaster);
      AtLeastOnce(numMasters, 1 + numSlavesPerMaster);
      if slotBase < totalSlots {
        AddSlots(0, slotBase, totalSlots - 1);
      } else {
        IntervalEmpty(slotBase, totalSlots);
      }
    }

    /** Step 7: the nodes behind a master replicate it. */
    method AssignReplicas()
      modifies this`nodeArray
      ensures |nodeArray| == |old(nodeArray)|
      ensures forall i :: 0 <= i < |nodeArray| ==>
        nodeArray[i] == old(nodeArray)[i].(master := MasterOf(i, numSlavesPerMaster, old(nodeArray)[i].master))
    {
      var i := 0;
      while i < |nodeArray|
        invariant 0 <= i <= |nodeArray| == |old(nodeArray)|
        invariant forall j :: 0 <= j < |nodeArray| ==>
          nodeArray[j] ==
          if j < i then old(nodeArray)[j].(master := MasterOf(j, numSlavesPerMaster, old(nodeArray)[j].master))
          else old(nodeArray)[j]
      {
        if i % (1 + numSlavesPerMaster) != 0 {
          var j := i - i % (1 + numSlavesPerMaster);
          nodeArray := nodeArray[i := nodeArray[i].(master := Some(j))];
        }
        i := i + 1;
      }
    }

    /** Steps 6 and 7. */
    method Setup()
      requires 1 <= numMasters <= SLOTS && |nodeArray| == numMasters * (1 + numSlavesPerMaster)
      requires forall i :: 0 <= i < |nodeArray| ==> nodeArray[i] == ClusterServer([], None)
      modifies this`nodeArray
      ensures Distributed(nodeArray, numMasters, numSlavesPerMaster)
      ensures Replicated(nodeArray, numSlavesPerMaster)
    {
      hide Flatten, Interval, Base, Share, Slots;
      DistributeSlots();
      ghost var before := nodeArray;
      AssignReplicas();
      assert forall i :: 0 <= i < |nodeArray| ==> SlotsOf(nodeArray[i]) == SlotsOf(before[i]);
    }
  }

  /** The node a slave is told to replicate. */
  function MasterOf(i: nat, slaves: nat, before: Option<nat>): Option<nat> {
    if i % (1 + slaves) == 0 then before else Some(i - i % (1 + slaves))
  }

  predicate Replicated(nodes: seq<ClusterServer>, slaves: nat) {
    forall i :: 0 <= i < |nodes| ==> nodes[i].master == MasterOf(i, slaves, None)
  }

  predicate Served(server: ClusterServer, slots: seq<int>) {
    SlotsOf(server) == slots && SmallBatches(server.batches) && server.master == None
  }

  lemma NoShare(server: ClusterServer)
    requires server == ClusterServer([], None)
    ensures Served(server, [])
  {}

  /** What is needed at node `i`, the `o`-th of row `q`, and where the next node is. */
  lemma RowStep(i: nat, w: nat, q: nat, o: nat, masters: nat, slotsPerMaster: nat)
    requires o < w && i == q * w + o < masters * w && 1 <= slotsPerMaster
    requires Base(masters, slotsPerMaster) <= SLOTS
    ensures i % w == o && i / w == q && (q + 1) * w == q * w + w
    ensures Base(q + 1, slotsPerMaster) == Base(q, slotsPerMaster) + slotsPerMaster <= 0x1_0000
    ensures Share(i, w, slotsPerMaster) ==
      if o == 0 then Interval(Base(q, slotsPerMaster), Base(q, slotsPerMaster) + slotsPerMaster) else []
  {
    RowAndColumn(i, w, q, o);
    RowsBelow(i, q, o, w, masters);
    BaseSteps(q, slotsPerMaster);
    BaseBelow(q, masters, slotsPerMaster);
  }

  /** The share of node `i`, before the remainder. */
  function Share(i: nat, w: nat, slotsPerMaster: nat): seq<int>
    requires w > 0
  {
    if i % w == 0 then Interval(Base(i / w, slotsPerMaster), Base(i / w + 1, slotsPerMaster)) else []
  }

  /** The slots node `i` is to have. */
  function Slots(i: nat, masters: nat, slaves: nat): seq<int>
    requires masters > 0
  {
    Share(i, 1 + slaves, SLOTS / masters) + (if i == 0 then Interval(Base(masters, SLOTS / masters), SLOTS) else [])
  }

  predicate Distributed(nodes: seq<ClusterServer>, masters: nat, slaves: nat) {
    && 1 <= masters <= SLOTS && |nodes| == masters * (1 + slaves)
    && forall i :: 0 <= i < |nodes| ==>
         SlotsOf(nodes[i]) == Slots(i, masters, slaves) && SmallBatches(nodes[i].batches)
  }

  lemma BaseSteps(k: nat, slotsPerMaster: nat)
    ensures Base(0, slotsPerMaster) == 0 && Base(k + 1, slotsPerMaster) == Base(k, slotsPerMaster) + slotsPerMaster
  {}

  lemma NothingYet()
    ensures SlotsOf(ClusterServer([], None)) == []
  {}

  lemma RowsBelow(i: nat, q: nat, o: nat, w: nat, rows: nat)
    requires i == q * w + o < rows * w
    ensures q < rows
  {
    if q >= rows {
      MulGrows(rows, q, w);
    }
  }

  lemma MulGrows(a: nat, b: nat, w: nat)
    requires a <= b
    ensures a * w <= b * w
  {}

  lemma BaseBelow(q: nat, masters: nat, slotsPerMaster: nat)
    requires q < masters
    ensures Base(q + 1, slotsPerMaster) <= Base(masters, slotsPerMaster)
  {
    BaseSteps(q, slotsPerMaster);
    BaseIncreases(q, masters, slotsPerMaster);
  }

  lemma FirstShare(w: nat, slotsPerMaster: nat)
    requires w > 0
    ensures Share(0, w, slotsPerMaster) == Interval(0, Base(1, slotsPerMaster))
  {
    RowAndColumn(0, w, 0, 0);
  }

  /** The slots of one command: as many as are left, at most 100. */
  method NextBatch(minSlot: nat, maxSlot: nat) returns (batch: seq<int>, slot: nat)
    requires minSlot <= maxSlot
    ensures minSlot < slot <= maxSlot + 1 && batch == Interval(minSlot, slot)
    ensures 1 <= |batch| <= BATCH && (|batch| == BATCH || slot == maxSlot + 1)
  {
    slot, batch := minSlot, [];
    var i := 0;
    while i < BATCH && slot <= maxSlot
      invariant 0 <= i <= BATCH && minSlot <= slot <= maxSlot + 1 && batch == Interval(minSlot, slot) && |batch| == i
    {
      batch := batch + [slot];
      slot := slot + 1;
      i := i + 1;
    }
  }

  lemma IntervalMeets(lo: int, mid: int, hi: int)
    requires lo <= mid <= hi
    ensures Interval(lo, mid) + Interval(mid, hi) == Interval(lo, hi) && Interval(lo, lo) == []
  {}

  lemma IntervalEmpty(lo: int, hi: int)
    ensures lo >= hi ==> Interval(lo, hi) == []
  {}

  // ----- what the setup amounts to

  /** The node that is to hold the slot, and the position of the slot there. */
  lemma Holder(slot: nat, masters: nat, slaves: nat) returns (i: nat, p: nat)
    requires 1 <= masters <= SLOTS && slot < SLOTS
    ensures i < masters * (1 + slaves) && p < |Slots(i, masters, slaves)| && Slots(i, masters, slaves)[p] == slot
  {
    var w, spm := 1 + slaves, SLOTS / masters;
    LastBase(masters);
    if slot >= Base(masters, spm) {
      FirstShare(w, spm);
      AtLeastOnce(masters, w);
      i, p := 0, |Share(0, w, spm)| + (slot - Base(masters, spm));
    } else {
      var m := ShareOf(slot, masters, spm);
      i := m * w;
      RowAndColumn(i, w, m, 0);
      MulGrows(m + 1, masters, w);
      p := slot - Base(m, spm);
    }
  }

  /** A node holds a slot at one position at most, and the slot tells which node and which position. */
  lemma SlotTellsNode(masters: nat, slaves: nat, i: nat, p: nat)
    requires 1 <= masters <= SLOTS && i < masters * (1 + slaves) && p < |Slots(i, masters, slaves)|
    ensures var w := 1 + slaves; var spm := SLOTS / masters; var slot := Slots(i, masters, slaves)[p];
      && 0 <= slot < SLOTS && i % w == 0
      && (if slot >= Base(masters, spm) then i == 0 && p == |Share(0, w, spm)| + (slot - Base(masters, spm))
          else i / w < masters && Base(i / w, spm) <= slot < Base(i / w + 1, spm) && p == slot - Base(i / w, spm))
  {
    var w, spm := 1 + slaves, SLOTS / masters;
    LastBase(masters);
    RowAndColumn(0, w, 0, 0);
    RowsBelow(i, i / w, i % w, w, masters);
    BaseSteps(i / w, spm);
    BaseBelow(i / w, masters, spm);
    if p >= |Share(i, w, spm)| {
      assert i == 0;
    }
  }

  lemma SameShare(slot: nat, m: nat, n: nat, slotsPerMaster: nat)
    requires Base(m, slotsPerMaster) <= slot < Base(m + 1, slotsPerMaster)
    requires Base(n, slotsPerMaster) <= slot < Base(n + 1, slotsPerMaster)
    ensures m == n
  {
    BaseSteps(m, slotsPerMaster);
    BaseSteps(n, slotsPerMaster);
    if m < n {
      BaseIncreases(m, n, slotsPerMaster);
    } else if n < m {
      BaseIncreases(n, m, slotsPerMaster);
    }
  }

  predicate IsAssigned(nodes: seq<ClusterServer>, slot: int) {
    exists i :: 0 <= i < |nodes| && slot in SlotsOf(nodes[i])
  }

  /** The node has a slot at this position. */
  predicate Holds(nodes: seq<ClusterServer>, i: int, p: int) {
    0 <= i < |nodes| && 0 <= p < |SlotsOf(nodes[i])|
  }

  /** Every slot is assigned to some node; nothing else is assigned; and no slot is assigned twice, to
      two nodes or twice to one. */
  lemma SlotsArePartitioned(nodes: seq<ClusterServer>, masters: nat, slaves: nat)
    requires Distributed(nodes, masters, slaves)
    ensures forall slot :: 0 <= slot < SLOTS ==> IsAssigned(nodes, slot)
    ensures forall i, p :: 0 <= i < |nodes| && 0 <= p < |SlotsOf(nodes[i])| ==> 0 <= SlotsOf(nodes[i])[p] < SLOTS
    ensures forall i, p, j, r :: Holds(nodes, i, p) && Holds(nodes, j, r) ==>
      SlotsOf(nodes[i])[p] == SlotsOf(nodes[j])[r] ==> i == j && p == r
  {
    hide Slots, SlotsOf, Share, Base;
    forall slot: int | 0 <= slot < SLOTS
      ensures IsAssigned(nodes, slot)
    {
      var i, p := Holder(slot, masters, slaves);
      assert SlotsOf(nodes[i])[p] == slot;
    }
    forall i, p | 0 <= i < |nodes| && 0 <= p < |SlotsOf(nodes[i])|
      ensures 0 <= SlotsOf(nodes[i])[p] < SLOTS
    {
      SlotTellsNode(masters, slaves, i, p);
    }
    forall i, p, j, r | Holds(nodes, i, p) && Holds(nodes, j, r) && SlotsOf(nodes[i])[p] == SlotsOf(nodes[j])[r]
      ensures i == j && p == r
    {
      HeldOnce(masters, slaves, i, p, j, r);
    }
  }

  lemma HeldOnce(masters: nat, slaves: nat, i: nat, p: nat, j: nat, r: nat)
    requires 1 <= masters <= SLOTS && i < masters * (1 + slaves) && j < masters * (1 + slaves)
    requires p < |Slots(i, masters, slaves)| && r < |Slots(j, masters, slaves)|
    requires Slots(i, masters, slaves)[p] == Slots(j, masters, slaves)[r]
    ensures i == j && p == r
  {
    hide Slots, Base, Share;
    var w, spm, slot := 1 + slaves, SLOTS / masters, Slots(i, masters, slaves)[p];
    SlotTellsNode(masters, slaves, i, p);
    SlotTellsNode(masters, slaves, j, r);
    if slot < Base(masters, spm) {
      SameShare(slot, i / w, j / w, spm);
      assert i == (i / w) * w + i % w && j == (j / w) * w + j % w;
    }
  }

  /** Which node has a slot: counting in equal shares, the master whose turn it is; the first for what is left
      over. Nobody else has it. */
  lemma WhoHasSlot(nodes: seq<ClusterServer>, masters: nat, slaves: nat, i: nat, slot: int)
    requires Distributed(nodes, masters, slaves) && i < |nodes|
    ensures slot in SlotsOf(nodes[i]) <==>
            && 0 <= slot < 16384
            && i == if slot < masters * (16384 / masters) then (slot / (16384 / masters)) * (1 + slaves) else 0
  {
    hide Slots, SlotsOf, Share, Base;
    var w, spm := 1 + slaves, SLOTS / masters;
    LastBase(masters);
    BaseIsProduct(masters, spm);
    if slot in SlotsOf(nodes[i]) {
      var p :| 0 <= p < |SlotsOf(nodes[i])| && SlotsOf(nodes[i])[p] == slot;
      HolderIs(masters, slaves, i, p);
    }
    if 0 <= slot < SLOTS {
      var h, q := Holder(slot, masters, slaves);
      HolderIs(masters, slaves, h, q);
      assert SlotsOf(nodes[h])[q] in SlotsOf(nodes[h]);
    }
  }

  lemma HolderIs(masters: nat, slaves: nat, i: nat, p: nat)
    requires 1 <= masters <= SLOTS && i < masters * (1 + slaves) && p < |Slots(i, masters, slaves)|
    ensures var slot, spm := Slots(i, masters, slaves)[p], SLOTS / masters;
      && 1 <= spm && 0 <= slot < SLOTS
      && i == if slot < masters * spm then (slot / spm) * (1 + slaves) else 0
  {
    hide Slots, Share, Base;
    var w, spm, slot := 1 + slaves, SLOTS / masters, Slots(i, masters, slaves)[p];
    LastBase(masters);
    BaseIsProduct(masters, spm);
    SlotTellsNode(masters, slaves, i, p);
    if slot < masters * spm {
      var k := i / w;
      BaseIsProduct(k, spm);
      BaseSteps(k, spm);
      RowAndColumn(slot, spm, k, slot - k * spm);
      assert i == k * w + i % w;
    }
  }

  // ----- replicas

  lemma {:induction false} RangeSize(lo: int, n: nat, s: set<int>)
    requires forall x :: x in s <==> lo <= x < lo + n
    ensures |s| == n
  {
    if n == 0 {
      assert forall x :: x in s ==> lo <= x < lo;
      assert s == {};
    } else {
      RangeSize(lo, n - 1, s - {lo + n - 1});
    }
  }

  lemma SlavesBehind(i: nat, j: nat, w: nat)
    requires w > 0 && j % w == 0
    ensures i % w != 0 && i - i % w == j <==> j < i < j + w
  {
    var q := j / w;
    if j < i < j + w {
      RowAndColumn(i, w, q, i - j);
    }
    assert i == (i / w) * w + i % w;
  }

  /** The start of a row is a master. */
  lemma RowStart(i: nat, w: nat)
    requires w > 0
    ensures 0 <= i - i % w <= i && (i - i % w) % w == 0
  {
    assert i == (i / w) * w + i % w;
    AtLeastOnceOrNone(i / w, w);
    RowAndColumn(i - i % w, w, i / w, 0);
  }

  lemma AtLeastOnceOrNone(a: nat, b: nat)
    ensures a * b >= 0
  {}

  /** A row that starts on the grid ends on it. */
  lemma RowFits(j: nat, w: nat, rows: nat)
    requires w > 0 && j % w == 0 && j < rows * w
    ensures j + w <= rows * w
  {
    var q := j / w;
    assert j == q * w + 0;
    RowsBelow(j, q, 0, w, rows);
    MulGrows(q + 1, rows, w);
  }

  function SlavesOf(nodes: seq<ClusterServer>, j: nat): set<int> {
    set i | 0 <= i < |nodes| && nodes[i].master == Some(j)
  }

  lemma SlaveOfMaster(nodes: seq<ClusterServer>, slaves: nat, j: nat, i: nat)
    requires Replicated(nodes, slaves) && i < |nodes| && j % (1 + slaves) == 0
    ensures nodes[i].master == Some(j) <==> j < i < j + 1 + slaves
  {
    SlavesBehind(i, j, 1 + slaves);
  }

  /** The slaves of a master are the nodes right behind it, as many as asked for. */
  lemma MasterHasItsSlaves(nodes: seq<ClusterServer>, masters: nat, slaves: nat, j: nat)
    requires |nodes| == masters * (1 + slaves) && Replicated(nodes, slaves)
    requires j < |nodes| && j % (1 + slaves) == 0
    ensures |SlavesOf(nodes, j)| == slaves
    ensures forall i :: i in SlavesOf(nodes, j) <==> j < i < j + 1 + slaves
  {
    hide Replicated;
    RowFits(j, 1 + slaves, masters);
    forall i
      ensures i in SlavesOf(nodes, j) <==> j + 1 <= i < j + 1 + slaves
    {
      if 0 <= i < |nodes| {
        SlaveOfMaster(nodes, slaves, j, i);
      }
    }
    RangeSize(j + 1, slaves, SlavesOf(nodes, j));
  }

  /** Nobody replicates a slave. */
  lemma SlaveHasNoSlaves(nodes: seq<ClusterServer>, slaves: nat, j: nat)
    requires Replicated(nodes, slaves) && j % (1 + slaves) != 0
    ensures SlavesOf(nodes, j) == {}
  {
    forall i: nat | i < |nodes|
      ensures nodes[i].master != Some(j)
    {
      RowStart(i, 1 + slaves);
    }
  }

  /** Masters replicate nobody, and what a slave replicates is a master in front of it. */
  lemma SlavesReplicateMasters(nodes: seq<ClusterServer>, slaves: nat, j: nat)
    requires Replicated(nodes, slaves) && j < |nodes|
    ensures match nodes[j].master
            case None => j % (1 + slaves) == 0
            case Some(m) => j % (1 + slaves) != 0 && m < j && m % (1 + slaves) == 0
  {
    RowStart(j, 1 + slaves);
  }

  /** Each master gets exactly its number of slaves, no slave is a master, and what a slave replicates
      is a master. */
  lemma MastersHaveTheirSlaves(nodes: seq<ClusterServer>, masters: nat, slaves: nat, j: nat)
    requires |nodes| == masters * (1 + slaves) && Replicated(nodes, slaves) && j < |nodes|
    ensures |SlavesOf(nodes, j)| == if j % (1 + slaves) == 0 then slaves else 0
    ensures nodes[j].master == None <==> j % (1 + slaves) == 0
    ensures nodes[j].master.Some? ==> nodes[j].master.value < j && nodes[j].master.value % (1 + slaves) == 0
  {
    hide Replicated, SlavesOf;
    if j % (1 + slaves) == 0 {
      MasterHasItsSlaves(nodes, masters, slaves, j);
    } else {
      SlaveHasNoSlaves(nodes, slaves, j);
    }
    SlavesReplicateMasters(nodes, slaves, j);
  }

  // ----- coverage

  /** The ranges name, each once, the slots the nodes have been given: whichever way they are cut. */
  ghost predicate Reports(ranges: seq<SlotRange>, nodes: seq<ClusterServer>) {
    && Forward(ranges) && Disjoint(ranges)
    && forall slot :: Covered(ranges, slot) <==> IsAssigned(nodes, slot)
  }

  /** After the setup the client's coverage check says yes. */
  lemma SetupIsCovered(ranges: seq<SlotRange>, nodes: seq<ClusterServer>, masters: nat, slaves: nat)
    requires Distributed(nodes, masters, slaves) && Reports(ranges, nodes)
    ensures HasFullCoverage(ranges)
  {
    hide SlotsOf, Slots, Covered, HasFullCoverage;
    SlotsArePartitioned(nodes, masters, slaves);
    forall slot
      ensures Covered(ranges, slot) <==> 0 <= slot < SLOTS
    {
      if Covered(ranges, slot) {
        var i :| 0 <= i < |nodes| && slot in SlotsOf(nodes[i]);
        var p :| 0 <= p < |SlotsOf(nodes[i])| && SlotsOf(nodes[i])[p] == slot;
      }
    }
    CoverageIsExact(ranges);
  }

  /** The ranges of the first `k` shares. */
  function ShareRanges(k: nat, slotsPerMaster: nat): (r: seq<SlotRange>)
    requires 1 <= slotsPerMaster && Base(k, slotsPerMaster) <= SLOTS
    ensures |r| == k
  {
    if k == 0 then []
    else ShareRanges(k - 1, slotsPerMaster) + [SlotRange(Base(k - 1, slotsPerMaster), Base(k, slotsPerMaster) - 1)]
  }

  /** The shares and the remainder, as the commands name them. */
  function SetupRanges(masters: nat): seq<SlotRange>
    requires 1 <= masters <= SLOTS
  {
    LastBase(masters);
    var rest := Base(masters, SLOTS / masters);
    ShareRanges(masters, SLOTS / masters) + (if rest < SLOTS then [SlotRange(rest, SLOTS - 1)] else [])
  }

  /** Ranges that cover just the slots below `limit`, each once. */
  predicate CoversBelow(ranges: seq<SlotRange>, limit: int) {
    Forward(ranges) && Disjoint(ranges) && (forall i :: 0 <= i < |ranges| ==> ranges[i].maxSlot < limit)
  }

  lemma CoversMore(ranges: seq<SlotRange>, limit: int, r: SlotRange, slot: int)
    requires CoversBelow(ranges, limit) && r.minSlot == limit <= r.maxSlot
    ensures CoversBelow(ranges + [r], r.maxSlot + 1)
    ensures Covered(ranges + [r], slot) <==> Covered(ranges, slot) || Contains(r, slot)
  {
    var after := ranges + [r];
    assert after[|ranges|] == r;
    if Covered(ranges, slot) {
      var i :| 0 <= i < |ranges| && Contains(ranges[i], slot);
      assert Contains(after[i], slot);
    }
    if Covered(after, slot) {
      var i :| 0 <= i < |after| && Contains(after[i], slot);
      if i < |ranges| {
        assert Contains(ranges[i], slot);
      }
    }
  }

  lemma {:induction false} SharesCover(k: nat, slotsPerMaster: nat, slot: int)
    requires 1 <= slotsPerMaster && Base(k, slotsPerMaster) <= SLOTS
    ensures CoversBelow(ShareRanges(k, slotsPerMaster), Base(k, slotsPerMaster))
    ensures Covered(ShareRanges(k, slotsPerMaster), slot) <==> 0 <= slot < Base(k, slotsPerMaster)
  {
    if k > 0 {
      SharesCover(k - 1, slotsPerMaster, slot);
      CoversMore(ShareRanges(k - 1, slotsPerMaster), Base(k - 1, slotsPerMaster),
                 SlotRange(Base(k - 1, slotsPerMaster), Base(k, slotsPerMaster) - 1), slot);
    }
  }

  /** The ranges that the setup hands out make the client's coverage check say yes. */
  lemma SetupRangesAreCovered(masters: nat)
    requires 1 <= masters <= SLOTS
    ensures HasFullCoverage(SetupRanges(masters))
  {
    hide HasFullCoverage, Covered, CoversBelow;
    LastBase(masters);
    var spm := SLOTS / masters;
    var shares, ranges := ShareRanges(masters, spm), SetupRanges(masters);
    forall slot
      ensures CoversBelow(ranges, SLOTS) && (Covered(ranges, slot) <==> 0 <= slot < SLOTS)
    {
      SharesCover(masters, spm, slot);
      if Base(masters, spm) < SLOTS {
        CoversMore(shares, Base(masters, spm), SlotRange(Base(masters, spm), SLOTS - 1), slot);
      } else {
        assert ranges == shares;
      }
    }
    assert Covered(ranges, 0);
    BelowMeans(ranges, SLOTS);
    CoverageIsExact(ranges);
  }

  lemma BelowMeans(ranges: seq<SlotRange>, limit: int)
    ensures CoversBelow(ranges, limit) ==> Forward(ranges) && Disjoint(ranges)
  {}

  // ----- the commands

  /** "CLUSTER ADDSLOTS" and the slots. */
  function AddSlotsText(batch: seq<int>): seq<byte> {
    if batch == [] then [67, 76, 85, 83, 84, 69, 82, 32, 65, 68, 68, 83, 76, 79, 84, 83]
    else AddSlotsText(batch[..|batch| - 1]) + [32] + Print(batch[|batch| - 1])
  }

  lemma SlotIsShort(slot: int)
    requires 0 <= slot < SLOTS
    ensures |Print(slot)| <= 5
  {
    var a, b, c, d := slot / 10, slot / 100, slot / 1000, slot / 10000;
    assert |Digits(d)| == 1;
    assert |Digits(c)| <= 2;
    assert |Digits(b)| <= 3;
    assert |Digits(a)| <= 4;
  }

  lemma {:induction false} TextIsShort(batch: seq<int>)
    requires forall i :: 0 <= i < |batch| ==> 0 <= batch[i] < SLOTS
    ensures |AddSlotsText(batch)| <= 16 + 6 * |batch|
  {
    if batch != [] {
      TextIsShort(batch[..|batch| - 1]);
      SlotIsShort(batch[|batch| - 1]);
    }
  }

  lemma {:induction false} BatchInFlatten(batches: seq<seq<int>>, b: nat, x: int)
    requires b < |batches| && x in batches[b]
    ensures x in Flatten(batches)
  {
    if b < |batches| - 1 {
      BatchInFlatten(batches[..|batches| - 1], b, x);
    }
  }

  /** Every ADDSLOTS command fits the 1024 bytes in which commands are put together. */
  lemma CommandsFit(nodes: seq<ClusterServer>, masters: nat, slaves: nat, i: nat, b: nat)
    requires Distributed(nodes, masters, slaves) && i < |nodes| && b < |nodes[i].batches|
    ensures |AddSlotsText(nodes[i].batches[b])| + 1 <= 1024
  {
    hide Slots, SlotsOf;
    SlotsArePartitioned(nodes, masters, slaves);
    var batch := nodes[i].batches[b];
    forall k | 0 <= k < |batch|
      ensures 0 <= batch[k] < SLOTS
    {
      InSlotsOf(nodes[i], b, batch[k]);
      var p :| 0 <= p < |SlotsOf(nodes[i])| && SlotsOf(nodes[i])[p] == batch[k];
      assert Holds(nodes, i, p);
    }
    TextIsShort(batch);
  }

  lemma InSlotsOf(server: ClusterServer, b: nat, x: int)
    requires b < |server.batches| && x in server.batches[b]
    ensures x in SlotsOf(server)
  {
    BatchInFlatten(server.batches, b, x);
  }
}
