/** A set `errno` makes every printed zero count unreadable: the parser takes it for a failed
    conversion. */
module StaleErrno {
  import opened Bytes
  import opened Decimal
  import opened Protocol
  import opened MapOrder
  import opened Shapes
  import opened RoundTrip

  /** What is left of `ReadableData` when zero counts are allowed. */
  lemma ZeroFreeDataMeans(node: Node)
    ensures ZeroFree(node) <==>
      && (node.attribute.Some? ==> AllTable(node.attribute.value, ZeroFreeNode, ZeroFreeTable))
      && ZeroFreeData(node.data)
  {}

  predicate ZeroFreeData(data: Data) {
    AllData(data, ZeroFreeNode, ZeroFreeTable) && ZeroFreeNode(Node(None, data))
  }

  lemma ReadableDataWithErrno(data: Data)
    ensures ReadableData(data, true) <==> ReadableData(data, false) && ZeroFreeData(data)
  {
    hide AllData, NormalNode, PrintableNode, ZeroFreeNode;
  }

  lemma ReadableWithErrno(node: Node)
    ensures Readable(node, true) <==> Readable(node, false) && ZeroFree(node)
  {
    hide All;
  }

  lemma ZeroFreeAttribute(table: Table)
    ensures ZeroFreeData(Attribute(table)) <==> AllTable(table, ZeroFreeNode, ZeroFreeTable)
    ensures ZeroFreeData(Map(table)) <==> AllTable(table, ZeroFreeNode, ZeroFreeTable)
  {
    hide AllTable;
  }

  lemma FirstDataRejected(d: seq<byte>, pos: nat)
    requires pos <= |d| && ParseData(d, pos, true) == Err(Rejected)
    ensures ParseNode(d, pos, true) == Err(Rejected)
  {}

  lemma SecondDataRejected(d: seq<byte>, pos: nat, table: Table, p: nat)
    requires pos <= |d| && ParseData(d, pos, true) == Ok(Attribute(table), p, true)
    requires p <= |d| && ParseData(d, p, true) == Err(Rejected)
    ensures ParseNode(d, pos, true) == Err(Rejected)
  {}

  lemma {:induction false} NodeRejected(d: seq<byte>, pos: nat, node: Node)
    requires Readable(node, false) && !ZeroFree(node)
    requires At(d, pos, EncodeNode(node))
    ensures ParseNode(d, pos, true) == Err(Rejected)
    decreases |d| - pos, 1
  {
    hide *;
    var data := node.data;
    ReadableParts(node, false);
    ZeroFreeDataMeans(node);
    AtBounds(d, pos, EncodeNode(node));
    match node.attribute
    case None =>
      EncodePlain(data);
      DataRejected(d, pos, data);
      FirstDataRejected(d, pos);
    case Some(table) =>
      var before, after := EncodeData(Attribute(table)), EncodeData(data);
      EncodeAttributed(table, data);
      RereadAttribute(table);
      ZeroFreeAttribute(table);
      AtSplit(d, pos, before, after);
      AtBounds(d, pos, before);
      if ZeroFreeData(Attribute(table)) {
        ReadableDataWithErrno(Attribute(table));
        DataBack(d, pos, true, Attribute(table));
        DataRejected(d, pos + |before|, data);
        SecondDataRejected(d, pos, RereadTable(table), pos + |before|);
      } else {
        DataRejected(d, pos, Attribute(table));
        FirstDataRejected(d, pos);
      }
  }

  lemma {:induction false} DataRejected(d: seq<byte>, pos: nat, data: Data)
    requires ReadableData(data, false) && !ZeroFreeData(data)
    requires At(d, pos, EncodeData(data))
    ensures pos < |d| && ParseData(d, pos, true) == Err(Rejected)
    decreases |d| - pos, 0
  {
    hide ParseData, At, EncodeAll, EncodeTable, EncodeBlob, CountLine, ParseLength, ParseBlob, ParseAggregate,
         ParseTable, Print, AllNodes, AllTable, NormalNode;
    AtHead(d, pos, EncodeData(data));
    assert EncodeData(data)[1..] == EncodeBody(data);
    match data
    case Blob(kind, bytes) =>
      BlobDispatch(d, pos, true, kind);
      BlobBack(d, pos + 1, true, kind, bytes);
    case Aggregate(kind, elements) =>
      ArrayDispatch(d, pos, true, kind);
      AggregateRejected(d, pos + 1, kind, elements);
    case Map(table) =>
      MapDispatch(d, pos, true);
      TableRejected(d, pos + 1, table);
    case Attribute(table) =>
      MapDispatch(d, pos, true);
      TableRejected(d, pos + 1, table);
  }

  lemma {:induction false} AggregateRejected(d: seq<byte>, pos: nat, kind: ArrayKind, elements: seq<Node>)
    requires ReadableData(Aggregate(kind, elements), false)
    requires elements == [] || !AllNodes(elements, ZeroFreeNode, ZeroFreeTable)
    requires At(d, pos, CountLine(|elements|) + EncodeAll(elements))
    ensures ParseAggregate(d, pos, true, kind) == Err(Rejected)
    decreases |d| - pos, 3
  {
    hide At, EncodeAll, ParseLength, ParseElements, AllNodes;
    AtSplit(d, pos, CountLine(|elements|), EncodeAll(elements));
    CountBack(d, pos, true, |elements|);
    if elements != [] {
      ElementsRejected(d, pos + |CountLine(|elements|)|, elements);
    }
  }

  lemma {:induction false} ElementsRejected(d: seq<byte>, pos: nat, nodes: seq<Node>)
    requires AllNodes(nodes, NormalNode, NormalTable)
    requires AllNodes(nodes, PrintableNode, PrintableTable)
    requires !AllNodes(nodes, ZeroFreeNode, ZeroFreeTable)
    requires At(d, pos, EncodeAll(nodes))
    ensures ParseElements(d, pos, true, Fixed(|nodes|)) == Err(Rejected)
    decreases |d| - pos, 2
  {
    hide EncodeNode, ParseNode, At, Reread, All;
    var first := EncodeNode(nodes[0]);
    AtSplit(d, pos, first, EncodeAll(nodes[1..]));
    AtBounds(d, pos, first);
    ReadableWithErrno(nodes[0]);
    if ZeroFree(nodes[0]) {
      NodeBack(d, pos, true, nodes[0]);
      ElementsRejected(d, pos + |first|, nodes[1..]);
    } else {
      NodeRejected(d, pos, nodes[0]);
    }
  }

  predicate ZeroFreePairs(pairs: seq<Pair>) {
    forall i :: 0 <= i < |pairs| ==> ZeroFree(pairs[i].key) && ZeroFree(pairs[i].value)
  }

  lemma {:induction false} PairsRejected(d: seq<byte>, pos: nat, pairs: seq<Pair>)
    requires ReadablePairs(pairs, false) && !ZeroFreePairs(pairs)
    requires At(d, pos, EncodePairs(pairs))
    ensures ParsePairs(d, pos, true, Fixed(|pairs|)) == Err(Rejected)
    decreases |d| - pos, 2
  {
    hide EncodeNode, ParseNode, At, Reread, Readable, ZeroFree;
    var pair := pairs[0];
    var key, value := EncodeNode(pair.key), EncodeNode(pair.value);
    AtSplit(d, pos, key + value, EncodePairs(pairs[1..]));
    AtSplit(d, pos, key, value);
    AtBounds(d, pos, key);
    AtBounds(d, pos + |key|, value);
    ReadableWithErrno(pair.key);
    ReadableWithErrno(pair.value);
    if !ZeroFree(pair.key) {
      NodeRejected(d, pos, pair.key);
    } else {
      NodeBack(d, pos, true, pair.key);
      if !ZeroFree(pair.value) {
        NodeRejected(d, pos + |key|, pair.value);
      } else {
        NodeBack(d, pos + |key|, true, pair.value);
        assert ZeroFreePairs(pairs[1..]) ==> ZeroFreePairs(pairs);
        PairsRejected(d, pos + |key| + |value|, pairs[1..]);
      }
    }
  }

  lemma {:induction false} TableRejected(d: seq<byte>, pos: nat, table: Table)
    requires ReadableTable(table, false) && !AllTable(table, ZeroFreeNode, ZeroFreeTable)
    requires At(d, pos, EncodeTable(table))
    ensures ParseTable(d, pos, true) == Err(Rejected)
    decreases |d| - pos, 3
  {
    hide Print, EncodePairs, EncodeFields, ParseLength, ParsePairs, At, AllPairs, AllFields,
      NoStringKeys, Sorted, AbsorbAll, ZeroFreePairs;
    var count := |table.pairs| + |table.fields|;
    var all := table.pairs + FieldPairs(table.fields);
    AtSplit(d, pos, CountLine(count), EncodePairs(table.pairs) + EncodeFields(table.fields));
    CountBack(d, pos, true, count);
    if count > 0 {
      EncodeFieldPairs(table.fields);
      EncodePairsAppend(table.pairs, FieldPairs(table.fields));
      TableIsReadable(table, false);
      ZeroFreeFromPairs(table);
      PairsRejected(d, pos + |CountLine(count)|, all);
    }
  }

  lemma ZeroFreeFromPairs(table: Table)
    requires |table.pairs| + |table.fields| > 0
    ensures ZeroFreePairs(table.pairs + FieldPairs(table.fields)) ==> AllTable(table, ZeroFreeNode, ZeroFreeTable)
  {
    hide AllPairs, AllFields, All;
    var all := table.pairs + FieldPairs(table.fields);
    if ZeroFreePairs(all) {
      forall i | 0 <= i < |table.pairs|
        ensures AllPair(table.pairs[i], ZeroFreeNode, ZeroFreeTable)
      {
        assert all[i] == table.pairs[i];
      }
      forall i | 0 <= i < |table.fields|
        ensures AllField(table.fields[i], ZeroFreeNode, ZeroFreeTable) && table.fields[i].name != []
      {
        assert all[|table.pairs| + i] == FieldPairs(table.fields)[i];
        EmptyNameIsNotZeroFree(table.fields[i].name);
      }
      AllPairsFrom(table.pairs, ZeroFreeNode, ZeroFreeTable);
      AllFieldsFrom(table.fields, ZeroFreeNode, ZeroFreeTable);
    }
  }

  lemma EmptyNameIsNotZeroFree(name: seq<byte>)
    ensures ZeroFree(Node(None, Blob(BlobString, name))) ==> name != []
  {}

  lemma {:induction false} AllPairsFrom(pairs: seq<Pair>, p: Node -> bool, q: Table -> bool)
    requires forall i :: 0 <= i < |pairs| ==> AllPair(pairs[i], p, q)
    ensures AllPairs(pairs, p, q)
  {
    if pairs != [] {
      AllPairsFrom(pairs[1..], p, q);
    }
  }

  lemma {:induction false} AllFieldsFrom(fields: seq<Field>, p: Node -> bool, q: Table -> bool)
    requires forall i :: 0 <= i < |fields| ==> AllField(fields[i], p, q)
    ensures AllFields(fields, p, q)
  {
    if fields != [] {
      AllFieldsFrom(fields[1..], p, q);
    }
  }
}
