/** Whatever the parser accepts is a normal tree. */
module Canonical {
  import opened Bytes
  import opened Decimal
  import opened Protocol
  import opened MapOrder
  import opened Shapes

  predicate NormalData(data: Data) {
    AllData(data, NormalNode, NormalTable) && (data.Attribute? || NormalNode(Node(None, data)))
  }

  predicate NormalPairs(pairs: seq<Pair>) {
    AllPairs(pairs, NormalNode, NormalTable)
  }

  lemma NormalFromParts(attribute: Option<Table>, data: Data)
    requires NormalData(data)
    requires attribute.Some? ==> AllTable(attribute.value, NormalNode, NormalTable)
    requires data.Attribute? ==> attribute.Some?
    ensures Normal(Node(attribute, data))
  {
    hide HasCrlf, AllDigits;
  }

  lemma {:induction false} NodeIsNormal(d: seq<byte>, pos: nat, errno: bool)
    requires pos <= |d| && ParseNode(d, pos, errno).Ok?
    ensures Normal(ParseNode(d, pos, errno).value)
    decreases |d| - pos, 1
  {
    hide ParseData, NormalData, Normal;
    var first := ParseData(d, pos, errno);
    DataIsNormal(d, pos, errno);
    if first.value.Attribute? {
      var table := first.value.attributeTable;
      AttributeIsNormal(table);
      DataIsNormal(d, first.pos, first.errno);
      NormalFromParts(Some(table), ParseData(d, first.pos, first.errno).value);
    } else {
      NormalFromParts(None, first.value);
    }
  }

  lemma AttributeIsNormal(table: Table)
    ensures NormalData(Attribute(table)) <==> AllTable(table, NormalNode, NormalTable)
    ensures NormalData(Map(table)) <==> AllTable(table, NormalNode, NormalTable)
  {
    hide AllTable;
  }

  lemma {:induction false} DataIsNormal(d: seq<byte>, pos: nat, errno: bool)
    requires pos <= |d| && ParseData(d, pos, errno).Ok?
    ensures NormalData(ParseData(d, pos, errno).value)
    decreases |d| - pos, 0
  {
    hide ParseLength, ParseText, ParseTable, ParseElements, AllTable, AllNodes, HasCrlf, AllDigits, Strtol, AbsorbAll;
    var b, p := d[pos], pos + 1;
    if b == 43 || b == 45 || b == 60 {
      TextIsNormal(d, p, p);
    } else if b == 42 || b == 126 || b == 62 {
      var length := ParseLength(d, p, errno, []);
      if length.value != Fixed(NULL_COUNT) {
        ElementsAreNormal(d, length.pos, length.errno, length.value);
      }
    } else if b == 37 || b == 124 {
      TableIsNormal(d, p, errno);
      AttributeIsNormal(ParseTable(d, p, errno).value);
    }
  }

  lemma {:induction false} TextIsNormal(d: seq<byte>, start: nat, pos: nat)
    requires start <= pos <= |d|
    requires forall i :: start <= i < pos && i + 1 < |d| ==> !(d[i] == CR && d[i + 1] == LF)
    ensures ParseText(d, start, pos).Ok? ==> !HasCrlf(ParseText(d, start, pos).value)
    decreases |d| - pos
  {
    if pos + 1 < |d| && !(d[pos] == CR && d[pos + 1] == LF) {
      TextIsNormal(d, start, pos + 1);
    }
  }

  lemma {:induction false} ElementsAreNormal(d: seq<byte>, pos: nat, errno: bool, length: Length)
    requires pos <= |d| && ParseElements(d, pos, errno, length).Ok?
    ensures AllNodes(ParseElements(d, pos, errno, length).value, NormalNode, NormalTable)
    decreases |d| - pos, 2
  {
    hide ParseNode, All;
    if length != Fixed(0) {
      var first := ParseNode(d, pos, errno);
      NodeIsNormal(d, pos, errno);
      if !(length.Streamed? && first.value.data.End?) {
        ElementsAreNormal(d, first.pos, first.errno, Fewer(length));
      }
    }
  }

  lemma {:induction false} PairsAreNormal(d: seq<byte>, pos: nat, errno: bool, length: Length)
    requires pos <= |d| && ParsePairs(d, pos, errno, length).Ok?
    ensures NormalPairs(ParsePairs(d, pos, errno, length).value)
    decreases |d| - pos, 2
  {
    hide ParseNode, All;
    if length != Fixed(0) {
      var key := ParseNode(d, pos, errno);
      NodeIsNormal(d, pos, errno);
      if !(length.Streamed? && key.value.data.End?) {
        var value := ParseNode(d, key.pos, key.errno);
        NodeIsNormal(d, key.pos, key.errno);
        PairsAreNormal(d, value.pos, value.errno, Fewer(length));
        var rest := ParsePairs(d, value.pos, value.errno, Fewer(length)).value;
        assert ([Pair(key.value, value.value)] + rest)[1..] == rest;
        assert AllPair(Pair(key.value, value.value), NormalNode, NormalTable);
      }
    }
  }

  lemma {:induction false} TableIsNormal(d: seq<byte>, pos: nat, errno: bool)
    requires pos <= |d| && ParseTable(d, pos, errno).Ok?
    ensures AllTable(ParseTable(d, pos, errno).value, NormalNode, NormalTable)
    decreases |d| - pos, 3
  {
    hide ParseLength, ParsePairs, AllPairs, AllFields, AbsorbAll, NormalTable;
    var length := ParseLength(d, pos, errno, []);
    var pairs := ParsePairs(d, length.pos, length.errno, length.value).value;
    PairsAreNormal(d, length.pos, length.errno, length.value);
    MapMeaning(pairs, []);
    assert AllPairs([], NormalNode, NormalTable) && AllFields([], NormalNode, NormalTable) by { EmptyShapes(); }
    AbsorbAllShapes(EMPTY_TABLE, pairs);
  }

  lemma EmptyShapes()
    ensures AllPairs([], NormalNode, NormalTable) && AllFields([], NormalNode, NormalTable)
  {}

  lemma {:induction false} AbsorbAllShapes(table: Table, pairs: seq<Pair>)
    requires AllPairs(table.pairs, NormalNode, NormalTable) && AllFields(table.fields, NormalNode, NormalTable)
    requires AllPairs(pairs, NormalNode, NormalTable)
    ensures AllPairs(AbsorbAll(table, pairs).pairs, NormalNode, NormalTable)
    ensures AllFields(AbsorbAll(table, pairs).fields, NormalNode, NormalTable)
    decreases |pairs|
  {
    hide All, StringKey, SetField;
    if pairs != [] {
      var pair := pairs[0];
      if StringKey(pair.key).Some? {
        SetFieldShapes(table.fields, StringKey(pair.key).value, pair.value);
      } else {
        AppendPairShapes(table.pairs, pair);
      }
      AbsorbAllShapes(Absorb(table, pair), pairs[1..]);
    }
  }

  lemma {:induction false} SetFieldShapes(fields: seq<Field>, name: seq<byte>, content: Node)
    requires AllFields(fields, NormalNode, NormalTable) && Normal(content)
    ensures AllFields(SetField(fields, name, content), NormalNode, NormalTable)
  {
    hide All;
    if fields != [] {
      SetFieldShapes(fields[1..], name, content);
    }
  }

  lemma {:induction false} AppendPairShapes(pairs: seq<Pair>, pair: Pair)
    requires AllPairs(pairs, NormalNode, NormalTable) && AllPair(pair, NormalNode, NormalTable)
    ensures AllPairs(pairs + [pair], NormalNode, NormalTable)
  {
    hide AllPair;
    if pairs == [] {
      assert AllPairs([pair][1..], NormalNode, NormalTable);
    } else {
      assert (pairs + [pair])[1..] == pairs[1..] + [pair];
      AppendPairShapes(pairs[1..], pair);
    }
  }
}
