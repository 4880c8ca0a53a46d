/** The printer as the client runs it: it stops at the first failed write, so what has been sent is
    always a prefix of the tree's encoding. */
module ProtocolPrinter {
  import opened Bytes
  import opened Decimal
  import opened Protocol
  import opened Shapes
  import opened RoundTrip
  import opened ByteStreams

  /** The bytes were all taken, or the connection broke after the part it could take. */
  ghost predicate Offered(before: seq<byte>, bytes: seq<byte>, limit: nat, after: seq<byte>, ok: bool) {
    (ok <==> |before + bytes| <= limit) && after == Sent(before, bytes, limit)
  }

  lemma OfferedTwice(before: seq<byte>, a: seq<byte>, middle: seq<byte>, b: seq<byte>, limit: nat, after: seq<byte>,
                     ok: bool)
    requires |before| <= limit
    requires Offered(before, a, limit, middle, true) && Offered(middle, b, limit, after, ok)
    ensures Offered(before, a + b, limit, after, ok)
  {
    SentTwice(before, a, b, limit);
    assert middle == before + a;
    assert before + (a + b) == before + a + b;
  }

  lemma OfferedInVain(before: seq<byte>, a: seq<byte>, after: seq<byte>, b: seq<byte>, limit: nat)
    requires |before| <= limit && Offered(before, a, limit, after, false)
    ensures Offered(before, a + b, limit, after, false)
  {
    SentTwice(before, a, b, limit);
    assert |before + (a + b)| == |before + a| + |b|;
  }

  lemma OfferedNothing(before: seq<byte>, limit: nat)
    requires |before| <= limit
    ensures Offered(before, [], limit, before, true)
  {
    assert before + [] == before;
  }

  /** One more piece offered after a first part that was taken whole; `whole` is everything. */
  lemma OfferedNext(before: seq<byte>, done: seq<byte>, middle: seq<byte>, piece: seq<byte>, rest: seq<byte>,
                    whole: seq<byte>, limit: nat, after: seq<byte>, ok: bool)
    requires |before| <= limit && whole == done + (piece + rest)
    requires Offered(before, done, limit, middle, true) && Offered(middle, piece, limit, after, ok)
    ensures ok ==> Offered(before, done + piece, limit, after, true) && whole == done + piece + rest
    ensures !ok ==> Offered(before, whole, limit, after, false)
  {
    OfferedTwice(before, done, middle, piece, limit, after, ok);
    assert whole == done + piece + rest;
    if !ok {
      OfferedInVain(before, done + piece, after, rest, limit);
    }
  }

  predicate PrintableData(data: Data) {
    PrintableNode(Node(None, data)) && AllData(data, PrintableNode, PrintableTable)
  }

  predicate PrintableAll(nodes: seq<Node>) {
    AllNodes(nodes, PrintableNode, PrintableTable)
  }

  predicate PrintableMap(table: Table) {
    AllTable(table, PrintableNode, PrintableTable)
  }

  lemma PrintableParts(node: Node)
    requires Printable(node)
    ensures PrintableData(node.data)
    ensures node.attribute.Some? ==> PrintableData(Attribute(node.attribute.value))
  {
    hide AllTable, AllNodes, CString;
  }

  lemma CountLineIsShort(count: nat)
    requires count <= MAX_COUNT
    ensures |CountLine(count)| < 1024
  {
    PrintShape(count);
  }

  lemma NumberLineIsShort(n: long)
    ensures |Print(n) + CRLF| < 1024
  {
    var m := if n < 0 then 0 - n else n;
    assert Power10(5) == 100000;
    assert Power10(10) == 10000000000;
    assert Power10(15) == 1000000000000000;
    assert Power10(20) == 100000000000000000000;
    DigitsLength(m, 20, 100000000000000000000);
  }

  lemma OfferedMeans(before: seq<byte>, bytes: seq<byte>, limit: nat, after: seq<byte>, ok: bool)
    requires ok <==> |before + bytes| <= limit
    requires after == Sent(before, bytes, limit)
    ensures Offered(before, bytes, limit, after, ok)
  {}

  /** `WriteFormat`, in the vocabulary of this module. */
  method Format(s: SocketStream, text: seq<byte>) returns (ok: bool)
    requires s.Valid() && |text| < 1024
    modifies s`written
    ensures s.Valid() && Offered(old(s.written), text, s.limit, s.written, ok)
  {
    ok := s.WriteFormat(text);
  }

  method PrintTree(s: SocketStream, node: Node) returns (ok: bool)
    requires s.Valid() && Printable(node)
    modifies s`written
    ensures s.Valid() && Offered(old(s.written), EncodeNode(node), s.limit, s.written, ok)
    decreases node, 1
  {
    PrintableParts(node);
    ghost var before, data := s.written, EncodeData(node.data);
    if node.attribute.Some? {
      var table := node.attribute.value;
      ghost var attribute := [124] + EncodeTable(table);
      assert EncodeNode(node) == attribute + data;
      hide EncodeNode, EncodeTable, EncodeData, Offered, PrintableData, PrintableMap;
      ok := Format(s, [124]);
      if !ok {
        OfferedInVain(before, [124], s.written, EncodeTable(table), s.limit);
        OfferedInVain(before, attribute, s.written, data, s.limit);
        return false;
      }
      ghost var middle := s.written;
      ok := PrintTable(s, table);
      OfferedTwice(before, [124], middle, EncodeTable(table), s.limit, s.written, ok);
      if !ok {
        OfferedInVain(before, attribute, s.written, data, s.limit);
        return false;
      }
      middle := s.written;
      ok := PrintDataType(s, node.data);
      OfferedTwice(before, attribute, middle, data, s.limit, s.written, ok);
    } else {
      assert EncodeNode(node) == data;
      ok := PrintDataType(s, node.data);
    }
  }

  method PrintDataType(s: SocketStream, data: Data) returns (ok: bool)
    requires s.Valid() && PrintableData(data)
    modifies s`written
    ensures s.Valid() && Offered(old(s.written), EncodeData(data), s.limit, s.written, ok)
    decreases data, 1
  {
    hide Offered, EncodeBody, PrintableData;
    ghost var before, body := s.written, EncodeBody(data);
    ok := Format(s, [Discriminant(data)]);
    if !ok {
      OfferedInVain(before, [Discriminant(data)], s.written, body, s.limit);
      return false;
    }
    ghost var middle := s.written;
    ok := PrintBody(s, data);
    OfferedTwice(before, [Discriminant(data)], middle, body, s.limit, s.written, ok);
  }

  method PrintBody(s: SocketStream, data: Data) returns (ok: bool)
    requires s.Valid() && PrintableData(data)
    modifies s`written
    ensures s.Valid() && Offered(old(s.written), EncodeBody(data), s.limit, s.written, ok)
    decreases data, 0
  {
    hide Offered, EncodeAll, EncodeTable, EncodeBlob, Print, CString, AllNodes, AllTable;
    match data {
      case Blob(_, bytes) => ok := PrintBlob(s, bytes);
      case NullBlob(_) =>
        NumberLineIsShort(-1);
        ok := Format(s, Print(-1) + CRLF);
      case Text(_, text) => ok := Format(s, CString(text) + CRLF);
      case Number(number) =>
        NumberLineIsShort(number);
        ok := Format(s, Print(number) + CRLF);
      case Boolean(truth) => ok := Format(s, [if truth then 116 else 102] + CRLF);
      case Null => ok := Format(s, CRLF);
      case End => ok := Format(s, CRLF);
      case Aggregate(_, elements) => ok := PrintArray(s, elements);
      case NullAggregate(_) =>
        NumberLineIsShort(-1);
        ok := Format(s, Print(-1) + CRLF);
      case Map(table) => ok := PrintTable(s, table);
      case Attribute(table) => ok := PrintTable(s, table);
    }
  }

  method PrintBlob(s: SocketStream, bytes: seq<byte>) returns (ok: bool)
    requires s.Valid() && |bytes| <= MAX_COUNT
    modifies s`written
    ensures s.Valid() && Offered(old(s.written), EncodeBlob(bytes), s.limit, s.written, ok)
  {
    CountLineIsShort(|bytes|);
    hide CountLine;
    ghost var before, whole := s.written, EncodeBlob(bytes);
    var count := CountLine(|bytes|);
    ok := Format(s, count);
    hide Offered;
    if !ok {
      OfferedInVain(before, count, s.written, bytes + CRLF, s.limit);
      return false;
    }
    ghost var middle := s.written;
    ok := s.WriteBufferNow(bytes);
    OfferedMeans(middle, bytes, s.limit, s.written, ok);
    OfferedNext(before, count, middle, bytes, CRLF, whole, s.limit, s.written, ok);
    if !ok {
      return false;
    }
    middle := s.written;
    ok := Format(s, CRLF);
    OfferedTwice(before, count + bytes, middle, CRLF, s.limit, s.written, ok);
  }

  method PrintArray(s: SocketStream, elements: seq<Node>) returns (ok: bool)
    requires s.Valid() && PrintableAll(elements) && |elements| <= MAX_COUNT
    modifies s`written
    ensures s.Valid() && Offered(old(s.written), CountLine(|elements|) + EncodeAll(elements), s.limit, s.written, ok)
    decreases elements
  {
    CountLineIsShort(|elements|);
    hide Offered, CountLine, EncodeNode, Printable;
    ghost var before, whole := s.written, CountLine(|elements|) + EncodeAll(elements);
    ok := Format(s, CountLine(|elements|));
    if !ok {
      OfferedInVain(before, CountLine(|elements|), s.written, EncodeAll(elements), s.limit);
      return false;
    }
    ghost var done := CountLine(|elements|);
    assert elements[0..] == elements;
    var i := 0;
    while i < |elements|
      invariant 0 <= i <= |elements| && s.Valid()
      invariant Offered(before, done, s.limit, s.written, true)
      invariant whole == done + EncodeAll(elements[i..])
      invariant PrintableAll(elements[i..])
    {
      ghost var middle, piece, rest := s.written, EncodeNode(elements[i]), EncodeAll(elements[i + 1..]);
      assert elements[i..][0] == elements[i] && elements[i..][1..] == elements[i + 1..];
      ok := PrintTree(s, elements[i]);
      OfferedNext(before, done, middle, piece, rest, whole, s.limit, s.written, ok);
      if !ok {
        return false;
      }
      done := done + piece;
      i := i + 1;
    }
    assert whole == done;
    return true;
  }

  method PrintPair(s: SocketStream, pair: Pair) returns (ok: bool)
    requires s.Valid() && AllPair(pair, PrintableNode, PrintableTable)
    modifies s`written
    ensures s.Valid() && Offered(old(s.written), EncodePair(pair), s.limit, s.written, ok)
    decreases pair
  {
    hide Offered, EncodeNode, All;
    ghost var before := s.written;
    ok := PrintTree(s, pair.key);
    if !ok {
      OfferedInVain(before, EncodeNode(pair.key), s.written, EncodeNode(pair.value), s.limit);
      return false;
    }
    ghost var middle := s.written;
    ok := PrintTree(s, pair.value);
    OfferedTwice(before, EncodeNode(pair.key), middle, EncodeNode(pair.value), s.limit, s.written, ok);
  }

  /** A field is printed as a blob string followed by its value. */
  method PrintField(s: SocketStream, field: Field) returns (ok: bool)
    requires s.Valid() && AllField(field, PrintableNode, PrintableTable) && |field.name| <= MAX_COUNT
    modifies s`written
    ensures s.Valid() && Offered(old(s.written), EncodeField(field), s.limit, s.written, ok)
    decreases field
  {
    hide Offered, EncodeNode, EncodeBlob, All;
    ghost var before, whole := s.written, EncodeField(field);
    ghost var name, content := EncodeBlob(field.name), EncodeNode(field.content);
    assert whole == [36] + (name + content);
    ok := Format(s, [36]);
    if !ok {
      OfferedInVain(before, [36], s.written, name + content, s.limit);
      return false;
    }
    ghost var middle := s.written;
    ok := PrintBlob(s, field.name);
    OfferedNext(before, [36], middle, name, content, whole, s.limit, s.written, ok);
    if !ok {
      return false;
    }
    middle := s.written;
    ok := PrintTree(s, field.content);
    OfferedTwice(before, [36] + name, middle, content, s.limit, s.written, ok);
  }

  method PrintPairs(s: SocketStream, pairs: seq<Pair>) returns (ok: bool)
    requires s.Valid() && AllPairs(pairs, PrintableNode, PrintableTable)
    modifies s`written
    ensures s.Valid() && Offered(old(s.written), EncodePairs(pairs), s.limit, s.written, ok)
    decreases pairs
  {
    hide Offered, EncodePair, AllPair;
    ghost var before, whole, done := s.written, EncodePairs(pairs), [];
    OfferedNothing(before, s.limit);
    assert pairs[0..] == pairs && [] + whole == whole;
    var i := 0;
    while i < |pairs|
      invariant 0 <= i <= |pairs| && s.Valid()
      invariant Offered(before, done, s.limit, s.written, true)
      invariant whole == done + EncodePairs(pairs[i..])
      invariant AllPairs(pairs[i..], PrintableNode, PrintableTable)
    {
      ghost var middle, piece, rest := s.written, EncodePair(pairs[i]), EncodePairs(pairs[i + 1..]);
      assert pairs[i..][0] == pairs[i] && pairs[i..][1..] == pairs[i + 1..];
      ok := PrintPair(s, pairs[i]);
      OfferedNext(before, done, middle, piece, rest, whole, s.limit, s.written, ok);
      if !ok {
        return false;
      }
      done := done + piece;
      i := i + 1;
    }
    assert whole == done;
    return true;
  }

  method PrintFields(s: SocketStream, fields: seq<Field>) returns (ok: bool)
    requires s.Valid() && AllFields(fields, PrintableNode, PrintableTable)
    requires forall i :: 0 <= i < |fields| ==> |fields[i].name| <= MAX_COUNT
    modifies s`written
    ensures s.Valid() && Offered(old(s.written), EncodeFields(fields), s.limit, s.written, ok)
    decreases fields
  {
    hide Offered, EncodeField, AllField;
    ghost var before, whole, done := s.written, EncodeFields(fields), [];
    OfferedNothing(before, s.limit);
    assert fields[0..] == fields && [] + whole == whole;
    var i := 0;
    while i < |fields|
      invariant 0 <= i <= |fields| && s.Valid()
      invariant Offered(before, done, s.limit, s.written, true)
      invariant whole == done + EncodeFields(fields[i..])
      invariant AllFields(fields[i..], PrintableNode, PrintableTable)
    {
      ghost var middle, piece, rest := s.written, EncodeField(fields[i]), EncodeFields(fields[i + 1..]);
      assert fields[i..][0] == fields[i] && fields[i..][1..] == fields[i + 1..];
      ok := PrintField(s, fields[i]);
      OfferedNext(before, done, middle, piece, rest, whole, s.limit, s.written, ok);
      if !ok {
        return false;
      }
      done := done + piece;
      i := i + 1;
    }
    assert whole == done;
    return true;
  }

  method PrintTable(s: SocketStream, table: Table) returns (ok: bool)
    requires s.Valid() && PrintableMap(table)
    modifies s`written
    ensures s.Valid() && Offered(old(s.written), EncodeTable(table), s.limit, s.written, ok)
    decreases table
  {
    var count := |table.pairs| + |table.fields|;
    CountLineIsShort(count);
    hide Offered, CountLine, EncodePairs, EncodeFields, AllPairs, AllFields;
    ghost var before, whole := s.written, EncodeTable(table);
    ghost var head, pairs, fields := CountLine(count), EncodePairs(table.pairs), EncodeFields(table.fields);
    ok := Format(s, CountLine(count));
    if !ok {
      OfferedInVain(before, head, s.written, pairs + fields, s.limit);
      return false;
    }
    ghost var middle := s.written;
    ok := PrintPairs(s, table.pairs);
    OfferedNext(before, head, middle, pairs, fields, whole, s.limit, s.written, ok);
    if !ok {
      return false;
    }
    middle := s.written;
    ok := PrintFields(s, table.fields);
    OfferedTwice(before, head + pairs, middle, fields, s.limit, s.written, ok);
  }
}
