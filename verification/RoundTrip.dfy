/** Parsing what was printed: every normal, printable tree comes back as `Reread` says, with exactly
    its own bytes consumed, unless `errno` is set and a zero count was printed. */
module RoundTrip {
  import opened Bytes
  import opened Decimal
  import opened Protocol
  import opened MapOrder
  import opened Shapes

  /** The bytes `s` stand at position `pos` of `d`. */
  predicate At(d: seq<byte>, pos: nat, s: seq<byte>) {
    pos + |s| <= |d| && d[pos..pos + |s|] == s
  }

  lemma AtSplit(d: seq<byte>, pos: nat, a: seq<byte>, b: seq<byte>)
    ensures At(d, pos, a + b) <==> At(d, pos, a) && At(d, pos + |a|, b)
  {
    if At(d, pos, a + b) {
      assert d[pos..pos + |a|] == (a + b)[..|a|];
      assert d[pos + |a|..pos + |a| + |b|] == (a + b)[|a|..];
    }
  }

  lemma AtCrlf(d: seq<byte>, pos: nat)
    ensures At(d, pos, CRLF) <==> ParseCrlf(d, pos)
  {
    if pos + 2 <= |d| {
      assert d[pos..pos + 2] == [d[pos], d[pos + 1]];
    }
  }

  lemma AtBounds(d: seq<byte>, pos: nat, s: seq<byte>)
    requires At(d, pos, s)
    ensures pos + |s| <= |d|
  {}

  lemma AtSlice(d: seq<byte>, pos: nat, s: seq<byte>)
    requires At(d, pos, s)
    ensures pos + |s| <= |d| && d[pos..pos + |s|] == s
  {}

  lemma AtHead(d: seq<byte>, pos: nat, s: seq<byte>)
    requires At(d, pos, s) && s != []
    ensures d[pos] == s[0]
    ensures At(d, pos + 1, s[1..])
  {
    assert s == [s[0]] + s[1..];
    AtSplit(d, pos, [s[0]], s[1..]);
    assert d[pos..pos + 1] == [d[pos]];
  }

  // ----- counts

  lemma {:induction false} CountScan(d: seq<byte>, pos: nat, errno: bool, s: seq<byte>, seen: seq<byte>)
    requires At(d, pos, s + CRLF)
    requires |seen| + |s| < 127
    requires forall i :: 0 <= i < |s| ==> IsDigit(s[i]) || s[i] == MINUS
    ensures var number := Strtol(seen + s);
      var errno' := errno || number.overflow;
      ParseLength(d, pos, errno, seen) ==
        if number.value % 0x1_0000_0000 == 0 && errno' then Err(Rejected)
        else Ok(Fixed(number.value % 0x1_0000_0000), pos + |s| + 2, errno')
    decreases |s|
  {
    AtHead(d, pos, s + CRLF);
    if s == [] {
      assert s + CRLF == CRLF && seen + s == seen;
      AtCrlf(d, pos);
    } else {
      assert (s + CRLF)[1..] == s[1..] + CRLF;
      CountScan(d, pos + 1, errno, s[1..], seen + [s[0]]);
      assert seen + [s[0]] + s[1..] == seen + s;
    }
  }

  lemma PrintShape(n: int)
    requires -1 <= n < NULL_COUNT
    ensures |Print(n)| <= 10
    ensures forall i :: 0 <= i < |Print(n)| ==> IsDigit(Print(n)[i]) || Print(n)[i] == MINUS
  {
    if n >= 0 {
      assert Power10(5) == 100000;
      assert Power10(10) == 10000000000;
      DigitsLength(n, 10, 10000000000);
    }
  }

  lemma CountValue(n: int)
    requires -1 <= n < NULL_COUNT
    ensures !Strtol(Print(n)).overflow
    ensures Strtol(Print(n)).value % 0x1_0000_0000 == if n == -1 then NULL_COUNT else n
  {
    StrtolOfPrint(n);
    hide Strtol, Print;
  }

  /** A printed count reads back, except a zero while `errno` is set; -1 reads as the null count. */
  lemma CountBack(d: seq<byte>, pos: nat, errno: bool, n: int)
    requires -1 <= n < NULL_COUNT
    requires At(d, pos, Print(n) + CRLF)
    ensures ParseLength(d, pos, errno, []) ==
      if n == 0 && errno then Err(Rejected)
      else Ok(Fixed(if n == -1 then NULL_COUNT else n), pos + |Print(n) + CRLF|, errno)
  {
    PrintShape(n);
    CountValue(n);
    hide Strtol, Print, At, ParseLength;
    var s := Print(n);
    CountScan(d, pos, errno, s, []);
    assert [] + s == s;
  }

  // ----- leaves

  lemma {:induction false} TextBack(d: seq<byte>, start: nat, pos: nat, s: seq<byte>)
    requires start <= pos && At(d, pos, s + CRLF) && !HasCrlf(s)
    ensures ParseText(d, start, pos) == Ok(d[start..pos + |s|], pos + |s| + 2, false)
    decreases |s|
  {
    AtHead(d, pos, s + CRLF);
    AtHead(d, pos + 1, (s + CRLF)[1..]);
    if s != [] {
      assert (s + CRLF)[1..] == s[1..] + CRLF;
      TailHasNoCrlf(s);
      TextBack(d, start, pos + 1, s[1..]);
    }
  }

  lemma TailHasNoCrlf(s: seq<byte>)
    requires s != [] && !HasCrlf(s)
    ensures !HasCrlf(s[1..]) {}

  lemma PrefixKeepsShape(text: seq<byte>, prefix: seq<byte>)
    requires prefix <= text
    ensures !HasCrlf(text) ==> !HasCrlf(prefix)
    ensures AllDigits(text) ==> AllDigits(prefix)
  {
    if HasCrlf(prefix) {
      var i :| 0 <= i < |prefix| - 1 && prefix[i] == CR && prefix[i + 1] == LF;
      assert text[i] == CR && text[i + 1] == LF;
    }
  }

  lemma LineBack(d: seq<byte>, pos: nat, errno: bool, kind: TextKind, text: seq<byte>)
    requires At(d, pos, CString(text) + CRLF)
    requires NormalNode(Node(None, Text(kind, text)))
    ensures ParseLine(d, pos, errno, kind) == Ok(Text(kind, CString(text)), pos + |CString(text) + CRLF|, errno)
  {
    CStringIsPrefix(text);
    PrefixKeepsShape(text, CString(text));
    TextBack(d, pos, pos, CString(text));
    AtSplit(d, pos, CString(text), CRLF);
  }

  lemma DigitsHaveNoCrlf(n: int)
    ensures !HasCrlf(Print(n))
  {}

  lemma NumberBack(d: seq<byte>, pos: nat, errno: bool, n: long)
    requires At(d, pos, Print(n) + CRLF)
    ensures ParseNumber(d, pos, errno) == Ok(Number(n), pos + |Print(n) + CRLF|, errno)
  {
    DigitsHaveNoCrlf(n);
    TextBack(d, pos, pos, Print(n));
    AtSplit(d, pos, Print(n), CRLF);
    StrtolOfPrint(n);
  }

  lemma BlobBack(d: seq<byte>, pos: nat, errno: bool, kind: BlobKind, bytes: seq<byte>)
    requires |bytes| <= MAX_COUNT
    requires At(d, pos, EncodeBlob(bytes))
    ensures ParseBlob(d, pos, errno, kind) ==
      if bytes == [] && errno then Err(Rejected)
      else Ok(Blob(kind, bytes), pos + |EncodeBlob(bytes)|, errno)
  {
    hide Print, ParseLength, At;
    AtSplit(d, pos, CountLine(|bytes|), bytes + CRLF);
    CountBack(d, pos, errno, |bytes|);
    var p := pos + |CountLine(|bytes|)|;
    AtSplit(d, p, bytes, CRLF);
    AtCrlf(d, p + |bytes|);
    AtSlice(d, p, bytes);
  }

  // ----- whole trees

  /** The tree's print is readable: `errno` is clear, or no zero count is printed. */
  predicate Readable(node: Node, errno: bool) {
    Normal(node) && Printable(node) && (errno ==> ZeroFree(node))
  }

  predicate ReadableData(data: Data, errno: bool) {
    && AllData(data, NormalNode, NormalTable)
    && AllData(data, PrintableNode, PrintableTable)
    && PrintableNode(Node(None, data))
    && (data.Attribute? || NormalNode(Node(None, data)))
    && (errno ==> AllData(data, ZeroFreeNode, ZeroFreeTable) && ZeroFreeNode(Node(None, data)))
  }

  predicate ReadableTable(table: Table, errno: bool) {
    && AllTable(table, NormalNode, NormalTable)
    && AllTable(table, PrintableNode, PrintableTable)
    && (errno ==> AllTable(table, ZeroFreeNode, ZeroFreeTable))
  }

  predicate ReadablePairs(pairs: seq<Pair>, errno: bool) {
    forall i :: 0 <= i < |pairs| ==> Readable(pairs[i].key, errno) && Readable(pairs[i].value, errno)
  }

  lemma ReadableParts(node: Node, errno: bool)
    requires Readable(node, errno)
    ensures ReadableData(node.data, errno)
    ensures node.attribute.Some? ==> ReadableData(Attribute(node.attribute.value), errno)
    ensures node.attribute.None? ==> !node.data.Attribute?
    ensures RereadData(node.data).Attribute? == node.data.Attribute?
  {
    hide AllTable, AllNodes, NormalTable, PrintableTable, ZeroFreeTable, HasCrlf, AllDigits, RereadAll, RereadTable;
  }

  lemma EncodeAttribute(table: Table)
    ensures EncodeData(Attribute(table)) == [124] + EncodeTable(table)
  {}

  lemma RereadAttribute(table: Table)
    ensures RereadData(Attribute(table)) == Attribute(RereadTable(table))
  {}

  lemma PlainNode(d: seq<byte>, pos: nat, errno: bool, data: Data, p: nat, e: bool)
    requires pos <= |d| && ParseData(d, pos, errno) == Ok(data, p, e) && !data.Attribute?
    ensures ParseNode(d, pos, errno) == Ok(Node(None, data), p, e)
  {}

  lemma AttributedNode(d: seq<byte>, pos: nat, errno: bool, table: Table, p: nat, e: bool, data: Data, q: nat, e': bool)
    requires pos <= |d| && ParseData(d, pos, errno) == Ok(Attribute(table), p, e)
    requires p <= |d| && ParseData(d, p, e) == Ok(data, q, e')
    ensures ParseNode(d, pos, errno) == Ok(Node(Some(table), data), q, e')
  {}

  lemma EncodeAttributed(table: Table, data: Data)
    ensures EncodeNode(Node(Some(table), data)) == EncodeData(Attribute(table)) + EncodeData(data)
  {
    EncodeAttribute(table);
  }

  lemma EncodePlain(data: Data)
    ensures EncodeNode(Node(None, data)) == EncodeData(data)
  {}

  lemma RereadParts(attribute: Option<Table>, data: Data)
    ensures Reread(Node(attribute, data)) ==
            Node(if attribute.Some? then Some(RereadTable(attribute.value)) else None, RereadData(data))
  {}

  lemma {:induction false} NodeBack(d: seq<byte>, pos: nat, errno: bool, node: Node)
    requires Readable(node, errno)
    requires At(d, pos, EncodeNode(node))
    ensures ParseNode(d, pos, errno) == Ok(Reread(node), pos + |EncodeNode(node)|, errno)
    decreases |d| - pos, 1
  {
    hide *;
    var data := node.data;
    ReadableParts(node, errno);
    RereadParts(node.attribute, data);
    AtBounds(d, pos, EncodeNode(node));
    match node.attribute
    case None =>
      EncodePlain(data);
      DataBack(d, pos, errno, data);
      PlainNode(d, pos, errno, RereadData(data), pos + |EncodeData(data)|, errno);
    case Some(table) =>
      var before, after := EncodeData(Attribute(table)), EncodeData(data);
      EncodeAttributed(table, data);
      RereadAttribute(table);
      AtSplit(d, pos, before, after);
      AtBounds(d, pos, before);
      AtBounds(d, pos + |before|, after);
      DataBack(d, pos, errno, Attribute(table));
      DataBack(d, pos + |before|, errno, data);
      AttributedNode(d, pos, errno, RereadTable(table), pos + |before|, errno,
                     RereadData(data), pos + |before| + |after|, errno);
  }

  // The first byte selects the parser.

  lemma BlobDispatch(d: seq<byte>, pos: nat, errno: bool, kind: BlobKind)
    requires pos < |d| && d[pos] == BlobByte(kind)
    ensures ParseData(d, pos, errno) == ParseBlob(d, pos + 1, errno, kind)
  {}

  lemma TextDispatch(d: seq<byte>, pos: nat, errno: bool, kind: TextKind)
    requires pos < |d| && d[pos] == TextByte(kind)
    ensures ParseData(d, pos, errno) == ParseLine(d, pos + 1, errno, kind)
  {}

  lemma ArrayDispatch(d: seq<byte>, pos: nat, errno: bool, kind: ArrayKind)
    requires pos < |d| && d[pos] == ArrayByte(kind)
    ensures ParseData(d, pos, errno) == ParseAggregate(d, pos + 1, errno, kind)
  {}

  lemma NumberDispatch(d: seq<byte>, pos: nat, errno: bool)
    requires pos < |d| && d[pos] == 58
    ensures ParseData(d, pos, errno) == ParseNumber(d, pos + 1, errno)
  {}

  lemma MapDispatch(d: seq<byte>, pos: nat, errno: bool)
    requires pos < |d| && (d[pos] == 37 || d[pos] == 124)
    ensures ParseData(d, pos, errno) ==
      match ParseTable(d, pos + 1, errno)
      case Err(why) => Err(why)
      case Ok(table, q, e) => Ok(if d[pos] == 37 then Map(table) else Attribute(table), q, e)
  {}

  lemma MarkerDispatch(d: seq<byte>, pos: nat, errno: bool)
    requires pos < |d| && (d[pos] == 95 || d[pos] == 46) && ParseCrlf(d, pos + 1)
    ensures ParseData(d, pos, errno) == Ok(if d[pos] == 95 then Null else End, pos + 3, errno)
  {}

  lemma BooleanDispatch(d: seq<byte>, pos: nat, errno: bool)
    requires pos + 1 < |d| && d[pos] == 35 && ParseCrlf(d, pos + 2)
    ensures ParseData(d, pos, errno) == Ok(Boolean(d[pos + 1] != 0), pos + 4, errno)
  {}

  lemma BooleanBack(d: seq<byte>, pos: nat, errno: bool, truth: bool)
    requires At(d, pos, EncodeData(Boolean(truth)))
    ensures ParseData(d, pos, errno) == Ok(Boolean(true), pos + 4, errno)
  {
    var s := EncodeData(Boolean(truth));
    assert EncodeBody(Boolean(truth)) == [if truth then 116 else 102] + CRLF;
    assert s[1..] == EncodeBody(Boolean(truth));
    AtHead(d, pos, s);
    AtHead(d, pos + 1, s[1..]);
    assert s[1..][1..] == CRLF;
    AtCrlf(d, pos + 2);
    BooleanDispatch(d, pos, errno);
  }

  lemma NullCountBack(d: seq<byte>, pos: nat, errno: bool)
    requires At(d, pos, Print(-1) + CRLF)
    ensures ParseLength(d, pos, errno, []) == Ok(Fixed(NULL_COUNT), pos + |Print(-1) + CRLF|, errno)
  {
    hide Print, At, ParseLength;
    CountBack(d, pos, errno, -1);
  }

  lemma {:induction false} DataBack(d: seq<byte>, pos: nat, errno: bool, data: Data)
    requires ReadableData(data, errno)
    requires At(d, pos, EncodeData(data))
    ensures ParseData(d, pos, errno) == Ok(RereadData(data), pos + |EncodeData(data)|, errno)
    decreases |d| - pos, 0
  {
    hide ParseData, At, EncodeAll, EncodeTable, EncodeBlob, CountLine, ParseLength, ParseLine, ParseNumber,
      ParseElements, ParseTable, Print, AllNodes, AllTable, NormalNode, RereadAll, RereadTable, CString;
    var p := pos + 1;
    AtHead(d, pos, EncodeData(data));
    assert EncodeData(data)[1..] == EncodeBody(data);
    match data
    case Blob(kind, bytes) =>
      hide ParseBlob;
      BlobDispatch(d, pos, errno, kind);
      BlobBack(d, p, errno, kind, bytes);
    case NullBlob(kind) =>
      BlobDispatch(d, pos, errno, kind);
      NullCountBack(d, p, errno);
    case Text(kind, text) =>
      TextDispatch(d, pos, errno, kind);
      LineBack(d, p, errno, kind, text);
    case Number(number) =>
      NumberDispatch(d, pos, errno);
      NumberBack(d, p, errno, number);
    case Boolean(truth) => BooleanBack(d, pos, errno, truth);
    case Null =>
      AtCrlf(d, p);
      MarkerDispatch(d, pos, errno);
    case End =>
      AtCrlf(d, p);
      MarkerDispatch(d, pos, errno);
    case Aggregate(kind, elements) =>
      hide ParseAggregate;
      ArrayDispatch(d, pos, errno, kind);
      AggregateBack(d, p, errno, kind, elements);
    case NullAggregate(kind) =>
      ArrayDispatch(d, pos, errno, kind);
      NullCountBack(d, p, errno);
    case Map(table) =>
      MapDispatch(d, pos, errno);
      TableBack(d, p, errno, table);
    case Attribute(table) =>
      MapDispatch(d, pos, errno);
      TableBack(d, p, errno, table);
  }

  lemma {:induction false} AggregateBack(d: seq<byte>, pos: nat, errno: bool, kind: ArrayKind, elements: seq<Node>)
    requires ReadableData(Aggregate(kind, elements), errno)
    requires At(d, pos, CountLine(|elements|) + EncodeAll(elements))
    ensures ParseAggregate(d, pos, errno, kind)
         == Ok(Aggregate(kind, RereadAll(elements)), pos + |CountLine(|elements|) + EncodeAll(elements)|, errno)
    decreases |d| - pos, 3
  {
    hide At, EncodeAll, ParseLength, ParseElements, AllNodes, RereadAll;
    AtSplit(d, pos, CountLine(|elements|), EncodeAll(elements));
    CountBack(d, pos, errno, |elements|);
    ElementsBack(d, pos + |CountLine(|elements|)|, errno, elements);
  }

  lemma {:induction false} ElementsBack(d: seq<byte>, pos: nat, errno: bool, nodes: seq<Node>)
    requires AllNodes(nodes, NormalNode, NormalTable)
    requires AllNodes(nodes, PrintableNode, PrintableTable)
    requires errno ==> AllNodes(nodes, ZeroFreeNode, ZeroFreeTable)
    requires At(d, pos, EncodeAll(nodes))
    ensures ParseElements(d, pos, errno, Fixed(|nodes|)) == Ok(RereadAll(nodes), pos + |EncodeAll(nodes)|, errno)
    decreases |d| - pos, 2
  {
    hide EncodeNode, ParseNode, At, Reread, All;
    if nodes != [] {
      var first := EncodeNode(nodes[0]);
      AtSplit(d, pos, first, EncodeAll(nodes[1..]));
      NodeBack(d, pos, errno, nodes[0]);
      ElementsBack(d, pos + |first|, errno, nodes[1..]);
    }
  }

  lemma {:induction false} PairsBack(d: seq<byte>, pos: nat, errno: bool, pairs: seq<Pair>)
    requires ReadablePairs(pairs, errno)
    requires At(d, pos, EncodePairs(pairs))
    ensures ParsePairs(d, pos, errno, Fixed(|pairs|)) == Ok(RereadPairs(pairs), pos + |EncodePairs(pairs)|, errno)
    decreases |d| - pos, 2
  {
    hide EncodeNode, ParseNode, At, Reread, Readable;
    if pairs != [] {
      var key, value := EncodeNode(pairs[0].key), EncodeNode(pairs[0].value);
      AtSplit(d, pos, key + value, EncodePairs(pairs[1..]));
      AtSplit(d, pos, key, value);
      NodeBack(d, pos, errno, pairs[0].key);
      NodeBack(d, pos + |key|, errno, pairs[0].value);
      PairsBack(d, pos + |key| + |value|, errno, pairs[1..]);
    }
  }

  lemma {:induction false} TableBack(d: seq<byte>, pos: nat, errno: bool, table: Table)
    requires ReadableTable(table, errno)
    requires At(d, pos, EncodeTable(table))
    ensures ParseTable(d, pos, errno) == Ok(RereadTable(table), pos + |EncodeTable(table)|, errno)
    decreases |d| - pos, 3
  {
    hide Print, EncodePairs, EncodeFields, ParseLength, ParsePairs, At, AllPairs, AllFields, RereadPairs, AbsorbAll,
      NoStringKeys, Sorted, RereadFields;
    var count := |table.pairs| + |table.fields|;
    var all := table.pairs + FieldPairs(table.fields);
    AtSplit(d, pos, CountLine(count), EncodePairs(table.pairs) + EncodeFields(table.fields));
    CountBack(d, pos, errno, count);
    EncodeFieldPairs(table.fields);
    EncodePairsAppend(table.pairs, FieldPairs(table.fields));
    TableIsReadable(table, errno);
    PairsBack(d, pos + |CountLine(count)|, errno, all);
    RereadAllPairs(table);
    RereadTableNormal(table);
    NormalTableIsFixed(RereadTable(table));
  }

  // ----- fields are pairs with blob keys

  lemma EncodeFieldKey(name: seq<byte>)
    ensures EncodeNode(Node(None, Blob(BlobString, name))) == [36] + EncodeBlob(name)
  {
    var data := Blob(BlobString, name);
    assert EncodeBody(data) == EncodeBlob(name);
    assert EncodeData(data) == [36] + EncodeBody(data);
  }

  lemma {:induction false} EncodeFieldPairs(fields: seq<Field>)
    ensures EncodePairs(FieldPairs(fields)) == EncodeFields(fields)
  {
    if fields != [] {
      assert FieldPairs(fields)[1..] == FieldPairs(fields[1..]);
      EncodeFieldKey(fields[0].name);
      hide EncodeNode, EncodeBlob;
      EncodeFieldPairs(fields[1..]);
    }
  }

  lemma {:induction false} EncodePairsAppend(a: seq<Pair>, b: seq<Pair>)
    ensures EncodePairs(a + b) == EncodePairs(a) + EncodePairs(b)
  {
    if a == [] {
      assert a + b == b;
    } else {
      assert (a + b)[1..] == a[1..] + b;
      EncodePairsAppend(a[1..], b);
    }
  }

  lemma {:induction false} RereadPairsAppend(a: seq<Pair>, b: seq<Pair>)
    ensures RereadPairs(a + b) == RereadPairs(a) + RereadPairs(b)
  {
    if a == [] {
      assert a + b == b;
    } else {
      assert (a + b)[1..] == a[1..] + b;
      RereadPairsAppend(a[1..], b);
    }
  }

  lemma {:induction false} RereadFieldPairs(fields: seq<Field>)
    ensures RereadPairs(FieldPairs(fields)) == FieldPairs(RereadFields(fields))
  {
    if fields != [] {
      assert FieldPairs(fields)[1..] == FieldPairs(fields[1..]);
      assert Reread(Node(None, Blob(BlobString, fields[0].name))) == Node(None, Blob(BlobString, fields[0].name));
      hide Reread;
      RereadFieldPairs(fields[1..]);
      assert FieldPairs(RereadFields(fields))[1..] == FieldPairs(RereadFields(fields[1..]));
    }
  }

  lemma RereadAllPairs(table: Table)
    ensures RereadPairs(table.pairs + FieldPairs(table.fields))
         == RereadTable(table).pairs + FieldPairs(RereadTable(table).fields)
  {
    RereadPairsAppend(table.pairs, FieldPairs(table.fields));
    RereadFieldPairs(table.fields);
  }

  lemma {:induction false} RereadPairsAt(pairs: seq<Pair>, i: nat)
    requires i < |pairs|
    ensures RereadPairs(pairs)[i] == RereadPair(pairs[i])
  {
    if i > 0 {
      RereadPairsAt(pairs[1..], i - 1);
    }
  }

  lemma {:induction false} RereadFieldsAt(fields: seq<Field>, i: nat)
    requires i < |fields|
    ensures RereadFields(fields)[i] == RereadField(fields[i])
  {
    if i > 0 {
      RereadFieldsAt(fields[1..], i - 1);
    }
  }

  lemma RereadKey(key: Node)
    requires StringKey(key).None?
    ensures StringKey(Reread(key)).None?
  {}

  lemma RereadTableNormal(table: Table)
    requires NormalTable(table)
    ensures NormalTable(RereadTable(table))
  {
    forall i | 0 <= i < |table.pairs|
      ensures StringKey(RereadTable(table).pairs[i].key).None?
    {
      RereadPairsAt(table.pairs, i);
      RereadKey(table.pairs[i].key);
      assert StringKey(table.pairs[i].key).None?;
    }
    forall i, j | 0 <= i < j < |table.fields|
      ensures Less(RereadTable(table).fields[i].name, RereadTable(table).fields[j].name)
    {
      RereadFieldsAt(table.fields, i);
      RereadFieldsAt(table.fields, j);
    }
  }

  lemma {:induction false} AllPairsAt(pairs: seq<Pair>, p: Node -> bool, q: Table -> bool, i: nat)
    requires AllPairs(pairs, p, q) && i < |pairs|
    ensures AllPair(pairs[i], p, q)
  {
    if i > 0 {
      AllPairsAt(pairs[1..], p, q, i - 1);
    }
  }

  lemma {:induction false} AllFieldsAt(fields: seq<Field>, p: Node -> bool, q: Table -> bool, i: nat)
    requires AllFields(fields, p, q) && i < |fields|
    ensures AllField(fields[i], p, q)
  {
    if i > 0 {
      AllFieldsAt(fields[1..], p, q, i - 1);
    }
  }

  lemma FieldKeyIsReadable(name: seq<byte>, errno: bool)
    requires |name| <= MAX_COUNT && (errno ==> name != [])
    ensures Readable(Node(None, Blob(BlobString, name)), errno)
  {
    var data := Blob(BlobString, name);
    assert AllData(data, NormalNode, NormalTable) && AllData(data, PrintableNode, PrintableTable);
    assert AllData(data, ZeroFreeNode, ZeroFreeTable);
  }

  lemma TableIsReadable(table: Table, errno: bool)
    requires ReadableTable(table, errno)
    ensures ReadablePairs(table.pairs + FieldPairs(table.fields), errno)
  {
    var all := table.pairs + FieldPairs(table.fields);
    hide All, AllFields, AllPairs;
    forall i | 0 <= i < |all|
      ensures Readable(all[i].key, errno) && Readable(all[i].value, errno)
    {
      if i < |table.pairs| {
        AllPairsAt(table.pairs, NormalNode, NormalTable, i);
        AllPairsAt(table.pairs, PrintableNode, PrintableTable, i);
        if errno { AllPairsAt(table.pairs, ZeroFreeNode, ZeroFreeTable, i); }
      } else {
        var j := i - |table.pairs|;
        FieldKeyIsReadable(table.fields[j].name, errno);
        AllFieldsAt(table.fields, NormalNode, NormalTable, j);
        AllFieldsAt(table.fields, PrintableNode, PrintableTable, j);
        if errno { AllFieldsAt(table.fields, ZeroFreeNode, ZeroFreeTable, j); }
      }
    }
  }
}
