/** The laws of the codec: round trips, pipelining, canonical form, dependence on a prefix, and
    streamed aggregates meaning the same as counted ones. */
module Codec {
  import opened Bytes
  import opened Decimal
  import opened Protocol
  import opened Shapes
  import opened RoundTrip
  import opened StaleErrno
  import opened Canonical
  import opened Relocation

  lemma AtStart(s: seq<byte>, suffix: seq<byte>)
    ensures At(s + suffix, 0, s)
  {
    assert (s + suffix)[..|s|] == s;
  }

  lemma AtEnd(prefix: seq<byte>, s: seq<byte>)
    ensures At(prefix + s, |prefix|, s)
  {
    assert (prefix + s)[|prefix|..|prefix| + |s|] == s;
  }

  // ----- round trip

  /** Parsing a printed tree followed by anything: the outcome in every case. */
  lemma ParseOfPrint(node: Node, suffix: seq<byte>, errno: bool)
    requires Normal(node) && Printable(node)
    ensures ParseNode(EncodeNode(node) + suffix, 0, errno) ==
      if errno && !ZeroFree(node) then Err(Rejected)
      else Ok(Reread(node), |EncodeNode(node)|, errno)
  {
    hide *;
    var d := EncodeNode(node) + suffix;
    AtStart(EncodeNode(node), suffix);
    ReadableMeans(node, errno);
    ReadableMeans(node, false);
    if errno && !ZeroFree(node) {
      NodeRejected(d, 0, node);
    } else {
      NodeBack(d, 0, errno, node);
    }
  }

  lemma ReadableMeans(node: Node, errno: bool)
    ensures Readable(node, errno) <==> Normal(node) && Printable(node) && (errno ==> ZeroFree(node))
  {}

  lemma NormalRoundTrip(node: Node, suffix: seq<byte>, errno: bool)
    requires Normal(node) && Printable(node)
    ensures ParseNode(EncodeNode(node) + suffix, 0, errno) == Ok(node, |EncodeNode(node)|, errno)
       <==> Faithful(node) && (errno ==> ZeroFree(node))
  {
    hide *;
    ParseOfPrint(node, suffix, errno);
    RereadFixed(node);
  }

  /** A tree that fits the printer comes back unchanged, its own bytes consumed and no more, exactly when
      it is in normal form, no text contains NUL, no boolean is false, and either `errno` is clear or no
      zero count is printed. */
  lemma RoundTripExactlyWhen(node: Node, suffix: seq<byte>, errno: bool)
    requires Printable(node)
    ensures ParseNode(EncodeNode(node) + suffix, 0, errno) == Ok(node, |EncodeNode(node)|, errno)
       <==> Normal(node) && Faithful(node) && (errno ==> ZeroFree(node))
  {
    hide *;
    var r := ParseNode(EncodeNode(node) + suffix, 0, errno);
    if r.Ok? && r.value == node {
      NodeIsNormal(EncodeNode(node) + suffix, 0, errno);
    }
    if Normal(node) {
      NormalRoundTrip(node, suffix, errno);
    }
  }

  /** The two values that printing and parsing confuse, a text that its own line end cuts, and the empty
      array that a set `errno` spoils. */
  lemma RoundTripFails()
    ensures var falsity := Node(None, Boolean(false));
      Normal(falsity) && Printable(falsity) && ParseNode(EncodeNode(falsity), 0, false)
        == Ok(Node(None, Boolean(true)), 4, false)
    ensures var cut := Node(None, Text(SimpleString, [65, 0, 66]));
      Normal(cut) && Printable(cut) && ParseNode(EncodeNode(cut), 0, false)
        == Ok(Node(None, Text(SimpleString, [65])), 4, false)
    ensures var empty := Node(None, Aggregate(Array, []));
      Normal(empty) && Printable(empty) && ParseNode(EncodeNode(empty), 0, true) == Err(Rejected)
    ensures var split := Node(None, Text(SimpleString, [65, 13, 10, 66]));
      Printable(split) && ParseNode(EncodeNode(split), 0, false) == Ok(Node(None, Text(SimpleString, [65])), 4, false)
  {
    hide ParseNode, EncodeNode;
    var empty := Node(None, Aggregate(Array, []));
    FalseReadsTrue();
    NulCutsText();
    ParseOfPrint(empty, [], true);
    assert EncodeNode(empty) + [] == EncodeNode(empty);
    LineEndCutsText();
  }

  lemma FalseReadsTrue()
    ensures var falsity := Node(None, Boolean(false));
      Normal(falsity) && Printable(falsity) && ParseNode(EncodeNode(falsity), 0, false)
        == Ok(Node(None, Boolean(true)), 4, false)
  {
    hide ParseNode;
    var falsity := Node(None, Boolean(false));
    assert EncodeBody(falsity.data) == [102] + CRLF;
    assert EncodeData(falsity.data) == [35] + EncodeBody(falsity.data);
    ParseOfPrint(falsity, [], false);
    assert EncodeNode(falsity) + [] == EncodeNode(falsity);
  }

  lemma NulCutsText()
    ensures var cut := Node(None, Text(SimpleString, [65, 0, 66]));
      Normal(cut) && Printable(cut) && ParseNode(EncodeNode(cut), 0, false)
        == Ok(Node(None, Text(SimpleString, [65])), 4, false)
  {
    hide ParseNode;
    var cut := Node(None, Text(SimpleString, [65, 0, 66]));
    assert CString([65, 0, 66]) == [65] by {
      assert [65, 0, 66][1..] == [0, 66];
    }
    assert EncodeBody(cut.data) == [65] + CRLF;
    assert EncodeData(cut.data) == [43] + EncodeBody(cut.data);
    ParseOfPrint(cut, [], false);
    assert EncodeNode(cut) + [] == EncodeNode(cut);
  }

  lemma LineEndCutsText()
    ensures var split := Node(None, Text(SimpleString, [65, 13, 10, 66]));
      Printable(split) && ParseNode(EncodeNode(split), 0, false) == Ok(Node(None, Text(SimpleString, [65])), 4, false)
  {
    var split, front := Node(None, Text(SimpleString, [65, 13, 10, 66])), Node(None, Text(SimpleString, [65]));
    CStringWhole([65, 13, 10, 66]);
    CStringWhole([65]);
    assert EncodeBody(split.data) == [65, 13, 10, 66] + CRLF && EncodeBody(front.data) == [65] + CRLF;
    assert EncodeData(split.data) == [43] + EncodeBody(split.data)
      && EncodeData(front.data) == [43] + EncodeBody(front.data);
    assert EncodeNode(split) == EncodeNode(front) + [66, 13, 10];
    ParseOfPrint(front, [66, 13, 10], false);
  }

  // ----- pipelining

  /** The first `n` values of a connection. */
  function ParseMany(d: seq<byte>, pos: nat, errno: bool, n: nat): (r: Outcome<seq<Node>>)
    requires pos <= |d|
    ensures r.Ok? ==> pos <= r.pos <= |d|
    decreases n
  {
    if n == 0 then Ok([], pos, errno)
    else
      match ParseNode(d, pos, errno)
      case Err(why) => Err(why)
      case Ok(node, p, e) =>
        match ParseMany(d, p, e, n - 1)
        case Err(why) => Err(why)
        case Ok(rest, q, e') => Ok([node] + rest, q, e')
  }

  predicate AllPrintable(nodes: seq<Node>) {
    forall i :: 0 <= i < |nodes| ==> Printable(nodes[i])
  }

  /** What comes back from its print as itself. */
  predicate Restored(node: Node, errno: bool) {
    Normal(node) && Faithful(node) && (errno ==> ZeroFree(node))
  }

  predicate AllRestored(nodes: seq<Node>, errno: bool) {
    forall i :: 0 <= i < |nodes| ==> Restored(nodes[i], errno)
  }

  /** One tree, printed somewhere in a byte string. */
  lemma RestoredAt(d: seq<byte>, pos: nat, node: Node, errno: bool)
    requires Printable(node) && At(d, pos, EncodeNode(node)) && pos <= |d|
    ensures Restored(node, errno) ==> ParseNode(d, pos, errno) == Ok(node, pos + |EncodeNode(node)|, errno)
    ensures !Restored(node, errno) ==> !(ParseNode(d, pos, errno).Ok? && ParseNode(d, pos, errno).value == node)
  {
    hide *;
    RestoredMeans(node, errno);
    ReadableMeans(node, errno);
    ReadableMeans(node, false);
    RereadFixed(node);
    var r := ParseNode(d, pos, errno);
    if r.Ok? && r.value == node {
      NodeIsNormal(d, pos, errno);
    }
    if Readable(node, errno) {
      NodeBack(d, pos, errno, node);
    } else if Normal(node) {
      NodeRejected(d, pos, node);
    }
  }

  lemma RestoredMeans(node: Node, errno: bool)
    ensures Restored(node, errno) <==> Normal(node) && Faithful(node) && (errno ==> ZeroFree(node))
  {}

  lemma {:induction false} PipelineAt(d: seq<byte>, pos: nat, nodes: seq<Node>, errno: bool)
    requires AllPrintable(nodes) && At(d, pos, EncodeAll(nodes)) && pos <= |d|
    ensures AllRestored(nodes, errno) ==>
      ParseMany(d, pos, errno, |nodes|) == Ok(nodes, pos + |EncodeAll(nodes)|, errno)
    ensures !AllRestored(nodes, errno) ==>
      !(ParseMany(d, pos, errno, |nodes|).Ok? && ParseMany(d, pos, errno, |nodes|).value == nodes)
    decreases |nodes|
  {
    hide EncodeNode, ParseNode, At, Restored, Printable;
    AtBounds(d, pos, EncodeAll(nodes));
    if nodes != [] {
      var first, rest := EncodeNode(nodes[0]), nodes[1..];
      AtSplit(d, pos, first, EncodeAll(rest));
      AtBounds(d, pos, first);
      RestoredAt(d, pos, nodes[0], errno);
      assert [nodes[0]] + rest == nodes;
      if Restored(nodes[0], errno) {
        PipelineAt(d, pos + |first|, rest, errno);
        FirstAndRest(nodes, errno);
      }
    }
  }

  lemma FirstAndRest(nodes: seq<Node>, errno: bool)
    requires nodes != []
    ensures AllRestored(nodes, errno) <==> Restored(nodes[0], errno) && AllRestored(nodes[1..], errno)
  {
    hide Restored;
    assert forall i :: 1 <= i < |nodes| ==> nodes[i] == nodes[1..][i - 1];
  }

  /** Trees printed one after the other parse back as those trees, whatever follows, exactly when each is
      in normal form and faithful, and prints no zero count if `errno` is set. */
  lemma PipelineRoundTrip(nodes: seq<Node>, suffix: seq<byte>, errno: bool)
    requires AllPrintable(nodes)
    ensures ParseMany(EncodeAll(nodes) + suffix, 0, errno, |nodes|) == Ok(nodes, |EncodeAll(nodes)|, errno)
       <==> forall i :: 0 <= i < |nodes| ==> Normal(nodes[i]) && Faithful(nodes[i]) && (errno ==> ZeroFree(nodes[i]))
  {
    hide ParseMany, EncodeAll, Normal, Faithful, ZeroFree, Printable, At;
    AtStart(EncodeAll(nodes), suffix);
    PipelineAt(EncodeAll(nodes) + suffix, 0, nodes, errno);
  }

  // ----- canonical form

  /** Printing what was parsed and parsing that again gives the same tree, exactly when no text was
      read with a NUL in it and no boolean was read as false. */
  lemma PrintOfParse(d: seq<byte>, pos: nat, errno: bool, suffix: seq<byte>)
    requires pos <= |d| && ParseNode(d, pos, errno).Ok?
    requires Printable(ParseNode(d, pos, errno).value)
    ensures var node := ParseNode(d, pos, errno).value;
      ParseNode(EncodeNode(node) + suffix, 0, false) == Ok(node, |EncodeNode(node)|, false) <==> Faithful(node)
  {
    hide *;
    NodeIsNormal(d, pos, errno);
    NormalRoundTrip(ParseNode(d, pos, errno).value, suffix, false);
  }

  // ----- a parse depends on the bytes it consumed

  /** Whatever follows the consumed bytes, the parse is the same. */
  lemma ParseDependsOnPrefix(d: seq<byte>, pos: nat, errno: bool, tail: seq<byte>)
    requires pos <= |d| && ParseNode(d, pos, errno).Ok?
    ensures var r := ParseNode(d, pos, errno);
      ParseNode(d[pos..r.pos] + tail, 0, errno) == Ok(r.value, r.pos - pos, r.errno)
  {
    hide ParseNode;
    var r := ParseNode(d, pos, errno);
    var d' := d[pos..r.pos] + tail;
    assert d[pos..r.pos] == d'[0..r.pos - pos];
    SameFromSlices(d, d', 0 - pos, pos, r.pos);
    NodeMoves(d, d', 0 - pos, pos, errno, r);
  }

  // ----- streamed aggregates

  const END_MARKER: seq<byte> := [46, 13, 10]
  const STREAMED_COUNT: seq<byte> := [63, 13, 10]

  predicate NoEnd(nodes: seq<Node>) {
    forall i :: 0 <= i < |nodes| ==> !nodes[i].data.End?
  }

  predicate NoEndKeys(pairs: seq<Pair>) {
    forall i :: 0 <= i < |pairs| ==> !pairs[i].key.data.End?
  }

  lemma MarkerLengths(count: nat)
    requires count < NULL_COUNT
    ensures |END_MARKER| == 3 && |STREAMED_COUNT| == 3 && count != NULL_COUNT
  {}

  lemma EndMarkerParses(d: seq<byte>, pos: nat, errno: bool)
    requires At(d, pos, END_MARKER)
    ensures ParseNode(d, pos, errno) == Ok(Node(None, End), pos + 3, errno)
  {
    AtHead(d, pos, END_MARKER);
    assert END_MARKER[1..] == CRLF;
    AtCrlf(d, pos + 1);
    MarkerDispatch(d, pos, errno);
    PlainNode(d, pos, errno, End, pos + 3, errno);
  }

  lemma StreamedCountParses(d: seq<byte>, pos: nat, errno: bool)
    requires At(d, pos, STREAMED_COUNT)
    ensures ParseLength(d, pos, errno, []) == Ok(Streamed, pos + 3, errno)
  {
    AtHead(d, pos, STREAMED_COUNT);
    assert STREAMED_COUNT[1..] == CRLF;
    AtCrlf(d, pos + 1);
  }

  lemma {:induction false} StreamedElements(d: seq<byte>, pos: nat, errno: bool, count: nat)
    requires pos <= |d| && ParseElements(d, pos, errno, Fixed(count)).Ok?
    requires NoEnd(ParseElements(d, pos, errno, Fixed(count)).value)
    requires At(d, ParseElements(d, pos, errno, Fixed(count)).pos, END_MARKER)
    ensures var r := ParseElements(d, pos, errno, Fixed(count));
      ParseElements(d, pos, errno, Streamed) == Ok(r.value, r.pos + 3, r.errno)
    decreases |d| - pos
  {
    hide ParseNode, At;
    var r := ParseElements(d, pos, errno, Fixed(count));
    if count == 0 {
      EndMarkerParses(d, pos, errno);
    } else {
      var first := ParseNode(d, pos, errno);
      assert first.value == r.value[0];
      var rest := ParseElements(d, first.pos, first.errno, Fixed(count - 1));
      assert rest.value == r.value[1..];
      StreamedElements(d, first.pos, first.errno, count - 1);
    }
  }

  lemma {:induction false} StreamedPairs(d: seq<byte>, pos: nat, errno: bool, count: nat)
    requires pos <= |d| && ParsePairs(d, pos, errno, Fixed(count)).Ok?
    requires NoEndKeys(ParsePairs(d, pos, errno, Fixed(count)).value)
    requires At(d, ParsePairs(d, pos, errno, Fixed(count)).pos, END_MARKER)
    ensures var r := ParsePairs(d, pos, errno, Fixed(count));
      ParsePairs(d, pos, errno, Streamed) == Ok(r.value, r.pos + 3, r.errno)
    decreases |d| - pos
  {
    hide ParseNode, At;
    var r := ParsePairs(d, pos, errno, Fixed(count));
    if count == 0 {
      EndMarkerParses(d, pos, errno);
    } else {
      var key := ParseNode(d, pos, errno);
      assert key.value == r.value[0].key;
      var value := ParseNode(d, key.pos, key.errno);
      var rest := ParsePairs(d, value.pos, value.errno, Fixed(count - 1));
      assert rest.value == r.value[1..];
      StreamedPairs(d, value.pos, value.errno, count - 1);
    }
  }

  /** An end marker among the elements ends a streamed aggregate early. */
  lemma {:induction false} StreamedStopsEarly(d: seq<byte>, pos: nat, errno: bool, count: nat)
    requires pos <= |d| && ParseElements(d, pos, errno, Fixed(count)).Ok?
    requires !NoEnd(ParseElements(d, pos, errno, Fixed(count)).value)
    ensures var r, s := ParseElements(d, pos, errno, Fixed(count)), ParseElements(d, pos, errno, Streamed);
      s.Ok? && s.pos <= r.pos
    decreases |d| - pos
  {
    hide ParseNode;
    var r := ParseElements(d, pos, errno, Fixed(count));
    var first := ParseNode(d, pos, errno);
    var rest := ParseElements(d, first.pos, first.errno, Fixed(count - 1));
    assert r.value == [first.value] + rest.value;
    if !first.value.data.End? {
      assert !NoEnd(rest.value);
      StreamedStopsEarly(d, first.pos, first.errno, count - 1);
    }
  }

  lemma {:induction false} StreamedPairsStopEarly(d: seq<byte>, pos: nat, errno: bool, count: nat)
    requires pos <= |d| && ParsePairs(d, pos, errno, Fixed(count)).Ok?
    requires !NoEndKeys(ParsePairs(d, pos, errno, Fixed(count)).value)
    ensures var r, s := ParsePairs(d, pos, errno, Fixed(count)), ParsePairs(d, pos, errno, Streamed);
      s.Ok? && s.pos <= r.pos
    decreases |d| - pos
  {
    hide ParseNode;
    var r := ParsePairs(d, pos, errno, Fixed(count));
    var key := ParseNode(d, pos, errno);
    var value := ParseNode(d, key.pos, key.errno);
    var rest := ParsePairs(d, value.pos, value.errno, Fixed(count - 1));
    assert r.value == [Pair(key.value, value.value)] + rest.value;
    if !key.value.data.End? {
      assert !NoEndKeys(rest.value);
      StreamedPairsStopEarly(d, value.pos, value.errno, count - 1);
    }
  }

  /** The elements of a body that stands after a count line and before an end marker. */
  lemma BodyAfter(head: seq<byte>, body: seq<byte>, tail: seq<byte>)
    ensures Same(body, head + body + tail, |head|, 0, |body|)
    ensures At(head + body + tail, |head| + |body|, tail)
    ensures At(head + body + tail, 0, head)
  {
    var d := head + body + tail;
    assert body[0..|body|] == body == d[|head|..|head| + |body|];
    SameFromSlices(body, d, |head|, 0, |body|);
    AtEnd(head + body, tail);
    assert d == head + (body + tail);
    AtStart(head, body + tail);
  }

  lemma CountedParses(kind: ArrayKind, body: seq<byte>, count: nat, errno: bool, tail: seq<byte>, r: Outcome<seq<Node>>)
    requires count < NULL_COUNT && (errno ==> count > 0)
    requires r == ParseElements(body, 0, errno, Fixed(count)) && r.Ok? && r.pos == |body|
    ensures var counted := [ArrayByte(kind)] + CountLine(count) + body;
      ParseNode(counted + tail, 0, errno) == Ok(Node(None, Aggregate(kind, r.value)), |counted|, r.errno)
  {
    MarkerLengths(count);
    hide *;
    var head := [ArrayByte(kind)] + CountLine(count);
    var d := head + body + tail;
    BodyAfter(head, body, tail);
    CountedHead(kind, count, d, errno, |head|);
    ElementsMove(body, d, |head|, 0, errno, Fixed(count), r);
    AggregateFromParts(d, errno, kind, Fixed(count), |head|, r.value, |head| + |body|, r.errno);
  }

  lemma StreamedParses(kind: ArrayKind, body: seq<byte>, count: nat, errno: bool, tail: seq<byte>,
                       r: Outcome<seq<Node>>)
    requires r == ParseElements(body, 0, errno, Fixed(count)) && r.Ok? && r.pos == |body|
    ensures var streamed := [ArrayByte(kind)] + STREAMED_COUNT + body + END_MARKER;
      var s := ParseNode(streamed + tail, 0, errno);
      if NoEnd(r.value) then s == Ok(Node(None, Aggregate(kind, r.value)), |streamed|, r.errno)
      else s.Ok? && s.pos < |streamed|
  {
    MarkerLengths(0);
    hide *;
    var head := [ArrayByte(kind)] + STREAMED_COUNT;
    var d := head + body + (END_MARKER + tail);
    assert head + body + END_MARKER + tail == d;
    BodyAfter(head, body, END_MARKER + tail);
    AtSplit(d, |head| + |body|, END_MARKER, tail);
    StreamedHead(kind, d, errno);
    ElementsMove(body, d, |head|, 0, errno, Fixed(count), r);
    if NoEnd(r.value) {
      StreamedElements(d, |head|, errno, count);
    } else {
      StreamedStopsEarly(d, |head|, errno, count);
    }
    var s := ParseElements(d, |head|, errno, Streamed);
    AggregateFromParts(d, errno, kind, Streamed, |head|, s.value, s.pos, s.errno);
  }

  /** An array, set or push sent with a count and the same elements sent streamed, with an end marker,
      are the same value exactly when no element is itself an end marker. */
  lemma StreamedEqualsCounted(kind: ArrayKind, body: seq<byte>, count: nat, errno: bool, tail: seq<byte>)
    requires count < NULL_COUNT && (errno ==> count > 0)
    requires ParseElements(body, 0, errno, Fixed(count)).Ok?
      && ParseElements(body, 0, errno, Fixed(count)).pos == |body|
    ensures var counted := [ArrayByte(kind)] + CountLine(count) + body;
      var streamed := [ArrayByte(kind)] + STREAMED_COUNT + body + END_MARKER;
      var r := ParseNode(counted + tail, 0, errno);
      && r.Ok? && r.pos == |counted|
      && (ParseNode(streamed + tail, 0, errno) == Ok(r.value, |streamed|, r.errno)
          <==> NoEnd(ParseElements(body, 0, errno, Fixed(count)).value))
  {
    hide *;
    CountedParses(kind, body, count, errno, tail, ParseElements(body, 0, errno, Fixed(count)));
    StreamedParses(kind, body, count, errno, tail, ParseElements(body, 0, errno, Fixed(count)));
  }

  lemma CountedHead(kind: ArrayKind, count: nat, d: seq<byte>, errno: bool, end: nat)
    requires count < NULL_COUNT && (errno ==> count > 0)
    requires At(d, 0, [ArrayByte(kind)] + CountLine(count)) && end == |[ArrayByte(kind)] + CountLine(count)|
    ensures 0 < |d| && d[0] == ArrayByte(kind) && ParseLength(d, 1, errno, []) == Ok(Fixed(count), end, errno)
  {
    hide At, Print, ParseLength;
    var head := [ArrayByte(kind)] + CountLine(count);
    AtBounds(d, 0, head);
    AtHead(d, 0, head);
    assert head[1..] == CountLine(count);
    CountBack(d, 1, errno, count);
  }

  lemma StreamedHead(kind: ArrayKind, d: seq<byte>, errno: bool)
    requires At(d, 0, [ArrayByte(kind)] + STREAMED_COUNT)
    ensures 0 < |d| && d[0] == ArrayByte(kind) && ParseLength(d, 1, errno, []) == Ok(Streamed, 4, errno)
  {
    hide At, ParseLength;
    var head := [ArrayByte(kind)] + STREAMED_COUNT;
    AtBounds(d, 0, head);
    AtHead(d, 0, head);
    assert head[1..] == STREAMED_COUNT;
    StreamedCountParses(d, 1, errno);
  }

  lemma AggregateFromParts(d: seq<byte>, errno: bool, kind: ArrayKind, length: Length, p: nat, elements: seq<Node>,
                           q: nat, e: bool)
    requires 0 < |d| && d[0] == ArrayByte(kind) && ParseLength(d, 1, errno, []) == Ok(length, p, errno)
    requires length != Fixed(NULL_COUNT) && p <= |d| && ParseElements(d, p, errno, length) == Ok(elements, q, e)
    ensures ParseNode(d, 0, errno) == Ok(Node(None, Aggregate(kind, elements)), q, e)
  {
    hide ParseLength, ParseElements, ParseData, ParseNode;
    ArrayDispatch(d, 0, errno, kind);
    PlainNode(d, 0, errno, Aggregate(kind, elements), q, e);
  }

  lemma CountedMapParses(body: seq<byte>, count: nat, errno: bool, tail: seq<byte>, r: Outcome<seq<Pair>>)
    requires count < NULL_COUNT && (errno ==> count > 0)
    requires r == ParsePairs(body, 0, errno, Fixed(count)) && r.Ok? && r.pos == |body|
    ensures var counted := [37] + CountLine(count) + body;
      ParseNode(counted + tail, 0, errno) == Ok(Node(None, Map(AbsorbAll(EMPTY_TABLE, r.value))), |counted|, r.errno)
  {
    MarkerLengths(count);
    hide *;
    var head := [37] + CountLine(count);
    var d := head + body + tail;
    BodyAfter(head, body, tail);
    CountedMapHead(count, d, errno, |head|);
    PairsMove(body, d, |head|, 0, errno, Fixed(count), r);
    MapFromParts(d, errno, Fixed(count), |head|, r.value, |head| + |body|, r.errno);
  }

  lemma StreamedMapParses(body: seq<byte>, count: nat, errno: bool, tail: seq<byte>, r: Outcome<seq<Pair>>)
    requires r == ParsePairs(body, 0, errno, Fixed(count)) && r.Ok? && r.pos == |body|
    ensures var streamed := [37] + STREAMED_COUNT + body + END_MARKER;
      var s := ParseNode(streamed + tail, 0, errno);
      if NoEndKeys(r.value) then s == Ok(Node(None, Map(AbsorbAll(EMPTY_TABLE, r.value))), |streamed|, r.errno)
      else s.Ok? && s.pos < |streamed|
  {
    MarkerLengths(0);
    hide *;
    var head := [37] + STREAMED_COUNT;
    var d := head + body + (END_MARKER + tail);
    assert head + body + END_MARKER + tail == d;
    BodyAfter(head, body, END_MARKER + tail);
    AtSplit(d, |head| + |body|, END_MARKER, tail);
    StreamedMapHead(d, errno);
    PairsMove(body, d, |head|, 0, errno, Fixed(count), r);
    if NoEndKeys(r.value) {
      StreamedPairs(d, |head|, errno, count);
    } else {
      StreamedPairsStopEarly(d, |head|, errno, count);
    }
    var s := ParsePairs(d, |head|, errno, Streamed);
    MapFromParts(d, errno, Streamed, |head|, s.value, s.pos, s.errno);
  }

  /** The same for maps: the marker ends them where a key would stand. */
  lemma StreamedMapEqualsCounted(body: seq<byte>, count: nat, errno: bool, tail: seq<byte>)
    requires count < NULL_COUNT && (errno ==> count > 0)
    requires ParsePairs(body, 0, errno, Fixed(count)).Ok? && ParsePairs(body, 0, errno, Fixed(count)).pos == |body|
    ensures var counted := [37] + CountLine(count) + body;
      var streamed := [37] + STREAMED_COUNT + body + END_MARKER;
      var r := ParseNode(counted + tail, 0, errno);
      && r.Ok? && r.pos == |counted|
      && (ParseNode(streamed + tail, 0, errno) == Ok(r.value, |streamed|, r.errno)
          <==> NoEndKeys(ParsePairs(body, 0, errno, Fixed(count)).value))
  {
    hide *;
    CountedMapParses(body, count, errno, tail, ParsePairs(body, 0, errno, Fixed(count)));
    StreamedMapParses(body, count, errno, tail, ParsePairs(body, 0, errno, Fixed(count)));
  }

  lemma CountedMapHead(count: nat, d: seq<byte>, errno: bool, end: nat)
    requires count < NULL_COUNT && (errno ==> count > 0)
    requires At(d, 0, [37] + CountLine(count)) && end == |[37] + CountLine(count)|
    ensures 0 < |d| && d[0] == 37 && ParseLength(d, 1, errno, []) == Ok(Fixed(count), end, errno)
  {
    hide At, Print, ParseLength;
    var head := [37] + CountLine(count);
    AtBounds(d, 0, head);
    AtHead(d, 0, head);
    assert head[1..] == CountLine(count);
    CountBack(d, 1, errno, count);
  }

  lemma StreamedMapHead(d: seq<byte>, errno: bool)
    requires At(d, 0, [37] + STREAMED_COUNT)
    ensures 0 < |d| && d[0] == 37 && ParseLength(d, 1, errno, []) == Ok(Streamed, 4, errno)
  {
    hide At, ParseLength;
    var head := [37] + STREAMED_COUNT;
    AtBounds(d, 0, head);
    AtHead(d, 0, head);
    assert head[1..] == STREAMED_COUNT;
    StreamedCountParses(d, 1, errno);
  }

  lemma MapFromParts(d: seq<byte>, errno: bool, length: Length, p: nat, pairs: seq<Pair>, q: nat, e: bool)
    requires 0 < |d| && d[0] == 37 && ParseLength(d, 1, errno, []) == Ok(length, p, errno)
    requires p <= |d| && ParsePairs(d, p, errno, length) == Ok(pairs, q, e)
    ensures ParseNode(d, 0, errno) == Ok(Node(None, Map(AbsorbAll(EMPTY_TABLE, pairs))), q, e)
  {
    hide ParseLength, ParsePairs, ParseData, ParseNode, AbsorbAll;
    MapDispatch(d, 0, errno);
    PlainNode(d, 0, errno, Map(AbsorbAll(EMPTY_TABLE, pairs)), q, e);
  }
}
