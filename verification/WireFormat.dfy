/** The format of the protocol, byte by byte: what each kind of value looks like to the parser. Bytes are
    written as numbers here, and numbers are spelled out, so that nothing follows from the parser and the
    printer agreeing with one another. */
module WireFormat {
  import opened Bytes
  import opened Decimal
  import opened Protocol
  import opened RoundTrip
  import opened Relocation
  import Shapes

  // ----- numbers

  /** One or more decimal digits. */
  predicate IsNumeral(s: seq<byte>) {
    s != [] && forall i :: 0 <= i < |s| ==> 48 <= s[i] <= 57
  }

  /** The number that digits spell: each counts ten times as much as the next. */
  function Spelled(s: seq<byte>): int {
    if s == [] then 0 else (s[0] - 48) * Power10(|s| - 1) + Spelled(s[1..])
  }

  /** The nearest 64-bit number, and whether it is another one. */
  function Nearest(n: int): Long {
    if n > 0x7FFF_FFFF_FFFF_FFFF then Long(0x7FFF_FFFF_FFFF_FFFF, true)
    else if n < -0x8000_0000_0000_0000 then Long(-0x8000_0000_0000_0000, true)
    else Long(n, false)
  }

  predicate IsBlank(s: seq<byte>) {
    forall i :: 0 <= i < |s| ==> s[i] == 32 || 9 <= s[i] <= 13
  }

  lemma Horner(acc: int, digit: int, unit: int)
    ensures (10 * acc + digit) * unit == acc * (10 * unit) + digit * unit
  {}

  lemma DigitFirst(s: seq<byte>)
    requires s != []
    ensures Power10(|s|) == 10 * Power10(|s| - 1)
    ensures Spelled(s) == (s[0] - 48) * Power10(|s| - 1) + Spelled(s[1..])
  {}

  lemma DigitValueFirst(acc: nat, s: seq<byte>, rest: seq<byte>)
    requires s != [] && 48 <= s[0] <= 57
    ensures DigitsValue(acc, s + rest) == DigitsValue(10 * acc + (s[0] - 48), s[1..] + rest)
  {
    assert (s + rest)[1..] == s[1..] + rest;
  }

  lemma {:induction false} DigitsSpell(acc: nat, s: seq<byte>, rest: seq<byte>)
    requires forall i :: 0 <= i < |s| ==> 48 <= s[i] <= 57
    requires rest == [] || rest[0] < 48 || rest[0] > 57
    ensures DigitsValue(acc, s + rest) == acc * Power10(|s|) + Spelled(s)
    decreases |s|
  {
    if s == [] {
      assert s + rest == rest;
    } else {
      hide Power10, Spelled, DigitsValue;
      DigitFirst(s);
      DigitValueFirst(acc, s, rest);
      DigitsSpell(10 * acc + (s[0] - 48), s[1..], rest);
      Horner(acc, s[0] - 48, Power10(|s| - 1));
    }
  }

  lemma {:induction false} BlankIsSkipped(blank: seq<byte>, rest: seq<byte>)
    requires IsBlank(blank)
    ensures SkipSpace(blank + rest) == SkipSpace(rest)
  {
    if blank == [] {
      assert blank + rest == rest;
    } else {
      assert (blank + rest)[1..] == blank[1..] + rest;
      BlankIsSkipped(blank[1..], rest);
    }
  }

  /** `strtol`: blanks, perhaps a sign, and digits up to the first other byte. */
  lemma StrtolReads(blank: seq<byte>, s: seq<byte>, rest: seq<byte>)
    requires IsBlank(blank) && IsNumeral(s) && (rest == [] || rest[0] < 48 || rest[0] > 57)
    ensures Strtol(blank + (s + rest)) == Nearest(Spelled(s))
    ensures Strtol(blank + ([43] + (s + rest))) == Nearest(Spelled(s))
    ensures Strtol(blank + ([45] + (s + rest))) == Nearest(0 - Spelled(s))
  {
    hide Spelled, DigitsValue;
    DigitsSpell(0, s, rest);
    BlankIsSkipped(blank, s + rest);
    BlankIsSkipped(blank, [43] + (s + rest));
    BlankIsSkipped(blank, [45] + (s + rest));
    assert (s + rest)[0] == s[0];
    assert ([43] + (s + rest))[1..] == s + rest && ([45] + (s + rest))[1..] == s + rest;
  }

  /** What is printed of a number: digits without a leading zero, after a minus sign if it is negative. */
  lemma PrintIsShort(n: int)
    ensures n >= 0 ==> IsNumeral(Print(n)) && Spelled(Print(n)) == n && (n > 0 ==> Print(n)[0] != 48)
    ensures n == 0 ==> Print(n) == [48]
    ensures n < 0 ==> Print(n) == [45] + Print(0 - n)
  {
    if n >= 0 {
      DigitsLead(n);
      DigitsValueOfDigits(n);
      DigitsSpell(0, Digits(n), []);
      assert Digits(n) + [] == Digits(n);
    }
  }

  lemma {:induction false} DigitsLead(n: nat)
    ensures n > 0 ==> Digits(n)[0] != 48
  {
    if n >= 10 {
      DigitsLead(n / 10);
    }
  }

  // ----- counts

  /** Digits, after a minus sign or not. */
  function Signed(minus: bool, s: seq<byte>): seq<byte> {
    (if minus then [45] else []) + s
  }

  function SignedValue(minus: bool, s: seq<byte>): int {
    if minus then 0 - Spelled(s) else Spelled(s)
  }

  lemma StrtolOfSigned(minus: bool, s: seq<byte>)
    requires IsNumeral(s)
    ensures Strtol(Signed(minus, s)) == Nearest(SignedValue(minus, s))
  {
    hide Strtol, Spelled;
    StrtolReads([], s, []);
    assert s + [] == s && [] + s == s && [] + ([45] + s) == [45] + s;
  }

  /** A count is a line of at most 126 bytes with a decimal number, cut to 32 bits; a zero is refused while
      `errno` is set. */
  lemma CountReads(d: seq<byte>, pos: nat, errno: bool, minus: bool, s: seq<byte>)
    requires IsNumeral(s) && |Signed(minus, s)| <= 126 && At(d, pos, Signed(minus, s) + [13, 10])
    ensures var n := Nearest(SignedValue(minus, s)); var count := n.value % 0x1_0000_0000;
      ParseLength(d, pos, errno, []) ==
        if count == 0 && (errno || n.overflow) then Err(Rejected)
        else Ok(Fixed(count), pos + |Signed(minus, s)| + 2, errno || n.overflow)
  {
    hide Strtol, Spelled, At, ParseLength;
    StrtolOfSigned(minus, s);
    CountScan(d, pos, errno, Signed(minus, s), []);
    assert [] + Signed(minus, s) == Signed(minus, s);
  }

  /** A longer one is refused. */
  lemma {:induction false} LongCountIsRefused(d: seq<byte>, pos: nat, errno: bool, seen: seq<byte>)
    requires pos + 127 <= |d| + |seen|
    requires forall i :: pos <= i < pos + 127 - |seen| ==> 48 <= d[i] <= 57 || d[i] == 45
    requires pos <= |d|
    ensures ParseLength(d, pos, errno, seen) == Err(Rejected)
    decreases |d| - pos
  {
    if |seen| < 127 {
      LongCountIsRefused(d, pos + 1, errno, seen + [d[pos]]);
    }
  }

  lemma SmallCountReads(d: seq<byte>, pos: nat, errno: bool, s: seq<byte>, count: nat)
    requires IsNumeral(s) && |s| <= 126 && At(d, pos, s + [13, 10]) && Spelled(s) == count < 0xFFFF_FFFF
    ensures ParseLength(d, pos, errno, []) ==
      if count == 0 && errno then Err(Rejected) else Ok(Fixed(count), pos + |s| + 2, errno)
  {
    hide At, ParseLength;
    assert Signed(false, s) == s;
    CountReads(d, pos, errno, false, s);
  }

  // ----- values on one line

  /** The announcing byte, a line and what follows. */
  function Line(b: byte, text: seq<byte>, tail: seq<byte>): seq<byte> {
    [b] + (text + [13, 10] + tail)
  }

  lemma LineStands(b: byte, text: seq<byte>, tail: seq<byte>)
    ensures At(Line(b, text, tail), 1, text + [13, 10]) && Line(b, text, tail)[0] == b
    ensures |Line(b, text, tail)| == |text| + 3 + |tail|
    ensures At(Line(b, text, tail), |text| + 3, tail)
  {
    var d := Line(b, text, tail);
    assert d[1..1 + |text| + 2] == text + [13, 10];
    assert d[|text| + 3..|text| + 3 + |tail|] == tail;
  }

  /** Simple strings, simple errors and big numbers: the line without its end. A big number that is not all
      digits is refused. */
  lemma TextsRead(text: seq<byte>, tail: seq<byte>, errno: bool)
    requires forall i :: 0 <= i < |text| - 1 ==> !(text[i] == 13 && text[i + 1] == 10)
    ensures ParseNode(Line(43, text, tail), 0, errno)
         == Ok(Node(None, Text(SimpleString, text)), |text| + 3, errno)
    ensures ParseNode(Line(45, text, tail), 0, errno)
         == Ok(Node(None, Text(SimpleError, text)), |text| + 3, errno)
    ensures ParseNode(Line(60, text, tail), 0, errno)
         == if forall i :: 0 <= i < |text| ==> 48 <= text[i] <= 57
            then Ok(Node(None, Text(BigNumber, text)), |text| + 3, errno) else Err(Rejected)
  {
    hide ParseData, At, ParseText;
    TextReads(43, SimpleString, text, tail, errno);
    TextReads(45, SimpleError, text, tail, errno);
    TextReads(60, BigNumber, text, tail, errno);
  }

  lemma TextReads(b: byte, kind: TextKind, text: seq<byte>, tail: seq<byte>, errno: bool)
    requires TextByte(kind) == b
    requires forall i :: 0 <= i < |text| - 1 ==> !(text[i] == 13 && text[i + 1] == 10)
    ensures ParseData(Line(b, text, tail), 0, errno)
         == if kind != BigNumber || forall i :: 0 <= i < |text| ==> 48 <= text[i] <= 57
            then Ok(Text(kind, text), |text| + 3, errno) else Err(Rejected)
  {
    hide ParseData, At, ParseText;
    var d := Line(b, text, tail);
    LineStands(b, text, tail);
    TextDispatch(d, 0, errno, kind);
    TextBack(d, 1, 1, text);
    assert d[1..1 + |text|] == text;
  }

  /** A number: as `strtol` reads the line. */
  lemma NumbersRead(minus: bool, s: seq<byte>, tail: seq<byte>, errno: bool)
    requires IsNumeral(s)
    ensures var n := Nearest(SignedValue(minus, s));
      ParseNode(Line(58, Signed(minus, s), tail), 0, errno)
      == Ok(Node(None, Number(n.value)), |Signed(minus, s)| + 3, errno || n.overflow)
  {
    hide ParseData, At, ParseText, Strtol, Spelled;
    var text := Signed(minus, s);
    var d := Line(58, text, tail);
    LineStands(58, text, tail);
    NumberDispatch(d, 0, errno);
    TextBack(d, 1, 1, text);
    assert d[1..1 + |text|] == text;
    StrtolOfSigned(minus, s);
  }

  /** Null, the end marker and booleans. A boolean is true unless its byte is NUL, so `f` is true too; the
      printer writes `t` and `f`. */
  lemma MarksRead(b: byte, tail: seq<byte>, errno: bool)
    ensures ParseNode([95, 13, 10] + tail, 0, errno) == Ok(Node(None, Null), 3, errno)
    ensures ParseNode([46, 13, 10] + tail, 0, errno) == Ok(Node(None, End), 3, errno)
    ensures ParseNode([35, b, 13, 10] + tail, 0, errno) == Ok(Node(None, Boolean(b != 0)), 4, errno)
    ensures EncodeNode(Node(None, Boolean(true))) == [35, 116, 13, 10]
    ensures EncodeNode(Node(None, Boolean(false))) == [35, 102, 13, 10]
  {
    hide ParseData;
    MarkerDispatch([95, 13, 10] + tail, 0, errno);
    MarkerDispatch([46, 13, 10] + tail, 0, errno);
    BooleanDispatch([35, b, 13, 10] + tail, 0, errno);
    assert EncodeBody(Boolean(true)) == [116] + CRLF && EncodeBody(Boolean(false)) == [102] + CRLF;
  }

  // ----- null values

  /** The count -1 means a null value. */
  lemma NullsRead(tail: seq<byte>, errno: bool)
    ensures ParseNode([36, 45, 49, 13, 10] + tail, 0, errno) == Ok(Node(None, NullBlob(BlobString)), 5, errno)
    ensures ParseNode([33, 45, 49, 13, 10] + tail, 0, errno) == Ok(Node(None, NullBlob(BlobError)), 5, errno)
    ensures ParseNode([61, 45, 49, 13, 10] + tail, 0, errno) == Ok(Node(None, NullBlob(Verbatim)), 5, errno)
    ensures ParseNode([42, 45, 49, 13, 10] + tail, 0, errno) == Ok(Node(None, NullAggregate(Array)), 5, errno)
    ensures ParseNode([126, 45, 49, 13, 10] + tail, 0, errno) == Ok(Node(None, NullAggregate(Set)), 5, errno)
    ensures ParseNode([62, 45, 49, 13, 10] + tail, 0, errno) == Ok(Node(None, NullAggregate(Push)), 5, errno)
  {
    hide ParseData;
    NullBlobReads(36, BlobString, tail, errno);
    NullBlobReads(33, BlobError, tail, errno);
    NullBlobReads(61, Verbatim, tail, errno);
    NullAggregateReads(42, Array, tail, errno);
    NullAggregateReads(126, Set, tail, errno);
    NullAggregateReads(62, Push, tail, errno);
  }

  lemma NullCountReads(b: byte, tail: seq<byte>, errno: bool)
    ensures ParseLength([b, 45, 49, 13, 10] + tail, 1, errno, []) == Ok(Fixed(NULL_COUNT), 5, errno)
  {
    hide ParseLength, At;
    assert Line(b, [45, 49], tail) == [b, 45, 49, 13, 10] + tail && Signed(true, [49]) == [45, 49];
    LineStands(b, [45, 49], tail);
    assert Spelled([49]) == 1;
    CountReads([b, 45, 49, 13, 10] + tail, 1, errno, true, [49]);
  }

  lemma NullBlobReads(b: byte, kind: BlobKind, tail: seq<byte>, errno: bool)
    requires BlobByte(kind) == b
    ensures ParseData([b, 45, 49, 13, 10] + tail, 0, errno) == Ok(NullBlob(kind), 5, errno)
  {
    hide ParseData, ParseLength;
    BlobDispatch([b, 45, 49, 13, 10] + tail, 0, errno, kind);
    NullCountReads(b, tail, errno);
  }

  lemma NullAggregateReads(b: byte, kind: ArrayKind, tail: seq<byte>, errno: bool)
    requires ArrayByte(kind) == b
    ensures ParseData([b, 45, 49, 13, 10] + tail, 0, errno) == Ok(NullAggregate(kind), 5, errno)
  {
    hide ParseData, ParseLength, ParseElements;
    ArrayDispatch([b, 45, 49, 13, 10] + tail, 0, errno, kind);
    NullCountReads(b, tail, errno);
  }

  // ----- blobs

  /** A count line, that many bytes and a line end. */
  lemma BlobsRead(s: seq<byte>, bytes: seq<byte>, tail: seq<byte>, errno: bool)
    requires IsNumeral(s) && |s| <= 126 && Spelled(s) == |bytes| <= 0x8000_0000 && (bytes == [] ==> !errno)
    ensures var n := |s| + |bytes| + 5;
      && ParseNode(Line(36, s, bytes + [13, 10] + tail), 0, errno) == Ok(Node(None, Blob(BlobString, bytes)), n, errno)
      && ParseNode(Line(33, s, bytes + [13, 10] + tail), 0, errno) == Ok(Node(None, Blob(BlobError, bytes)), n, errno)
      && ParseNode(Line(61, s, bytes + [13, 10] + tail), 0, errno) == Ok(Node(None, Blob(Verbatim, bytes)), n, errno)
  {
    hide ParseData, Line, Spelled;
    BlobReads(36, BlobString, s, bytes, tail, errno);
    BlobReads(33, BlobError, s, bytes, tail, errno);
    BlobReads(61, Verbatim, s, bytes, tail, errno);
  }

  lemma BlobReads(b: byte, kind: BlobKind, s: seq<byte>, bytes: seq<byte>, tail: seq<byte>, errno: bool)
    requires BlobByte(kind) == b
    requires IsNumeral(s) && |s| <= 126 && Spelled(s) == |bytes| <= 0x8000_0000 && (bytes == [] ==> !errno)
    ensures ParseData(Line(b, s, bytes + [13, 10] + tail), 0, errno)
         == Ok(Blob(kind, bytes), |s| + |bytes| + 5, errno)
  {
    hide ParseData, ParseLength, At, Line, Spelled;
    var d, p := Line(b, s, bytes + [13, 10] + tail), |s| + 3;
    LineStands(b, s, bytes + [13, 10] + tail);
    SmallCountReads(d, 1, errno, s, |bytes|);
    BlobDispatch(d, 0, errno, kind);
    AtSplit(d, p, bytes + [13, 10], tail);
    AtSplit(d, p, bytes, [13, 10]);
    AtSlice(d, p, bytes);
    AtCrlf(d, p + |bytes|);
  }

  // ----- values that hold values

  function Concat(parts: seq<seq<byte>>): seq<byte> {
    if parts == [] then [] else parts[0] + Concat(parts[1..])
  }

  /** Each part is one value, and reading it leaves `errno` as it was. */
  predicate Reads(parts: seq<seq<byte>>, nodes: seq<Node>, errno: bool) {
    && |parts| == |nodes|
    && forall i :: 0 <= i < |parts| ==> ParseNode(parts[i], 0, errno) == Ok(nodes[i], |parts[i]|, errno)
  }

  lemma PartReads(d: seq<byte>, pos: nat, part: seq<byte>, node: Node, errno: bool)
    requires At(d, pos, part) && ParseNode(part, 0, errno) == Ok(node, |part|, errno)
    ensures pos <= |d| && ParseNode(d, pos, errno) == Ok(node, pos + |part|, errno)
    ensures |part| > 0
  {
    hide ParseNode, At, Same;
    AtSlice(d, pos, part);
    assert part[0..|part|] == part;
    SameFromSlices(part, d, pos, 0, |part|);
    NodeMoves(part, d, pos, 0, errno, ParseNode(part, 0, errno));
  }

  lemma {:induction false} ElementsRead(d: seq<byte>, pos: nat, errno: bool, parts: seq<seq<byte>>, nodes: seq<Node>)
    requires Reads(parts, nodes, errno) && At(d, pos, Concat(parts))
    ensures pos <= |d|
    ensures ParseElements(d, pos, errno, Fixed(|nodes|)) == Ok(nodes, pos + |Concat(parts)|, errno)
    decreases |nodes|
  {
    hide ParseNode, At;
    AtBounds(d, pos, Concat(parts));
    if nodes != [] {
      AtSplit(d, pos, parts[0], Concat(parts[1..]));
      PartReads(d, pos, parts[0], nodes[0], errno);
      ElementsRead(d, pos + |parts[0]|, errno, parts[1..], nodes[1..]);
      assert Fewer(Fixed(|nodes|)) == Fixed(|nodes[1..]|) && nodes == [nodes[0]] + nodes[1..];
    }
  }

  /** Arrays, sets and push data: a count line and that many values. */
  lemma AggregatesRead(s: seq<byte>, parts: seq<seq<byte>>, nodes: seq<Node>, tail: seq<byte>, errno: bool)
    requires IsNumeral(s) && |s| <= 126 && Spelled(s) == |nodes| < 0xFFFF_FFFF && (nodes == [] ==> !errno)
    requires Reads(parts, nodes, errno)
    ensures var n := |s| + 3 + |Concat(parts)|;
      && ParseNode(Line(42, s, Concat(parts) + tail), 0, errno) == Ok(Node(None, Aggregate(Array, nodes)), n, errno)
      && ParseNode(Line(126, s, Concat(parts) + tail), 0, errno) == Ok(Node(None, Aggregate(Set, nodes)), n, errno)
      && ParseNode(Line(62, s, Concat(parts) + tail), 0, errno) == Ok(Node(None, Aggregate(Push, nodes)), n, errno)
  {
    hide ParseData, Line, Spelled, Reads, Concat;
    AggregateReads(42, Array, s, parts, nodes, tail, errno);
    AggregateReads(126, Set, s, parts, nodes, tail, errno);
    AggregateReads(62, Push, s, parts, nodes, tail, errno);
  }

  lemma AggregateReads(b: byte, kind: ArrayKind, s: seq<byte>, parts: seq<seq<byte>>, nodes: seq<Node>,
                       tail: seq<byte>, errno: bool)
    requires ArrayByte(kind) == b
    requires IsNumeral(s) && |s| <= 126 && Spelled(s) == |nodes| < 0xFFFF_FFFF && (nodes == [] ==> !errno)
    requires Reads(parts, nodes, errno)
    ensures ParseData(Line(b, s, Concat(parts) + tail), 0, errno)
         == Ok(Aggregate(kind, nodes), |s| + 3 + |Concat(parts)|, errno)
  {
    hide ParseData, ParseLength, ParseElements, At, Line, Spelled, Reads, Concat;
    var d := Line(b, s, Concat(parts) + tail);
    LineStands(b, s, Concat(parts) + tail);
    SmallCountReads(d, 1, errno, s, |nodes|);
    ArrayDispatch(d, 0, errno, kind);
    AtSplit(d, |s| + 3, Concat(parts), tail);
    ElementsRead(d, |s| + 3, errno, parts, nodes);
  }

  /** Keys and values in turn. */
  function Alternating(keys: seq<Node>, values: seq<Node>): (r: seq<Pair>)
    requires |keys| == |values|
    ensures |r| == |keys| && forall i :: 0 <= i < |r| ==> r[i] == Pair(keys[i], values[i])
  {
    seq(|keys|, i requires 0 <= i < |keys| => Pair(keys[i], values[i]))
  }

  function ConcatPairs(keys: seq<seq<byte>>, values: seq<seq<byte>>): seq<byte>
    requires |keys| == |values|
  {
    if keys == [] then [] else keys[0] + (values[0] + ConcatPairs(keys[1..], values[1..]))
  }

  lemma {:induction false} PairsRead(d: seq<byte>, pos: nat, errno: bool, keyParts: seq<seq<byte>>, keys: seq<Node>,
                                     valueParts: seq<seq<byte>>, values: seq<Node>)
    requires |keys| == |values| && Reads(keyParts, keys, errno) && Reads(valueParts, values, errno)
    requires At(d, pos, ConcatPairs(keyParts, valueParts))
    ensures pos <= |d|
    ensures ParsePairs(d, pos, errno, Fixed(|keys|))
         == Ok(Alternating(keys, values), pos + |ConcatPairs(keyParts, valueParts)|, errno)
    decreases |keys|
  {
    hide ParseNode, At, Alternating;
    AtBounds(d, pos, ConcatPairs(keyParts, valueParts));
    if keys == [] {
      assert Alternating(keys, values) == [];
    } else {
      var rest := ConcatPairs(keyParts[1..], valueParts[1..]);
      var p := pos + |keyParts[0]|;
      AtSplit(d, pos, keyParts[0], valueParts[0] + rest);
      AtSplit(d, p, valueParts[0], rest);
      PartReads(d, pos, keyParts[0], keys[0], errno);
      PartReads(d, p, valueParts[0], values[0], errno);
      PairsRead(d, p + |valueParts[0]|, errno, keyParts[1..], keys[1..], valueParts[1..], values[1..]);
      assert Alternating(keys, values) == [Pair(keys[0], values[0])] + Alternating(keys[1..], values[1..]);
    }
  }

  lemma TableReads(b: byte, s: seq<byte>, keyParts: seq<seq<byte>>, keys: seq<Node>, valueParts: seq<seq<byte>>,
                   values: seq<Node>, tail: seq<byte>, errno: bool)
    requires b == 37 || b == 124
    requires IsNumeral(s) && |s| <= 126 && Spelled(s) == |keys| == |values| < 0xFFFF_FFFF && (keys == [] ==> !errno)
    requires |keyParts| == |keys| && |valueParts| == |values|
    requires Reads(keyParts, keys, errno) && Reads(valueParts, values, errno)
    ensures var table := AbsorbAll(EMPTY_TABLE, Alternating(keys, values));
      ParseData(Line(b, s, ConcatPairs(keyParts, valueParts) + tail), 0, errno)
      == Ok(if b == 37 then Map(table) else Attribute(table), |s| + 3 + |ConcatPairs(keyParts, valueParts)|, errno)
  {
    hide ParseData, ParseLength, ParsePairs, At, Line, Spelled, Reads, ConcatPairs, Alternating, AbsorbAll;
    var body := ConcatPairs(keyParts, valueParts);
    var d := Line(b, s, body + tail);
    LineStands(b, s, body + tail);
    SmallCountReads(d, 1, errno, s, |keys|);
    MapDispatch(d, 0, errno);
    AtSplit(d, |s| + 3, body, tail);
    PairsRead(d, |s| + 3, errno, keyParts, keys, valueParts, values);
  }

  /** Maps: a count line and that many pairs, absorbed in turn. */
  lemma MapsRead(s: seq<byte>, keyParts: seq<seq<byte>>, keys: seq<Node>, valueParts: seq<seq<byte>>,
                 values: seq<Node>, tail: seq<byte>, errno: bool)
    requires IsNumeral(s) && |s| <= 126 && Spelled(s) == |keys| == |values| < 0xFFFF_FFFF && (keys == [] ==> !errno)
    requires |keyParts| == |keys| && |valueParts| == |values|
    requires Reads(keyParts, keys, errno) && Reads(valueParts, values, errno)
    ensures var body := ConcatPairs(keyParts, valueParts);
      ParseNode(Line(37, s, body + tail), 0, errno)
      == Ok(Node(None, Map(AbsorbAll(EMPTY_TABLE, Alternating(keys, values)))), |s| + 3 + |body|, errno)
  {
    hide ParseData, Line, Spelled, Reads, ConcatPairs, Alternating, AbsorbAll;
    TableReads(37, s, keyParts, keys, valueParts, values, tail, errno);
  }

  /** With another announcing byte they are the attribute of the value that follows. */
  lemma AttributesRead(s: seq<byte>, keyParts: seq<seq<byte>>, keys: seq<Node>, valueParts: seq<seq<byte>>,
                       values: seq<Node>, part: seq<byte>, node: Node, tail: seq<byte>, errno: bool)
    requires IsNumeral(s) && |s| <= 126 && Spelled(s) == |keys| == |values| < 0xFFFF_FFFF && (keys == [] ==> !errno)
    requires |keyParts| == |keys| && |valueParts| == |values|
    requires Reads(keyParts, keys, errno) && Reads(valueParts, values, errno)
    requires ParseNode(part, 0, errno) == Ok(node, |part|, errno) && node.attribute.None?
    ensures var body := ConcatPairs(keyParts, valueParts);
      ParseNode(Line(124, s, body + (part + tail)), 0, errno)
      == Ok(Node(Some(AbsorbAll(EMPTY_TABLE, Alternating(keys, values))), node.data), |s| + 3 + |body| + |part|, errno)
  {
    hide ParseData, ParseNode, At, Line, Spelled, Reads, ConcatPairs, Alternating, AbsorbAll;
    var body := ConcatPairs(keyParts, valueParts);
    var p := |s| + 3 + |body|;
    TableReads(124, s, keyParts, keys, valueParts, values, part + tail, errno);
    LineStands(124, s, body + (part + tail));
    AttributeStands(Line(124, s, body + (part + tail)), p - |body|, body, part, tail,
                    AbsorbAll(EMPTY_TABLE, Alternating(keys, values)), node, errno);
  }

  lemma AttributeStands(d: seq<byte>, pos: nat, body: seq<byte>, part: seq<byte>, tail: seq<byte>, table: Table,
                        node: Node, errno: bool)
    requires At(d, pos, body + (part + tail)) && ParseData(d, 0, errno) == Ok(Attribute(table), pos + |body|, errno)
    requires ParseNode(part, 0, errno) == Ok(node, |part|, errno) && node.attribute.None?
    ensures ParseNode(d, 0, errno) == Ok(Node(Some(table), node.data), pos + |body| + |part|, errno)
  {
    hide ParseData, ParseNode, At;
    var p := pos + |body|;
    AtSplit(d, pos, body, part + tail);
    AtSplit(d, p, part, tail);
    PartReads(d, p, part, node, errno);
    PlainPart(d, p, node, p + |part|, errno);
    AttributedNode(d, 0, errno, table, p, errno, node.data, p + |part|, errno);
  }

  lemma PlainPart(d: seq<byte>, pos: nat, node: Node, p: nat, errno: bool)
    requires pos <= |d| && ParseNode(d, pos, errno) == Ok(node, p, errno) && node.attribute.None?
    ensures ParseData(d, pos, errno) == Ok(node.data, p, errno)
  {
    hide ParseData;
  }
}
