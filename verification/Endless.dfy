/** When the parser never returns: a blob whose buffer would have to grow beyond 2^31 bytes. */
module Endless {
  import opened Bytes
  import opened Decimal
  import opened Protocol
  import opened Shapes
  import opened RoundTrip
  import DynamicArray

  /** The bytes at `pos` read as a count that the growth of the buffer never reaches. */
  predicate HugeCount(d: seq<byte>, pos: nat, errno: bool)
    requires pos <= |d|
  {
    match ParseLength(d, pos, errno, [])
    case Ok(Fixed(count), _, _) => MAX_BUFFER < count < NULL_COUNT
    case _ => false
  }

  /** An empty buffer grows to the count exactly when the parser goes on to fill it. */
  lemma BufferGrowsExactlyWhen(count: DynamicArray.uint32)
    ensures (exists k: nat :: count <= DynamicArray.Grown(1, k)) <==> count <= MAX_BUFFER
  {
    DynamicArray.GrowthEndsExactlyWhen(1, count);
  }

  lemma {:induction false} LengthReturns(d: seq<byte>, pos: nat, errno: bool, digits: seq<byte>)
    requires pos <= |d|
    ensures ParseLength(d, pos, errno, digits) != Err(Endless)
    ensures match ParseLength(d, pos, errno, digits) case Ok(Fixed(count), _, _) => count <= NULL_COUNT case _ => true
    decreases |d| - pos
  {
    hide Strtol;
    if pos < |d| && |digits| < 127 && d[pos] != QUESTION && (IsDigit(d[pos]) || d[pos] == MINUS) {
      LengthReturns(d, pos + 1, errno, digits + [d[pos]]);
    }
  }

  lemma {:induction false} TextReturns(d: seq<byte>, start: nat, pos: nat)
    requires start <= pos <= |d|
    ensures ParseText(d, start, pos) != Err(Endless)
    decreases |d| - pos
  {
    if pos + 1 < |d| && !(d[pos] == CR && d[pos + 1] == LF) {
      TextReturns(d, start, pos + 1);
    }
  }

  /** A blob hangs the parser exactly when its count is huge. */
  lemma BlobEndlessExactlyWhen(d: seq<byte>, pos: nat, errno: bool, kind: BlobKind)
    requires pos <= |d|
    ensures ParseBlob(d, pos, errno, kind) == Err(Endless) <==> HugeCount(d, pos, errno)
  {
    hide ParseLength;
    LengthReturns(d, pos, errno, []);
  }

  // ----- the values a parse begins

  predicate IsBlobByte(b: byte) {
    b == BlobByte(BlobString) || b == BlobByte(BlobError) || b == BlobByte(Verbatim)
  }

  predicate IsArrayByte(b: byte) {
    b == ArrayByte(Array) || b == ArrayByte(Set) || b == ArrayByte(Push)
  }

  /** Percent and bar: maps and attributes. */
  predicate IsTableByte(b: byte) {
    b == 37 || b == 124
  }

  /** A parse of a value at `pos` comes to begin a value at `q`, then with this `errno`. */
  predicate NodeBegins(d: seq<byte>, pos: nat, errno: bool, q: nat, e: bool)
    requires pos <= |d|
    decreases |d| - pos, 1
  {
    || DataBegins(d, pos, errno, q, e)
    || (match ParseData(d, pos, errno)
        case Ok(Attribute(_), p, e') => DataBegins(d, p, e', q, e)
        case _ => false)
  }

  predicate DataBegins(d: seq<byte>, pos: nat, errno: bool, q: nat, e: bool)
    requires pos <= |d|
    decreases |d| - pos, 0
  {
    || (q == pos && e == errno)
    || (pos < |d| && match ParseLength(d, pos + 1, errno, [])
                     case Ok(length, p, e') =>
                       || (IsArrayByte(d[pos]) && length != Fixed(NULL_COUNT) && ElementsBegin(d, p, e', length, q, e))
                       || (IsTableByte(d[pos]) && PairsBegin(d, p, e', length, q, e))
                     case Err(_) => false)
  }

  predicate ElementsBegin(d: seq<byte>, pos: nat, errno: bool, length: Length, q: nat, e: bool)
    requires pos <= |d|
    decreases |d| - pos, 2
  {
    length != Fixed(0) &&
    (NodeBegins(d, pos, errno, q, e) ||
     match ParseNode(d, pos, errno)
     case Ok(node, p, e') => !(length.Streamed? && node.data.End?) && ElementsBegin(d, p, e', Fewer(length), q, e)
     case Err(_) => false)
  }

  predicate PairsBegin(d: seq<byte>, pos: nat, errno: bool, length: Length, q: nat, e: bool)
    requires pos <= |d|
    decreases |d| - pos, 2
  {
    length != Fixed(0) &&
    (NodeBegins(d, pos, errno, q, e) ||
     match ParseNode(d, pos, errno)
     case Ok(key, p, e') =>
       !(length.Streamed? && key.data.End?) &&
       (NodeBegins(d, p, e', q, e) ||
        match ParseNode(d, p, e')
        case Ok(_, p', e'') => PairsBegin(d, p', e'', Fewer(length), q, e)
        case Err(_) => false)
     case Err(_) => false)
  }

  /** At `q` stands a blob with a huge count. */
  predicate HugeBlob(d: seq<byte>, q: nat, e: bool) {
    q < |d| && IsBlobByte(d[q]) && HugeCount(d, q + 1, e)
  }

  // ----- one value

  lemma DataIsBlob(d: seq<byte>, pos: nat, errno: bool)
    requires pos < |d| && IsBlobByte(d[pos])
    ensures ParseData(d, pos, errno) == Err(Endless) <==> HugeCount(d, pos + 1, errno)
  {
    hide ParseBlob, HugeCount;
    BlobEndlessExactlyWhen(d, pos + 1, errno, BlobString);
    BlobEndlessExactlyWhen(d, pos + 1, errno, BlobError);
    BlobEndlessExactlyWhen(d, pos + 1, errno, Verbatim);
  }

  /** Every other value hangs only inside. */
  lemma DataIsOther(d: seq<byte>, pos: nat, errno: bool)
    requires pos <= |d| && (pos < |d| ==> !IsBlobByte(d[pos]))
    ensures ParseData(d, pos, errno) == Err(Endless) <==>
            pos < |d| && match ParseLength(d, pos + 1, errno, [])
                         case Ok(length, p, e) =>
                           || (IsArrayByte(d[pos]) && length != Fixed(NULL_COUNT)
                               && ParseElements(d, p, e, length) == Err(Endless))
                           || (IsTableByte(d[pos]) && ParsePairs(d, p, e, length) == Err(Endless))
                         case Err(_) => false
  {
    hide ParseLength, ParseElements, ParsePairs, ParseText, Strtol, AbsorbAll, AllDigits;
    if pos < |d| {
      LengthReturns(d, pos + 1, errno, []);
      TextReturns(d, pos + 1, pos + 1);
    }
  }

  // ----- a hang comes from a value begun

  lemma {:induction false} NodeHangs(d: seq<byte>, pos: nat, errno: bool) returns (q: nat, e: bool)
    requires pos <= |d| && ParseNode(d, pos, errno) == Err(Endless)
    ensures NodeBegins(d, pos, errno, q, e) && HugeBlob(d, q, e)
    decreases |d| - pos, 1
  {
    hide ParseData, DataBegins, HugeBlob;
    var first := ParseData(d, pos, errno);
    if first == Err(Endless) {
      q, e := DataHangs(d, pos, errno);
    } else {
      q, e := DataHangs(d, first.pos, first.errno);
    }
  }

  lemma {:induction false} DataHangs(d: seq<byte>, pos: nat, errno: bool) returns (q: nat, e: bool)
    requires pos <= |d| && ParseData(d, pos, errno) == Err(Endless)
    ensures DataBegins(d, pos, errno, q, e) && HugeBlob(d, q, e)
    decreases |d| - pos, 0
  {
    hide ParseData, ParseLength, ParseElements, ParsePairs, HugeCount, ElementsBegin, PairsBegin;
    q, e := pos, errno;
    if pos < |d| && IsBlobByte(d[pos]) {
      DataIsBlob(d, pos, errno);
    } else {
      DataIsOther(d, pos, errno);
      var length := ParseLength(d, pos + 1, errno, []);
      if IsArrayByte(d[pos]) {
        q, e := ElementsHang(d, length.pos, length.errno, length.value);
      } else {
        q, e := PairsHang(d, length.pos, length.errno, length.value);
      }
    }
  }

  lemma {:induction false} ElementsHang(d: seq<byte>, pos: nat, errno: bool, length: Length) returns (q: nat, e: bool)
    requires pos <= |d| && ParseElements(d, pos, errno, length) == Err(Endless)
    ensures ElementsBegin(d, pos, errno, length, q, e) && HugeBlob(d, q, e)
    decreases |d| - pos, 2
  {
    hide ParseNode, NodeBegins, HugeBlob;
    var first := ParseNode(d, pos, errno);
    if first == Err(Endless) {
      q, e := NodeHangs(d, pos, errno);
    } else {
      q, e := ElementsHang(d, first.pos, first.errno, Fewer(length));
    }
  }

  lemma {:induction false} PairsHang(d: seq<byte>, pos: nat, errno: bool, length: Length) returns (q: nat, e: bool)
    requires pos <= |d| && ParsePairs(d, pos, errno, length) == Err(Endless)
    ensures PairsBegin(d, pos, errno, length, q, e) && HugeBlob(d, q, e)
    decreases |d| - pos, 2
  {
    hide ParseNode, NodeBegins, HugeBlob;
    var key := ParseNode(d, pos, errno);
    if key == Err(Endless) {
      q, e := NodeHangs(d, pos, errno);
    } else {
      var value := ParseNode(d, key.pos, key.errno);
      if value == Err(Endless) {
        q, e := NodeHangs(d, key.pos, key.errno);
      } else {
        q, e := PairsHang(d, value.pos, value.errno, Fewer(length));
      }
    }
  }

  // ----- a value begun hangs the parse

  lemma {:induction false} BegunInNode(d: seq<byte>, pos: nat, errno: bool, q: nat, e: bool)
    requires pos <= |d| && NodeBegins(d, pos, errno, q, e) && HugeBlob(d, q, e)
    ensures ParseNode(d, pos, errno) == Err(Endless)
    decreases |d| - pos, 1
  {
    hide ParseData, DataBegins, HugeBlob;
    if DataBegins(d, pos, errno, q, e) {
      BegunInData(d, pos, errno, q, e);
    } else {
      var first := ParseData(d, pos, errno);
      BegunInData(d, first.pos, first.errno, q, e);
    }
  }

  lemma {:induction false} BegunInData(d: seq<byte>, pos: nat, errno: bool, q: nat, e: bool)
    requires pos <= |d| && DataBegins(d, pos, errno, q, e) && HugeBlob(d, q, e)
    ensures ParseData(d, pos, errno) == Err(Endless)
    decreases |d| - pos, 0
  {
    hide ParseData, ParseLength, ParseElements, ParsePairs, HugeCount, ElementsBegin, PairsBegin;
    if q == pos && e == errno {
      DataIsBlob(d, pos, errno);
    } else {
      DataIsOther(d, pos, errno);
      var length := ParseLength(d, pos + 1, errno, []);
      if IsArrayByte(d[pos]) {
        BegunInElements(d, length.pos, length.errno, length.value, q, e);
      } else {
        BegunInPairs(d, length.pos, length.errno, length.value, q, e);
      }
    }
  }

  lemma {:induction false} BegunInElements(d: seq<byte>, pos: nat, errno: bool, length: Length, q: nat, e: bool)
    requires pos <= |d| && ElementsBegin(d, pos, errno, length, q, e) && HugeBlob(d, q, e)
    ensures ParseElements(d, pos, errno, length) == Err(Endless)
    decreases |d| - pos, 2
  {
    hide ParseNode, NodeBegins, HugeBlob;
    if NodeBegins(d, pos, errno, q, e) {
      BegunInNode(d, pos, errno, q, e);
    } else {
      var first := ParseNode(d, pos, errno);
      BegunInElements(d, first.pos, first.errno, Fewer(length), q, e);
    }
  }

  lemma {:induction false} BegunInPairs(d: seq<byte>, pos: nat, errno: bool, length: Length, q: nat, e: bool)
    requires pos <= |d| && PairsBegin(d, pos, errno, length, q, e) && HugeBlob(d, q, e)
    ensures ParsePairs(d, pos, errno, length) == Err(Endless)
    decreases |d| - pos, 2
  {
    hide ParseNode, NodeBegins, HugeBlob;
    if NodeBegins(d, pos, errno, q, e) {
      BegunInNode(d, pos, errno, q, e);
    } else {
      var key := ParseNode(d, pos, errno);
      if NodeBegins(d, key.pos, key.errno, q, e) {
        BegunInNode(d, key.pos, key.errno, q, e);
      } else {
        var value := ParseNode(d, key.pos, key.errno);
        BegunInPairs(d, value.pos, value.errno, Fewer(length), q, e);
      }
    }
  }

  /** The parser never returns exactly when one of the values it comes to begin is a blob with a count
      above 2^31 that is not the null count. */
  lemma ParseEndlessExactlyWhen(d: seq<byte>, pos: nat, errno: bool)
    requires pos <= |d|
    ensures ParseNode(d, pos, errno) == Err(Endless) <==>
            exists q: nat, e: bool :: NodeBegins(d, pos, errno, q, e) && HugeBlob(d, q, e)
  {
    hide ParseNode, NodeBegins, HugeBlob;
    if ParseNode(d, pos, errno) == Err(Endless) {
      var q, e := NodeHangs(d, pos, errno);
    }
    if q: nat, e: bool :| NodeBegins(d, pos, errno, q, e) && HugeBlob(d, q, e) {
      BegunInNode(d, pos, errno, q, e);
    }
  }

  /** "$2147483649" and a line end hang the parser, whatever follows. */
  lemma HugeBlobHangs(tail: seq<byte>, errno: bool)
    ensures ParseNode([BlobByte(BlobString)] + Print(0x8000_0001) + CRLF + tail, 0, errno) == Err(Endless)
  {
    hide Print, ParseLength, ParseData;
    var d := [BlobByte(BlobString)] + Print(0x8000_0001) + CRLF + tail;
    assert d[1..1 + |Print(0x8000_0001) + CRLF|] == Print(0x8000_0001) + CRLF;
    CountBack(d, 1, errno, 0x8000_0001);
    DataIsBlob(d, 0, errno);
  }
}
