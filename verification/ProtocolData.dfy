/** The parser and the printer as the client runs them: objects that fill themselves from a byte
    stream. Each is proved against the functions of `Protocol`. */
module ProtocolData {
  import opened Bytes
  import opened Decimal
  import opened Protocol
  import opened MapOrder
  import opened ByteStreams

  /** What a parse method returns: a value, or the reason there is none. */
  datatype Result<+T> = Success(value: T) | Failure(why: Why)

  /** The method has done what the specification says: the same value, the stream at the same
      position, `errno` in the same state. */
  ghost predicate Agrees<T>(r: Result<T>, pos: nat, errno: bool, spec: Outcome<T>) {
    match spec
    case Ok(value, p, e) => r == Success(value) && pos == p && errno == e
    case Err(why) => r == Failure(why)
  }

  // ----- the primitives of the parser

  method ParseCRLF(s: SocketStream) returns (ok: bool)
    requires s.Valid()
    modifies s`pos
    ensures s.Valid() && s.pos >= old(s.pos)
    ensures ok <==> ParseCrlf(s.incoming, old(s.pos))
    ensures ok ==> s.pos == old(s.pos) + 2
  {
    var read, cr := s.ReadByte();
    if !read || cr != CR {
      return false;
    }
    var lf;
    read, lf := s.ReadByte();
    return read && lf == LF;
  }

  method ParseCount(s: SocketStream) returns (r: Result<Length>)
    requires s.Valid()
    modifies s`pos, s`errno
    ensures s.Valid() && s.pos >= old(s.pos)
    ensures Agrees(r, s.pos, s.errno, ParseLength(s.incoming, old(s.pos), old(s.errno), []))
  {
    hide Strtol;
    ghost var spec := ParseLength(s.incoming, s.pos, s.errno, []);
    var buffer: seq<byte> := [];
    var b: byte;
    while true
      invariant s.Valid() && s.pos >= old(s.pos) && s.errno == old(s.errno)
      invariant ParseLength(s.incoming, s.pos, s.errno, buffer) == spec
      decreases |s.incoming| - s.pos
    {
      if |buffer| >= 127 {
        return Failure(Rejected);
      }
      var read;
      read, b := s.ReadByte();
      if !read {
        return Failure(Rejected);
      }
      if b == QUESTION {
        var ended := ParseCRLF(s);
        return if ended then Success(Streamed) else Failure(Rejected);
      }
      if !IsDigit(b) && b != MINUS {
        break;
      }
      buffer := buffer + [b];
    }
    var number := Strtol(buffer);
    s.errno := s.errno || number.overflow;
    var count := number.value % 0x1_0000_0000;
    if count == 0 && s.errno {
      return Failure(Rejected);
    }
    if b != CR {
      return Failure(Rejected);
    }
    var read;
    read, b := s.ReadByte();
    if !read || b != LF {
      return Failure(Rejected);
    }
    return Success(Fixed(count));
  }

  lemma TextStep(d: seq<byte>, start: nat, pos: nat)
    requires start <= pos <= |d|
    ensures ParseText(d, start, pos) ==
      if pos + 1 >= |d| then Err(Rejected)
      else if d[pos] == CR && d[pos + 1] == LF then Ok(d[start..pos], pos + 2, false)
      else ParseText(d, start, pos + 1)
  {}

  method ParseCRLFTerminatedString(s: SocketStream) returns (r: Result<seq<byte>>)
    requires s.Valid()
    modifies s`pos
    ensures s.Valid() && s.pos >= old(s.pos)
    ensures Agrees(r, s.pos, false, ParseText(s.incoming, old(s.pos), old(s.pos)))
  {
    hide ParseText;
    ghost var d, start := s.incoming, s.pos;
    ghost var spec := ParseText(d, start, start);
    var value: seq<byte> := [];
    while true
      invariant s.Valid() && s.pos >= start && value == d[start..s.pos]
      invariant ParseText(d, start, if s.pos == start then start else s.pos - 1) == spec
      decreases |d| - s.pos
    {
      var read, b := s.ReadByte();
      if !read {
        TextStep(d, start, if s.pos == start then start else s.pos - 1);
        return Failure(Rejected);
      }
      value := value + [b];
      assert value == d[start..s.pos];
      if s.pos - start >= 2 {
        TextStep(d, start, s.pos - 2);
        assert value[|value| - 2] == d[s.pos - 2] && value[|value| - 1] == d[s.pos - 1];
      }
      if |value| >= 2 && value[|value| - 2] == CR && value[|value| - 1] == LF {
        break;
      }
    }
    assert value[..|value| - 2] == d[start..s.pos - 2];
    return Success(value[..|value| - 2]);
  }

  // ----- blob strings

  class BlobStringData {
    const kind: BlobKind
    var byteArray: seq<byte>
    var isNull: bool

    constructor (kind: BlobKind)
      ensures this.kind == kind && byteArray == [] && !isNull
    {
      this.kind := kind;
      byteArray, isNull := [], false;
    }

    function Value(): Data
      reads this
    {
      if isNull then NullBlob(kind) else Blob(kind, byteArray)
    }

    /** The buffer grows first, which ends only for counts up to 2^31. */
    method ParseByteArrayData(s: SocketStream, count: nat) returns (ok: bool)
      requires s.Valid() && count <= MAX_BUFFER
      modifies this`byteArray, s`pos
      ensures s.Valid() && s.pos >= old(s.pos)
      ensures ok <==> old(s.pos) + count <= |s.incoming| && ParseCrlf(s.incoming, old(s.pos) + count)
      ensures ok ==> s.pos == old(s.pos) + count + 2 && byteArray == s.incoming[old(s.pos)..old(s.pos) + count]
    {
      var buffer := new byte[count];
      ok := s.ReadBufferNow(buffer, count);
      byteArray := buffer[..];
      if ok {
        ok := ParseCRLF(s);
      }
    }

    /** The null count only sets the flag; nothing clears it. */
    method Parse(s: SocketStream) returns (r: Result<()>)
      requires s.Valid()
      modifies this, s`pos, s`errno
      ensures s.Valid() && s.pos >= old(s.pos)
      ensures match ParseBlob(s.incoming, old(s.pos), old(s.errno), kind)
        case Err(why) => r == Failure(why)
        case Ok(data, p, e) =>
          && r == Success(()) && s.pos == p && s.errno == e
          && isNull == (old(isNull) || data.NullBlob?)
          && (data.Blob? ==> byteArray == data.bytes)
    {
      var length := ParseCount(s);
      if length.Failure? {
        return Failure(length.why);
      }
      if length.value == Fixed(NULL_COUNT) {
        isNull := true;
        return Success(());
      }
      if length.value.Streamed? {
        return Failure(NotModelled);
      }
      if length.value.count > MAX_BUFFER {
        return Failure(Endless);
      }
      var ok := ParseByteArrayData(s, length.value.count);
      return if ok then Success(()) else Failure(Rejected);
    }
  }

  // ----- arrays, sets and pushes

  /** An outcome with elements that were read before. */
  ghost function After<T>(before: seq<T>, rest: Outcome<seq<T>>): Outcome<seq<T>> {
    match rest
    case Ok(value, p, e) => Ok(before + value, p, e)
    case Err(why) => Err(why)
  }

  lemma AfterNothing<T>(rest: Outcome<seq<T>>)
    ensures After([], rest) == rest
  {
    if rest.Ok? {
      assert [] + rest.value == rest.value;
    }
  }

  lemma AfterOneMore<T>(before: seq<T>, x: T, rest: Outcome<seq<T>>)
    ensures After(before + [x], rest)
         == After(before, match rest case Ok(value, p, e) => Ok([x] + value, p, e) case Err(why) => Err(why))
  {
    if rest.Ok? {
      assert before + [x] + rest.value == before + ([x] + rest.value);
    }
  }

  class ArrayData {
    const kind: ArrayKind
    var nestedDataArray: seq<Node>
    var isNull: bool

    constructor (kind: ArrayKind)
      ensures this.kind == kind && nestedDataArray == [] && !isNull
    {
      this.kind := kind;
      nestedDataArray, isNull := [], false;
    }

    function Value(): Data
      reads this
    {
      if isNull then NullAggregate(kind) else Aggregate(kind, nestedDataArray)
    }

    method Parse(s: SocketStream) returns (r: Result<()>)
      requires s.Valid()
      modifies this, s`pos, s`errno
      ensures s.Valid() && s.pos >= old(s.pos)
      ensures match ParseAggregate(s.incoming, old(s.pos), old(s.errno), kind)
        case Err(why) => r == Failure(why)
        case Ok(data, p, e) =>
          && r == Success(()) && s.pos == p && s.errno == e
          && isNull == (old(isNull) || data.NullAggregate?)
          && nestedDataArray == (if data.Aggregate? then data.elements else [])
      decreases |s.incoming| - s.pos, 3
    {
      hide ParseNode, ParseLength;
      nestedDataArray := [];
      var length := ParseCount(s);
      if length.Failure? {
        return Failure(length.why);
      }
      if length.value == Fixed(NULL_COUNT) {
        isNull := true;
        return Success(());
      }
      var left := length.value;
      ghost var whole := ParseElements(s.incoming, s.pos, s.errno, left);
      AfterNothing(whole);
      while left != Fixed(0)
        invariant s.Valid() && s.pos >= old(s.pos) && isNull == old(isNull)
        invariant whole == After(nestedDataArray, ParseElements(s.incoming, s.pos, s.errno, left))
        decreases |s.incoming| - s.pos
      {
        var nested := ParseTree(s);
        if nested.Failure? {
          return Failure(nested.why);
        }
        if left.Streamed? && nested.value.data.End? {
          return Success(());
        }
        AfterOneMore(nestedDataArray, nested.value, ParseElements(s.incoming, s.pos, s.errno, Fewer(left)));
        nestedDataArray := nestedDataArray + [nested.value];
        left := Fewer(left);
      }
      return Success(());
    }
  }

  // ----- maps and attributes

  class MapData {
    var fieldValuePairList: seq<Pair>
    var nestedDataMap: seq<Field>   // in key order

    constructor ()
      ensures Value() == EMPTY_TABLE
    {
      fieldValuePairList, nestedDataMap := [], [];
    }

    function Value(): Table
      reads this
    {
      Table(fieldValuePairList, nestedDataMap)
    }

    method Clear()
      modifies this
      ensures Value() == EMPTY_TABLE
    {
      fieldValuePairList, nestedDataMap := [], [];
    }

    /** The value bound to a string key. */
    function GetField(key: seq<byte>): Option<Node>
      reads this
    {
      Find(nestedDataMap, key)
    }

    method SetField(key: seq<byte>, value: Node)
      requires Sorted(nestedDataMap)
      modifies this`nestedDataMap
      ensures Sorted(nestedDataMap) && nestedDataMap == Protocol.SetField(old(nestedDataMap), key, value)
      ensures GetField(key) == Some(value)
    {
      SetFieldSorted(nestedDataMap, key, value);
      SetFieldFinds(nestedDataMap, key, value, key);
      nestedDataMap := Protocol.SetField(nestedDataMap, key, value);
    }

    method Parse(s: SocketStream) returns (r: Result<()>)
      requires s.Valid()
      modifies this, s`pos, s`errno
      ensures s.Valid() && s.pos >= old(s.pos)
      ensures match ParseTable(s.incoming, old(s.pos), old(s.errno))
        case Err(why) => r == Failure(why)
        case Ok(table, p, e) => r == Success(()) && s.pos == p && s.errno == e && Value() == table
      decreases |s.incoming| - s.pos, 3
    {
      hide ParseNode, ParseLength;
      Clear();
      var length := ParseCount(s);
      if length.Failure? {
        return Failure(length.why);
      }
      ghost var whole := ParsePairs(s.incoming, s.pos, s.errno, length.value);
      r := ParsePairList(s, length.value);
      if r.Success? {
        SortOutPairs(whole.value);
      }
    }

    /** The first loop: read every pair. */
    method ParsePairList(s: SocketStream, length: Length) returns (r: Result<()>)
      requires s.Valid() && Value() == EMPTY_TABLE
      modifies this`fieldValuePairList, s`pos, s`errno
      ensures s.Valid() && s.pos >= old(s.pos)
      ensures match ParsePairs(s.incoming, old(s.pos), old(s.errno), length)
        case Err(why) => r == Failure(why)
        case Ok(pairs, p, e) => r == Success(()) && s.pos == p && s.errno == e && fieldValuePairList == pairs
      decreases |s.incoming| - s.pos, 2
    {
      hide ParseNode;
      var left := length;
      ghost var whole := ParsePairs(s.incoming, s.pos, s.errno, left);
      AfterNothing(whole);
      while left != Fixed(0)
        invariant s.Valid() && s.pos >= old(s.pos)
        invariant whole == After(fieldValuePairList, ParsePairs(s.incoming, s.pos, s.errno, left))
        decreases |s.incoming| - s.pos
      {
        var field := ParseTree(s);
        if field.Failure? {
          return Failure(field.why);
        }
        if left.Streamed? && field.value.data.End? {
          return Success(());
        }
        var value := ParseTree(s);
        if value.Failure? {
          return Failure(value.why);
        }
        AfterOneMore(fieldValuePairList, Pair(field.value, value.value),
                     ParsePairs(s.incoming, s.pos, s.errno, Fewer(left)));
        fieldValuePairList := fieldValuePairList + [Pair(field.value, value.value)];
        left := Fewer(left);
      }
      return Success(());
    }

    /** The second loop: move the pairs with a string key into the map. */
    method SortOutPairs(ghost pairs: seq<Pair>)
      requires fieldValuePairList == pairs && nestedDataMap == []
      modifies this
      ensures Value() == AbsorbAll(EMPTY_TABLE, pairs)
    {
      hide StringKey, Protocol.SetField;
      var i := 0;
      assert fieldValuePairList[..0] == [] && fieldValuePairList[0..] == pairs;
      while i < |fieldValuePairList|
        invariant 0 <= i <= |fieldValuePairList| && Sorted(nestedDataMap)
        invariant AbsorbAll(Table(fieldValuePairList[..i], nestedDataMap), fieldValuePairList[i..])
               == AbsorbAll(EMPTY_TABLE, pairs)
        decreases |fieldValuePairList| - i
      {
        var list, pair := fieldValuePairList, fieldValuePairList[i];
        assert list[i..][1..] == list[i + 1..];
        var key := StringKey(pair.key);
        if key.Some? {
          SetField(key.value, pair.value);
          fieldValuePairList := list[..i] + list[i + 1..];
          assert fieldValuePairList[..i] == list[..i] && fieldValuePairList[i..] == list[i + 1..];
        } else {
          assert list[..i] + [pair] == list[..i + 1];
          i := i + 1;
        }
      }
      assert fieldValuePairList[..i] == fieldValuePairList && fieldValuePairList[i..] == [];
    }
  }

  // ----- whole values

  method ParseTree(s: SocketStream) returns (r: Result<Node>)
    requires s.Valid()
    modifies s`pos, s`errno
    ensures s.Valid() && s.pos >= old(s.pos)
    ensures Agrees(r, s.pos, s.errno, ParseNode(s.incoming, old(s.pos), old(s.errno)))
    decreases |s.incoming| - s.pos, 1
  {
    hide ParseData;
    var first := ParseDataType(s);
    if first.Failure? {
      return Failure(first.why);
    }
    if !first.value.Attribute? {
      return Success(Node(None, first.value));
    }
    var second := ParseDataType(s);
    if second.Failure? {
      return Failure(second.why);
    }
    return Success(Node(Some(first.value.attributeTable), second.value));
  }

  method ParseDataType(s: SocketStream) returns (r: Result<Data>)
    requires s.Valid()
    modifies s`pos, s`errno
    ensures s.Valid() && s.pos >= old(s.pos)
    ensures Agrees(r, s.pos, s.errno, ParseData(s.incoming, old(s.pos), old(s.errno)))
    decreases |s.incoming| - s.pos, 0
  {
    hide ParseBlob, ParseText, ParseAggregate, ParseTable, Strtol;
    var read, b := s.ReadByte();
    if !read {
      return Failure(Rejected);
    }
    match b {
      case 36 => r := ParseBlobString(s, BlobString);  // $
      case 33 => r := ParseBlobString(s, BlobError);  // !
      case 61 => r := ParseBlobString(s, Verbatim);  // =
      case 43 => r := ParseTextLine(s, SimpleString);  // +
      case 45 => r := ParseTextLine(s, SimpleError);  // -
      case 60 => r := ParseTextLine(s, BigNumber);  // <
      case 58 => r := ParseNumberLine(s);  // :
      case 95 =>  // _
        var ended := ParseCRLF(s);
        r := if ended then Success(Null) else Failure(Rejected);
      case 46 =>  // .
        var ended := ParseCRLF(s);
        r := if ended then Success(End) else Failure(Rejected);
      case 35 =>  // #
        var truth;
        read, truth := s.ReadByte();
        if !read {
          return Failure(Rejected);
        }
        var ended := ParseCRLF(s);
        r := if ended then Success(Boolean(truth != 0)) else Failure(Rejected);
      case 42 => r := ParseArray(s, Array);  // *
      case 126 => r := ParseArray(s, Set);  // ~
      case 62 => r := ParseArray(s, Push);  // >
      case 37 =>  // %
        var mapData := new MapData();
        var parsed := mapData.Parse(s);
        r := if parsed.Success? then Success(Map(mapData.Value())) else Failure(parsed.why);
      case 124 =>  // |
        var mapData := new MapData();
        var parsed := mapData.Parse(s);
        r := if parsed.Success? then Success(Attribute(mapData.Value())) else Failure(parsed.why);
      case 44 => r := Failure(NotModelled);  // ,
      case 59 => r := Failure(NotModelled);  // ;
      case _ => r := Failure(Rejected);
    }
  }

  method ParseBlobString(s: SocketStream, kind: BlobKind) returns (r: Result<Data>)
    requires s.Valid()
    modifies s`pos, s`errno
    ensures s.Valid() && s.pos >= old(s.pos)
    ensures Agrees(r, s.pos, s.errno, ParseBlob(s.incoming, old(s.pos), old(s.errno), kind))
  {
    var blob := new BlobStringData(kind);
    var parsed := blob.Parse(s);
    r := if parsed.Success? then Success(blob.Value()) else Failure(parsed.why);
  }

  method ParseTextLine(s: SocketStream, kind: TextKind) returns (r: Result<Data>)
    requires s.Valid()
    modifies s`pos
    ensures s.Valid() && s.pos >= old(s.pos)
    ensures Agrees(r, s.pos, s.errno, ParseLine(s.incoming, old(s.pos), old(s.errno), kind))
  {
    hide ParseText;
    var text := ParseCRLFTerminatedString(s);
    if text.Failure? {
      return Failure(text.why);
    }
    if kind == BigNumber {
      var i := 0;
      while i < |text.value|
        invariant 0 <= i <= |text.value| && AllDigits(text.value[..i])
      {
        if !IsDigit(text.value[i]) {
          assert !AllDigits(text.value);
          return Failure(Rejected);
        }
        i := i + 1;
      }
      assert text.value[..i] == text.value;
    }
    return Success(Text(kind, text.value));
  }

  method ParseNumberLine(s: SocketStream) returns (r: Result<Data>)
    requires s.Valid()
    modifies s`pos, s`errno
    ensures s.Valid() && s.pos >= old(s.pos)
    ensures Agrees(r, s.pos, s.errno, ParseNumber(s.incoming, old(s.pos), old(s.errno)))
  {
    hide ParseText, Strtol;
    var text := ParseCRLFTerminatedString(s);
    if text.Failure? {
      return Failure(text.why);
    }
    var number := Strtol(text.value);
    s.errno := s.errno || number.overflow;
    return Success(Number(number.value));
  }

  method ParseArray(s: SocketStream, kind: ArrayKind) returns (r: Result<Data>)
    requires s.Valid()
    modifies s`pos, s`errno
    ensures s.Valid() && s.pos >= old(s.pos)
    ensures Agrees(r, s.pos, s.errno, ParseAggregate(s.incoming, old(s.pos), old(s.errno), kind))
    decreases |s.incoming| - s.pos, 4
  {
    hide ParseElements, ParseLength;
    var arrayData := new ArrayData(kind);
    var parsed := arrayData.Parse(s);
    r := if parsed.Success? then Success(arrayData.Value()) else Failure(parsed.why);
  }
}
