/** The server protocol: trees of data, the bytes that print them, and what the parser makes of bytes. */
module Protocol {
  import opened Bytes
  import opened Decimal

  // ----- trees

  datatype Option<+T> = None | Some(value: T)

  datatype BlobKind = BlobString | BlobError | Verbatim
  datatype TextKind = SimpleString | SimpleError | BigNumber
  datatype ArrayKind = Array | Set | Push

  /** A value together with the attribute that preceded it, if any. */
  datatype Node = Node(attribute: Option<Table>, data: Data)

  datatype Data =
    | Blob(blobKind: BlobKind, bytes: seq<byte>)
    | NullBlob(nullBlobKind: BlobKind)
    | Text(textKind: TextKind, text: seq<byte>)
    | Number(number: long)
    | Boolean(truth: bool)
    | Null
    | End
    | Aggregate(arrayKind: ArrayKind, elements: seq<Node>)
    | NullAggregate(nullArrayKind: ArrayKind)
    | Map(table: Table)
    | Attribute(attributeTable: Table)

  /** What a map holds: the pairs whose key is not a string, in arrival order, and the
      string-keyed fields, in key order. */
  datatype Table = Table(pairs: seq<Pair>, fields: seq<Field>)
  datatype Pair = Pair(key: Node, value: Node)
  datatype Field = Field(name: seq<byte>, content: Node)

  const CR: byte := 13
  const LF: byte := 10
  const QUESTION: byte := 63
  const CRLF: seq<byte> := [CR, LF]

  /** The byte that announces a value: `$ ! = + - < : # _ . * ~ > % |`. */
  function Discriminant(data: Data): byte {
    match data
    case Blob(kind, _) => BlobByte(kind)
    case NullBlob(kind) => BlobByte(kind)
    case Text(kind, _) => TextByte(kind)
    case Number(_) => 58  // :
    case Boolean(_) => 35  // #
    case Null => 95  // _
    case End => 46  // .
    case Aggregate(kind, _) => ArrayByte(kind)
    case NullAggregate(kind) => ArrayByte(kind)
    case Map(_) => 37  // %
    case Attribute(_) => 124  // |
  }

  /** `$ ! =` */
  function BlobByte(kind: BlobKind): byte {
    match kind case BlobString => 36 case BlobError => 33 case Verbatim => 61
  }

  /** `+ - <` */
  function TextByte(kind: TextKind): byte {
    match kind case SimpleString => 43 case SimpleError => 45 case BigNumber => 60
  }

  /** `* ~ >` */
  function ArrayByte(kind: ArrayKind): byte {
    match kind case Array => 42 case Set => 126 case Push => 62
  }

  // ----- maps

  /** `std::string` order: by unsigned bytes, a prefix first. */
  predicate Less(a: seq<byte>, b: seq<byte>) {
    if a == [] then b != []
    else b != [] && (a[0] < b[0] || (a[0] == b[0] && Less(a[1..], b[1..])))
  }

  /** The key a field is stored under when it is a string; a null blob counts as the empty string. */
  function StringKey(key: Node): Option<seq<byte>> {
    match key.data
    case Text(SimpleString, text) => Some(text)
    case Blob(BlobString, bytes) => Some(bytes)
    case NullBlob(BlobString) => Some([])
    case _ => None
  }

  /** The fields after binding `name`; the order of names is kept, an old binding is replaced. */
  function SetField(fields: seq<Field>, name: seq<byte>, content: Node): seq<Field> {
    if fields == [] then [Field(name, content)]
    else if fields[0].name == name then [Field(name, content)] + fields[1..]
    else if Less(name, fields[0].name) then [Field(name, content)] + fields
    else [fields[0]] + SetField(fields[1..], name, content)
  }

  function Absorb(table: Table, pair: Pair): Table {
    match StringKey(pair.key)
    case Some(name) => Table(table.pairs, SetField(table.fields, name, pair.value))
    case None => Table(table.pairs + [pair], table.fields)
  }

  /** The table after the pairs of a map have been sorted out, first to last. */
  function AbsorbAll(table: Table, pairs: seq<Pair>): Table
    decreases |pairs|
  {
    if pairs == [] then table else AbsorbAll(Absorb(table, pairs[0]), pairs[1..])
  }

  const EMPTY_TABLE := Table([], [])

  // ----- parsing

  /** Why a parse did not return a value: the source returns false, or never returns, or the input uses a
      form the model leaves out (doubles, chunks, streamed blobs). */
  datatype Why = Rejected | Endless | NotModelled

  /** A value, the position after it, and whether `errno` is set by then. */
  datatype Outcome<+T> = Ok(value: T, pos: nat, errno: bool) | Err(why: Why)

  datatype Length = Fixed(count: nat) | Streamed

  function ParseCrlf(d: seq<byte>, pos: nat): (r: bool)
    ensures r ==> pos + 2 <= |d|
  {
    pos + 1 < |d| && d[pos] == CR && d[pos + 1] == LF
  }

  /** A length in decimal, or `?`. `digits` is the part of the buffer already filled. */
  function ParseLength(d: seq<byte>, pos: nat, errno: bool, digits: seq<byte>): (r: Outcome<Length>)
    requires pos <= |d|
    ensures r.Ok? ==> pos + 2 <= r.pos <= |d|
    decreases |d| - pos
  {
    if |digits| >= 127 || pos == |d| then Err(Rejected)
    else if d[pos] == QUESTION then
      if ParseCrlf(d, pos + 1) then Ok(Streamed, pos + 3, errno) else Err(Rejected)
    else if IsDigit(d[pos]) || d[pos] == MINUS then ParseLength(d, pos + 1, errno, digits + [d[pos]])
    else
      var number := Strtol(digits);
      var count := number.value % 0x1_0000_0000;
      var errno' := errno || number.overflow;
      if count == 0 && errno' then Err(Rejected)
      else if ParseCrlf(d, pos) then Ok(Fixed(count), pos + 2, errno') else Err(Rejected)
  }

  /** The bytes before the next CRLF. */
  function ParseText(d: seq<byte>, start: nat, pos: nat): (r: Outcome<seq<byte>>)
    requires start <= pos <= |d|
    ensures r.Ok? ==> pos + 2 <= r.pos <= |d| && r.value == d[start..r.pos - 2] && !r.errno
    decreases |d| - pos
  {
    if pos + 1 >= |d| then Err(Rejected)
    else if d[pos] == CR && d[pos + 1] == LF then Ok(d[start..pos], pos + 2, false)
    else ParseText(d, start, pos + 1)
  }

  const NULL_COUNT := 0xFFFF_FFFF

  /** The largest buffer that doubling reaches in 32 bits; see `DynamicArray.GrowthEndsExactlyWhen`. */
  const MAX_BUFFER := 0x8000_0000

  function ParseBlob(d: seq<byte>, pos: nat, errno: bool, kind: BlobKind): (r: Outcome<Data>)
    requires pos <= |d|
    ensures r.Ok? ==> pos <= r.pos <= |d|
  {
    match ParseLength(d, pos, errno, [])
    case Err(why) => Err(why)
    case Ok(Streamed, _, _) => Err(NotModelled)
    case Ok(Fixed(count), p, e) =>
      if count == NULL_COUNT then Ok(NullBlob(kind), p, e)
      else if count > MAX_BUFFER then Err(Endless)
      else if p + count <= |d| && ParseCrlf(d, p + count) then Ok(Blob(kind, d[p..p + count]), p + count + 2, e)
      else Err(Rejected)
  }

  function ParseLine(d: seq<byte>, pos: nat, errno: bool, kind: TextKind): (r: Outcome<Data>)
    requires pos <= |d|
    ensures r.Ok? ==> pos <= r.pos <= |d|
  {
    match ParseText(d, pos, pos)
    case Err(why) => Err(why)
    case Ok(text, p, _) =>
      if kind == BigNumber && !AllDigits(text) then Err(Rejected) else Ok(Text(kind, text), p, errno)
  }

  function ParseNumber(d: seq<byte>, pos: nat, errno: bool): (r: Outcome<Data>)
    requires pos <= |d|
    ensures r.Ok? ==> pos <= r.pos <= |d|
  {
    match ParseText(d, pos, pos)
    case Err(why) => Err(why)
    case Ok(text, p, _) =>
      var number := Strtol(text);
      Ok(Number(number.value), p, errno || number.overflow)
  }

  /** A value without its attribute. */
  function ParseData(d: seq<byte>, pos: nat, errno: bool): (r: Outcome<Data>)
    requires pos <= |d|
    ensures r.Ok? ==> pos < r.pos <= |d|
    decreases |d| - pos, 0
  {
    if pos == |d| then Err(Rejected)
    else
      var p := pos + 1;
      match d[pos]
      case 36 => ParseBlob(d, p, errno, BlobString)  // $
      case 33 => ParseBlob(d, p, errno, BlobError)  // !
      case 61 => ParseBlob(d, p, errno, Verbatim)  // =
      case 43 => ParseLine(d, p, errno, SimpleString)  // +
      case 45 => ParseLine(d, p, errno, SimpleError)  // -
      case 60 => ParseLine(d, p, errno, BigNumber)  // <
      case 58 => ParseNumber(d, p, errno)  // :
      case 95 => if ParseCrlf(d, p) then Ok(Null, p + 2, errno) else Err(Rejected)  // _
      case 46 => if ParseCrlf(d, p) then Ok(End, p + 2, errno) else Err(Rejected)  // .
      case 35 => if p < |d| && ParseCrlf(d, p + 1) then Ok(Boolean(d[p] != 0), p + 3, errno) else Err(Rejected)  // #
      case 42 => ParseAggregate(d, p, errno, Array)  // *
      case 126 => ParseAggregate(d, p, errno, Set)  // ~
      case 62 => ParseAggregate(d, p, errno, Push)  // >
      case 37 => (match ParseTable(d, p, errno)  // %
                  case Err(why) => Err(why)
                  case Ok(table, q, e) => Ok(Map(table), q, e))
      case 124 => (match ParseTable(d, p, errno)  // |
                   case Err(why) => Err(why)
                   case Ok(table, q, e) => Ok(Attribute(table), q, e))
      case 44 => Err(NotModelled)  // ,
      case 59 => Err(NotModelled)  // ;
      case _ => Err(Rejected)
  }

  function ParseAggregate(d: seq<byte>, pos: nat, errno: bool, kind: ArrayKind): (r: Outcome<Data>)
    requires pos <= |d|
    ensures r.Ok? ==> pos <= r.pos <= |d|
    decreases |d| - pos, 3
  {
    match ParseLength(d, pos, errno, [])
    case Err(why) => Err(why)
    case Ok(length, p, e) =>
      if length == Fixed(NULL_COUNT) then Ok(NullAggregate(kind), p, e)
      else
        match ParseElements(d, p, e, length)
        case Err(why) => Err(why)
        case Ok(elements, q, e') => Ok(Aggregate(kind, elements), q, e')
  }

  function ParseTable(d: seq<byte>, pos: nat, errno: bool): (r: Outcome<Table>)
    requires pos <= |d|
    ensures r.Ok? ==> pos <= r.pos <= |d|
    decreases |d| - pos, 3
  {
    match ParseLength(d, pos, errno, [])
    case Err(why) => Err(why)
    case Ok(length, p, e) =>
      match ParsePairs(d, p, e, length)
      case Err(why) => Err(why)
      case Ok(pairs, q, e') => Ok(AbsorbAll(EMPTY_TABLE, pairs), q, e')
  }

  function Fewer(length: Length): Length {
    if length.Fixed? && length.count > 0 then Fixed(length.count - 1) else length
  }

  /** The elements of an aggregate, up to the count or to an end marker. */
  function ParseElements(d: seq<byte>, pos: nat, errno: bool, length: Length): (r: Outcome<seq<Node>>)
    requires pos <= |d|
    ensures r.Ok? ==> pos <= r.pos <= |d|
    decreases |d| - pos, 2
  {
    if length == Fixed(0) then Ok([], pos, errno)
    else
      match ParseNode(d, pos, errno)
      case Err(why) => Err(why)
      case Ok(node, p, e) =>
        if length.Streamed? && node.data.End? then Ok([], p, e)
        else
          match ParseElements(d, p, e, Fewer(length))
          case Err(why) => Err(why)
          case Ok(rest, q, e') => Ok([node] + rest, q, e')
  }

  /** The pairs of a map, up to the count or to an end marker in place of a key. */
  function ParsePairs(d: seq<byte>, pos: nat, errno: bool, length: Length): (r: Outcome<seq<Pair>>)
    requires pos <= |d|
    ensures r.Ok? ==> pos <= r.pos <= |d|
    decreases |d| - pos, 2
  {
    if length == Fixed(0) then Ok([], pos, errno)
    else
      match ParseNode(d, pos, errno)
      case Err(why) => Err(why)
      case Ok(key, p, e) =>
        if length.Streamed? && key.data.End? then Ok([], p, e)
        else
          match ParseNode(d, p, e)
          case Err(why) => Err(why)
          case Ok(value, p', e') =>
            match ParsePairs(d, p', e', Fewer(length))
            case Err(why) => Err(why)
            case Ok(rest, q, e'') => Ok([Pair(key, value)] + rest, q, e'')
  }

  /** A value, preceded by at most one attribute. */
  function ParseNode(d: seq<byte>, pos: nat, errno: bool): (r: Outcome<Node>)
    requires pos <= |d|
    ensures r.Ok? ==> pos < r.pos <= |d|
    decreases |d| - pos, 1
  {
    match ParseData(d, pos, errno)
    case Err(why) => Err(why)
    case Ok(data, p, e) =>
      if !data.Attribute? then Ok(Node(None, data), p, e)
      else
        match ParseData(d, p, e)
        case Err(why) => Err(why)
        case Ok(data', q, e') => Ok(Node(Some(data.attributeTable), data'), q, e')
  }

  // ----- printing

  /** What `%s` prints of a string: the part before the first NUL. */
  function CString(text: seq<byte>): (r: seq<byte>)
    ensures |r| <= |text|
  {
    if text == [] || text[0] == 0 then [] else [text[0]] + CString(text[1..])
  }

  lemma {:induction false} CStringIsPrefix(text: seq<byte>)
    ensures CString(text) <= text
    ensures 0 !in CString(text)
    ensures |CString(text)| < |text| ==> text[|CString(text)|] == 0
  {
    if text != [] && text[0] != 0 {
      CStringIsPrefix(text[1..]);
    }
  }

  function CountLine(count: nat): seq<byte> {
    Print(count) + CRLF
  }

  function EncodeBlob(bytes: seq<byte>): seq<byte> {
    CountLine(|bytes|) + (bytes + CRLF)
  }

  function EncodeNode(node: Node): seq<byte> {
    match node.attribute
    case None => EncodeData(node.data)
    case Some(table) => [124] + EncodeTable(table) + EncodeData(node.data)
  }

  function EncodeData(data: Data): seq<byte>
    decreases data, 1
  {
    [Discriminant(data)] + EncodeBody(data)
  }

  function EncodeBody(data: Data): seq<byte>
    decreases data, 0
  {
    match data
    case Blob(_, bytes) => EncodeBlob(bytes)
    case NullBlob(_) => Print(-1) + CRLF
    case Text(_, text) => CString(text) + CRLF
    case Number(number) => Print(number) + CRLF
    case Boolean(truth) => [if truth then 116 else 102] + CRLF  // t, f
    case Null => CRLF
    case End => CRLF
    case Aggregate(_, elements) => CountLine(|elements|) + EncodeAll(elements)
    case NullAggregate(_) => Print(-1) + CRLF
    case Map(table) => EncodeTable(table)
    case Attribute(table) => EncodeTable(table)
  }

  function EncodeAll(nodes: seq<Node>): seq<byte> {
    if nodes == [] then [] else EncodeNode(nodes[0]) + EncodeAll(nodes[1..])
  }

  function EncodeTable(table: Table): seq<byte> {
    CountLine(|table.pairs| + |table.fields|) + (EncodePairs(table.pairs) + EncodeFields(table.fields))
  }

  function EncodePairs(pairs: seq<Pair>): seq<byte> {
    if pairs == [] then []
    else EncodePair(pairs[0]) + EncodePairs(pairs[1..])
  }

  function EncodePair(pair: Pair): seq<byte> {
    EncodeNode(pair.key) + EncodeNode(pair.value)
  }

  function EncodeFields(fields: seq<Field>): seq<byte> {
    if fields == [] then []
    else EncodeField(fields[0]) + EncodeFields(fields[1..])
  }

  function EncodeField(field: Field): seq<byte> {
    [36] + EncodeBlob(field.name) + EncodeNode(field.content)
  }
}
