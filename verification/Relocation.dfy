/** A successful parse depends on the bytes it consumed and on nothing else, wherever they stand. */
module Relocation {
  import opened Bytes
  import opened Decimal
  import opened Protocol

  /** The bytes from `lo` to `hi` of `d` stand `k` places further on in `d'`. */
  predicate Same(d: seq<byte>, d': seq<byte>, k: int, lo: nat, hi: nat) {
    && lo <= hi <= |d| && 0 <= lo + k && hi + k <= |d'|
    && forall i {:trigger d[i]} :: lo <= i < hi ==> d[i] == d'[i + k]
  }

  lemma SameFromSlices(d: seq<byte>, d': seq<byte>, k: int, lo: nat, hi: nat)
    requires lo <= hi <= |d| && 0 <= lo + k && hi + k <= |d'| && d[lo..hi] == d'[lo + k..hi + k]
    ensures Same(d, d', k, lo, hi)
  {
    forall i {:trigger d[i]} | lo <= i < hi
      ensures d[i] == d'[i + k]
    {
      assert d[lo..hi][i - lo] == d'[lo + k..hi + k][i - lo];
    }
  }

  lemma SameSlice(d: seq<byte>, d': seq<byte>, k: int, lo: nat, hi: nat)
    requires Same(d, d', k, lo, hi)
    ensures d[lo..hi] == d'[lo + k..hi + k]
  {
    var a, b := d[lo..hi], d'[lo + k..hi + k];
    forall i | 0 <= i < hi - lo
      ensures a[i] == b[i]
    {
      assert a[i] == d[lo + i] && b[i] == d'[lo + i + k];
    }
  }

  lemma SamePart(d: seq<byte>, d': seq<byte>, k: int, lo: nat, hi: nat, lo': nat, hi': nat)
    requires Same(d, d', k, lo, hi) && lo <= lo' <= hi' <= hi
    ensures Same(d, d', k, lo', hi')
  {}

  lemma SameByte(d: seq<byte>, d': seq<byte>, k: int, lo: nat, hi: nat)
    requires Same(d, d', k, lo, hi) && lo < hi
    ensures lo < |d| && 0 <= lo + k < |d'| && d[lo] == d'[lo + k]
  {}

  lemma SameBounds(d: seq<byte>, d': seq<byte>, k: int, lo: nat, hi: nat)
    requires Same(d, d', k, lo, hi)
    ensures lo <= hi <= |d| && 0 <= lo + k && hi + k <= |d'|
  {}

  lemma CrlfMoves(d: seq<byte>, d': seq<byte>, k: int, pos: nat)
    requires Same(d, d', k, pos, pos + 2) && ParseCrlf(d, pos)
    ensures ParseCrlf(d', pos + k)
  {
    assert d[pos] == d'[pos + k] && d[pos + 1] == d'[pos + 1 + k];
  }

  lemma {:induction false} CountMoves(d: seq<byte>, d': seq<byte>, k: int, pos: nat, errno: bool, digits: seq<byte>,
                                      r: Outcome<Length>)
    requires pos <= |d| && r == ParseLength(d, pos, errno, digits) && r.Ok?
    requires Same(d, d', k, pos, r.pos)
    ensures ParseLength(d', pos + k, errno, digits) == Ok(r.value, r.pos + k, r.errno)
    decreases |d| - pos
  {
    hide Strtol;
    assert d[pos] == d'[pos + k];
    if d[pos] == QUESTION {
      assert d[pos + 1] == d'[pos + 1 + k] && d[pos + 2] == d'[pos + 2 + k];
    } else if IsDigit(d[pos]) || d[pos] == MINUS {
      CountMoves(d, d', k, pos + 1, errno, digits + [d[pos]], r);
    } else {
      assert d[pos + 1] == d'[pos + 1 + k];
    }
  }

  lemma {:induction false} TextMoves(d: seq<byte>, d': seq<byte>, k: int, start: nat, pos: nat, r: Outcome<seq<byte>>)
    requires start <= pos <= |d| && r == ParseText(d, start, pos) && r.Ok?
    requires Same(d, d', k, start, r.pos)
    ensures ParseText(d', start + k, pos + k) == Ok(r.value, r.pos + k, r.errno)
    decreases |d| - pos
  {
    assert d[pos] == d'[pos + k] && d[pos + 1] == d'[pos + 1 + k];
    if d[pos] == CR && d[pos + 1] == LF {
      SamePart(d, d', k, start, r.pos, start, pos);
      SameSlice(d, d', k, start, pos);
    } else {
      TextMoves(d, d', k, start, pos + 1, r);
    }
  }

  lemma BlobMoves(d: seq<byte>, d': seq<byte>, k: int, pos: nat, errno: bool, kind: BlobKind, r: Outcome<Data>)
    requires pos <= |d| && r == ParseBlob(d, pos, errno, kind) && r.Ok?
    requires Same(d, d', k, pos, r.pos)
    ensures 0 <= pos + k <= |d'| && ParseBlob(d', pos + k, errno, kind) == Ok(r.value, r.pos + k, r.errno)
  {
    hide ParseLength, Same;
    var c := ParseLength(d, pos, errno, []);
    SameBounds(d, d', k, pos, r.pos);
    SamePart(d, d', k, pos, r.pos, pos, c.pos);
    CountMoves(d, d', k, pos, errno, [], c);
    if c.value.count != NULL_COUNT {
      var end := c.pos + c.value.count;
      SamePart(d, d', k, pos, r.pos, c.pos, end);
      SameSlice(d, d', k, c.pos, end);
      SamePart(d, d', k, pos, r.pos, end, end + 2);
      CrlfMoves(d, d', k, end);
    }
  }

  lemma LineMoves(d: seq<byte>, d': seq<byte>, k: int, pos: nat, errno: bool, kind: TextKind, r: Outcome<Data>)
    requires pos <= |d| && r == ParseLine(d, pos, errno, kind) && r.Ok?
    requires Same(d, d', k, pos, r.pos)
    ensures 0 <= pos + k <= |d'| && ParseLine(d', pos + k, errno, kind) == Ok(r.value, r.pos + k, r.errno)
  {
    hide ParseText, AllDigits;
    SameBounds(d, d', k, pos, r.pos);
    TextMoves(d, d', k, pos, pos, ParseText(d, pos, pos));
  }

  lemma NumberMoves(d: seq<byte>, d': seq<byte>, k: int, pos: nat, errno: bool, r: Outcome<Data>)
    requires pos <= |d| && r == ParseNumber(d, pos, errno) && r.Ok?
    requires Same(d, d', k, pos, r.pos)
    ensures 0 <= pos + k <= |d'| && ParseNumber(d', pos + k, errno) == Ok(r.value, r.pos + k, r.errno)
  {
    hide ParseText, Strtol;
    SameBounds(d, d', k, pos, r.pos);
    TextMoves(d, d', k, pos, pos, ParseText(d, pos, pos));
  }

  lemma {:induction false} DataMoves(d: seq<byte>, d': seq<byte>, k: int, pos: nat, errno: bool, r: Outcome<Data>)
    requires pos <= |d| && r == ParseData(d, pos, errno) && r.Ok?
    requires Same(d, d', k, pos, r.pos)
    ensures 0 <= pos + k <= |d'| && ParseData(d', pos + k, errno) == Ok(r.value, r.pos + k, r.errno)
    decreases |d| - pos, 0
  {
    hide ParseBlob, ParseLine, ParseNumber, ParseAggregate, ParseTable;
    var p := pos + 1;
    SameBounds(d, d', k, pos, r.pos);
    SameByte(d, d', k, pos, r.pos);
    SamePart(d, d', k, pos, r.pos, p, r.pos);
    hide Same;
    match d[pos]
    case 36 => BlobMoves(d, d', k, p, errno, BlobString, r);
    case 33 => BlobMoves(d, d', k, p, errno, BlobError, r);
    case 61 => BlobMoves(d, d', k, p, errno, Verbatim, r);
    case 43 => LineMoves(d, d', k, p, errno, SimpleString, r);
    case 45 => LineMoves(d, d', k, p, errno, SimpleError, r);
    case 60 => LineMoves(d, d', k, p, errno, BigNumber, r);
    case 58 => NumberMoves(d, d', k, p, errno, r);
    case 95 => CrlfMoves(d, d', k, p);
    case 46 => CrlfMoves(d, d', k, p);
    case 35 =>
      SameByte(d, d', k, p, r.pos);
      SamePart(d, d', k, p, r.pos, p + 1, p + 3);
      CrlfMoves(d, d', k, p + 1);
    case 42 => AggregateMoves(d, d', k, p, errno, Array, r);
    case 126 => AggregateMoves(d, d', k, p, errno, Set, r);
    case 62 => AggregateMoves(d, d', k, p, errno, Push, r);
    case 37 => TableMoves(d, d', k, p, errno, ParseTable(d, p, errno));
    case 124 => TableMoves(d, d', k, p, errno, ParseTable(d, p, errno));
  }

  lemma {:induction false} AggregateMoves(d: seq<byte>, d': seq<byte>, k: int, pos: nat, errno: bool, kind: ArrayKind,
                                          r: Outcome<Data>)
    requires pos <= |d| && r == ParseAggregate(d, pos, errno, kind) && r.Ok?
    requires Same(d, d', k, pos, r.pos)
    ensures 0 <= pos + k <= |d'| && ParseAggregate(d', pos + k, errno, kind) == Ok(r.value, r.pos + k, r.errno)
    decreases |d| - pos, 3
  {
    hide ParseLength, ParseElements, Same;
    var c := ParseLength(d, pos, errno, []);
    SameBounds(d, d', k, pos, r.pos);
    SamePart(d, d', k, pos, r.pos, pos, c.pos);
    CountMoves(d, d', k, pos, errno, [], c);
    SamePart(d, d', k, pos, r.pos, c.pos, r.pos);
    if c.value != Fixed(NULL_COUNT) {
      ElementsMove(d, d', k, c.pos, c.errno, c.value, ParseElements(d, c.pos, c.errno, c.value));
    }
  }

  lemma {:induction false} TableMoves(d: seq<byte>, d': seq<byte>, k: int, pos: nat, errno: bool, r: Outcome<Table>)
    requires pos <= |d| && r == ParseTable(d, pos, errno) && r.Ok?
    requires Same(d, d', k, pos, r.pos)
    ensures 0 <= pos + k <= |d'| && ParseTable(d', pos + k, errno) == Ok(r.value, r.pos + k, r.errno)
    decreases |d| - pos, 3
  {
    hide ParseLength, ParsePairs, AbsorbAll, Same;
    var c := ParseLength(d, pos, errno, []);
    SameBounds(d, d', k, pos, r.pos);
    SamePart(d, d', k, pos, r.pos, pos, c.pos);
    CountMoves(d, d', k, pos, errno, [], c);
    SamePart(d, d', k, pos, r.pos, c.pos, r.pos);
    PairsMove(d, d', k, c.pos, c.errno, c.value, ParsePairs(d, c.pos, c.errno, c.value));
  }

  lemma {:induction false} ElementsMove(d: seq<byte>, d': seq<byte>, k: int, pos: nat, errno: bool, length: Length,
                                        r: Outcome<seq<Node>>)
    requires pos <= |d| && r == ParseElements(d, pos, errno, length) && r.Ok?
    requires Same(d, d', k, pos, r.pos)
    ensures 0 <= pos + k <= |d'| && ParseElements(d', pos + k, errno, length) == Ok(r.value, r.pos + k, r.errno)
    decreases |d| - pos, 2
  {
    hide ParseNode, Same;
    SameBounds(d, d', k, pos, r.pos);
    if length != Fixed(0) {
      var first := ParseNode(d, pos, errno);
      SamePart(d, d', k, pos, r.pos, pos, first.pos);
      NodeMoves(d, d', k, pos, errno, first);
      if !(length.Streamed? && first.value.data.End?) {
        SamePart(d, d', k, pos, r.pos, first.pos, r.pos);
        ElementsMove(d, d', k, first.pos, first.errno, Fewer(length),
                     ParseElements(d, first.pos, first.errno, Fewer(length)));
      }
    }
  }

  /** One step of a parse of pairs. */
  lemma PairsStep(d: seq<byte>, pos: nat, errno: bool, length: Length, key: Outcome<Node>, value: Outcome<Node>,
                  rest: Outcome<seq<Pair>>)
    requires pos <= |d| && length != Fixed(0) && key == ParseNode(d, pos, errno) && key.Ok?
    requires !(length.Streamed? && key.value.data.End?)
    requires key.pos <= |d| && value == ParseNode(d, key.pos, key.errno)
    requires value.Ok? ==> value.pos <= |d| && rest == ParsePairs(d, value.pos, value.errno, Fewer(length))
    ensures ParsePairs(d, pos, errno, length) ==
      if value.Err? then Err(value.why) else if rest.Err? then Err(rest.why)
      else Ok([Pair(key.value, value.value)] + rest.value, rest.pos, rest.errno)
  {
    hide ParseNode;
  }

  lemma PairsEnd(d: seq<byte>, pos: nat, errno: bool, length: Length)
    requires pos <= |d|
    ensures length == Fixed(0) ==> ParsePairs(d, pos, errno, length) == Ok([], pos, errno)
    ensures length != Fixed(0) ==> var key := ParseNode(d, pos, errno);
      && (key.Err? ==> ParsePairs(d, pos, errno, length) == Err(key.why))
      && (key.Ok? && length.Streamed? && key.value.data.End? ==>
            ParsePairs(d, pos, errno, length) == Ok([], key.pos, key.errno))
  {
    hide ParseNode;
  }

  lemma {:induction false} PairsMove(d: seq<byte>, d': seq<byte>, k: int, pos: nat, errno: bool, length: Length,
                                     r: Outcome<seq<Pair>>)
    requires pos <= |d| && r == ParsePairs(d, pos, errno, length) && r.Ok?
    requires Same(d, d', k, pos, r.pos)
    ensures 0 <= pos + k <= |d'| && ParsePairs(d', pos + k, errno, length) == Ok(r.value, r.pos + k, r.errno)
    decreases |d| - pos, 2
  {
    hide *;
    SameBounds(d, d', k, pos, r.pos);
    PairsEnd(d, pos, errno, length);
    PairsEnd(d', pos + k, errno, length);
    if length != Fixed(0) {
      var key := ParseNode(d, pos, errno);
      if length.Streamed? && key.value.data.End? {
        NodeMoves(d, d', k, pos, errno, key);
      } else {
        var value := ParseNode(d, key.pos, key.errno);
        var rest := if value.Ok? then ParsePairs(d, value.pos, value.errno, Fewer(length)) else r;
        PairsStep(d, pos, errno, length, key, value, rest);
        SamePart(d, d', k, pos, r.pos, pos, key.pos);
        NodeMoves(d, d', k, pos, errno, key);
        SamePart(d, d', k, pos, r.pos, key.pos, value.pos);
        NodeMoves(d, d', k, key.pos, key.errno, value);
        SamePart(d, d', k, pos, r.pos, value.pos, r.pos);
        PairsMove(d, d', k, value.pos, value.errno, Fewer(length), rest);
        PairsStep(d', pos + k, errno, length, ParseNode(d', pos + k, errno), ParseNode(d', key.pos + k, key.errno),
                  ParsePairs(d', value.pos + k, value.errno, Fewer(length)));
      }
    }
  }

  lemma {:induction false} NodeMoves(d: seq<byte>, d': seq<byte>, k: int, pos: nat, errno: bool, r: Outcome<Node>)
    requires pos <= |d| && r == ParseNode(d, pos, errno) && r.Ok?
    requires Same(d, d', k, pos, r.pos)
    ensures 0 <= pos + k <= |d'| && ParseNode(d', pos + k, errno) == Ok(r.value, r.pos + k, r.errno)
    decreases |d| - pos, 1
  {
    hide ParseData, Same;
    var first := ParseData(d, pos, errno);
    SameBounds(d, d', k, pos, r.pos);
    SamePart(d, d', k, pos, r.pos, pos, first.pos);
    DataMoves(d, d', k, pos, errno, first);
    if first.value.Attribute? {
      SamePart(d, d', k, pos, r.pos, first.pos, r.pos);
      DataMoves(d, d', k, first.pos, first.errno, ParseData(d, first.pos, first.errno));
    }
  }
}
