/** Which of the 16384 slots a key or a command belongs to. */
module HashSlot {
  import opened Bytes
  import opened Protocol
  import opened Crc16

  const SLOTS := 16384
  const OPEN: byte := 123
  const CLOSE: byte := 125

  /** The part of a key that is hashed, as positions from `lo` up to `hi`. */
  datatype Range = Range(lo: nat, hi: nat)

  // ----- the rule of the Redis Cluster specification, section "Hash tags"

  /** The tag of `key` stands between positions `s` and `e`: the first opening brace, the first closing
      brace after it, and something in between. */
  predicate IsTag(key: seq<byte>, s: nat, e: nat) {
    && s + 1 < e < |key|
    && key[s] == OPEN && OPEN !in key[..s]
    && key[e] == CLOSE && CLOSE !in key[s + 1..e]
  }

  ghost predicate HasTag(key: seq<byte>) {
    exists s: nat, e: nat :: IsTag(key, s, e)
  }

  /** `r` is the part the rule says to hash. */
  ghost predicate RuledRange(key: seq<byte>, r: Range) {
    if HasTag(key) then r.lo > 0 && IsTag(key, r.lo - 1, r.hi) else r == Range(0, |key|)
  }

  // ----- the code's search

  /** The first position at or after `from` that holds `b`, or the length. */
  function Index(key: seq<byte>, b: byte, from: nat): (i: nat)
    requires from <= |key|
    ensures from <= i <= |key| && b !in key[from..i] && (i < |key| ==> key[i] == b)
    decreases |key| - from
  {
    if from == |key| || key[from] == b then from else Index(key, b, from + 1)
  }

  function TagRange(key: seq<byte>): (r: Range)
    ensures r.lo <= r.hi <= |key|
  {
    var s := Index(key, OPEN, 0);
    if s == |key| then Range(0, |key|)
    else
      var e := Index(key, CLOSE, s + 1);
      if e == |key| || e == s + 1 then Range(0, |key|) else Range(s + 1, e)
  }

  /** What is hashed of a key: `strlen` stops the search at the first NUL. */
  function HashedRange(key: seq<byte>): (r: Range)
    ensures r.lo <= r.hi <= |key|
  {
    TagRange(CString(key))
  }

  function KeySlot(key: seq<byte>): (slot: nat)
    ensures slot < SLOTS
  {
    var r := HashedRange(key);
    Crc(CString(key)[r.lo..r.hi]) % SLOTS
  }

  method CalcKeyHashSlot(keyStr: seq<byte>) returns (slot: nat)
    ensures slot == KeySlot(keyStr)
  {
    hide Crc, CString;
    var key := CString(keyStr);
    var keylen := |key|;
    var s := 0;
    while s < keylen
      invariant 0 <= s <= keylen && Index(key, OPEN, s) == Index(key, OPEN, 0)
    {
      if key[s] == OPEN {
        break;
      }
      s := s + 1;
    }
    if s == keylen {
      slot := Crc16.Crc16(key, keylen);
      assert key[..keylen] == key[0..keylen];
      return slot % SLOTS;
    }
    var e := s + 1;
    while e < keylen
      invariant s < e <= keylen && Index(key, CLOSE, e) == Index(key, CLOSE, s + 1)
    {
      if key[e] == CLOSE {
        break;
      }
      e := e + 1;
    }
    if e == keylen || e == s + 1 {
      slot := Crc16.Crc16(key, keylen);
      assert key[..keylen] == key[0..keylen];
      return slot % SLOTS;
    }
    slot := Crc16.Crc16(key[s + 1..], e - s - 1);
    assert key[s + 1..][..e - s - 1] == key[s + 1..e];
    return slot % SLOTS;
  }

  // ----- what the search finds

  lemma {:induction false} IndexFinds(key: seq<byte>, b: byte, from: nat, i: nat)
    requires from <= i < |key| && key[i] == b && b !in key[from..i]
    ensures Index(key, b, from) == i
    decreases |key| - from
  {
    if from < i {
      assert key[from] in key[from..i];
      assert key[from + 1..i] == key[from..i][1..];
      IndexFinds(key, b, from + 1, i);
    }
  }

  lemma TagRangeFinds(key: seq<byte>, s: nat, e: nat)
    requires IsTag(key, s, e)
    ensures TagRange(key) == Range(s + 1, e)
  {
    assert key[0..s] == key[..s];
    IndexFinds(key, OPEN, 0, s);
    IndexFinds(key, CLOSE, s + 1, e);
  }

  lemma TagRangeIsTag(key: seq<byte>)
    ensures var r := TagRange(key); r == Range(0, |key|) || (r.lo > 0 && IsTag(key, r.lo - 1, r.hi))
  {
    var s := Index(key, OPEN, 0);
    assert key[0..s] == key[..s];
  }

  lemma TagRangeMeans(key: seq<byte>)
    ensures RuledRange(key, TagRange(key))
  {
    hide IsTag, TagRange;
    if s: nat, e: nat :| IsTag(key, s, e) {
      TagRangeFinds(key, s, e);
    } else {
      TagRangeIsTag(key);
    }
  }

  lemma TagInPrefix(key: seq<byte>, n: nat, s: nat, e: nat)
    requires n <= |key|
    ensures IsTag(key[..n], s, e) <==> IsTag(key, s, e) && e < n
  {
    if s + 1 < e < n {
      assert key[..n][..s] == key[..s] && key[..n][s + 1..e] == key[s + 1..e];
    }
  }

  /** The tag closes before the first NUL. */
  ghost predicate HasVisibleTag(key: seq<byte>) {
    exists s: nat, e: nat :: IsTag(key, s, e) && 0 !in key[..e]
  }

  lemma VisibleTagInCString(key: seq<byte>, s: nat, e: nat)
    requires IsTag(key, s, e)
    ensures 0 !in key[..e] <==> e < |CString(key)|
    ensures 0 !in key[..e] <==> IsTag(CString(key), s, e)
  {
    var n := |CString(key)|;
    CStringIsPrefix(key);
    assert CString(key) == key[..n];
    if n <= e {
      assert n < |key| && key[n] == 0;
      assert n < e ==> key[n] in key[..e];
    } else {
      assert key[..e] == CString(key)[..e];
    }
    TagInPrefix(key, n, s, e);
  }

  lemma CStringTagIsVisible(key: seq<byte>)
    ensures HasTag(CString(key)) <==> HasVisibleTag(key)
  {
    CStringIsPrefix(key);
    assert CString(key) == key[..|CString(key)|];
    forall s: nat, e: nat
      ensures IsTag(CString(key), s, e) <==> IsTag(key, s, e) && 0 !in key[..e]
    {
      TagInPrefix(key, |CString(key)|, s, e);
      if IsTag(key, s, e) {
        VisibleTagInCString(key, s, e);
      }
    }
  }

  /** The code hashes the part that the rule names exactly when the key has no NUL or its tag closes
      before the first NUL. */
  lemma HashedRangeExactlyWhen(key: seq<byte>)
    ensures RuledRange(key, HashedRange(key)) <==> 0 !in key || HasVisibleTag(key)
  {
    var k := CString(key);
    CStringIsPrefix(key);
    TagRangeMeans(k);
    CStringTagIsVisible(key);
    hide TagRange, CString;
    if s: nat, e: nat :| IsTag(key, s, e) && 0 !in key[..e] {
      VisibleTagInCString(key, s, e);
      TagRangeFinds(k, s, e);
    } else if 0 !in key {
      assert k == key;
    } else {
      TagRangeIsTag(k);
      assert HashedRange(key) == Range(0, |k|);
      assert |k| < |key|;
    }
  }

  /** "A", NUL, "B": the rule says to hash all three bytes, the code hashes the first. */
  lemma NulCutsKey()
    ensures HashedRange([65, 0, 66]) == Range(0, 1)
    ensures RuledRange([65, 0, 66], Range(0, 3)) && !RuledRange([65, 0, 66], Range(0, 1))
  {
    var key: seq<byte> := [65, 0, 66];
    assert key[1..] == [0, 66];
    assert CString(key) == [65];
    forall s: nat, e: nat
      ensures !IsTag(key, s, e)
    {}
  }

  /** Keys with the same tag belong to the same slot. */
  lemma SameTagSameSlot(a: seq<byte>, s: nat, e: nat, b: seq<byte>, s': nat, e': nat)
    requires IsTag(a, s, e) && 0 !in a[..e] && IsTag(b, s', e') && 0 !in b[..e']
    requires a[s + 1..e] == b[s' + 1..e']
    ensures KeySlot(a) == KeySlot(b)
  {
    TaggedKeySlot(a, s, e);
    TaggedKeySlot(b, s', e');
  }

  lemma TagHasNoTag(key: seq<byte>, s: nat, e: nat)
    requires IsTag(key, s, e)
    ensures TagRange(key[s + 1..e]) == Range(0, e - s - 1)
  {
    var tag := key[s + 1..e];
    hide TagRange;
    TagRangeIsTag(tag);
  }

  /** A tagged key belongs to the slot of its tag. */
  lemma TaggedKeySlot(key: seq<byte>, s: nat, e: nat)
    requires IsTag(key, s, e) && 0 !in key[..e]
    ensures KeySlot(key) == KeySlot(key[s + 1..e]) == Crc(key[s + 1..e]) % SLOTS
  {
    var k, tag := CString(key), key[s + 1..e];
    CStringIsPrefix(key);
    VisibleTagInCString(key, s, e);
    TagRangeFinds(k, s, e);
    TagHasNoTag(key, s, e);
    CStringIsPrefix(tag);
    hide Crc, IsTag, TagRange, CString;
    assert k[s + 1..e] == tag;
    assert 0 !in tag by { assert forall i :: 0 <= i < |tag| ==> tag[i] == key[..e][s + 1 + i]; }
    assert CString(tag) == tag;
    assert tag[0..|tag|] == tag;
  }

  // ----- commands

  /** The first argument of a command that is an array of at least two elements; otherwise nothing. */
  function FindCommandKey(command: Node): seq<byte> {
    match command.data
    case Aggregate(Array, elements) =>
      if |elements| < 2 then []
      else (match elements[1].data case Blob(BlobString, bytes) => bytes case _ => [])
    case _ => []
  }

  function CommandSlot(command: Node): (slot: nat)
    ensures slot < SLOTS
  {
    KeySlot(FindCommandKey(command))
  }

  method CalcCommandHashSlot(command: Node) returns (slot: nat)
    ensures slot == CommandSlot(command)
  {
    slot := CalcKeyHashSlot(FindCommandKey(command));
  }

  /** The rule names one part only. */
  lemma RuledRangeIsUnique(key: seq<byte>, r: Range, r': Range)
    requires RuledRange(key, r) && RuledRange(key, r')
    ensures r == r' && r.lo <= r.hi <= |key|
  {
    hide TagRange;
    if HasTag(key) {
      TagRangeFinds(key, r.lo - 1, r.hi);
      TagRangeFinds(key, r'.lo - 1, r'.hi);
    }
  }

  lemma {:induction false} CStringStops(text: seq<byte>, cut: seq<byte>)
    requires 0 !in text && (cut == [] || cut[0] == 0)
    ensures CString(text + cut) == text
  {
    if text == [] {
      assert text + cut == cut;
    } else {
      assert text[0] in text && (text + cut)[1..] == text[1..] + cut;
      CStringStops(text[1..], cut);
    }
  }

  /** The second element of a command is its key: the slot is that of the part which the rule names, of the
      key's bytes before its first NUL. */
  lemma SecondElementDecides(a: Option<Table>, b: Option<Table>, name: Node, key: seq<byte>, cut: seq<byte>,
                             rest: seq<Node>, r: Range)
    requires 0 !in key && (cut == [] || cut[0] == 0) && RuledRange(key, r)
    ensures r.lo <= r.hi <= |key|
    ensures CommandSlot(Node(a, Aggregate(Array, [name, Node(b, Blob(BlobString, key + cut))] + rest)))
         == Crc(key[r.lo..r.hi]) % 16384
  {
    hide TagRange, IsTag, CString, Crc;
    CStringStops(key, cut);
    TagRangeMeans(key);
    RuledRangeIsUnique(key, r, TagRange(key));
  }

  /** Every other command belongs to the slot of the empty key. */
  lemma WithoutKeyIsEmptyKey(command: Node)
    requires match command.data
             case Aggregate(Array, elements) =>
               |elements| < 2 || !elements[1].data.Blob? || elements[1].data.blobKind != BlobString
             case _ => true
    ensures CommandSlot(command) == Crc([]) % 16384
  {
    hide Crc;
    assert CString([]) == [] && TagRange([]) == Range(0, 0);
  }

  /** What stands between the first opening brace and the next closing one decides, if it is anything. */
  lemma BracesDecide(a: seq<byte>, tag: seq<byte>, rest: seq<byte>)
    requires tag != [] && 0 !in a + tag && 123 !in a && 125 !in tag
    ensures KeySlot(a + [123] + tag + [125] + rest) == Crc(tag) % 16384
  {
    hide Crc, CString, TagRange;
    var key, s, e := a + [123] + tag + [125] + rest, |a|, |a| + 1 + |tag|;
    assert key[..s] == a && key[s + 1..e] == tag && key[..e] == a + [123] + tag;
    TaggedKeySlot(key, s, e);
  }
}
