/** The table-driven CRC16 of the client, and what it computes. */
module Crc16 {
  import opened Bytes
  import opened BitStrings
  import opened CrcDivision
  import opened Crc16Table

  lemma PowersOfTwo()
    ensures Pow2(5) == 0x20 && Pow2(8) == 0x100 && Pow2(12) == 0x1000 && Pow2(15) == 0x8000 && Pow2(16) == 0x10000
  {
    assert Pow2(4) == 16;
    assert Pow2(8) == 0x100;
    assert Pow2(12) == 0x1000;
  }

  // ----- the table entry for `x` is the register that has read the eight bits of `x`

  /** Changing the bit of weight 2^j in a number split around it. */
  lemma FlipAround(hi: nat, b: nat, lo: nat, k: nat, j: nat)
    requires b < 2 && lo < Pow2(j) && j < k
    ensures var before := Bits((2 * hi + b) * Pow2(j) + lo, k);
      Bits((2 * hi + 1 - b) * Pow2(j) + lo, k) == before[k - 1 - j := !before[k - 1 - j]]
  {
    BitsAppend(2 * hi + b, lo, k - j, j);
    BitsAppend(2 * hi + 1 - b, lo, k - j, j);
  }

  lemma ChangeFlipsBit12(n: nat)
    ensures n + Change(n, 0x1000) >= 0
    ensures Bits(n + Change(n, 0x1000), 16) == Bits(n, 16)[3 := !Bits(n, 16)[3]]
  {
    PowersOfTwo();
    hide Bits, Pow2;
    var q, lo := n / 0x1000, n % 0x1000;
    FlipAround(q / 2, q % 2, lo, 16, 12);
    assert n == (2 * (q / 2) + q % 2) * 0x1000 + lo;
    assert n + Change(n, 0x1000) == (2 * (q / 2) + 1 - q % 2) * 0x1000 + lo;
  }

  lemma ChangeFlipsBit5(n: nat)
    ensures n + Change(n, 0x20) >= 0
    ensures Bits(n + Change(n, 0x20), 16) == Bits(n, 16)[10 := !Bits(n, 16)[10]]
  {
    PowersOfTwo();
    hide Bits, Pow2;
    var q, lo := n / 0x20, n % 0x20;
    FlipAround(q / 2, q % 2, lo, 16, 5);
    assert n == (2 * (q / 2) + q % 2) * 0x20 + lo;
    assert n + Change(n, 0x20) == (2 * (q / 2) + 1 - q % 2) * 0x20 + lo;
  }

  lemma AddOneFlipsBit0(n: nat)
    requires n % 2 == 0
    ensures Bits(n + 1, 16) == Bits(n, 16)[15 := !Bits(n, 16)[15]]
  {
    assert Pow2(0) == 1;
    hide Bits, Pow2;
    FlipAround(n / 2, 0, 0, 16, 0);
  }

  lemma BitsOfDouble(n: nat, k: nat)
    ensures Bits(n * 2, k + 1) == Bits(n, k) + [false]
  {}

  lemma BitsOfOne(b: nat)
    requires b < 2
    ensures Bits(b, 1) == [b == 1]
  {
    assert Bits(b / 2, 0) == [];
  }

  lemma DoublingShiftsBits(crc: nat)
    requires crc < 0x10000
    ensures Bits(crc * 2 % 0x10000, 16) == Bits(crc, 16)[1..] + [false]
    ensures Bits(crc, 16)[0] == (crc >= 0x8000)
  {
    PowersOfTwo();
    hide Bits, Pow2;
    BitsOfDouble(crc, 15);
    BitsOfOne(crc / 0x8000);
    BitsAppend(crc / 0x8000, crc % 0x8000, 1, 15);
    BitsDrop(crc, 16, 15);
    BitsMod(crc * 2, 16);
  }

  lemma GeneratorFlips(b: seq<bool>)
    requires |b| == 16
    ensures XorBits(GENERATOR[1..], b) == b[3 := !b[3]][10 := !b[10]][15 := !b[15]]
  {}

  /** Feedback on an even number changes three bits that do not disturb each other. */
  lemma FeedbackBits(shifted: nat)
    requires shifted < 0x10000 && shifted % 2 == 0
    ensures 0 <= shifted + Change(shifted, 0x1000) + Change(shifted, 0x20) + 1 < 0x10000
    ensures Bits(shifted + Change(shifted, 0x1000) + Change(shifted, 0x20) + 1, 16)
         == XorBits(GENERATOR[1..], Bits(shifted, 16))
  {
    hide Bits;
    var n1 := shifted + Change(shifted, 0x1000);
    ChangeFlipsBit12(shifted);
    assert Change(n1, 0x20) == Change(shifted, 0x20);
    ChangeFlipsBit5(n1);
    AddOneFlipsBit0(n1 + Change(n1, 0x20));
    GeneratorFlips(Bits(shifted, 16));
  }

  lemma ShiftIsFeedBit(crc: nat, bit: bool)
    requires crc < 0x10000
    ensures 0 <= Shift(crc, bit) < 0x10000
    ensures Bits(Shift(crc, bit), 16) == FeedBit(Bits(crc, 16), bit)
  {
    hide Bits;
    var shifted := if crc < 0x8000 then crc * 2 else crc * 2 - 0x10000;
    assert shifted == crc * 2 % 0x10000;
    DoublingShiftsBits(crc);
    FeedbackBits(shifted);
  }

  lemma {:induction false} EntryIsFeed(x: nat, k: nat)
    requires k <= 8 && x < 256 && x < Pow2(k)
    ensures Entry(x) < 0x10000
    ensures Bits(Entry(x), 16) == Feed(Zeros(16), Bits(x, k))
    decreases k
  {
    if k == 0 {
      EntryOfZero();
      BitsOfZero(16);
    } else {
      EntryIsFeed(x / 2, k - 1);
      EntryIsShift(x);
      ShiftIsFeedBit(Entry(x / 2), x % 2 == 1);
      FeedAppend(Zeros(16), Bits(x / 2, k - 1), [x % 2 == 1]);
    }
  }

  // ----- the table step feeds one octet to the register

  /** One pass of the table loop. */
  function TableStep(crc: nat, b: byte): (r: nat)
    ensures r < 0x10000
  {
    PowersOfTwo();
    Xor(crc * 256 % 0x10000, Entry(Xor(crc / 256, b, 16) % 256), 16)
  }

  lemma HalvesOfRegister(crc: nat)
    requires crc < 0x10000
    ensures Bits(crc, 16) == Bits(crc / 256, 8) + Bits(crc, 8)
    ensures Bits(crc * 256 % 0x10000, 16) == Bits(crc, 8) + Zeros(8)
  {
    PowersOfTwo();
    hide Bits, Pow2;
    BitsAppend(crc / 256, crc % 256, 8, 8);
    BitsMod(crc, 8);
    BitsAppend(crc, 0, 8, 8);
    BitsOfZero(8);
    BitsMod(crc * 256, 16);
  }

  lemma IndexBits(h: nat, b: byte)
    ensures Bits(Xor(h, b, 16) % 256, 8) == XorBits(Bits(h, 8), Bits(b, 8))
  {
    PowersOfTwo();
    hide Bits, Pow2, Xor;
    BitsMod(Xor(h, b, 16), 8);
    BitsDrop(Xor(h, b, 16), 16, 8);
    BitsOfXor(h, b, 16);
    BitsDrop(h, 16, 8);
    BitsDrop(b, 16, 8);
    assert XorBits(Bits(h, 16), Bits(b, 16))[8..] == XorBits(Bits(h, 16)[8..], Bits(b, 16)[8..]);
  }

  /** The table form and the bitwise form of one step agree. */
  lemma TableStepIsFeed(crc: nat, b: byte)
    requires crc < 0x10000
    ensures Bits(TableStep(crc, b), 16) == Feed(Bits(crc, 16), Bits(b, 8))
  {
    PowersOfTwo();
    var x := Xor(crc / 256, b, 16) % 256;
    hide Bits, Pow2, Xor, Entry, Feed;
    HalvesOfRegister(crc);
    IndexBits(crc / 256, b);
    EntryIsFeed(x, 8);
    BitsOfXor(crc * 256 % 0x10000, Entry(x), 16);
    FeedSplits(Bits(crc / 256, 8), Bits(crc, 8), Bits(b, 8));
  }

  // ----- whole messages

  function MessageBits(message: seq<byte>): seq<bool> {
    if message == [] then [] else Bits(message[0], 8) + MessageBits(message[1..])
  }

  function CrcFrom(crc: nat, message: seq<byte>): (r: nat)
    requires crc < 0x10000
    ensures r < 0x10000
    decreases |message|
  {
    if message == [] then crc else CrcFrom(TableStep(crc, message[0]), message[1..])
  }

  function Crc(message: seq<byte>): (r: nat)
    ensures r < 0x10000
  {
    CrcFrom(0, message)
  }

  /** The table loop over the first `len` octets; a negative length reads nothing. */
  method Crc16(buf: seq<byte>, len: int) returns (crc: nat)
    requires len <= |buf|
    ensures crc == Crc(if len < 0 then [] else buf[..len])
  {
    ghost var whole := if len < 0 then [] else buf[..len];
    crc := 0;
    var counter := 0;
    assert whole[0..] == whole;
    while counter < len
      invariant 0 <= counter <= |whole|
      invariant crc < 0x10000
      invariant CrcFrom(crc, whole[counter..]) == Crc(whole)
    {
      assert whole[counter..][1..] == whole[counter + 1..];
      PowersOfTwo();
      crc := Xor(crc * 256 % 0x10000, Entry(Xor(crc / 256, buf[counter], 16) % 256), 16);
      counter := counter + 1;
    }
  }

  lemma {:induction false} CrcFromIsFeed(crc: nat, message: seq<byte>)
    requires crc < 0x10000
    ensures Bits(CrcFrom(crc, message), 16) == Feed(Bits(crc, 16), MessageBits(message))
    decreases |message|
  {
    hide Bits, TableStep, Pow2;
    if message != [] {
      TableStepIsFeed(crc, message[0]);
      CrcFromIsFeed(TableStep(crc, message[0]), message[1..]);
      FeedAppend(Bits(crc, 16), Bits(message[0], 8), MessageBits(message[1..]));
    }
  }

  /** The CRC of a message is the remainder of the message times x^16 on division by the generator. */
  lemma CrcIsRemainder(message: seq<byte>)
    ensures Bits(Crc(message), 16) == Remainder(MessageBits(message) + Zeros(16))
  {
    hide Bits;
    CrcFromIsFeed(0, message);
    BitsOfZero(16);
    FeedIsRemainder(MessageBits(message));
  }

  function XorMessages(a: seq<byte>, b: seq<byte>): (m: seq<byte>)
    requires |a| == |b|
    ensures |m| == |a|
  {
    XorMessagesOctets(a, b);
    seq(|a|, i requires 0 <= i < |a| => Xor(a[i], b[i], 8))
  }

  lemma XorMessagesOctets(a: seq<byte>, b: seq<byte>)
    requires |a| == |b|
    ensures forall i :: 0 <= i < |a| ==> Xor(a[i], b[i], 8) < 256
  {
    PowersOfTwo();
  }

  lemma {:induction false} MessageBitsXor(a: seq<byte>, b: seq<byte>)
    requires |a| == |b|
    ensures |MessageBits(a)| == |MessageBits(b)|
    ensures MessageBits(XorMessages(a, b)) == XorBits(MessageBits(a), MessageBits(b))
    decreases |a|
  {
    hide Bits, Xor;
    if a != [] {
      BitsOfXor(a[0], b[0], 8);
      MessageBitsXor(a[1..], b[1..]);
      assert XorMessages(a, b)[1..] == XorMessages(a[1..], b[1..]);
    }
  }

  /** The CRC of a bytewise exclusive or is the exclusive or of the CRCs. */
  lemma CrcXor(a: seq<byte>, b: seq<byte>)
    requires |a| == |b|
    ensures Crc(XorMessages(a, b)) == Xor(Crc(a), Crc(b), 16)
  {
    PowersOfTwo();
    hide Bits, Xor, Crc, Feed;
    MessageBitsXor(a, b);
    CrcFeed(a);
    CrcFeed(b);
    CrcFeed(XorMessages(a, b));
    FeedXor(Zeros(16), Zeros(16), MessageBits(a), MessageBits(b));
    assert XorBits(Zeros(16), Zeros(16)) == Zeros(16);
    BitsOfXor(Crc(a), Crc(b), 16);
    ValueOfBits(Crc(XorMessages(a, b)), 16);
    ValueOfBits(Xor(Crc(a), Crc(b), 16), 16);
  }

  lemma CrcFeed(m: seq<byte>)
    ensures Bits(Crc(m), 16) == Feed(Zeros(16), MessageBits(m))
  {
    hide Bits;
    CrcFromIsFeed(0, m);
    BitsOfZero(16);
  }

  lemma {:induction false} MessageBitsAppend(a: seq<byte>, b: seq<byte>)
    ensures MessageBits(a + b) == MessageBits(a) + MessageBits(b)
    decreases |a|
  {
    if a == [] {
      assert a + b == b;
    } else {
      assert (a + b)[1..] == a[1..] + b;
      MessageBitsAppend(a[1..], b);
    }
  }

  /** A register as two octets, high octet first. */
  function CrcOctets(crc: nat): seq<byte>
    requires crc < 0x10000
  {
    [crc / 256, crc % 256]
  }

  lemma CrcOctetsBits(crc: nat)
    requires crc < 0x10000
    ensures MessageBits(CrcOctets(crc)) == Bits(crc, 16)
  {
    PowersOfTwo();
    HalvesOfRegister(crc);
    BitsMod(crc, 8);
    hide Bits;
    var m := CrcOctets(crc);
    assert m[1..][1..] == [];
  }

  /** A message followed by its own CRC, high octet first, has CRC zero. */
  lemma CrcOfMessageWithCrc(m: seq<byte>)
    ensures Crc(m + CrcOctets(Crc(m))) == 0
  {
    PowersOfTwo();
    hide Bits, Crc, Feed, Pow2, MessageBits, CrcOctets;
    var c := Crc(m);
    var tail := CrcOctets(c);
    CrcFeed(m);
    CrcOctetsBits(c);
    MessageBitsAppend(m, tail);
    FeedAppend(Zeros(16), MessageBits(m), MessageBits(tail));
    FeedOwnBits(Bits(c, 16), []);
    assert Bits(c, 16) + [] == Bits(c, 16) && [] + Zeros(16) == Zeros(16);
    CrcFeed(m + tail);
    BitsOfZero(16);
    ValueOfBits(Crc(m + tail), 16);
    ValueOfBits(0, 16);
  }
}
