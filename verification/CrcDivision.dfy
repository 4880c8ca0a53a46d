/** What a CRC is: the remainder of a polynomial over GF(2), found by schoolbook long division,
    and the shift register that finds it while reading the dividend bit by bit. */
module CrcDivision {
  import opened BitStrings

  /** x^16 + x^12 + x^5 + 1 */
  const GENERATOR: seq<bool> := [
    true, false, false, false, true, false, false, false, false,
    false, false, true, false, false, false, false, true]

  /** `bits` with `p` added to its leading coefficients. */
  function AddPrefix(p: seq<bool>, bits: seq<bool>): (r: seq<bool>)
    requires |p| <= |bits|
    ensures |r| == |bits|
  {
    seq(|bits|, i requires 0 <= i < |bits| => if i < |p| then p[i] != bits[i] else bits[i])
  }

  /** The remainder of the polynomial `bits` on division by the generator. */
  function Remainder(bits: seq<bool>): seq<bool>
    decreases |bits|
  {
    if |bits| <= 16 then bits
    else if bits[0] then Remainder(AddPrefix(GENERATOR, bits)[1..])
    else Remainder(bits[1..])
  }

  /** The register after one more bit of the dividend. */
  function FeedBit(register: seq<bool>, bit: bool): (r: seq<bool>)
    requires |register| == 16
    ensures |r| == 16
  {
    var shifted := register[1..] + [false];
    if register[0] != bit then XorBits(GENERATOR[1..], shifted) else shifted
  }

  function Feed(register: seq<bool>, bits: seq<bool>): (r: seq<bool>)
    requires |register| == 16
    ensures |r| == 16
    decreases |bits|
  {
    if bits == [] then register else Feed(FeedBit(register, bits[0]), bits[1..])
  }

  lemma FeedBitDivides(register: seq<bool>, bit: bool, tail: seq<bool>)
    requires |register| == 16 && |tail| >= 16
    ensures Remainder(AddPrefix(register, [bit] + tail)) == Remainder(AddPrefix(FeedBit(register, bit), tail))
  {
    var dividend := AddPrefix(register, [bit] + tail);
    if dividend[0] {
      assert AddPrefix(GENERATOR, dividend)[1..] == AddPrefix(FeedBit(register, bit), tail);
    } else {
      assert dividend[1..] == AddPrefix(FeedBit(register, bit), tail);
    }
  }

  /** A register that has read `bits` stands for the dividend read so far. */
  lemma {:induction false} FeedDivides(register: seq<bool>, bits: seq<bool>, tail: seq<bool>)
    requires |register| == 16 && |tail| >= 16
    ensures Remainder(AddPrefix(register, bits + tail)) == Remainder(AddPrefix(Feed(register, bits), tail))
    decreases |bits|
  {
    if bits == [] {
      assert bits + tail == tail;
    } else {
      assert bits + tail == [bits[0]] + (bits[1..] + tail);
      FeedBitDivides(register, bits[0], bits[1..] + tail);
      FeedDivides(FeedBit(register, bits[0]), bits[1..], tail);
    }
  }

  /** The empty register, fed a whole message, ends as the remainder of the message times x^16. */
  lemma FeedIsRemainder(bits: seq<bool>)
    ensures Feed(Zeros(16), bits) == Remainder(bits + Zeros(16))
  {
    FeedDivides(Zeros(16), bits, Zeros(16));
    assert AddPrefix(Zeros(16), bits + Zeros(16)) == bits + Zeros(16);
    assert AddPrefix(Feed(Zeros(16), bits), Zeros(16)) == Feed(Zeros(16), bits);
  }

  lemma {:induction false} FeedAppend(register: seq<bool>, a: seq<bool>, b: seq<bool>)
    requires |register| == 16
    ensures Feed(register, a + b) == Feed(Feed(register, a), b)
    decreases |a|
  {
    if a == [] {
      assert a + b == b;
    } else {
      assert (a + b)[1..] == a[1..] + b;
      FeedAppend(FeedBit(register, a[0]), a[1..], b);
    }
  }

  lemma FeedBitXor(r: seq<bool>, s: seq<bool>, x: bool, y: bool)
    requires |r| == |s| == 16
    ensures FeedBit(XorBits(r, s), x != y) == XorBits(FeedBit(r, x), FeedBit(s, y))
  {}

  /** Feeding is linear over exclusive or. */
  lemma {:induction false} FeedXor(r: seq<bool>, s: seq<bool>, x: seq<bool>, y: seq<bool>)
    requires |r| == |s| == 16 && |x| == |y|
    ensures Feed(XorBits(r, s), XorBits(x, y)) == XorBits(Feed(r, x), Feed(s, y))
    decreases |x|
  {
    if x != [] {
      FeedBitXor(r, s, x[0], y[0]);
      assert XorBits(x, y)[1..] == XorBits(x[1..], y[1..]);
      FeedXor(FeedBit(r, x[0]), FeedBit(s, y[0]), x[1..], y[1..]);
    }
  }

  /** Feeding a register its own leading bits cancels them. */
  lemma {:induction false} FeedOwnBits(h: seq<bool>, l: seq<bool>)
    requires |h| + |l| == 16
    ensures Feed(h + l, h) == l + Zeros(|h|)
    decreases |h|
  {
    if h == [] {
      assert h + l == l && l + Zeros(0) == l;
    } else {
      assert FeedBit(h + l, h[0]) == h[1..] + (l + [false]);
      FeedOwnBits(h[1..], l + [false]);
      assert (l + [false]) + Zeros(|h| - 1) == l + Zeros(|h|);
    }
  }

  /** Only the difference between the leading bits and the input passes through the feedback. */
  lemma FeedSplits(h: seq<bool>, l: seq<bool>, x: seq<bool>)
    requires |h| + |l| == 16 && |x| == |h|
    ensures |l + Zeros(|h|)| == 16
    ensures Feed(h + l, x) == XorBits(l + Zeros(|h|), Feed(Zeros(16), XorBits(h, x)))
  {
    FeedOwnBits(h, l);
    FeedXor(h + l, Zeros(16), h, XorBits(h, x));
    assert XorBits(h + l, Zeros(16)) == h + l;
    assert XorBits(h, XorBits(h, x)) == x;
  }
}
