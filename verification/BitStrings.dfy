/** Unsigned numbers as strings of bits, most significant bit first. */
module BitStrings {

  function Pow2(k: nat): (p: nat)
    ensures p > 0
  {
    if k == 0 then 1 else 2 * Pow2(k - 1)
  }

  /** The low `k` bits of `n`. */
  function Bits(n: nat, k: nat): (b: seq<bool>)
    ensures |b| == k
    decreases k, n
  {
    if k == 0 then [] else Bits(n / 2, k - 1) + [n % 2 == 1]
  }

  function Value(b: seq<bool>): (n: nat)
    ensures n < Pow2(|b|)
  {
    if b == [] then 0 else 2 * Value(b[..|b| - 1]) + (if b[|b| - 1] then 1 else 0)
  }

  function Zeros(k: nat): (z: seq<bool>)
    ensures |z| == k
  {
    seq(k, _ => false)
  }

  function XorBits(a: seq<bool>, b: seq<bool>): (r: seq<bool>)
    requires |a| == |b|
    ensures |r| == |a|
  {
    seq(|a|, i requires 0 <= i < |a| => a[i] != b[i])
  }

  /** The exclusive or of two `k`-bit numbers. */
  function Xor(a: nat, b: nat, k: nat): (r: nat)
    ensures r < Pow2(k)
  {
    Value(XorBits(Bits(a, k), Bits(b, k)))
  }

  lemma {:induction false} BitsOfValue(b: seq<bool>)
    ensures Bits(Value(b), |b|) == b
  {
    if b != [] {
      BitsOfValue(b[..|b| - 1]);
      assert b == b[..|b| - 1] + [b[|b| - 1]];
    }
  }

  lemma {:induction false} ValueOfBits(n: nat, k: nat)
    requires n < Pow2(k)
    ensures Value(Bits(n, k)) == n
    decreases k
  {
    if k > 0 {
      ValueOfBits(n / 2, k - 1);
      assert Bits(n, k)[..k - 1] == Bits(n / 2, k - 1);
    }
  }

  lemma BitsOfXor(a: nat, b: nat, k: nat)
    ensures Bits(Xor(a, b, k), k) == XorBits(Bits(a, k), Bits(b, k))
  {
    BitsOfValue(XorBits(Bits(a, k), Bits(b, k)));
  }

  /** A number made of a high and a low part has the bits of both. */
  lemma {:induction false} BitsAppend(hi: nat, lo: nat, k: nat, j: nat)
    requires lo < Pow2(j)
    ensures Bits(hi * Pow2(j) + lo, k + j) == Bits(hi, k) + Bits(lo, j)
    decreases j
  {
    if j == 0 {
      assert Bits(lo, 0) == [];
    } else {
      var n := hi * Pow2(j) + lo;
      assert n == 2 * (hi * Pow2(j - 1)) + lo;
      assert n / 2 == hi * Pow2(j - 1) + lo / 2 && n % 2 == lo % 2;
      BitsAppend(hi, lo / 2, k, j - 1);
    }
  }

  /** Truncation keeps the low bits. */
  lemma {:induction false} BitsDrop(n: nat, k: nat, j: nat)
    requires j <= k
    ensures Bits(n, k)[k - j..] == Bits(n, j)
    decreases j
  {
    if j > 0 {
      BitsDrop(n / 2, k - 1, j - 1);
      assert Bits(n, k)[k - j..] == Bits(n / 2, k - 1)[k - j..] + [n % 2 == 1];
    }
  }

  lemma {:induction false} BitsOfZero(k: nat)
    ensures Bits(0, k) == Zeros(k)
  {
    if k > 0 {
      BitsOfZero(k - 1);
    }
  }

  lemma DivMod(n: nat, p: nat)
    requires p > 0
    ensures n / p * p + n % p == n && n % p < p
  {}

  lemma BitsMod(n: nat, k: nat)
    ensures Bits(n % Pow2(k), k) == Bits(n, k)
  {
    hide Pow2;
    DivMod(n, Pow2(k));
    BitsAppend(n / Pow2(k), n % Pow2(k), 0, k);
    assert Bits(n / Pow2(k), 0) == [];
    assert Bits(n / Pow2(k), 0) + Bits(n % Pow2(k), k) == Bits(n % Pow2(k), k);
  }
}
