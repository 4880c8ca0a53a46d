/** Decimal numbers as the C library prints and reads them. */
module Decimal {
  import opened Bytes

  const MINUS: byte := 45
  const PLUS: byte := 43
  const LONG_MAX := 0x7FFF_FFFF_FFFF_FFFF
  const LONG_MIN := -0x8000_0000_0000_0000

  /** The C `long`, and `int64_t`: 64 bits. */
  type long = n: int | LONG_MIN <= n <= LONG_MAX

  predicate IsDigit(b: byte) {
    48 <= b <= 57
  }

  predicate IsSpace(b: byte) {
    b == 32 || 9 <= b <= 13
  }

  predicate AllDigits(s: seq<byte>) {
    forall i :: 0 <= i < |s| ==> IsDigit(s[i])
  }

  function Digits(n: nat): (s: seq<byte>)
    ensures |s| > 0 && AllDigits(s)
  {
    if n < 10 then [48 + n] else Digits(n / 10) + [48 + n % 10]
  }

  /** `%d` and `%lld`. */
  function Print(n: int): seq<byte> {
    if n < 0 then [MINUS] + Digits(-n) else Digits(n)
  }

  /** The number spelled by the leading digits of `s`, continuing from `acc`. */
  function DigitsValue(acc: nat, s: seq<byte>): nat
    decreases |s|
  {
    if s == [] || !IsDigit(s[0]) then acc else DigitsValue(10 * acc + (s[0] - 48), s[1..])
  }

  function SkipSpace(s: seq<byte>): seq<byte> {
    if s == [] || !IsSpace(s[0]) then s else SkipSpace(s[1..])
  }

  /** What `strtol` returns, and whether it sets `errno`. */
  datatype Long = Long(value: long, overflow: bool)

  function Clamp(n: int): Long {
    if n > LONG_MAX then Long(LONG_MAX, true)
    else if n < LONG_MIN then Long(LONG_MIN, true)
    else Long(n, false)
  }

  /** `strtol(s, nullptr, 10)` with a 64-bit `long`. */
  function Strtol(s: seq<byte>): Long {
    var t := SkipSpace(s);
    if t != [] && t[0] == MINUS then Clamp(0 - DigitsValue(0, t[1..]))
    else if t != [] && t[0] == PLUS then Clamp(DigitsValue(0, t[1..]))
    else Clamp(DigitsValue(0, t))
  }

  lemma {:induction false} DigitsValueAppend(acc: nat, a: seq<byte>, b: seq<byte>)
    requires AllDigits(a)
    ensures DigitsValue(acc, a + b) == DigitsValue(DigitsValue(acc, a), b)
    decreases |a|
  {
    if a == [] {
      assert a + b == b;
    } else {
      assert (a + b)[1..] == a[1..] + b;
      DigitsValueAppend(10 * acc + (a[0] - 48), a[1..], b);
    }
  }

  lemma {:induction false} DigitsValueOfDigits(n: nat)
    ensures DigitsValue(0, Digits(n)) == n
  {
    if n >= 10 {
      DigitsValueOfDigits(n / 10);
      DigitsValueAppend(0, Digits(n / 10), [48 + n % 10]);
      assert [48 + n % 10][1..] == [];
    }
  }

  /** Reading back a printed number gives the number, for every value of `long`. */
  lemma StrtolOfPrint(n: long)
    ensures Strtol(Print(n)) == Long(n, false)
  {
    DigitsValueOfDigits(if n < 0 then 0 - n else n);
    if n < 0 {
      assert Print(n)[1..] == Digits(0 - n);
    }
  }

  lemma {:induction false} DigitsLength(n: nat, k: nat, bound: nat)
    requires n < bound && k > 0 && bound == Power10(k)
    ensures |Digits(n)| <= k
    decreases k
  {
    if n >= 10 {
      DigitsLength(n / 10, k - 1, Power10(k - 1));
    }
  }

  function Power10(k: nat): nat {
    if k == 0 then 1 else 10 * Power10(k - 1)
  }
}
