/** The growing array: its size doubles, in 32 bits. */
module DynamicArray {
  type uint32 = n: int | 0 <= n < 0x1_0000_0000 witness 0

  /** The largest size that can be reached: doubling it gives zero. */
  const TOP: uint32 := 0x8000_0000

  predicate PowerOfTwo(n: nat) {
    n == 1 || (n > 1 && n % 2 == 0 && PowerOfTwo(n / 2))
  }

  function Twice(n: uint32): uint32 {
    n * 2 % 0x1_0000_0000
  }

  /** The size after `k` doublings. */
  function Grown(n: uint32, k: nat): uint32
    decreases k
  {
    if k == 0 then n else Grown(Twice(n), k - 1)
  }

  lemma {:induction false} PowersApart(a: nat, b: nat)
    requires PowerOfTwo(a) && PowerOfTwo(b) && a < b
    ensures 2 * a <= b
  {
    if a > 1 {
      PowersApart(a / 2, b / 2);
    }
  }

  lemma DoubleIsPower(n: nat)
    requires PowerOfTwo(n)
    ensures PowerOfTwo(2 * n)
  {}

  lemma {:induction false} IteratedPower(n: nat, k: nat)
    requires PowerOfTwo(n)
    ensures PowerOfTwo(Shifted(n, k))
    decreases k
  {
    if k > 0 {
      DoubleIsPower(n);
      IteratedPower(2 * n, k - 1);
    }
  }

  function Shifted(n: nat, k: nat): nat
    decreases k
  {
    if k == 0 then n else Shifted(2 * n, k - 1)
  }

  lemma TopIsPower()
    ensures PowerOfTwo(TOP)
  {
    assert Shifted(1, 8) == 0x100 && Shifted(1, 7) == 0x80;
    IteratedPower(1, 8);
    ShiftedIsProduct(0x100, 8);
    IteratedPower(0x100, 8);
    ShiftedIsProduct(0x1_0000, 8);
    IteratedPower(0x1_0000, 8);
    ShiftedIsProduct(0x100_0000, 7);
    IteratedPower(0x100_0000, 7);
  }

  lemma {:induction false} ShiftedIsProduct(n: nat, k: nat)
    ensures Shifted(n, k) == n * Shifted(1, k)
    decreases k
  {
    if k > 0 {
      ShiftedIsProduct(2 * n, k - 1);
      ShiftedIsProduct(2, k - 1);
    }
  }

  /** Below the top, doubling gives a larger power of two. */
  lemma TwiceGrows(n: uint32)
    requires PowerOfTwo(n) && n < TOP
    ensures Twice(n) == 2 * n <= TOP && PowerOfTwo(Twice(n))
  {
    hide PowerOfTwo;
    TopIsPower();
    PowersApart(n, TOP);
    DoubleIsPower(n);
  }

  lemma {:induction false} GrownStaysSmall(n: uint32, k: nat)
    requires n == 0 || (PowerOfTwo(n) && n <= TOP)
    ensures Grown(n, k) <= TOP
    decreases k
  {
    if k > 0 {
      if 0 < n < TOP {
        TwiceGrows(n);
      }
      GrownStaysSmall(Twice(n), k - 1);
    }
  }

  lemma {:induction false} GrownReaches(n: uint32, newCount: uint32) returns (k: nat)
    requires PowerOfTwo(n) && n <= TOP && newCount <= TOP
    ensures newCount <= Grown(n, k)
    decreases TOP - n
  {
    k := 0;
    if n < newCount {
      TwiceGrows(n);
      var j := GrownReaches(Twice(n), newCount);
      k := j + 1;
    }
  }

  /** The doubling loop reaches a size that is large enough exactly when the new count is at most 2^31;
      for any larger count it goes on for ever, at size zero. */
  lemma GrowthEndsExactlyWhen(n: uint32, newCount: uint32)
    requires PowerOfTwo(n) && n <= TOP
    ensures (exists k: nat :: newCount <= Grown(n, k)) <==> newCount <= TOP
  {
    if newCount <= TOP {
      var k := GrownReaches(n, newCount);
    }
    if k: nat :| newCount <= Grown(n, k) {
      GrownStaysSmall(n, k);
    }
  }

  /** From size one, no number of doublings makes room for 2^31 + 1 elements. */
  lemma GrowthIsEndless()
    ensures !exists k: nat :: 0x8000_0001 <= Grown(1, k)
  {
    GrowthEndsExactlyWhen(1, 0x8000_0001);
  }

  class DynamicArray<T(0)> {
    var data: array<T>
    var count: uint32
    var size: uint32

    ghost predicate Valid()
      reads this
    {
      data.Length == size && count <= size && (size == 0 || PowerOfTwo(size)) && size <= TOP
    }

    constructor ()
      ensures Valid() && count == 0 && size == 0 && fresh(data)
    {
      data := new T[0];
      count, size := 0, 0;
    }

    /** Changes the count. What was stored stays, even beyond the count; the array grows only when it
        must, and then to less than twice the new count, unless it was that large before. */
    method SetCount(newCount: uint32)
      requires Valid() && newCount <= TOP
      modifies this
      ensures Valid() && count == newCount
      ensures if newCount <= old(size) then data == old(data) && size == old(size)
              else fresh(data) && old(size) < size < 2 * newCount
      ensures forall i :: 0 <= i < old(size) ==> data[i] == old(data[i])
    {
      if newCount > size {
        var newSize: uint32 := if size == 0 then 1 else size;
        while newCount > newSize
          invariant unchanged(this) && PowerOfTwo(newSize) && size <= newSize <= TOP && newSize < 2 * newCount
          decreases TOP - newSize
        {
          TwiceGrows(newSize);
          newSize := Twice(newSize);
        }
        Reallocate(newSize);
      }
      count := newCount;
    }

    /** `realloc`: the old elements move along. */
    method Reallocate(newSize: uint32)
      requires data.Length == size < newSize
      modifies this`data, this`size
      ensures fresh(data) && data.Length == size == newSize
      ensures forall i :: 0 <= i < old(size) ==> data[i] == old(data[i])
    {
      var moved := new T[newSize];
      var i := 0;
      while i < size
        invariant unchanged(this) && unchanged(data) && fresh(moved)
        invariant 0 <= i <= size && forall k :: 0 <= k < i ==> moved[k] == data[k]
      {
        moved[i] := data[i];
        i := i + 1;
      }
      data, size := moved, newSize;
    }

    /** Assignment from another array, or from itself. */
    method Assign(other: DynamicArray<T>)
      requires Valid() && other.Valid() && (other == this || other.data != data)
      modifies this, data
      ensures Valid() && count == old(other.count)
      ensures forall i :: 0 <= i < count ==> data[i] == old(other.data[i])
      ensures other != this ==> unchanged(other) && unchanged(other.data)
    {
      SetCount(other.count);
      var i := 0;
      while i < other.count
        invariant 0 <= i <= other.count && Valid() && count == other.count == old(other.count) && other.Valid()
        invariant data == old(data) || fresh(data)
        invariant other != this ==> data != other.data && unchanged(other) && unchanged(other.data)
        invariant forall k :: 0 <= k < i ==> data[k] == old(other.data[k])
        invariant other == this ==> forall k :: 0 <= k < count ==> data[k] == old(data[k])
      {
        data[i] := other.data[i];
        i := i + 1;
      }
    }
  }
}
