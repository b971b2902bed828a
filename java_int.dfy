/**
 * Java `int` arithmetic on unbounded integers: every `int` result is the
 * mathematical result reduced to 32-bit two's complement.
 */
module JavaInt {

  const TWO_31: int := 0x8000_0000
  const TWO_32: int := 0x1_0000_0000

  /** The values a Java `int` can hold. */
  type Int32 = n: int | -0x8000_0000 <= n < 0x8000_0000

  function Pow2(n: nat): (r: nat)
    ensures r >= 1
  {
    if n == 0 then 1 else 2 * Pow2(n - 1)
  }

  /** Truncation to 32 bits, as every Java `int` operation performs it. */
  function Wrap(n: int): (r: Int32)
    ensures -TWO_31 <= n < TWO_31 ==> r == n
  {
    (n + TWO_31) % TWO_32 - TWO_31
  }

  /** Truncation subtracts a whole number of 2^32 steps. */
  lemma WrapOffset(n: int)
    ensures Wrap(n) == n - TWO_32 * ((n + TWO_31) / TWO_32)
  {
  }

  /** `1 << count`: Java uses only the low five bits of the shift count. */
  function ShiftLeftOne(count: Int32): (r: Int32)
  {
    Wrap(Pow2(count % 32))
  }

  /** Values that differ by a multiple of 2^32 wrap to the same `int`. */
  lemma WrapCongruent(a: int, b: int, k: int)
    requires a == b + TWO_32 * k
    ensures Wrap(a) == Wrap(b)
  {
    var q := (b + TWO_31) / TWO_32;
    var m := (b + TWO_31) % TWO_32;
    assert a + TWO_31 == TWO_32 * (q + k) + m;
    ModUnique(a + TWO_31, q + k, m);
  }

  lemma ModUnique(x: int, q: int, m: int)
    requires 0 <= m < TWO_32 && x == TWO_32 * q + m
    ensures x % TWO_32 == m
  {
  }

  lemma {:induction false} Pow2Monotone(a: nat, b: nat)
    requires a <= b
    ensures Pow2(a) <= Pow2(b)
    decreases b
  {
    if a < b {
      Pow2Monotone(a, b - 1);
    }
  }

  lemma {:induction false} Pow2Add(a: nat, b: nat)
    ensures Pow2(a + b) == Pow2(a) * Pow2(b)
    decreases b
  {
    if b > 0 {
      Pow2Add(a, b - 1);
      assert Pow2(a + b) == 2 * Pow2(a + (b - 1));
    }
  }

  /** For the zoom levels a tile pyramid uses, the shift does not overflow. */
  lemma ShiftLeftOneExact(count: Int32)
    requires 0 <= count <= 30
    ensures ShiftLeftOne(count) == Pow2(count)
  {
    var shift: nat := count % 32;
    assert shift == count;
    Pow2Fits(shift);
    assert ShiftLeftOne(count) == Wrap(Pow2(shift));
  }

  lemma Pow2Fits(n: nat)
    requires n <= 30
    ensures Pow2(n) < TWO_31
  {
    Pow2Monotone(n, 30);
    Pow2Thirty();
  }

  lemma Pow2Thirty()
    ensures Pow2(30) == 0x4000_0000
  {
    assert Pow2(10) == 1024;
    Pow2Add(10, 10);
    Pow2Add(20, 10);
  }
}
