/** Java's 64-bit `long` and the two's-complement addition the JVM performs on it. */
module JavaLong {

  const Modulus: int := 0x1_0000_0000_0000_0000
  const MinLong: int := -0x8000_0000_0000_0000
  const MaxLong: int := 0x7FFF_FFFF_FFFF_FFFF

  /** The values a Java `long` can hold. */
  type long = x: int | MinLong <= x <= MaxLong

  /** `a + b` on `long`: the exact sum, reduced modulo 2^64 into the signed range. */
  function AddLong(a: long, b: long): (r: long)
    ensures (r - (a + b)) % Modulus == 0
    ensures MinLong <= a + b <= MaxLong ==> r == a + b
    ensures a + b > MaxLong ==> r < 0
    ensures a + b < MinLong ==> r >= 0
  {
    var sum := a + b;
    if sum > MaxLong then sum - Modulus
    else if sum < MinLong then sum + Modulus
    else sum
  }

  /** The wrapped sum is the only `long` congruent to the exact sum modulo 2^64. */
  lemma AddLongUnique(a: long, b: long, x: long)
    requires (x - (a + b)) % Modulus == 0
    ensures x == AddLong(a, b)
  {
  }
}
