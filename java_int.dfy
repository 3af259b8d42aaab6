/** Java's 32-bit two's-complement `int`, as far as the counters of the model need it. */
module JavaInt {

  const INT_MIN: int := -0x8000_0000
  const INT_MAX: int := 0x7fff_ffff
  const MODULUS: int := 0x1_0000_0000

  /** True iff `x` is representable as a Java `int`. */
  predicate IsInt(x: int) {
    INT_MIN <= x <= INT_MAX
  }

  /** The Java `int` that the mathematical integer `x` truncates to (its low 32 bits, signed). */
  function Wrap(x: int): (r: int)
    ensures IsInt(r)
    ensures (x - r) % MODULUS == 0
    ensures IsInt(x) ==> r == x
  {
    (x - INT_MIN) % MODULUS + INT_MIN
  }

  /** Java's `x++` on an `int`: the largest value wraps around to the smallest. */
  function Increment(x: int): (r: int)
    requires IsInt(x)
    ensures IsInt(r)
    ensures r == Wrap(x + 1)
    ensures x < INT_MAX ==> r == x + 1
  {
    if x == INT_MAX then INT_MIN else x + 1
  }

  /** Two integers that agree modulo 2^32 truncate to the same `int`. */
  lemma {:induction false} WrapCongruent(a: int, b: int)
    requires (a - b) % MODULUS == 0
    ensures Wrap(a) == Wrap(b)
  {
    var k := (a - b) / MODULUS;
    assert a - INT_MIN == (b - INT_MIN) + k * MODULUS;
    ModShift(b - INT_MIN, k);
  }

  lemma {:induction false} ModShift(x: int, k: int)
    ensures (x + k * MODULUS) % MODULUS == x % MODULUS
  {
    var q, r := x / MODULUS, x % MODULUS;
    assert x == q * MODULUS + r;
    assert x + k * MODULUS == (q + k) * MODULUS + r;
  }

  /** Incrementing the truncation of `n` gives the truncation of `n + 1`: `n` increments from 0 give `Wrap(n)`. */
  lemma {:induction false} IncrementWrap(n: int)
    ensures Increment(Wrap(n)) == Wrap(n + 1)
  {
    var w := Wrap(n);
    assert ((n + 1) - (w + 1)) % MODULUS == 0;
    WrapCongruent(n + 1, w + 1);
  }
}
