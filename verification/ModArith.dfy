/** Division with a variable divisor, for page and alignment arithmetic. */
module ModArith {

  lemma {:induction false} MultipleGrows(k: int, d: int)
    requires d > 0
    ensures k >= 1 ==> k * d >= d
    ensures k <= -1 ==> k * d <= -d
  {
  }

  /** Quotient and remainder are unique. */
  lemma {:induction false} ModUnique(x: int, d: nat, q: int, r: int)
    requires d > 0 && x == q * d + r && 0 <= r < d
    ensures x / d == q && x % d == r
  {
    var k := x / d - q;
    assert x == x / d * d + x % d;
    assert k * d == r - x % d;
    MultipleGrows(k, d);
  }

  lemma {:induction false} ModOfMultiple(q: int, d: nat)
    requires d > 0
    ensures q * d % d == 0
  {
    ModUnique(q * d, d, q, 0);
  }

  /** A multiple of the divisor does not change the remainder. */
  lemma {:induction false} ModPlusMultiple(x: int, q: int, d: nat)
    requires d > 0
    ensures (x + q * d) % d == x % d
  {
    assert x == x / d * d + x % d;
    assert x + q * d == (x / d + q) * d + x % d;
    ModUnique(x + q * d, d, x / d + q, x % d);
  }

  /** Only the remainder of a summand matters. */
  lemma {:induction false} ModOfSum(x: int, y: int, d: nat)
    requires d > 0
    ensures (x % d + y) % d == (x + y) % d
  {
    assert x == x / d * d + x % d;
    ModPlusMultiple(x % d + y, x / d, d);
  }

  /** Going to the next multiple: the distance is the divisor minus the remainder. */
  lemma {:induction false} RoundUp(x: int, d: nat)
    requires d > 0
    ensures (x + (d - x % d)) % d == 0
  {
    assert x == x / d * d + x % d;
    assert x + (d - x % d) == (x / d + 1) * d;
    ModOfMultiple(x / d + 1, d);
  }

  lemma {:induction false} RoundDown(x: int, d: nat)
    requires d > 0
    ensures (x - x % d) % d == 0
  {
    assert x - x % d == x / d * d;
    ModOfMultiple(x / d, d);
  }
}
