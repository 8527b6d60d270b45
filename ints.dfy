/** Go's fixed-width integer types as subset types of `int`, and two's-complement wrap-around. */
module Ints {

  const TWO_63: int := 0x8000_0000_0000_0000
  const TWO_64: int := 0x1_0000_0000_0000_0000

  type uint8 = x: int | 0 <= x < 0x100
  type uint16 = x: int | 0 <= x < 0x1_0000
  type int64 = x: int | -TWO_63 <= x < TWO_63

  /** The int64 value with the same low 64 bits as `x`: what Go's int64 arithmetic yields. */
  function Wrap64(x: int): (r: int64)
    ensures (r - x) % TWO_64 == 0
    ensures -TWO_63 <= x < TWO_63 ==> r == x
  {
    (x + TWO_63) % TWO_64 - TWO_63
  }

  /** Go's `%`: the remainder of division truncated toward zero, so it takes the sign of `a`. */
  function GoRem(a: int, b: int): (r: int)
    requires b != 0
    ensures a >= 0 && b > 0 ==> r == a % b
    ensures -(if b < 0 then -b else b) < r < (if b < 0 then -b else b)
    ensures a >= 0 ==> r >= 0
    ensures a <= 0 ==> r <= 0
    ensures (a - r) % (if b < 0 then -b else b) == 0
  {
    var m := if b < 0 then -b else b;
    RemainderCongruent(a, m);
    if a >= 0 then a % m else -((-a) % m)
  }

  /** Both truncated remainders differ from the dividend by a multiple of the divisor. */
  lemma RemainderCongruent(a: int, m: int)
    requires m > 0
    ensures (a - a % m) % m == 0
    ensures (a + (-a) % m) % m == 0
  {
    var q, q' := a / m, (-a) / m;
    assert a - a % m == q * m;
    ModUnique(a - a % m, m, q, 0);
    assert -a == q' * m + (-a) % m;
    assert a + (-a) % m == (-q') * m;
    ModUnique(a + (-a) % m, m, -q', 0);
  }

  lemma MulAtLeast(d: nat, m: nat)
    ensures d >= 1 ==> d * m >= m
  {
    if d >= 1 {
      assert d * m == m + (d - 1) * m;
    }
  }

  lemma MulBound(d: int, m: int)
    requires m > 0 && -m < d * m < m
    ensures d == 0
  {
    MulAtLeast(if d < 0 then -d else d, m);
    assert (if d < 0 then -d else d) * m == if d < 0 then -(d * m) else d * m;
  }

  /** Euclidean division is unique: a quotient and a remainder in range determine `x % m`. */
  lemma ModUnique(x: int, m: int, q: int, r: int)
    requires m > 0 && x == q * m + r && 0 <= r < m
    ensures x % m == r
  {
    var q', r' := x / m, x % m;
    assert x == q' * m + r';
    assert (q' - q) * m == r - r';
    MulBound(q' - q, m);
  }

  lemma ModShift(a: nat, k: nat, m: int)
    requires m > 0
    ensures (a + k) % m == (a % m + k) % m
  {
    var q, r := a / m, a % m;
    var q2, r2 := (r + k) / m, (r + k) % m;
    assert r + k == q2 * m + r2;
    assert a + k == (q + q2) * m + r2;
    ModUnique(a + k, m, q + q2, r2);
  }
}
