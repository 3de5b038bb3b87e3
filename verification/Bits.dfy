/**
 * Shifts and bit-wise operators on unbounded integers in two's complement, as
 * Python evaluates them.
 */
module Bits {
  function Pow2(n: nat): (p: nat)
    ensures p > 0
  {
    if n == 0 then 1 else 2 * Pow2(n - 1)
  }

  function Shl(x: int, n: nat): int {
    x * Pow2(n)
  }

  /** The arithmetic right shift rounds towards minus infinity. */
  function Shr(x: int, n: nat): int {
    x / Pow2(n)
  }

  function Magnitude(x: int): nat {
    if x < 0 then -x else x
  }

  function Or(x: int, y: int): int
    decreases Magnitude(x) + Magnitude(y)
  {
    if x == 0 then y
    else if y == 0 then x
    else if x == -1 || y == -1 then -1
    else 2 * Or(x / 2, y / 2) + if x % 2 == 1 || y % 2 == 1 then 1 else 0
  }

  function And(x: int, y: int): int
    decreases Magnitude(x) + Magnitude(y)
  {
    if x == 0 || y == 0 then 0
    else if x == -1 then y
    else if y == -1 then x
    else 2 * And(x / 2, y / 2) + if x % 2 == 1 && y % 2 == 1 then 1 else 0
  }

  /** Or with a number that fits below the shift is addition. */
  lemma {:induction false} OrOfDisjoint(hi: int, n: nat, lo: int)
    requires 0 <= lo < Pow2(n)
    ensures Or(Shl(hi, n), lo) == Shl(hi, n) + lo
  {
    if n > 0 {
      var x := Shl(hi, n);
      assert x == 2 * Shl(hi, n - 1);
      OrOfDisjoint(hi, n - 1, lo / 2);
    }
  }

  lemma DivModHalf(x: int, p: int)
    requires p > 0
    ensures x % (2 * p) == 2 * ((x / 2) % p) + x % 2
  {
    var q, r := (x / 2) / p, (x / 2) % p;
    assert x == (2 * p) * q + (2 * r + x % 2);
    assert 0 <= 2 * r + x % 2 < 2 * p;
    RemainderIsUnique(x, 2 * p, q, 2 * r + x % 2);
  }

  lemma RemainderIsUnique(x: int, d: int, q: int, r: int)
    requires d > 0 && x == d * q + r && 0 <= r < d
    ensures x % d == r && x / d == q
  {
    var q', r' := x / d, x % d;
    assert x == d * q' + r';
    var k := q - q';
    assert d * k == d * q - d * q';
    assert d * k == r' - r;
    MultipleIsZero(d, k);
  }

  lemma MultipleIsZero(d: int, k: int)
    requires d > 0 && -d < d * k < d
    ensures k == 0
  {
  }

  /** One bit more of the mask. */
  lemma AndStep(x: int, p: int)
    requires x != 0 && x != -1 && p > 0 && And(x / 2, p - 1) == (x / 2) % p
    ensures And(x, 2 * p - 1) == x % (2 * p)
  {
    var mask := 2 * p - 1;
    assert mask / 2 == p - 1 && mask % 2 == 1;
    DivModHalf(x, p);
    assert And(x, mask) == 2 * And(x / 2, mask / 2) + x % 2;
  }

  lemma AndOfUnits(p: int)
    requires p > 0
    ensures And(0, p - 1) == 0 % p && And(-1, p - 1) == -1 % p
  {
    RemainderIsUnique(-1, p, -1, p - 1);
    RemainderIsUnique(0, p, 0, 0);
  }

  /** And with n one bits is the remainder. */
  lemma {:induction false} AndOfMask(x: int, n: nat)
    ensures And(x, Pow2(n) - 1) == x % Pow2(n)
    decreases n
  {
    if x == 0 || x == -1 {
      AndOfUnits(Pow2(n));
    } else if n > 0 {
      AndOfMask(x / 2, n - 1);
      AndStep(x, Pow2(n - 1));
    }
  }
}
