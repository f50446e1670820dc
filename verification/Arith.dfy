// Multiplication and division facts the solver does not find by itself.
module Arith {
  function Min(a: int, b: int): int { if a < b then a else b }

  lemma MulNat(x: nat, y: nat)
    ensures x * y >= 0
  {}

  lemma MulLe(a: nat, b: nat, c: nat)
    requires a <= b
    ensures a * c <= b * c && c * a <= c * b
  {
    MulNat(b - a, c);
    assert (b - a) * c == b * c - a * c;
  }

  lemma DivMod(x: int, d: int)
    requires d > 0
    ensures x == d * (x / d) + x % d && 0 <= x % d < d
  {}

  lemma DivUnique(x: int, d: int, q: int, r: int)
    requires d > 0 && x == d * q + r && 0 <= r < d
    ensures x / d == q && x % d == r
  {
    DivMod(x, d);
    var k, s := x / d, x % d;
    assert d * (k - q) == r - s;
    if k > q { MulLe(1, k - q, d); } else if k < q { MulLe(1, q - k, d); }
  }

  lemma DivLe(x: nat, d: nat)
    requires d > 0
    ensures 0 <= x / d <= x
  {
    DivMod(x, d);
    MulLe(1, d, x / d);
  }
}
