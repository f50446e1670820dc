// Bitwise operations on natural numbers below 2^w, from the most significant digit down.
module Bits {
  function Pow2(k: nat): (r: nat)
    ensures r > 0
    decreases k
  {
    if k == 0 then 1 else 2 * Pow2(k - 1)
  }

  datatype Logic = And | Or | Xor | Nor

  predicate Digit(op: Logic, i: bool, j: bool) {
    match op
    case And => i && j
    case Or => i || j
    case Xor => i != j
    case Nor => !i && !j
  }

  // The operation on every one of w digits.
  function Bitwise(op: Logic, a: nat, b: nat, w: nat): (r: nat)
    requires a < Pow2(w) && b < Pow2(w)
    ensures r < Pow2(w)
    decreases w
  {
    if w == 0 then 0
    else
      var p := Pow2(w - 1);
      var rest := Bitwise(op, if a >= p then a - p else a, if b >= p then b - p else b, w - 1);
      if Digit(op, a >= p, b >= p) then p + rest else rest
  }

  lemma Pow2Values()
    ensures Pow2(31) == 0x8000_0000 && Pow2(32) == 0x1_0000_0000
    ensures Pow2(64) == 0x1_0000_0000_0000_0000
  {
    Pow2Up(0); Pow2Up(31);
    hide Pow2;
    Pow2Times16(0); Pow2Times16(16); Pow2Times16(32); Pow2Times16(48);
  }

  lemma Pow2Up(k: nat)
    ensures Pow2(0) == 1 && Pow2(k + 1) == 2 * Pow2(k)
  {}

  lemma Pow2Times16(k: nat)
    ensures Pow2(k + 16) == 0x1_0000 * Pow2(k)
  {
    assert Pow2(k + 4) == 16 * Pow2(k) by { assert Pow2(k + 2) == 4 * Pow2(k); }
    assert Pow2(k + 8) == 256 * Pow2(k) by { assert Pow2(k + 6) == 4 * Pow2(k + 4); }
    assert Pow2(k + 12) == 16 * Pow2(k + 8) by { assert Pow2(k + 10) == 4 * Pow2(k + 8); }
    assert Pow2(k + 16) == 16 * Pow2(k + 12) by { assert Pow2(k + 14) == 4 * Pow2(k + 12); }
  }

  lemma {:induction false} Pow2Monotone(j: nat, k: nat)
    requires j <= k
    ensures Pow2(j) <= Pow2(k)
    decreases k
  {
    if j < k { Pow2Monotone(j, k - 1); }
  }

  lemma TopDigit(op: Logic, a: nat, b: nat, w: nat)
    requires 0 < w && a < Pow2(w) && b < Pow2(w)
    ensures Bitwise(op, a, b, w) >= Pow2(w - 1) <==> Digit(op, a >= Pow2(w - 1), b >= Pow2(w - 1))
  {}

  // The w-digit number whose low n digits are those of a and whose others are all s.
  function Fill(a: nat, s: bool, n: nat, w: nat): (r: nat)
    requires n <= w && a < Pow2(n)
    ensures r < Pow2(w)
  {
    Pow2Monotone(n, w);
    if s then a + Pow2(w) - Pow2(n) else a
  }

  lemma FillTop(a: nat, s: bool, n: nat, w: nat)
    requires n < w && a < Pow2(n)
    ensures (Fill(a, s, n, w) >= Pow2(w - 1)) == s
    ensures Fill(a, s, n, w) == Fill(a, s, n, w - 1) + if s then Pow2(w - 1) else 0
  {
    Pow2Monotone(n, w - 1);
  }

  // Filled operands combine to the filled combination of their low digits.
  lemma {:induction false} Extend(op: Logic, a: nat, s: bool, b: nat, t: bool, n: nat, w: nat)
    requires n <= w && a < Pow2(n) && b < Pow2(n)
    ensures Bitwise(op, Fill(a, s, n, w), Fill(b, t, n, w), w) ==
            Fill(Bitwise(op, a, b, n), Digit(op, s, t), n, w)
    decreases w
  {
    if n < w {
      FillTop(a, s, n, w);
      FillTop(b, t, n, w);
      FillTop(Bitwise(op, a, b, n), Digit(op, s, t), n, w);
      Extend(op, a, s, b, t, n, w - 1);
    }
  }
}
