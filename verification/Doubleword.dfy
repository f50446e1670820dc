// The 64-bit instructions, which 32-bit code has no use for: what they mean on whole registers.
module Doubleword {
  import opened Options
  import opened Words
  import opened Bits
  import opened Arith
  import opened Rdram
  import opened R4300
  import opened R4300Isa
  import I = Interpreter

  // --- Addition and subtraction -------------------------------------------------------------------

  lemma WrapNear(x: int)
    requires -TWO64 <= x < 2 * TWO64
    ensures Wrap64(x) == if x < 0 then x + TWO64 else if x < TWO64 then x else x - TWO64
  {}

  // A register holds r for the exact result x: x itself, or what differs from it by 2^64.
  predicate Holds64(r: u64, x: int) {
    var v := Signed64(r);
    v == x || v == x - 0x1_0000_0000_0000_0000 || v == x + 0x1_0000_0000_0000_0000
  }

  // Wrapping what the unsigned words add up to wraps the signed sum.
  lemma WrappedSum(x: int, y: int)
    requires -TWO64 <= x < 2 * TWO64 && -TWO64 <= y < TWO64
    requires x == y || x == y - TWO64 || x == y + TWO64 || x == y + 2 * TWO64
    ensures Holds64(Wrap64(x), y)
  {
    WrapNear(x);
    hide Wrap64;
  }

  lemma SignedIs(a: u64)
    ensures Signed64(a) == a || Signed64(a) == a - TWO64
    ensures -0x8000_0000_0000_0000 <= Signed64(a) < 0x8000_0000_0000_0000
  {}

  lemma SumsAre(a: u64, b: u64, imm: u16)
    ensures ExecAlu(DAdd, a, b) == Wrap64(a + b) && ExecAlu(DSub, a, b) == Wrap64(a - b)
    ensures ExecImm(DAddI, a, imm) == Wrap64(a + Signed16(imm))
  {
    hide Wrap64, Logic64, Sx, Wrap32;
  }

  // The exact sum or difference modulo 2^64.
  lemma DoublewordSums(a: u64, b: u64, imm: u16)
    ensures Holds64(ExecAlu(DAdd, a, b), Signed64(a) + Signed64(b))
    ensures Holds64(ExecAlu(DSub, a, b), Signed64(a) - Signed64(b))
    ensures Holds64(ExecImm(DAddI, a, imm), Signed64(a) + Signed16(imm))
  {
    hide ExecAlu, ExecImm, Wrap64, Signed64, Holds64;
    SumsAre(a, b, imm);
    SignedIs(a);
    SignedIs(b);
    WrappedSum(a + b, Signed64(a) + Signed64(b));
    WrappedSum(a - b, Signed64(a) - Signed64(b));
    WrappedSum(a + Signed16(imm), Signed64(a) + Signed16(imm));
  }

  // Subtraction undoes addition.
  lemma SumUndone(a: u64, b: u64)
    ensures ExecAlu(DSub, ExecAlu(DAdd, a, b), b) == a
  {
    hide ExecAlu, ExecImm, Wrap64;
    SumsAre(a, b, 0);
    SumsAre(Wrap64(a + b), b, 0);
    WrapNear(a + b);
    WrapNear(Wrap64(a + b) - b);
  }

  // --- Shifts ---------------------------------------------------------------------------------------

  lemma {:induction false} Pow2Split(j: nat, k: nat)
    ensures Pow2(j + k) == Pow2(j) * Pow2(k)
    decreases k
  {
    if k > 0 {
      Pow2Split(j, k - 1);
      assert j + k - 1 == j + (k - 1);
    }
  }

  // A left shift moves the low 64 - s bits up and clears the rest.
  lemma ShiftLeft(v: u64, s: u6)
    ensures ExecShift(DSll, v, s) == v % Pow2(64 - s) * Pow2(s)
  {
    hide Pow2, Wrap64;
    var low, up := Pow2(64 - s), Pow2(s);
    Pow2Split(64 - s, s);
    Pow2Values();
    DivMod(v, low);
    Carry(v, v / low, v % low, low, up);
  }

  lemma Carry(v: nat, q: nat, m: nat, low: nat, up: nat)
    requires v == low * q + m && m < low && up > 0 && low * up == TWO64
    ensures Wrap64(v * up) == m * up
  {
    hide *;
    Distribute(q, m, low, up);
    MulLe(m + 1, low, up);
    DivUnique(v * up, TWO64, q, m * up);
    WrapIs(v * up);
  }

  lemma Distribute(q: nat, m: nat, low: nat, up: nat)
    ensures (low * q + m) * up == low * up * q + m * up && (m + 1) * up == m * up + up && m * up >= 0
  {}

  lemma WrapIs(x: int)
    ensures Wrap64(x) == x % TWO64
  {}

  // A logical right shift divides the unsigned value by 2^s, an arithmetic one the signed value,
  // both rounding down.
  lemma ShiftRight(v: u64, s: u6)
    ensures var r := ExecShift(DSrl, v, s); r * Pow2(s) <= v < (r + 1) * Pow2(s)
    ensures var r := Signed64(ExecShift(DSra, v, s)); r * Pow2(s) <= Signed64(v) < (r + 1) * Pow2(s)
  {
    hide Pow2, Wrap64, Signed64;
    var p := Pow2(s);
    RoundedDown(v, p);
    DivLe(v, p);
    WrapNear(v / p);
    SignedBounds(v);
    RoundedDown(Signed64(v), p);
    Narrower(Signed64(v), p);
  }

  lemma SignedBounds(v: u64)
    ensures -0x8000_0000_0000_0000 <= Signed64(v) < 0x8000_0000_0000_0000
  {}

  lemma RoundedDown(x: int, p: nat)
    requires p > 0
    ensures x / p * p <= x < (x / p + 1) * p
  {
    DivMod(x, p);
    var q, r := x / p, x % p;
    assert (q + 1) * p == p * q + p;
  }

  lemma Narrower(x: int, p: nat)
    requires p > 0 && -0x8000_0000_0000_0000 <= x < 0x8000_0000_0000_0000
    ensures Signed64(Wrap64(x / p)) == x / p
  {
    DivMod(x, p);
    QuotientFits(x, p, x / p, x % p);
    SignedWrap(x / p);
  }

  lemma QuotientFits(x: int, p: nat, q: int, r: int)
    requires p > 0 && -0x8000_0000_0000_0000 <= x < 0x8000_0000_0000_0000 && x == p * q + r && 0 <= r < p
    ensures -0x8000_0000_0000_0000 <= q < 0x8000_0000_0000_0000
  {
    if q >= 0 { MulLe(1, p, q); } else { MulLe(1, p, -q - 1); Negated(p, q); }
  }

  lemma Negated(p: int, q: int)
    ensures p * (-q - 1) == -(p * q) - p
  {}

  lemma SignedWrap(q: int)
    requires -0x8000_0000_0000_0000 <= q < 0x8000_0000_0000_0000
    ensures Signed64(Wrap64(q)) == q
  {
    WrapNear(q);
    hide Wrap64;
  }

  // --- The unsigned word load -----------------------------------------------------------------------

  // lwu reads what big-endian memory holds and clears the upper half; lw extends its sign.
  lemma UnsignedWord(m: seq<byte>, a: nat)
    requires a % 4 == 0
    ensures ExecLoad(Lwu, m, a) == LoadBe32(m, a) && ExecLoad(Lwu, m, a) < 0x1_0000_0000
    ensures Signed64(ExecLoad(Lw, m, a)) == Signed32(LoadBe32(m, a))
  {
    NativeIsBigEndian(m, a, 0);
    SxLow(LoadNative(m, a));
  }

  // --- The coprocessor branch -------------------------------------------------------------------------

  // bc1t and bc1f take their branch on the flag being set or clear, and the likely forms annul
  // their delay slot when they do not; nothing else changes.
  lemma FlagBranch(native: u32 -> Option<Cpu -> Cpu>, extension: Extension, s: I.Flat<Cpu, u32>,
                   onTrue: bool, likely: bool, imm: u16)
    requires Decode(Fetch(s.cpu.mem, s.pc)) == BranchFp(onTrue, likely, imm)
    ensures var next := Wrap32(s.npc + 4);
            I.FlatStep(Isa(native, extension), s) ==
            Some(if s.cpu.fpCond == onTrue then I.Flat(s.cpu, s.npc, BranchTarget(s.pc, imm))
                 else if likely then I.Flat(s.cpu, next, Wrap32(next + 4))
                 else I.Flat(s.cpu, s.npc, next))
  {
    hide Decode, Fetch, BranchTarget;
  }
}
