// On 32-bit code the interpreter's 64-bit registers always hold sign-extended words, and
// each of its steps is a step of the 32-bit reference machine.
module Narrowing {
  import opened Words
  import opened Bits
  import opened R4300
  import opened Reference32
  import opened Arith
  import Rdram

  // The interpreter's state is d with every word sign-extended and guest byte a at host
  // byte a ^ 3.
  ghost predicate Sim(c: Cpu, d: Cpu32) {
    && RegSim(c.regs, d.regs)
    && c.hi == Sx(d.hi) && c.lo == Sx(d.lo)
    && MemSim(c.mem, d.mem)
  }

  ghost predicate RegSim(r: Regs, q: Regs32) { forall i: Reg :: r[i] == Sx(q[i]) }

  ghost predicate MemSim(raw: seq<byte>, m: seq<byte>) {
    |raw| == |m| && |m| % 4 == 0 && forall a: nat :: Rdram.Get(m, a) == Rdram.Guest(raw, a)
  }

  lemma AluSim(op: AluOp, a: u32, b: u32)
    requires !op.DAdd? && !op.DSub?
    ensures ExecAlu(op, Sx(a), Sx(b)) == Sx(RefAlu(op, a, b))
  {
    SxLow(a); SxLow(b);
    hide Bitwise, Pow2, Logic64, RefLogic;
    if op.Logical? { LogicSim(op.logic, a, b); }
  }

  lemma LogicSim(op: Logic, a: u32, b: u32)
    ensures Logic64(op, Sx(a), Sx(b)) == Sx(RefLogic(op, a, b))
  {
    Pow2Values();
    hide Bitwise, Pow2;
    var s, t := a >= 0x8000_0000, b >= 0x8000_0000;
    Extend(op, a, s, b, t, 32, 64);
    TopDigit(op, a, b, 32);
    assert Sx(a) == Fill(a, s, 32, 64) && Sx(b) == Fill(b, t, 32, 64);
  }

  lemma ImmSim(op: ImmOp, a: u32, imm: u16)
    requires !op.DAddI? && (op.LogicalI? ==> !op.logic.Nor?)
    ensures ExecImm(op, Sx(a), imm) == Sx(RefImm(op, a, imm))
  {
    var b := Wrap32(Signed16(imm));
    ImmediateExtends(imm);
    SxLow(a);
    hide Bitwise, Pow2, Logic64, RefLogic, Sx, Signed16, Signed64;
    match op
    case AddI => AluSim(Addu, a, b);
    case AddIu => AluSim(Addu, a, b);
    case SltI => AluSim(Slt, a, b);
    case SltuI => AluSim(Sltu, a, b);
    case LogicalI(l) => LogicSim(l, a, imm);
    case Lui =>
  }

  lemma ImmediateExtends(imm: u16)
    ensures var b := Wrap32(Signed16(imm)); Sx(b) == Wrap64(Signed16(imm)) && Signed64(Sx(b)) == Signed16(imm)
    ensures Sx(imm) == imm && Sx(0) == 0 && Sx(1) == 1 && Wrap32(imm * 0x1_0000) == imm * 0x1_0000
  {}

  lemma HoldsSim(cond: Cond, a: u32, b: u32)
    ensures Holds(cond, Sx(a), Sx(b)) == RefHolds(cond, a, b)
  {
    SxLow(a); SxLow(b);
  }

  lemma ShiftSim(op: ShiftOp, w: u32, s: nat)
    requires (op.Sll? || op.Srl? || op.Sra?) && s < 32
    ensures ExecShift(op, Sx(w), s) == Sx(RefShift(op, w, s))
  {
    SxLow(w);
    assert s % 32 == s;
    hide Sx, Low, Pow2;
    if op.Sra? && w >= 0x8000_0000 { SraNegative(w, s); }
  }

  lemma SraNegative(w: u32, s: nat)
    requires s < 32
    ensures Wrap32((w - TWO32) / Pow2(s)) == Wrap32(TWO32 - Pow2(32 - s) + w / Pow2(s))
  {
    Pow2Values();
    Pow2Sum(s, 32 - s);
    assert s + (32 - s) == 32;
    hide Pow2;
    DivideShifted(w, Pow2(s), Pow2(32 - s));
    WrapOnce(w / Pow2(s) - Pow2(32 - s));
  }

  lemma WrapOnce(x: int)
    ensures Wrap32(x) == Wrap32(x + TWO32)
  {}

  lemma DivideShifted(x: int, d: int, q: int)
    requires d > 0
    ensures (x - d * q) / d == x / d - q
  {
    DivMod(x, d);
    DivUnique(x - d * q, d, x / d - q, x % d);
  }

  lemma {:induction false} Pow2Sum(j: nat, k: nat)
    ensures Pow2(j + k) == Pow2(j) * Pow2(k)
    decreases k
  {
    if k > 0 {
      Pow2Sum(j, k - 1);
      assert Pow2(j) * (2 * Pow2(k - 1)) == 2 * (Pow2(j) * Pow2(k - 1));
    }
  }

  lemma MulDivSim(op: MulOp, a: u32, b: u32, lo: u32, hi: u32) returns (lo': u32, hi': u32)
    requires !(op.Div? && a == 0x8000_0000 && b == 0xFFFF_FFFF)
    ensures ExecMulDiv(op, Sx(a), Sx(b), Sx(lo), Sx(hi)) == (Sx(lo'), Sx(hi'))
    ensures RefMulDiv(op, a, b, lo', hi')
    ensures b == 0 && (op.Div? || op.Divu?) ==> lo' == lo && hi' == hi
  {
    SxLow(a); SxLow(b);
    hide Sx, Low, Signed32, Signed64, Wrap32, Wrap64, Quotient, Remainder, Divides;
    lo', hi' := lo, hi;
    if op.Mult? {
      lo', hi' := Product(Signed32(a) * Signed32(b));
    } else if op.Multu? {
      ProductBound(a, b);
      lo', hi' := Product(a * b);
    } else if b != 0 {
      if op.Div? { lo', hi' := DivSim(a, b); } else { lo', hi' := DivuSim(a, b); }
    }
  }

  lemma DivSim(a: u32, b: u32) returns (q: u32, r: u32)
    requires b != 0 && !(a == 0x8000_0000 && b == 0xFFFF_FFFF)
    ensures q == Wrap32(Quotient(Signed32(a), Signed32(b))) && r == Wrap32(Remainder(Signed32(a), Signed32(b)))
    ensures Divides(Signed32(a), Signed32(b), Signed32(q), Signed32(r))
  {
    var x, y := Signed32(a), Signed32(b);
    QuotientDivides(x, y);
    hide Quotient, Remainder, Divides;
    q, r := Wrap32(Quotient(x, y)), Wrap32(Remainder(x, y));
    assert Signed32(q) == Quotient(x, y) && Signed32(r) == Remainder(x, y);
  }

  lemma DivuSim(a: u32, b: u32) returns (q: u32, r: u32)
    requires b != 0
    ensures q == Wrap32(a / b) && r == Wrap32(a % b) && a == q * b + r && r < b
  {
    DivMod(a, b);
    DivLe(a, b);
    q, r := a / b, a % b;
  }

  // The two words of a 64-bit product.
  lemma Product(p: int) returns (lo: u32, hi: u32)
    ensures lo == Low(Wrap64(p)) && hi == Low(Wrap64(p) / TWO32)
    ensures hi * TWO32 + lo == p % TWO64
  {
    lo, hi := Low(Wrap64(p)), Low(Wrap64(p) / TWO32);
  }

  lemma ProductBound(a: u32, b: u32)
    ensures 0 <= a * b < TWO64
  {
    MulNat(a, b);
    MulLe(a, TWO32 - 1, b);
    MulLe(b, TWO32 - 1, TWO32 - 1);
  }

  // Only the most negative word divided by -1 has a quotient that does not fit.
  lemma QuotientDivides(a: int, b: int)
    requires b != 0 && -0x8000_0000 <= a < 0x8000_0000 && -0x8000_0000 <= b < 0x8000_0000
    requires !(a == -0x8000_0000 && b == -1)
    ensures Divides(a, b, Quotient(a, b), Remainder(a, b))
    ensures -0x8000_0000 <= Quotient(a, b) < 0x8000_0000
    ensures -0x8000_0000 < Remainder(a, b) < 0x8000_0000
  {
    var x, y := Abs(a), Abs(b);
    DivMod(x, y);
    DivLe(x, y);
    SignedProduct(a, b, x / y);
    if y >= 2 { MulLe(2, y, x / y); }
  }

  lemma SignedProduct(a: int, b: int, q: int)
    ensures (if (a < 0) == (b < 0) then q else -q) * b == if a < 0 then -(Abs(b) * q) else Abs(b) * q
  {}

  // --- Memory -------------------------------------------------------------------------

  lemma LoadSim(op: LoadOp, raw: seq<byte>, m: seq<byte>, a: nat)
    requires !op.Lwu? && MemSim(raw, m) && Natural(op.Lw?, op.Lh? || op.Lhu?, a)
    ensures ExecLoad(op, raw, a) == Sx(RefLoad(op, m, a))
  {
    assert Rdram.Get(m, a) == Rdram.Guest(raw, a);
    if op.Lw? {
      WordSim(raw, m, a);
    } else if op.Lh? || op.Lhu? {
      HalfSim(raw, m, a);
      hide LoadH, ReadHalf;
      ExtendSim(0, ReadHalf(m, a));
    } else {
      ExtendSim(Rdram.Get(m, a), 0);
    }
  }

  lemma ExtendSim(b: byte, h: u16)
    ensures Sx16(h) == Sx(Wrap32(Signed16(h))) && Sx(h) == h && Sx(b) == b
    ensures Sx8(b) == Sx(if b < 0x80 then b else b + 0xFFFF_FF00)
  {}

  // The halfword at an even address occupies the swizzled places of its two bytes.
  lemma HalfPlace(a: nat)
    requires a % 2 == 0
    ensures Flip2(a) == Rdram.Swizzle(a + 1) && Flip2(a) + 1 == Rdram.Swizzle(a)
  {}

  lemma HalfSim(raw: seq<byte>, m: seq<byte>, a: nat)
    requires MemSim(raw, m) && a % 2 == 0
    ensures LoadH(raw, a) == ReadHalf(m, a)
    ensures Flip2(a) == Rdram.Swizzle(a + 1) && Flip2(a) + 1 == Rdram.Swizzle(a)
  {
    HalfPlace(a);
    hide Flip2, Rdram.Swizzle, Rdram.Get;
    assert Rdram.Get(m, a) == Rdram.Guest(raw, a);
    assert Rdram.Get(m, a + 1) == Rdram.Guest(raw, a + 1);
  }

  lemma WordPlace(a: nat)
    requires a % 4 == 0
    ensures Flip2(a) == a + 2 && Flip2(a + 2) == a
  {}

  lemma WordSim(raw: seq<byte>, m: seq<byte>, a: nat)
    requires MemSim(raw, m) && a % 4 == 0
    ensures Rdram.LoadNative(raw, a) == ReadWord(m, a)
  {
    WordPlace(a);
    HalvesAligned(a);
    hide Flip2, Rdram.Get, MemSim, ReadHalf;
    HalfSim(raw, m, a);
    HalfSim(raw, m, a + 2);
    assert LoadH(raw, a) == Rdram.Get(raw, a + 2) + 0x100 * Rdram.Get(raw, a + 2 + 1);
  }

  lemma PutSim(raw: seq<byte>, m: seq<byte>, a: nat, b: byte)
    requires MemSim(raw, m)
    ensures MemSim(Rdram.Put(raw, Rdram.Swizzle(a), b), Rdram.Put(m, a, b))
  {
    Rdram.SwizzleInvolution(a);
    forall x: nat
      ensures Rdram.Get(Rdram.Put(m, a, b), x) == Rdram.Guest(Rdram.Put(raw, Rdram.Swizzle(a), b), x)
    {
      Rdram.SwizzleInvolution(x);
      assert Rdram.Get(m, x) == Rdram.Guest(raw, x);
    }
  }

  lemma StoreHalfSim(raw: seq<byte>, m: seq<byte>, a: nat, h: u16)
    requires MemSim(raw, m) && a % 2 == 0
    ensures MemSim(StoreH(raw, a, h), WriteHalf(m, a, h))
  {
    HalfSim(raw, m, a);
    PutSim(raw, m, a + 1, h % 0x100);
    var raw1, m1 := Rdram.Put(raw, Flip2(a), h % 0x100), Rdram.Put(m, a + 1, h % 0x100);
    PutSim(raw1, m1, a, h / 0x100);
    assert Rdram.Put(m1, a, h / 0x100) == WriteHalf(m, a, h);
  }

  lemma StoreWordSim(raw: seq<byte>, m: seq<byte>, a: nat, w: u32)
    requires MemSim(raw, m) && a % 4 == 0
    ensures MemSim(Rdram.StoreNative(raw, a, w), WriteWord(m, a, w))
  {
    hide *;
    HalvesAligned(a);
    StoreHalfSim(raw, m, a + 2, w % 0x1_0000);
    var raw1, m1 := StoreH(raw, a + 2, w % 0x1_0000), WriteHalf(m, a + 2, w % 0x1_0000);
    StoreHalfSim(raw1, m1, a, w / 0x1_0000);
    TwoHalves(raw, a, w);
    TwoHalvesWritten(m, a, w);
  }

  lemma HalvesAligned(a: nat)
    requires a % 4 == 0
    ensures a % 2 == 0 && (a + 2) % 2 == 0
  {
    var k := a / 4;
    assert a == 2 * (2 * k) && a + 2 == 2 * (2 * k + 1);
  }

  lemma TwoHalves(raw: seq<byte>, a: nat, w: u32)
    requires a % 4 == 0
    ensures StoreH(StoreH(raw, a + 2, w % 0x1_0000), a, w / 0x1_0000) == Rdram.StoreNative(raw, a, w)
  {
    WordDigits(w);
    WordPlace(a);
    hide Rdram.Put, Flip2;
  }

  lemma TwoHalvesWritten(m: seq<byte>, a: nat, w: u32)
    ensures WriteHalf(WriteHalf(m, a + 2, w % 0x1_0000), a, w / 0x1_0000) == WriteWord(m, a, w)
  {
    WordDigits(w);
    PutsCommute(m, a, w / 0x100_0000, w / 0x1_0000 % 0x100, w / 0x100 % 0x100, w % 0x100);
    hide Rdram.Put;
  }

  lemma WordDigits(w: u32)
    ensures w % 0x1_0000 % 0x100 == w % 0x100 && w % 0x1_0000 / 0x100 == w / 0x100 % 0x100
    ensures w / 0x1_0000 / 0x100 == w / 0x100_0000
  {}

  lemma PutsCommute(m: seq<byte>, a: nat, b0: byte, b1: byte, b2: byte, b3: byte)
    ensures Rdram.Put(Rdram.Put(Rdram.Put(Rdram.Put(m, a + 2, b2), a + 3, b3), a, b0), a + 1, b1) ==
            Rdram.Put(Rdram.Put(Rdram.Put(Rdram.Put(m, a, b0), a + 1, b1), a + 2, b2), a + 3, b3)
  {}

  lemma StoreSim(op: StoreOp, raw: seq<byte>, m: seq<byte>, a: nat, v: u32)
    requires MemSim(raw, m) && Natural(op.Sw?, op.Sh?, a)
    ensures MemSim(ExecStore(op, raw, a, Sx(v)), RefStore(op, m, a, v))
  {
    SxLow(v);
    assert Sx(v) % 0x100 == v % 0x100 && Sx(v) % 0x1_0000 == v % 0x1_0000;
    match op
    case Sb => PutSim(raw, m, a, v % 0x100);
    case Sh => StoreHalfSim(raw, m, a, v % 0x1_0000);
    case Sw => StoreWordSim(raw, m, a, v);
  }

  // --- One instruction -----------------------------------------------------------------

  lemma SetSim(c: Cpu, d: Cpu32, i: Reg, v: u32)
    requires Sim(c, d)
    ensures Sim(c.Set(i, Sx(v)), d.Set(i, v))
  {}

  lemma AddressSim(c: Cpu, d: Cpu32, base: Reg, imm: u16)
    requires Sim(c, d)
    ensures c.Address(base, imm) == d.Address(base, imm)
  {
    var r, s := d.R(base), Signed16(imm);
    assert c.R(base) == Sx(r);
    WrapAgrees(r, s);
  }

  lemma WrapAgrees(r: u32, s: int)
    requires -0x8000 <= s < 0x8000
    ensures Low(Wrap64(Sx(r) + s)) == Wrap32(r + s)
    ensures forall x: u64 :: x % MEM_SIZE == Low(x) % MEM_SIZE
  {}

  lemma SxInjective(v: u32, w: u32)
    ensures Sx(v) == Sx(w) <==> v == w
    ensures Sx(0) == 0 && Sx(1) == 1 && Sx(v) % 32 == v % 32
  {}

  // One non-control instruction of 32-bit code is a step of the reference machine.
  lemma EffectSim(c: Cpu, d: Cpu32, i: Insn) returns (d': Cpu32)
    requires Sim(c, d) && Ordinary(i) && Narrow(i) && Defined(d, i)
    ensures RefEffect(d, i, d') && Sim(Effect(c, i), d')
  {
    hide ExecShift, RefShift, ExecAlu, RefAlu, ExecImm, RefImm, ExecMulDiv, RefMulDiv, ExecLoad, RefLoad;
    hide ExecStore, RefStore, MemSim, Representable;
    d' := d;
    match i
    case Shift(op, rd, rt, sa) =>
      ShiftSim(op, d.R(rt), sa);
      d' := Written(c, d, rd, RefShift(op, d.R(rt), sa));
    case ShiftV(op, rd, rt, rs) =>
      SxInjective(d.R(rs), 0);
      ShiftVSim(op, d.R(rt), Sx(d.R(rs)));
      d' := Written(c, d, rd, RefShift(op, d.R(rt), d.R(rs) % 32));
    case Alu(op, rd, rs, rt) =>
      AluSim(op, d.R(rs), d.R(rt));
      d' := Written(c, d, rd, RefAlu(op, d.R(rs), d.R(rt)));
    case Imm(op, rt, rs, imm) =>
      ImmSim(op, d.R(rs), imm);
      d' := Written(c, d, rt, RefImm(op, d.R(rs), imm));
    case MoveFromHi(rd) => d' := Written(c, d, rd, d.hi);
    case MoveFromLo(rd) => d' := Written(c, d, rd, d.lo);
    case MoveToHi(rs) => d' := d.(hi := d.R(rs));
    case MoveToLo(rs) => d' := d.(lo := d.R(rs));
    case MulDiv(op, rs, rt) =>
      var lo, hi := MulDivSim(op, d.R(rs), d.R(rt), d.lo, d.hi);
      d' := d.(lo := lo, hi := hi);
    case CMove(ifZero, rd, rs, rt) =>
      SxInjective(d.R(rt), 0);
      if (d.R(rt) == 0) == ifZero { d' := Written(c, d, rd, d.R(rs)); }
    case Load(op, rt, rs, imm) =>
      AddressSim(c, d, rs, imm);
      LoadSim(op, c.mem, d.mem, d.Address(rs, imm));
      d' := Written(c, d, rt, RefLoad(op, d.mem, d.Address(rs, imm)));
    case Store(op, rt, rs, imm) =>
      d' := Stored(c, d, op, rt, rs, imm);
    case StoreCond(rt, rs, imm) =>
      d' := Stored(c, d, Sw, rt, rs, imm);
      SxInjective(0, 0);
      d' := Written(c.(mem := ExecStore(Sw, c.mem, c.Address(rs, imm), c.R(rt))), d', rt, 1);
    case Trap(_, _, _) =>
    case Nop =>
  }

  lemma Stored(c: Cpu, d: Cpu32, op: StoreOp, rt: Reg, rs: Reg, imm: u16) returns (d': Cpu32)
    requires Sim(c, d) && Natural(op.Sw?, op.Sh?, d.Address(rs, imm))
    ensures d' == d.(mem := RefStore(op, d.mem, d.Address(rs, imm), d.R(rt)))
    ensures Sim(c.(mem := ExecStore(op, c.mem, c.Address(rs, imm), c.R(rt))), d')
  {
    AddressSim(c, d, rs, imm);
    StoreSim(op, c.mem, d.mem, d.Address(rs, imm), d.R(rt));
    d' := d.(mem := RefStore(op, d.mem, d.Address(rs, imm), d.R(rt)));
  }

  lemma Written(c: Cpu, d: Cpu32, i: Reg, v: u32) returns (d': Cpu32)
    requires Sim(c, d)
    ensures d' == d.Set(i, v) && Sim(c.Set(i, Sx(v)), d')
  {
    d' := d.Set(i, v);
    SetSim(c, d, i, v);
  }

  lemma ShiftVSim(op: ShiftOp, w: u32, v: u64)
    requires op.Sll? || op.Srl? || op.Sra?
    ensures ExecShift(op, Sx(w), v % 64) == Sx(RefShift(op, w, v % 32))
  {
    hide *;
    ShiftAmount(op, Sx(w), v);
    ShiftSim(op, w, v % 32);
  }

  // A 32-bit shift uses five bits of its amount.
  lemma ShiftAmount(op: ShiftOp, x: u64, v: u64)
    requires op.Sll? || op.Srl? || op.Sra?
    ensures ExecShift(op, x, v % 64) == ExecShift(op, x, v % 32)
  {
    assert v % 64 % 32 == v % 32 == v % 32 % 32;
    hide Sx, Low, Pow2;
  }
}
