// The R4300i instruction set as librecomp's interpreter sees it: registers, guest
// memory, instruction decoding and the effect of one non-control instruction
// (mips_interp.cpp, exec_noncontrol).
module R4300 {
  import opened Options
  import opened Words
  import opened Rdram
  import opened Bits

  type Reg = x: int | 0 <= x < 32
  type u6 = x: int | 0 <= x < 0x40
  type u26 = x: int | 0 <= x < 0x400_0000
  type Regs = s: seq<u64> | |s| == 32 witness seq(32, _ => 0)

  // --- Guest memory accesses ------------------------------------------------------

  // Every access is confined to the one mapped block.
  const MEM_SIZE: int := 0x2000_0000

  // a ^ 2
  function Flip2(a: nat): nat { a - a % 4 + (a % 4 + 2) % 4 }

  function LoadH(m: seq<byte>, a: nat): u16 { Get(m, Flip2(a)) + 0x100 * Get(m, Flip2(a) + 1) }

  function StoreH(m: seq<byte>, a: nat, h: u16): seq<byte> {
    Put(Put(m, Flip2(a), h % 0x100), Flip2(a) + 1, h / 0x100)
  }

  // --- Processor state ------------------------------------------------------------

  datatype Cpu = Cpu(regs: Regs, hi: u64, lo: u64, fpr: Regs, fpCond: bool, mem: seq<byte>) {
    function R(i: Reg): u64 { regs[i] }

    // Register 0 is hard-wired: writes to it are dropped.
    function Set(i: Reg, v: u64): Cpu {
      if i == 0 then this else this.(regs := regs[i := v])
    }

    function Address(base: Reg, imm: u16): nat { Wrap64(R(base) + Signed16(imm)) % MEM_SIZE }
  }

  // --- Instructions ---------------------------------------------------------------

  datatype ShiftOp = Sll | Srl | Sra | DSll | DSrl | DSra
  datatype AluOp = Add | Addu | Sub | Subu | Logical(logic: Logic) | Slt | Sltu | DAdd | DSub
  datatype ImmOp = AddI | AddIu | SltI | SltuI | LogicalI(logic: Logic) | Lui | DAddI
  datatype MulOp = Mult | Multu | Div | Divu
  datatype LoadOp = Lb | Lh | Lw | Lbu | Lhu | Lwu
  datatype StoreOp = Sb | Sh | Sw
  datatype TrapOp = Tge | Tgeu | Tlt | Tltu | Teq | Tne
  datatype Cond = Ltz | Gez | Eq | Ne | Lez | Gtz

  datatype Insn =
    | Shift(sop: ShiftOp, rd: Reg, rt: Reg, sa: u6)
    | ShiftV(sop: ShiftOp, rd: Reg, rt: Reg, rs: Reg)
    | Alu(aop: AluOp, rd: Reg, rs: Reg, rt: Reg)
    | Imm(iop: ImmOp, rt: Reg, rs: Reg, imm: u16)
    | MoveFromHi(rd: Reg)
    | MoveFromLo(rd: Reg)
    | MoveToHi(rs: Reg)
    | MoveToLo(rs: Reg)
    | MulDiv(mop: MulOp, rs: Reg, rt: Reg)
    | CMove(ifZero: bool, rd: Reg, rs: Reg, rt: Reg)
    | Load(lop: LoadOp, rt: Reg, rs: Reg, imm: u16)
    | Store(stop: StoreOp, rt: Reg, rs: Reg, imm: u16)
    | StoreCond(rt: Reg, rs: Reg, imm: u16)
    | Trap(top: TrapOp, rs: Reg, rt: Reg)
    | Nop
    | Cop0
    | Extended
    | Jump(link: bool, index: u26)
    | JumpReg(link: bool, rs: Reg, rd: Reg)
    | Branch(cond: Cond, likely: bool, link: bool, rs: Reg, rt: Reg, imm: u16)
    | BranchFp(onTrue: bool, likely: bool, imm: u16)
    | Unimplemented
  {
    predicate Control() { Jump? || JumpReg? || Branch? || BranchFp? }
  }

  function Op(w: u32): u6 { w / 0x400_0000 }
  function Rs(w: u32): Reg { w / 0x20_0000 % 0x20 }
  function Rt(w: u32): Reg { w / 0x1_0000 % 0x20 }
  function Rd(w: u32): Reg { w / 0x800 % 0x20 }
  function Sa(w: u32): Reg { w / 0x40 % 0x20 }
  function Fn(w: u32): u6 { w % 0x40 }
  function Im(w: u32): u16 { w % 0x1_0000 }
  function Ix(w: u32): u26 { w % 0x400_0000 }

  function Decode(w: u32): Insn {
    var op := Op(w);
    if op == 0x00 then DecodeSpecial(Fn(w), Rs(w), Rt(w), Rd(w), Sa(w))
    else if op == 0x01 then DecodeRegimm(Rt(w), Rs(w), Im(w))
    else if op == 0x02 then Jump(false, Ix(w))
    else if op == 0x03 then Jump(true, Ix(w))
    else if op == 0x11 then
      if Rs(w) == 0x08 then BranchFp(Rt(w) % 2 == 1, Rt(w) / 2 % 2 == 1, Im(w)) else Extended
    else DecodeImmediate(op, Rs(w), Rt(w), Im(w))
  }

  function DecodeSpecial(fn: u6, rs: Reg, rt: Reg, rd: Reg, sa: Reg): Insn {
    if fn == 0x00 then Shift(Sll, rd, rt, sa)
    else if fn == 0x02 then Shift(Srl, rd, rt, sa)
    else if fn == 0x03 then Shift(Sra, rd, rt, sa)
    else if fn == 0x04 then ShiftV(Sll, rd, rt, rs)
    else if fn == 0x06 then ShiftV(Srl, rd, rt, rs)
    else if fn == 0x07 then ShiftV(Sra, rd, rt, rs)
    else if fn == 0x08 then JumpReg(false, rs, rd)
    else if fn == 0x09 then JumpReg(true, rs, rd)
    else if fn == 0x0A then CMove(true, rd, rs, rt)
    else if fn == 0x0B then CMove(false, rd, rs, rt)
    else if fn == 0x0F then Nop
    else if fn == 0x10 then MoveFromHi(rd)
    else if fn == 0x11 then MoveToHi(rs)
    else if fn == 0x12 then MoveFromLo(rd)
    else if fn == 0x13 then MoveToLo(rs)
    else if fn == 0x14 then ShiftV(DSll, rd, rt, rs)
    else if fn == 0x16 then ShiftV(DSrl, rd, rt, rs)
    else if fn == 0x17 then ShiftV(DSra, rd, rt, rs)
    else if fn == 0x18 then MulDiv(Mult, rs, rt)
    else if fn == 0x19 then MulDiv(Multu, rs, rt)
    else if fn == 0x1A then MulDiv(Div, rs, rt)
    else if fn == 0x1B then MulDiv(Divu, rs, rt)
    else if fn == 0x20 then Alu(Add, rd, rs, rt)
    else if fn == 0x21 then Alu(Addu, rd, rs, rt)
    else if fn == 0x22 then Alu(Sub, rd, rs, rt)
    else if fn == 0x23 then Alu(Subu, rd, rs, rt)
    else if fn == 0x24 then Alu(Logical(And), rd, rs, rt)
    else if fn == 0x25 then Alu(Logical(Or), rd, rs, rt)
    else if fn == 0x26 then Alu(Logical(Xor), rd, rs, rt)
    else if fn == 0x27 then Alu(Logical(Nor), rd, rs, rt)
    else if fn == 0x2A then Alu(Slt, rd, rs, rt)
    else if fn == 0x2B then Alu(Sltu, rd, rs, rt)
    else if fn == 0x2C || fn == 0x2D then Alu(DAdd, rd, rs, rt)
    else if fn == 0x2E || fn == 0x2F then Alu(DSub, rd, rs, rt)
    else if fn == 0x30 then Trap(Tge, rs, rt)
    else if fn == 0x31 then Trap(Tgeu, rs, rt)
    else if fn == 0x32 then Trap(Tlt, rs, rt)
    else if fn == 0x33 then Trap(Tltu, rs, rt)
    else if fn == 0x34 then Trap(Teq, rs, rt)
    else if fn == 0x36 then Trap(Tne, rs, rt)
    else if fn == 0x38 then Shift(DSll, rd, rt, sa)
    else if fn == 0x3A then Shift(DSrl, rd, rt, sa)
    else if fn == 0x3B then Shift(DSra, rd, rt, sa)
    else if fn == 0x3C then Shift(DSll, rd, rt, sa + 32)
    else if fn == 0x3E then Shift(DSrl, rd, rt, sa + 32)
    else if fn == 0x3F then Shift(DSra, rd, rt, sa + 32)
    else Unimplemented
  }

  function DecodeRegimm(sub: Reg, rs: Reg, imm: u16): Insn {
    if sub == 0x00 then Branch(Ltz, false, false, rs, 0, imm)
    else if sub == 0x01 then Branch(Gez, false, false, rs, 0, imm)
    else if sub == 0x02 then Branch(Ltz, true, false, rs, 0, imm)
    else if sub == 0x03 then Branch(Gez, true, false, rs, 0, imm)
    else if sub == 0x10 then Branch(Ltz, false, true, rs, 0, imm)
    else if sub == 0x11 then Branch(Gez, false, true, rs, 0, imm)
    else Unimplemented
  }

  function DecodeImmediate(op: u6, rs: Reg, rt: Reg, imm: u16): Insn {
    if op == 0x04 then Branch(Eq, false, false, rs, rt, imm)
    else if op == 0x05 then Branch(Ne, false, false, rs, rt, imm)
    else if op == 0x06 then Branch(Lez, false, false, rs, rt, imm)
    else if op == 0x07 then Branch(Gtz, false, false, rs, rt, imm)
    else if op == 0x08 then Imm(AddI, rt, rs, imm)
    else if op == 0x09 then Imm(AddIu, rt, rs, imm)
    else if op == 0x0A then Imm(SltI, rt, rs, imm)
    else if op == 0x0B then Imm(SltuI, rt, rs, imm)
    else if op == 0x0C then Imm(LogicalI(And), rt, rs, imm)
    else if op == 0x0D then Imm(LogicalI(Or), rt, rs, imm)
    else if op == 0x0E then Imm(LogicalI(Xor), rt, rs, imm)
    else if op == 0x0F then Imm(Lui, rt, rs, imm)
    else if op == 0x10 then Cop0
    else if op == 0x14 then Branch(Eq, true, false, rs, rt, imm)
    else if op == 0x15 then Branch(Ne, true, false, rs, rt, imm)
    else if op == 0x16 then Branch(Lez, true, false, rs, rt, imm)
    else if op == 0x17 then Branch(Gtz, true, false, rs, rt, imm)
    else if op == 0x18 || op == 0x19 then Imm(DAddI, rt, rs, imm)
    else if op == 0x20 then Load(Lb, rt, rs, imm)
    else if op == 0x21 then Load(Lh, rt, rs, imm)
    else if op == 0x23 then Load(Lw, rt, rs, imm)
    else if op == 0x24 then Load(Lbu, rt, rs, imm)
    else if op == 0x25 then Load(Lhu, rt, rs, imm)
    else if op == 0x27 then Load(Lwu, rt, rs, imm)
    else if op == 0x28 then Store(Sb, rt, rs, imm)
    else if op == 0x29 then Store(Sh, rt, rs, imm)
    else if op == 0x2B then Store(Sw, rt, rs, imm)
    else if op == 0x2F then Nop
    else if op == 0x30 then Load(Lw, rt, rs, imm)
    else if op == 0x38 then StoreCond(rt, rs, imm)
    else if op in {0x1A, 0x1B, 0x22, 0x26, 0x2A, 0x2C, 0x2D, 0x2E, 0x31, 0x35, 0x37, 0x39, 0x3D, 0x3F}
    then Extended
    else Unimplemented
  }

  // --- Effect of one non-control instruction ----------------------------------------

  // Floating point, doubleword and unaligned accesses: left to the host.
  type Extension = (Cpu, u32) -> Option<Cpu>

  function ExecShift(op: ShiftOp, v: u64, s: u6): u64 {
    match op
    case Sll => Sx(Wrap32(Low(v) * Pow2(s % 32)))
    case Srl => Sx(Wrap32(Low(v) / Pow2(s % 32)))
    case Sra => Sx(Wrap32(Signed32(Low(v)) / Pow2(s % 32)))
    case DSll => Wrap64(v * Pow2(s))
    case DSrl => Wrap64(v / Pow2(s))
    case DSra => Wrap64(Signed64(v) / Pow2(s))
  }

  function Logic64(op: Logic, a: u64, b: u64): u64 {
    Pow2Values();
    Bitwise(op, a, b, 64)
  }

  function ExecAlu(op: AluOp, a: u64, b: u64): u64 {
    match op
    case Add | Addu => Sx(Wrap32(Low(a) + Low(b)))
    case Sub | Subu => Sx(Wrap32(Low(a) - Low(b)))
    case Logical(l) => Logic64(l, a, b)
    case Slt => if Signed64(a) < Signed64(b) then 1 else 0
    case Sltu => if a < b then 1 else 0
    case DAdd => Wrap64(a + b)
    case DSub => Wrap64(a - b)
  }

  function ExecImm(op: ImmOp, a: u64, imm: u16): u64 {
    match op
    case AddI | AddIu => Sx(Wrap32(Low(a) + Wrap32(Signed16(imm))))
    case SltI => if Signed64(a) < Signed16(imm) then 1 else 0
    case SltuI => if a < Wrap64(Signed16(imm)) then 1 else 0
    case LogicalI(l) => Logic64(l, a, imm)
    case Lui => Sx(Wrap32(imm * 0x1_0000))
    case DAddI => Wrap64(a + Signed16(imm))
  }

  function Abs(x: int): nat { if x < 0 then -x else x }

  // Division truncating toward zero.
  function Quotient(a: int, b: int): int
    requires b != 0
  {
    if (a < 0) == (b < 0) then Abs(a) / Abs(b) else -(Abs(a) / Abs(b))
  }

  function Remainder(a: int, b: int): int
    requires b != 0
  {
    if a < 0 then -(Abs(a) % Abs(b)) else Abs(a) % Abs(b)
  }

  // (lo, hi) after the multiply or divide; a division by zero leaves both as they were.
  function ExecMulDiv(op: MulOp, a: u64, b: u64, lo: u64, hi: u64): (u64, u64) {
    match op
    case Mult =>
      var p := Wrap64(Signed32(Low(a)) * Signed32(Low(b)));
      (Sx(Low(p)), Sx(Low(p / TWO32)))
    case Multu =>
      var p := Wrap64(Low(a) * Low(b));
      (Sx(Low(p)), Sx(Low(p / TWO32)))
    case Div =>
      if Low(b) == 0 then (lo, hi)
      else
        var x, y := Signed32(Low(a)), Signed32(Low(b));
        (Sx(Wrap32(Quotient(x, y))), Sx(Wrap32(Remainder(x, y))))
    case Divu =>
      if Low(b) == 0 then (lo, hi)
      else (Sx(Wrap32(Low(a) / Low(b))), Sx(Wrap32(Low(a) % Low(b))))
  }

  function Sx16(h: u16): u64 { Wrap64(Signed16(h)) }
  function Sx8(b: byte): u64 { if b < 0x80 then b else Wrap64(b - 0x100) }

  function ExecLoad(op: LoadOp, m: seq<byte>, a: nat): u64 {
    match op
    case Lb => Sx8(Get(m, Swizzle(a)))
    case Lh => Sx16(LoadH(m, a))
    case Lw => Sx(LoadNative(m, a))
    case Lbu => Get(m, Swizzle(a))
    case Lhu => LoadH(m, a)
    case Lwu => LoadNative(m, a)
  }

  function ExecStore(op: StoreOp, m: seq<byte>, a: nat, v: u64): seq<byte> {
    match op
    case Sb => Put(m, Swizzle(a), v % 0x100)
    case Sh => StoreH(m, a, v % 0x1_0000)
    case Sw => StoreNative(m, a, Low(v))
  }

  // The quotient does not fit: the host division has no defined result.
  predicate Overflows(c: Cpu, i: Insn) {
    i.MulDiv? && i.mop.Div? && Low(c.R(i.rs)) == 0x8000_0000 && Low(c.R(i.rt)) == 0xFFFF_FFFF
  }

  predicate Ordinary(i: Insn) { !i.Extended? && !i.Control() && !i.Unimplemented? }

  // None where the interpreter reports an unimplemented opcode; control transfers in a
  // delay slot are such a case.
  function Exec(extension: Extension, c: Cpu, w: u32): Option<Cpu> {
    var i := Decode(w);
    if i.Extended? then extension(c, w)
    else if !Ordinary(i) || Overflows(c, i) then None
    else Some(Effect(c, i))
  }

  // Traps, overflow traps and COP0 do nothing here: the runtime has no exceptions.
  function Effect(c: Cpu, i: Insn): Cpu
    requires Ordinary(i)
  {
    match i
    case Shift(op, rd, rt, sa) => c.Set(rd, ExecShift(op, c.R(rt), sa))
    case ShiftV(op, rd, rt, rs) => c.Set(rd, ExecShift(op, c.R(rt), c.R(rs) % 64))
    case Alu(op, rd, rs, rt) => c.Set(rd, ExecAlu(op, c.R(rs), c.R(rt)))
    case Imm(op, rt, rs, imm) => c.Set(rt, ExecImm(op, c.R(rs), imm))
    case MoveFromHi(rd) => c.Set(rd, c.hi)
    case MoveFromLo(rd) => c.Set(rd, c.lo)
    case MoveToHi(rs) => c.(hi := c.R(rs))
    case MoveToLo(rs) => c.(lo := c.R(rs))
    case MulDiv(op, rs, rt) =>
      var r := ExecMulDiv(op, c.R(rs), c.R(rt), c.lo, c.hi);
      c.(lo := r.0, hi := r.1)
    case CMove(ifZero, rd, rs, rt) =>
      if (c.R(rt) == 0) == ifZero then c.Set(rd, c.R(rs)) else c
    case Load(op, rt, rs, imm) => c.Set(rt, ExecLoad(op, c.mem, c.Address(rs, imm)))
    case Store(op, rt, rs, imm) =>
      c.(mem := ExecStore(op, c.mem, c.Address(rs, imm), c.R(rt)))
    case StoreCond(rt, rs, imm) =>
      c.(mem := ExecStore(Sw, c.mem, c.Address(rs, imm), c.R(rt))).Set(rt, 1)
    case Trap(_, _, _) => c
    case Nop => c
    case Cop0 => c
  }

  function Fetch(m: seq<byte>, pc: u32): u32 { LoadNative(m, pc % MEM_SIZE) }

  predicate Holds(cond: Cond, a: u64, b: u64) {
    match cond
    case Ltz => Signed64(a) < 0
    case Gez => Signed64(a) >= 0
    case Eq => a == b
    case Ne => a != b
    case Lez => Signed64(a) <= 0
    case Gtz => Signed64(a) > 0
  }

  function JumpTarget(pc: u32, index: u26): u32 {
    Wrap32(Wrap32(pc + 4) / 0x1000_0000 * 0x1000_0000 + 4 * index)
  }

  function BranchTarget(pc: u32, imm: u16): u32 { Wrap32(pc + 4 + 4 * Signed16(imm)) }
}
