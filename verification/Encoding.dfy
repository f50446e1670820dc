// The instruction formats and opcode tables of the architecture manual, as an encoder;
// the interpreter's decoder inverts it.
module Encoding {
  import opened Words
  import opened Arith
  import opened R4300

  function RType(fn: u6, rs: Reg, rt: Reg, rd: Reg, sa: Reg): u32 {
    rs * 0x20_0000 + rt * 0x1_0000 + rd * 0x800 + sa * 0x40 + fn
  }

  function IType(op: u6, rs: Reg, rt: Reg, imm: u16): u32 {
    op * 0x400_0000 + rs * 0x20_0000 + rt * 0x1_0000 + imm
  }

  // Instructions whose every field the machine interprets. The register-immediate branches
  // have no second register, and only they link.
  predicate Encodable(i: Insn) {
    match i
    case Shift(op, _, _, sa) => op.DSll? || op.DSrl? || op.DSra? || sa < 32
    case Imm(LogicalI(l), _, _, _) => !l.Nor?
    case Imm(Lui, _, rs, _) => true
    case Branch(cond, likely, link, rs, rt, _) =>
      if cond.Ltz? || cond.Gez? then rt == 0 && !(likely && link) else !link
    case Jump(_, _) => true
    case JumpReg(_, _, _) => true
    case Nop => false
    case Cop0 => false
    case Extended => false
    case Unimplemented => false
    case _ => true
  }

  function ShiftCode(op: ShiftOp, upper: bool): u6 {
    match op
    case Sll => 0
    case Srl => 2
    case Sra => 3
    case DSll => if upper then 0x3C else 0x38
    case DSrl => if upper then 0x3E else 0x3A
    case DSra => if upper then 0x3F else 0x3B
  }

  function ShiftVCode(op: ShiftOp): u6 {
    match op
    case Sll => 4
    case Srl => 6
    case Sra => 7
    case DSll => 0x14
    case DSrl => 0x16
    case DSra => 0x17
  }

  function AluCode(op: AluOp): u6 {
    match op
    case Add => 0x20
    case Addu => 0x21
    case Sub => 0x22
    case Subu => 0x23
    case Logical(And) => 0x24
    case Logical(Or) => 0x25
    case Logical(Xor) => 0x26
    case Logical(Nor) => 0x27
    case Slt => 0x2A
    case Sltu => 0x2B
    case DAdd => 0x2D
    case DSub => 0x2F
  }

  function ImmCode(op: ImmOp): u6
    requires op.LogicalI? ==> !op.logic.Nor?
  {
    match op
    case AddI => 0x08
    case AddIu => 0x09
    case SltI => 0x0A
    case SltuI => 0x0B
    case LogicalI(l) => if l.And? then 0x0C else if l.Or? then 0x0D else 0x0E
    case Lui => 0x0F
    case DAddI => 0x19
  }

  function MulCode(op: MulOp): u6 {
    match op case Mult => 0x18 case Multu => 0x19 case Div => 0x1A case Divu => 0x1B
  }

  function TrapCode(op: TrapOp): u6 {
    match op
    case Tge => 0x30
    case Tgeu => 0x31
    case Tlt => 0x32
    case Tltu => 0x33
    case Teq => 0x34
    case Tne => 0x36
  }

  function LoadCode(op: LoadOp): u6 {
    match op
    case Lb => 0x20
    case Lh => 0x21
    case Lw => 0x23
    case Lbu => 0x24
    case Lhu => 0x25
    case Lwu => 0x27
  }

  function StoreCode(op: StoreOp): u6 { match op case Sb => 0x28 case Sh => 0x29 case Sw => 0x2B }

  function BranchCode(cond: Cond, likely: bool): u6
    requires !cond.Ltz? && !cond.Gez?
  {
    (if cond.Eq? then 4 else if cond.Ne? then 5 else if cond.Lez? then 6 else 7) + (if likely then 0x10 else 0)
  }

  function RegimmCode(cond: Cond, likely: bool, link: bool): Reg {
    (if cond.Gez? then 1 else 0) + (if likely then 2 else 0) + (if link then 0x10 else 0)
  }

  function Encode(i: Insn): u32
    requires Encodable(i)
  {
    match i
    case Shift(op, rd, rt, sa) => RType(ShiftCode(op, sa >= 32), 0, rt, rd, sa % 32)
    case ShiftV(op, rd, rt, rs) => RType(ShiftVCode(op), rs, rt, rd, 0)
    case Alu(op, rd, rs, rt) => RType(AluCode(op), rs, rt, rd, 0)
    case Imm(op, rt, rs, imm) => IType(ImmCode(op), rs, rt, imm)
    case MoveFromHi(rd) => RType(0x10, 0, 0, rd, 0)
    case MoveFromLo(rd) => RType(0x12, 0, 0, rd, 0)
    case MoveToHi(rs) => RType(0x11, rs, 0, 0, 0)
    case MoveToLo(rs) => RType(0x13, rs, 0, 0, 0)
    case MulDiv(op, rs, rt) => RType(MulCode(op), rs, rt, 0, 0)
    case Trap(op, rs, rt) => RType(TrapCode(op), rs, rt, 0, 0)
    case CMove(ifZero, rd, rs, rt) => RType(if ifZero then 0x0A else 0x0B, rs, rt, rd, 0)
    case Load(op, rt, rs, imm) => IType(LoadCode(op), rs, rt, imm)
    case Store(op, rt, rs, imm) => IType(StoreCode(op), rs, rt, imm)
    case StoreCond(rt, rs, imm) => IType(0x38, rs, rt, imm)
    case Jump(link, index) => (if link then 3 else 2) * 0x400_0000 + index
    case JumpReg(link, rs, rd) => RType(if link then 9 else 8, rs, 0, rd, 0)
    case Branch(cond, likely, link, rs, rt, imm) =>
      if cond.Ltz? || cond.Gez? then IType(1, rs, RegimmCode(cond, likely, link), imm)
      else IType(BranchCode(cond, likely), rs, rt, imm)
    case BranchFp(onTrue, likely, imm) =>
      IType(0x11, 8, (if onTrue then 1 else 0) + (if likely then 2 else 0), imm)
  }

  lemma RFields(fn: u6, rs: Reg, rt: Reg, rd: Reg, sa: Reg)
    ensures var w := RType(fn, rs, rt, rd, sa);
            Op(w) == 0 && Rs(w) == rs && Rt(w) == rt && Rd(w) == rd && Sa(w) == sa && Fn(w) == fn
  {
    var w := RType(fn, rs, rt, rd, sa);
    DivUnique(w, 0x40, rs * 0x8000 + rt * 0x400 + rd * 0x20 + sa, fn);
    DivUnique(w, 0x800, rs * 0x400 + rt * 0x20 + rd, sa * 0x40 + fn);
    DivUnique(w, 0x1_0000, rs * 0x20 + rt, rd * 0x800 + sa * 0x40 + fn);
    DivUnique(w, 0x20_0000, rs, rt * 0x1_0000 + rd * 0x800 + sa * 0x40 + fn);
  }

  lemma IFields(op: u6, rs: Reg, rt: Reg, imm: u16)
    ensures var w := IType(op, rs, rt, imm);
            Op(w) == op && Rs(w) == rs && Rt(w) == rt && Im(w) == imm
  {
    var w := IType(op, rs, rt, imm);
    DivUnique(w, 0x1_0000, op * 0x400 + rs * 0x20 + rt, imm);
    DivUnique(w, 0x20_0000, op * 0x20 + rs, rt * 0x1_0000 + imm);
    DivUnique(w, 0x400_0000, op, rs * 0x20_0000 + rt * 0x1_0000 + imm);
  }

  lemma JFields(op: u6, index: u26)
    ensures var w := op * 0x400_0000 + index; 0 <= w < TWO32 && Op(w) == op && Ix(w) == index
  {}

  lemma SpecialDecodes(fn: u6, rs: Reg, rt: Reg, rd: Reg, sa: Reg)
    ensures Decode(RType(fn, rs, rt, rd, sa)) == DecodeSpecial(fn, rs, rt, rd, sa)
  {
    RFields(fn, rs, rt, rd, sa);
  }

  lemma ImmediateDecodes(op: u6, rs: Reg, rt: Reg, imm: u16)
    requires op !in {0, 1, 2, 3, 0x11}
    ensures Decode(IType(op, rs, rt, imm)) == DecodeImmediate(op, rs, rt, imm)
  {
    IFields(op, rs, rt, imm);
  }

  lemma RegimmDecodes(sub: Reg, rs: Reg, imm: u16)
    ensures Decode(IType(1, rs, sub, imm)) == DecodeRegimm(sub, rs, imm)
  {
    IFields(1, rs, sub, imm);
  }

  // Decoding inverts encoding: no instruction is taken for another, no field for another.
  lemma DecodeEncode(i: Insn)
    requires Encodable(i)
    ensures Decode(Encode(i)) == i
  {
    if i.Jump? || i.BranchFp? || i.Branch? {
      ControlDecodes(i);
    } else if i.Imm? || i.Load? || i.Store? || i.StoreCond? {
      ImmediatesDecode(i);
    } else {
      SpecialsDecode(i);
    }
  }

  lemma SpecialsDecode(i: Insn)
    requires Encodable(i) && !i.Jump? && !i.BranchFp? && !i.Branch?
    requires !i.Imm? && !i.Load? && !i.Store? && !i.StoreCond?
    ensures Decode(Encode(i)) == i
  {
    hide Decode, RType, DecodeSpecial, Encode;
    if i.Shift? || i.ShiftV? || i.Alu? { OperationsDecode(i); } else { OthersDecode(i); }
  }

  lemma OperationsDecode(i: Insn)
    requires Encodable(i) && (i.Shift? || i.ShiftV? || i.Alu?)
    ensures Decode(Encode(i)) == i
  {
    hide Decode, RType;
    match i
    case Shift(op, rd, rt, sa) => SpecialDecodes(ShiftCode(op, sa >= 32), 0, rt, rd, sa % 32);
    case ShiftV(op, rd, rt, rs) => SpecialDecodes(ShiftVCode(op), rs, rt, rd, 0);
    case Alu(op, rd, rs, rt) => SpecialDecodes(AluCode(op), rs, rt, rd, 0);
  }

  lemma OthersDecode(i: Insn)
    requires Encodable(i) && !i.Shift? && !i.ShiftV? && !i.Alu? && !i.Jump? && !i.BranchFp? && !i.Branch?
    requires !i.Imm? && !i.Load? && !i.Store? && !i.StoreCond?
    ensures Decode(Encode(i)) == i
  {
    hide Decode, RType;
    match i
    case MoveFromHi(rd) => SpecialDecodes(0x10, 0, 0, rd, 0);
    case MoveFromLo(rd) => SpecialDecodes(0x12, 0, 0, rd, 0);
    case MoveToHi(rs) => SpecialDecodes(0x11, rs, 0, 0, 0);
    case MoveToLo(rs) => SpecialDecodes(0x13, rs, 0, 0, 0);
    case MulDiv(op, rs, rt) => SpecialDecodes(MulCode(op), rs, rt, 0, 0);
    case Trap(op, rs, rt) => SpecialDecodes(TrapCode(op), rs, rt, 0, 0);
    case CMove(ifZero, rd, rs, rt) => SpecialDecodes(if ifZero then 0x0A else 0x0B, rs, rt, rd, 0);
    case JumpReg(link, rs, rd) => SpecialDecodes(if link then 9 else 8, rs, 0, rd, 0);
  }

  lemma ImmediatesDecode(i: Insn)
    requires Encodable(i) && (i.Imm? || i.Load? || i.Store? || i.StoreCond?)
    ensures Decode(Encode(i)) == i
  {
    hide Decode, IType;
    match i
    case Imm(op, rt, rs, imm) => ImmediateDecodes(ImmCode(op), rs, rt, imm);
    case Load(op, rt, rs, imm) => ImmediateDecodes(LoadCode(op), rs, rt, imm);
    case Store(op, rt, rs, imm) => ImmediateDecodes(StoreCode(op), rs, rt, imm);
    case StoreCond(rt, rs, imm) => ImmediateDecodes(0x38, rs, rt, imm);
  }

  lemma ControlDecodes(i: Insn)
    requires Encodable(i) && (i.Jump? || i.BranchFp? || i.Branch?)
    ensures Decode(Encode(i)) == i
  {
    hide IType;
    if i.Jump? {
      JFields(if i.link then 3 else 2, i.index);
    } else if i.BranchFp? {
      IFields(0x11, 8, (if i.onTrue then 1 else 0) + (if i.likely then 2 else 0), i.imm);
    } else {
      BranchesDecode(i);
    }
  }

  lemma BranchesDecode(i: Insn)
    requires Encodable(i) && i.Branch?
    ensures Decode(Encode(i)) == i
  {
    hide IType, Decode;
    if i.cond.Ltz? || i.cond.Gez? {
      RegimmDecodes(RegimmCode(i.cond, i.likely, i.link), i.rs, i.imm);
    } else {
      ImmediateDecodes(BranchCode(i.cond, i.likely), i.rs, i.rt, i.imm);
    }
  }
}
