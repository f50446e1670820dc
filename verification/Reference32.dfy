// The 32-bit, big-endian MIPS machine of the architecture manual (MIPS R4000
// Microprocessor User's Manual, Appendix A, and the conditional moves of MIPS IV), written
// without reference to the interpreter's 64-bit registers and word-native memory. Where the
// manual takes an exception the machine has no step the interpreter is held to: see Defined.
module Reference32 {
  import opened Words
  import opened Bits
  import opened R4300
  import Rdram

  type Regs32 = s: seq<u32> | |s| == 32 witness seq(32, _ => 0)

  // Guest byte a is mem[a]; the most significant byte of a word comes first.
  datatype Cpu32 = Cpu32(regs: Regs32, hi: u32, lo: u32, mem: seq<byte>) {
    function R(i: Reg): u32 { regs[i] }

    function Set(i: Reg, v: u32): Cpu32 {
      if i == 0 then this else this.(regs := regs[i := v])
    }

    function Address(base: Reg, imm: u16): nat { Wrap32(R(base) + Signed16(imm)) % MEM_SIZE }
  }

  function ReadHalf(m: seq<byte>, a: nat): u16 { Rdram.Get(m, a) * 0x100 + Rdram.Get(m, a + 1) }

  function ReadWord(m: seq<byte>, a: nat): u32 { ReadHalf(m, a) * 0x1_0000 + ReadHalf(m, a + 2) }

  function WriteHalf(m: seq<byte>, a: nat, h: u16): seq<byte> {
    Rdram.Put(Rdram.Put(m, a, h / 0x100), a + 1, h % 0x100)
  }

  function WriteWord(m: seq<byte>, a: nat, w: u32): seq<byte> {
    WriteHalf(WriteHalf(m, a, w / 0x1_0000), a + 2, w % 0x1_0000)
  }

  // The instructions of the 32-bit subset.
  predicate Narrow(i: Insn) {
    match i
    case Shift(op, _, _, sa) => (op.Sll? || op.Srl? || op.Sra?) && sa < 32
    case ShiftV(op, _, _, _) => op.Sll? || op.Srl? || op.Sra?
    case Alu(op, _, _, _) => !op.DAdd? && !op.DSub?
    case Imm(op, _, _, _) => !op.DAddI? && (op.LogicalI? ==> !op.logic.Nor?)
    case Load(op, _, _, _) => !op.Lwu?
    case BranchFp(_, _, _) => false
    case Cop0 => false
    case Extended => false
    case Unimplemented => false
    case _ => true
  }

  function RefLogic(op: Logic, a: u32, b: u32): u32 {
    Pow2Values();
    Bitwise(op, a, b, 32)
  }

  // An arithmetic right shift copies the sign into the vacated digits.
  function RefShift(op: ShiftOp, w: u32, s: nat): u32
    requires (op.Sll? || op.Srl? || op.Sra?) && s < 32
  {
    match op
    case Sll => w * Pow2(s) % TWO32
    case Srl => Wrap32(w / Pow2(s))
    case Sra => Wrap32(if w < 0x8000_0000 then w / Pow2(s) else TWO32 - Pow2(32 - s) + w / Pow2(s))
  }

  function RefAlu(op: AluOp, a: u32, b: u32): u32
    requires !op.DAdd? && !op.DSub?
  {
    match op
    case Add | Addu => (a + b) % TWO32
    case Sub | Subu => (a - b) % TWO32
    case Logical(l) => RefLogic(l, a, b)
    case Slt => if Signed32(a) < Signed32(b) then 1 else 0
    case Sltu => if a < b then 1 else 0
  }

  // Immediates are sign-extended for arithmetic and comparison, zero-extended for logic.
  function RefImm(op: ImmOp, a: u32, imm: u16): u32
    requires !op.DAddI?
  {
    match op
    case AddI | AddIu => RefAlu(Addu, a, Wrap32(Signed16(imm)))
    case SltI => RefAlu(Slt, a, Wrap32(Signed16(imm)))
    case SltuI => RefAlu(Sltu, a, Wrap32(Signed16(imm)))
    case LogicalI(l) => RefLogic(l, a, imm)
    case Lui => imm * 0x1_0000
  }

  // Quotient toward zero, remainder with the sign of the dividend.
  ghost predicate Divides(a: int, b: int, q: int, r: int)
    requires b != 0
  {
    a == q * b + r && Abs(r) < Abs(b) && (a >= 0 ==> r >= 0) && (a <= 0 ==> r <= 0)
  }

  // What a multiply or divide may leave in (lo, hi): anything, dividing by zero.
  ghost predicate RefMulDiv(op: MulOp, a: u32, b: u32, lo': u32, hi': u32) {
    match op
    case Mult => hi' * TWO32 + lo' == (Signed32(a) * Signed32(b)) % TWO64
    case Multu => hi' * TWO32 + lo' == a * b
    case Div =>
      b != 0 ==> Divides(Signed32(a), Signed32(b), Signed32(lo'), Signed32(hi'))
    case Divu =>
      b != 0 ==> a == lo' * b + hi' && hi' < b
  }

  function RefLoad(op: LoadOp, m: seq<byte>, a: nat): u32
    requires !op.Lwu?
  {
    match op
    case Lb => var b := Rdram.Get(m, a); if b < 0x80 then b else b + 0xFFFF_FF00
    case Lh => Wrap32(Signed16(ReadHalf(m, a)))
    case Lw => ReadWord(m, a)
    case Lbu => Rdram.Get(m, a)
    case Lhu => ReadHalf(m, a)
  }

  function RefStore(op: StoreOp, m: seq<byte>, a: nat, v: u32): seq<byte> {
    match op
    case Sb => Rdram.Put(m, a, v % 0x100)
    case Sh => WriteHalf(m, a, v % 0x1_0000)
    case Sw => WriteWord(m, a, v)
  }

  // d' is a state the instruction may leave. The link bit is no part of the state, so a
  // conditional store may succeed or fail.
  ghost predicate RefEffect(d: Cpu32, i: Insn, d': Cpu32)
    requires Ordinary(i) && Narrow(i)
  {
    match i
    case Shift(op, rd, rt, sa) => d' == d.Set(rd, RefShift(op, d.R(rt), sa))
    case ShiftV(op, rd, rt, rs) => d' == d.Set(rd, RefShift(op, d.R(rt), d.R(rs) % 32))
    case Alu(op, rd, rs, rt) => d' == d.Set(rd, RefAlu(op, d.R(rs), d.R(rt)))
    case Imm(op, rt, rs, imm) => d' == d.Set(rt, RefImm(op, d.R(rs), imm))
    case MoveFromHi(rd) => d' == d.Set(rd, d.hi)
    case MoveFromLo(rd) => d' == d.Set(rd, d.lo)
    case MoveToHi(rs) => d' == d.(hi := d.R(rs))
    case MoveToLo(rs) => d' == d.(lo := d.R(rs))
    case MulDiv(op, rs, rt) =>
      d' == d.(lo := d'.lo, hi := d'.hi) &&
      RefMulDiv(op, d.R(rs), d.R(rt), d'.lo, d'.hi)
    case CMove(ifZero, rd, rs, rt) =>
      d' == if (d.R(rt) == 0) == ifZero then d.Set(rd, d.R(rs)) else d
    case Load(op, rt, rs, imm) => d' == d.Set(rt, RefLoad(op, d.mem, d.Address(rs, imm)))
    case Store(op, rt, rs, imm) => d' == d.(mem := RefStore(op, d.mem, d.Address(rs, imm), d.R(rt)))
    case StoreCond(rt, rs, imm) =>
      || d' == d.(mem := RefStore(Sw, d.mem, d.Address(rs, imm), d.R(rt))).Set(rt, 1)
      || d' == d.Set(rt, 0)
    case Trap(_, _, _) => d' == d
    case Nop => d' == d
  }

  predicate RefTraps(op: TrapOp, a: u32, b: u32) {
    match op
    case Tge => Signed32(a) >= Signed32(b)
    case Tgeu => a >= b
    case Tlt => Signed32(a) < Signed32(b)
    case Tltu => a < b
    case Teq => a == b
    case Tne => a != b
  }

  predicate Representable(x: int) { -0x8000_0000 <= x < 0x8000_0000 }

  // The instruction takes no exception: accesses are naturally aligned, the trapping sums
  // and differences do not overflow and no trap condition holds; and a division has a
  // representable quotient.
  predicate Defined(d: Cpu32, i: Insn) {
    match i
    case Load(op, _, rs, imm) => Natural(op.Lw?, op.Lh? || op.Lhu?, d.Address(rs, imm))
    case Store(op, _, rs, imm) => Natural(op.Sw?, op.Sh?, d.Address(rs, imm))
    case StoreCond(_, rs, imm) => Natural(true, false, d.Address(rs, imm))
    case MulDiv(op, rs, rt) => !(op.Div? && d.R(rs) == 0x8000_0000 && d.R(rt) == 0xFFFF_FFFF)
    case Alu(Add, _, rs, rt) => Representable(Signed32(d.R(rs)) + Signed32(d.R(rt)))
    case Alu(Sub, _, rs, rt) => Representable(Signed32(d.R(rs)) - Signed32(d.R(rt)))
    case Imm(AddI, _, rs, imm) => Representable(Signed32(d.R(rs)) + Signed16(imm))
    case Trap(op, rs, rt) => !RefTraps(op, d.R(rs), d.R(rt))
    case _ => true
  }

  predicate Natural(word: bool, half: bool, a: nat) {
    (word ==> a % 4 == 0) && (half ==> a % 2 == 0)
  }

  predicate RefHolds(cond: Cond, a: u32, b: u32) {
    match cond
    case Ltz => a >= 0x8000_0000
    case Gez => a < 0x8000_0000
    case Eq => a == b
    case Ne => a != b
    case Lez => a == 0 || a >= 0x8000_0000
    case Gtz => 0 < a < 0x8000_0000
  }

  datatype State32 = State32(cpu: Cpu32, pc: u32, npc: u32)

  function FetchInsn(s: State32): Insn { Decode(ReadWord(s.cpu.mem, s.pc % MEM_SIZE)) }

  function RefLink(d: Cpu32, link: bool, rd: Reg, slot: u32): Cpu32 {
    if link then d.Set(rd, Wrap32(slot + 4)) else d
  }

  function RefBranch(d: Cpu32, s: State32, take: bool, likely: bool, target: u32): State32 {
    if take then State32(d, s.npc, target)
    else if likely then State32(d, Wrap32(s.npc + 4), Wrap32(s.npc + 8))
    else State32(d, s.npc, Wrap32(s.npc + 4))
  }

  function RefJumpTarget(slot: u32, index: u26): u32 {
    assert slot - slot % 0x1000_0000 == slot / 0x1000_0000 * 0x1000_0000 <= 0xF000_0000;
    slot - slot % 0x1000_0000 + index * 4
  }

  // One step: the link is the address after the delay slot, the jump region is that of the
  // delay slot and a branch is relative to it; a likely branch not taken annuls it.
  ghost predicate RefStep(s: State32, s': State32)
    requires Narrow(FetchInsn(s))
  {
    var d, i := s.cpu, FetchInsn(s);
    var slot := Wrap32(s.pc + 4);
    && s.pc % 4 == 0 && Defined(d, i) &&
    if i.Jump? then
      s' == State32(RefLink(d, i.link, 31, slot), s.npc, RefJumpTarget(slot, i.index))
    else if i.JumpReg? then
      s' == State32(RefLink(d, i.link, i.rd, slot), s.npc, d.R(i.rs))
    else if i.Branch? then
      s' == RefBranch(RefLink(d, i.link, 31, slot), s, RefHolds(i.cond, d.R(i.rs), d.R(i.rt)), i.likely,
                      Wrap32(slot + Signed16(i.imm) * 4))
    else RefEffect(d, i, s'.cpu) && s'.pc == s.npc && s'.npc == Wrap32(s.npc + 4)
  }
}
