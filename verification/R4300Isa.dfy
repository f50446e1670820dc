// The R4300i as an instruction set for the interpreter's control loop.
module R4300Isa {
  import opened Options
  import opened Words
  import opened R4300
  import Interpreter
  import Runs = InterpreterRuns
  import NativeCalls

  function Link(c: Cpu, link: bool, rd: Reg, pc: u32): Cpu {
    if link then c.Set(rd, Sx(Wrap32(pc + 8))) else c
  }

  function ControlAt(c: Cpu, pc: u32): Interpreter.Control<Cpu, u32> {
    match Decode(Fetch(c.mem, pc))
    case Jump(link, index) =>
      Interpreter.Jump(Link(c, link, 31, pc), JumpTarget(pc, index), link, false)
    case JumpReg(link, rs, rd) =>
      Interpreter.Jump(Link(c, link, rd, pc), Low(c.R(rs)), link, true)
    case Branch(cond, likely, link, rs, rt, imm) =>
      Interpreter.Branch(Link(c, link, 31, pc), Holds(cond, c.R(rs), c.R(rt)), likely, BranchTarget(pc, imm))
    case BranchFp(onTrue, likely, imm) =>
      Interpreter.Branch(c, c.fpCond == onTrue, likely, BranchTarget(pc, imm))
    case _ => Interpreter.Straight
  }

  function Isa(native: u32 -> Option<Cpu -> Cpu>, extension: Extension): Interpreter.Isa<Cpu, u32> {
    Interpreter.Isa(native, ControlAt,
                    (c: Cpu, pc: u32) => Exec(extension, c, Fetch(c.mem, pc)),
                    (pc: u32) => Wrap32(pc + 4), (pc: u32) => pc % 4 == 0, (c: Cpu) => Low(c.R(31)))
  }

  lemma IsaDelaySafe(native: u32 -> Option<Cpu -> Cpu>, extension: Extension)
    ensures Interpreter.DelaySafe(Isa(native, extension))
  {
    var isa := Isa(native, extension);
    forall c: Cpu, pc: u32 | isa.exec(c, pc).Some?
      ensures isa.control(c, pc).Straight?
    {
      assert !Decode(Fetch(c.mem, pc)).Control();
    }
  }

  // The trips of the two simplest kinds of instruction.
  lemma JumpRegTrip(native: u32 -> Option<Cpu -> Cpu>, extension: Extension, c: Cpu, pc: u32, ret: u32,
                    link: bool, rs: Reg, rd: Reg, c': Cpu)
    requires Decode(Fetch(c.mem, pc)) == JumpReg(link, rs, rd)
    requires Exec(extension, Link(c, link, rd, pc), Fetch(c.mem, Wrap32(pc + 4))) == Some(c')
    ensures var isa, target := Isa(native, extension), Low(c.R(rs));
            && isa.control(c, pc) == Interpreter.Jump(Link(c, link, rd, pc), target, link, true)
            && Interpreter.Loop(isa, c, pc, ret) ==
               if !link && target == ret then Interpreter.Return(c') else Interpreter.Enter(c', target, link)
  {
    hide Decode, Fetch, Exec, Low, Wrap32, Sx;
  }

  lemma StraightTrip(native: u32 -> Option<Cpu -> Cpu>, extension: Extension, c: Cpu, pc: u32, ret: u32)
    requires Ordinary(Decode(Fetch(c.mem, pc))) && !Overflows(c, Decode(Fetch(c.mem, pc)))
    ensures var isa, c' := Isa(native, extension), Effect(c, Decode(Fetch(c.mem, pc)));
            isa.exec(c, pc) == Some(c') && Interpreter.Loop(isa, c, pc, ret) == Interpreter.Go(c', Wrap32(pc + 4))
  {
    hide Decode, Fetch, Effect, Wrap32;
  }

  // The general register an instruction may write.
  predicate Writes(i: Insn, r: Reg) {
    match i
    case Shift(_, rd, _, _) => rd == r
    case ShiftV(_, rd, _, _) => rd == r
    case Alu(_, rd, _, _) => rd == r
    case Imm(_, rt, _, _) => rt == r
    case MoveFromHi(rd) => rd == r
    case MoveFromLo(rd) => rd == r
    case CMove(_, rd, _, _) => rd == r
    case Load(_, rt, _, _) => rt == r
    case StoreCond(rt, _, _) => rt == r
    case _ => false
  }

  lemma EffectKeeps(c: Cpu, i: Insn, r: Reg)
    requires Ordinary(i) && !Writes(i, r)
    ensures Effect(c, i).R(r) == c.R(r)
  {
    hide ExecShift, ExecAlu, ExecImm, ExecMulDiv, ExecLoad, ExecStore;
  }

  // The instruction at a pc keeps $31 if it executes at all.
  predicate KeepsRa(extension: Extension, c: Cpu, w: u32) {
    var slot := Decode(w);
    if slot.Extended? then
      var r := extension(c, w);
      r.Some? ==> r.value.R(31) == c.R(31)
    else !Ordinary(slot) || !Writes(slot, 31)
  }

  lemma RaKept(extension: Extension, c: Cpu, w: u32)
    requires KeepsRa(extension, c, w)
    ensures var r := Exec(extension, c, w); r.Some? ==> r.value.R(31) == c.R(31)
  {
    hide Decode, Effect;
    if Ordinary(Decode(w)) && !Writes(Decode(w), 31) { EffectKeeps(c, Decode(w), 31); }
  }

  // The register a call links through, if the instruction is one.
  function LinkRegister(i: Insn): Option<Reg> {
    match i
    case Jump(true, _) => Some(31)
    case JumpReg(true, _, rd) => Some(rd)
    case _ => None
  }

  lemma LinkedRa(c: Cpu, rd: Reg, pc: u32)
    ensures Low(Link(c, true, rd, pc).R(31)) == Wrap32(pc + 8) <==> rd == 31 || Low(c.R(31)) == Wrap32(pc + 8)
  {
    SxLow(Wrap32(pc + 8));
    hide Sx, Low;
  }

  // A call whose delay slot keeps $31 is linked exactly when it links through $31, or $31
  // already held the address after the delay slot.
  lemma CallIsLinked(native: u32 -> Option<Cpu -> Cpu>, extension: Extension, c: Cpu, pc: u32, rd: Reg)
    requires LinkRegister(Decode(Fetch(c.mem, pc))) == Some(rd)
    requires var c1, w := Link(c, true, rd, pc), Fetch(c.mem, Wrap32(pc + 4));
             Exec(extension, c1, w).Some? && KeepsRa(extension, c1, w)
    ensures Runs.LinkedAt(Isa(native, extension), c, pc) <==> rd == 31 || Low(c.R(31)) == Wrap32(pc + 8)
  {
    hide Decode, Fetch, Exec, JumpTarget, KeepsRa, Low;
    RaKept(extension, Link(c, true, rd, pc), Fetch(c.mem, Wrap32(pc + 4)));
    LinkedRa(c, rd, pc);
    NextNext(pc);
  }

  lemma NextNext(pc: u32)
    ensures Wrap32(Wrap32(pc + 4) + 4) == Wrap32(pc + 8)
  {}

  // The instruction at pc, if it is a call, links through $31 and its delay slot keeps $31.
  predicate SafeCall(extension: Extension, c: Cpu, pc: u32) {
    match LinkRegister(Decode(Fetch(c.mem, pc)))
    case None => true
    case Some(rd) => rd == 31 && KeepsRa(extension, Link(c, true, 31, pc), Fetch(c.mem, Wrap32(pc + 4)))
  }

  ghost predicate AllSafe(extension: Extension, tr: seq<Runs.Visit<Cpu, u32>>) {
    forall i :: 0 <= i < |tr| ==> SafeCall(extension, tr[i].cpu, tr[i].pc)
  }

  lemma SafeIsLinked(native: u32 -> Option<Cpu -> Cpu>, extension: Extension, c: Cpu, pc: u32)
    requires SafeCall(extension, c, pc)
    ensures Runs.LinkedAt(Isa(native, extension), c, pc)
  {
    hide Decode, Fetch, Exec, JumpTarget, KeepsRa, Low;
    var i := Decode(Fetch(c.mem, pc));
    if LinkRegister(i).Some? && Exec(extension, Link(c, true, 31, pc), Fetch(c.mem, Wrap32(pc + 4))).Some? {
      CallIsLinked(native, extension, c, pc, 31);
    }
  }

  lemma AllSafeIsLinked(native: u32 -> Option<Cpu -> Cpu>, extension: Extension, tr: seq<Runs.Visit<Cpu, u32>>)
    requires AllSafe(extension, tr)
    ensures Runs.AllLinked(Isa(native, extension), tr)
  {
    hide Isa, SafeCall, Runs.LinkedAt;
    forall i | 0 <= i < |tr| ensures Runs.LinkedAt(Isa(native, extension), tr[i].cpu, tr[i].pc) {
      SafeIsLinked(native, extension, tr[i].cpu, tr[i].pc);
    }
  }

  // The interpretation of a function returns, enters no recompiled function, and every call
  // it comes to is a jal or a jalr through $31 whose delay slot keeps $31.
  ghost predicate RunsLinked(native: u32 -> Option<Cpu -> Cpu>, extension: Extension, c: Cpu, start: u32, fuel: nat) {
    var isa := Isa(native, extension);
    && Interpreter.Interpret(isa, c, start, 0, fuel).Plain()
    && AllSafe(extension, Runs.Visits(isa, c, start, fuel))
  }

  // Main result for the R4300i: such an interpretation is a run of the flat machine.
  lemma LinkedRefinesFlat(native: u32 -> Option<Cpu -> Cpu>, extension: Extension, c: Cpu, start: u32, fuel: nat)
    requires RunsLinked(native, extension, c, start, fuel)
    ensures var isa := Isa(native, extension);
            var out := Interpreter.Interpret(isa, c, start, 0, fuel).cpu;
            Interpreter.Reaches(isa, Interpreter.At(isa, c, start), Interpreter.At(isa, out, isa.returnAddress(c)))
  {
    var isa := Isa(native, extension);
    hide Isa, AllSafe, Runs.Visits, Interpreter.Frame, Interpreter.Reaches;
    IsaDelaySafe(native, extension);
    AllSafeIsLinked(native, extension, Runs.Visits(isa, c, start, fuel));
    Runs.InterpretRefinesFlat(isa, c, start, fuel);
  }

  // The instruction at pc, if it is a jump that does not link and goes to a recompiled function,
  // is no return of its frame, and it and its delay slot keep the frame's return address in $31.
  predicate SafeTail(native: u32 -> Option<Cpu -> Cpu>, extension: Extension, c: Cpu, pc: u32, ret: u32) {
    match Decode(Fetch(c.mem, pc))
    case Jump(false, index) => native(JumpTarget(pc, index)).Some? ==> ReturnHeld(extension, c, pc, ret)
    case JumpReg(false, rs, _) =>
      native(Low(c.R(rs))).Some? ==> Low(c.R(rs)) != ret && ReturnHeld(extension, c, pc, ret)
    case _ => true
  }

  predicate ReturnHeld(extension: Extension, c: Cpu, pc: u32, ret: u32) {
    Low(c.R(31)) == ret && KeepsRa(extension, c, Fetch(c.mem, Wrap32(pc + 4)))
  }

  lemma SafeTailIsSafe(native: u32 -> Option<Cpu -> Cpu>, extension: Extension, c: Cpu, pc: u32, ret: u32)
    requires SafeTail(native, extension, c, pc, ret)
    ensures NativeCalls.TailSafe(Isa(native, extension), c, pc, ret)
  {
    hide Decode, Fetch, Exec, JumpTarget, KeepsRa, Low;
    if KeepsRa(extension, c, Fetch(c.mem, Wrap32(pc + 4))) { RaKept(extension, c, Fetch(c.mem, Wrap32(pc + 4))); }
  }

  // Every call an interpretation comes to is safe, and so is every plain jump to a recompiled
  // function.
  ghost predicate RunsSafely(native: u32 -> Option<Cpu -> Cpu>, extension: Extension, c: Cpu, start: u32, fuel: nat) {
    var tr := Runs.Visits(Isa(native, extension), c, start, fuel);
    && AllSafe(extension, tr)
    && forall i :: 0 <= i < |tr| ==> SafeTail(native, extension, tr[i].cpu, tr[i].pc, tr[i].ret)
  }

  // With recompiled functions: such an interpretation goes where the machine goes that runs each
  // of them whole and returns to $31. It returns with the machine at the entry return address in
  // the same state, fails where the machine comes to what the interpreter refuses, and otherwise
  // goes on for as long as there is fuel.
  lemma SafeRefinesNative(native: u32 -> Option<Cpu -> Cpu>, extension: Extension, c: Cpu, start: u32, fuel: nat)
    requires RunsSafely(native, extension, c, start, fuel)
    ensures var isa := Isa(native, extension);
            var s, tr := Interpreter.At(isa, c, start), Runs.Visits(isa, c, start, fuel);
            match Interpreter.Interpret(isa, c, start, 0, fuel)
            case Returned(out, _) => NativeCalls.Arrives(isa, s, Interpreter.At(isa, out, Low(c.R(31))))
            case Failed(out, _) => tr != [] && NativeCalls.StopsAt(isa, s, tr[|tr| - 1], out)
            case OutOfFuel => fuel > 0 ==> NativeCalls.Moved(isa, s, fuel - 1).Some?
  {
    var isa := Isa(native, extension);
    assert isa.returnAddress(c) == Low(c.R(31));
    var tr := Runs.Visits(isa, c, start, fuel);
    hide Isa, SafeTail, Runs.Visits, Interpreter.Frame, NativeCalls.Arrives, NativeCalls.StopsAt, NativeCalls.Moved;
    hide AllSafe, NativeCalls.TailSafe, Low, Runs.AllLinked, NativeCalls.AllFit;
    IsaDelaySafe(native, extension);
    AllSafeIsLinked(native, extension, tr);
    forall i | 0 <= i < |tr| ensures NativeCalls.TailSafe(isa, tr[i].cpu, tr[i].pc, tr[i].ret) {
      SafeTailIsSafe(native, extension, tr[i].cpu, tr[i].pc, tr[i].ret);
    }
    NativeCalls.LinkedFits(isa, c, start, fuel);
    NativeCalls.InterpretEnds(isa, c, start, fuel);
  }
}
