// Whole runs of 32-bit code: the interpreter's machine and the 32-bit reference machine
// go through corresponding states.
module NarrowRuns {
  import opened Options
  import opened Words
  import opened R4300
  import opened R4300Isa
  import opened Reference32
  import opened Narrowing
  import I = Interpreter

  type Machine = I.Flat<Cpu, u32>

  // The instruction about to execute is 32-bit code with defined behaviour.
  predicate Ready(s: Machine) {
    s.pc % 4 == 0 && ReadyFor(s.cpu, Decode(Fetch(s.cpu.mem, s.pc)))
  }

  predicate ReadyFor(c: Cpu, i: Insn) {
    Narrow(i) &&
    match i
    case MulDiv(op, rs, rt) => !(op.Div? && Signed32(Low(c.R(rs))) == -0x8000_0000 && Signed32(Low(c.R(rt))) == -1)
    case Load(op, _, rs, imm) => Natural(op.Lw?, op.Lh? || op.Lhu?, c.Address(rs, imm))
    case Store(op, _, rs, imm) => Natural(op.Sw?, op.Sh?, c.Address(rs, imm))
    case StoreCond(_, rs, imm) => Natural(true, false, c.Address(rs, imm))
    case Alu(Add, _, rs, rt) => Representable(Signed32(Low(c.R(rs))) + Signed32(Low(c.R(rt))))
    case Alu(Sub, _, rs, rt) => Representable(Signed32(Low(c.R(rs))) - Signed32(Low(c.R(rt))))
    case Imm(AddI, _, rs, imm) => Representable(Signed32(Low(c.R(rs))) + Signed16(imm))
    case Trap(op, rs, rt) => !RefTraps(op, Low(c.R(rs)), Low(c.R(rt)))
    case _ => true
  }

  ghost predicate Corresponds(s: Machine, t: State32) {
    s.pc == t.pc && s.npc == t.npc && Sim(s.cpu, t.cpu)
  }

  lemma ReadyIsDefined(c: Cpu, d: Cpu32, i: Insn)
    requires Sim(c, d) && ReadyFor(c, i)
    ensures Defined(d, i)
  {
    if i.Load? || i.Store? || i.StoreCond? { AddressSim(c, d, i.rs, i.imm); }
    if i.MulDiv? || i.Alu? || i.Trap? { SxLow(d.R(i.rs)); SxLow(d.R(i.rt)); }
    if i.Imm? { SxLow(d.R(i.rs)); }
  }

  lemma FetchSim(s: Machine, t: State32)
    requires Corresponds(s, t) && s.pc % 4 == 0
    ensures FetchInsn(t) == Decode(Fetch(s.cpu.mem, s.pc))
  {
    hide Decode;
    WordSim(s.cpu.mem, t.cpu.mem, s.pc % MEM_SIZE);
  }

  lemma LinkSim(c: Cpu, d: Cpu32, link: bool, rd: Reg, pc: u32)
    requires Sim(c, d)
    ensures Sim(Link(c, link, rd, pc), RefLink(d, link, rd, Wrap32(pc + 4)))
  {
    assert Wrap32(Wrap32(pc + 4) + 4) == Wrap32(pc + 8);
    if link { SetSim(c, d, rd, Wrap32(pc + 8)); }
  }

  lemma RegisterSim(c: Cpu, d: Cpu32, i: Reg)
    requires Sim(c, d)
    ensures c.R(i) == Sx(d.R(i))
  {}

  lemma JumpTargetSim(slot: u32, pc: u32, index: u26)
    requires slot == Wrap32(pc + 4)
    ensures JumpTarget(pc, index) == RefJumpTarget(slot, index)
  {
    var region := slot / 0x1000_0000;
    assert region < 16 && slot - slot % 0x1000_0000 == region * 0x1000_0000;
  }

  lemma BranchTargetSim(pc: u32, imm: u16)
    ensures BranchTarget(pc, imm) == Wrap32(Wrap32(pc + 4) + Signed16(imm) * 4)
    ensures Wrap32(Wrap32(pc + 4) + 4) == Wrap32(pc + 8)
  {
    hide Wrap32;
    WrapPlus(pc + 4, Signed16(imm) * 4);
    WrapPlus(pc + 4, 4);
  }

  // The interpreter's step, instruction by instruction.
  lemma FlatStepIs(native: u32 -> Option<Cpu -> Cpu>, extension: Extension, s: Machine, i: Insn)
    requires i == Decode(Fetch(s.cpu.mem, s.pc)) && ReadyFor(s.cpu, i)
    ensures I.FlatStep(Isa(native, extension), s) == Some(
              var c, next := s.cpu, Wrap32(s.npc + 4);
              if i.Jump? then I.Flat(Link(c, i.link, 31, s.pc), s.npc, JumpTarget(s.pc, i.index))
              else if i.JumpReg? then I.Flat(Link(c, i.link, i.rd, s.pc), s.npc, Low(c.R(i.rs)))
              else if i.Branch? then
                var c' := Link(c, i.link, 31, s.pc);
                if Holds(i.cond, c.R(i.rs), c.R(i.rt)) then I.Flat(c', s.npc, BranchTarget(s.pc, i.imm))
                else if i.likely then I.Flat(c', next, Wrap32(next + 4))
                else I.Flat(c', s.npc, next)
              else I.Flat(Effect(c, i), s.npc, next))
  {
    hide Decode, Effect, Link, JumpTarget, BranchTarget, Holds, Fetch, Low;
  }

  // One step of the flat interpreter machine is one step of the reference machine.
  lemma StepSim(native: u32 -> Option<Cpu -> Cpu>, extension: Extension, s: Machine, t: State32)
    returns (t': State32)
    requires Corresponds(s, t) && Ready(s)
    ensures I.FlatStep(Isa(native, extension), s).Some? && Narrow(FetchInsn(t)) && RefStep(t, t')
    ensures Corresponds(I.FlatStep(Isa(native, extension), s).value, t')
  {
    FetchSim(s, t);
    var i := FetchInsn(t);
    FlatStepIs(native, extension, s, i);
    ReadyIsDefined(s.cpu, t.cpu, i);
    hide Decode, Fetch, ReadWord, JumpTarget, BranchTarget, Link, Holds, RefHolds, Effect, RefEffect;
    hide RefStep, I.FlatStep, Isa, Sim, FetchInsn, Defined;
    if i.Jump? {
      t' := JumpSim(s, t, i.link, i.index);
    } else if i.JumpReg? {
      t' := JumpRegSim(s, t, i.link, i.rs, i.rd);
    } else if i.Branch? {
      t' := BranchSim(s, t, i.cond, i.likely, i.link, i.rs, i.rt, i.imm);
    } else {
      t' := OrdinarySim(s, t, i);
    }
  }

  lemma OrdinarySim(s: Machine, t: State32, i: Insn) returns (t': State32)
    requires Corresponds(s, t) && t.pc % 4 == 0 && FetchInsn(t) == i
    requires Ordinary(i) && Narrow(i) && Defined(t.cpu, i)
    ensures RefStep(t, t') && Corresponds(I.Flat(Effect(s.cpu, i), s.npc, Wrap32(s.npc + 4)), t')
  {
    hide FetchInsn, Sim, Effect, RefEffect, Defined, Wrap32;
    var d' := EffectSim(s.cpu, t.cpu, i);
    t' := State32(d', t.npc, Wrap32(t.npc + 4));
  }

  lemma JumpSim(s: Machine, t: State32, link: bool, index: u26) returns (t': State32)
    requires Corresponds(s, t) && t.pc % 4 == 0 && FetchInsn(t) == Jump(link, index)
    ensures RefStep(t, t')
    ensures Corresponds(I.Flat(Link(s.cpu, link, 31, s.pc), s.npc, JumpTarget(s.pc, index)), t')
  {
    hide FetchInsn, Sim, Link, JumpTarget, RefJumpTarget, Wrap32, RefLink;
    LinkSim(s.cpu, t.cpu, link, 31, s.pc);
    var slot := Wrap32(t.pc + 4);
    JumpTargetSim(slot, s.pc, index);
    t' := State32(RefLink(t.cpu, link, 31, slot), t.npc, RefJumpTarget(slot, index));
  }

  lemma JumpRegSim(s: Machine, t: State32, link: bool, rs: Reg, rd: Reg) returns (t': State32)
    requires Corresponds(s, t) && t.pc % 4 == 0 && FetchInsn(t) == JumpReg(link, rs, rd)
    ensures RefStep(t, t')
    ensures Corresponds(I.Flat(Link(s.cpu, link, rd, s.pc), s.npc, Low(s.cpu.R(rs))), t')
  {
    hide FetchInsn, Sim, Link, Wrap32, RefLink;
    LinkSim(s.cpu, t.cpu, link, rd, s.pc);
    RegisterSim(s.cpu, t.cpu, rs);
    SxLow(t.cpu.R(rs));
    t' := State32(RefLink(t.cpu, link, rd, Wrap32(t.pc + 4)), t.npc, t.cpu.R(rs));
  }

  lemma BranchSim(s: Machine, t: State32, cond: Cond, likely: bool, link: bool, rs: Reg, rt: Reg, imm: u16)
    returns (t': State32)
    requires Corresponds(s, t) && t.pc % 4 == 0 && FetchInsn(t) == Branch(cond, likely, link, rs, rt, imm)
    ensures RefStep(t, t')
    ensures Corresponds(
              var c', next := Link(s.cpu, link, 31, s.pc), Wrap32(s.npc + 4);
              if Holds(cond, s.cpu.R(rs), s.cpu.R(rt)) then I.Flat(c', s.npc, BranchTarget(s.pc, imm))
              else if likely then I.Flat(c', next, Wrap32(next + 4))
              else I.Flat(c', s.npc, next), t')
  {
    hide FetchInsn, Sim, Link, Holds, RefHolds, BranchTarget, Wrap32, RefLink;
    LinkSim(s.cpu, t.cpu, link, 31, s.pc);
    RegisterSim(s.cpu, t.cpu, rs);
    RegisterSim(s.cpu, t.cpu, rt);
    HoldsSim(cond, t.cpu.R(rs), t.cpu.R(rt));
    BranchTargetSim(s.pc, imm);
    BranchTargetSim(s.npc, 0);
    var slot := Wrap32(t.pc + 4);
    t' := RefBranch(RefLink(t.cpu, link, 31, slot), t, RefHolds(cond, t.cpu.R(rs), t.cpu.R(rt)), likely,
                    Wrap32(slot + Signed16(imm) * 4));
  }

  // The first n states of the run are ready.
  ghost predicate NarrowRun(isa: I.Isa<Cpu, u32>, s: Machine, n: nat)
    decreases n
  {
    n > 0 ==> Ready(s) && (I.FlatStep(isa, s).Some? ==> NarrowRun(isa, I.FlatStep(isa, s).value, n - 1))
  }

  ghost predicate RefRun(t: State32, u: State32, n: nat)
    decreases n
  {
    if n == 0 then t == u
    else Narrow(FetchInsn(t)) && exists t': State32 :: RefStep(t, t') && RefRun(t', u, n - 1)
  }

  // A run of n steps over 32-bit code never gets stuck, is a run of the reference machine,
  // and ends with every register, hi and lo holding a sign-extended word.
  lemma {:induction false} RunSim(native: u32 -> Option<Cpu -> Cpu>, extension: Extension,
                                  s: Machine, t: State32, n: nat) returns (u: State32)
    requires Corresponds(s, t) && NarrowRun(Isa(native, extension), s, n)
    ensures RefRun(t, u, n) && I.FlatRun(Isa(native, extension), s, n).Some?
    ensures Corresponds(I.FlatRun(Isa(native, extension), s, n).value, u)
    decreases n
  {
    u := t;
    hide RefStep, Ready, Sim;
    if n > 0 {
      var t' := StepSim(native, extension, s, t);
      u := RunSim(native, extension, I.FlatStep(Isa(native, extension), s).value, t', n - 1);
    }
  }

  // The reference machine gets from t, in n steps, to `ret` in a state that out simulates.
  ghost predicate RefReturns(t: State32, n: nat, out: Cpu, ret: u32) {
    exists d: Cpu32 :: Sim(out, d) && RefRun(t, State32(d, ret, Wrap32(ret + 4)), n)
  }

  // The interpreter against the architecture: a function it interprets to completion, in n
  // flat steps, is an n-step run of the 32-bit machine from the same entry to the caller's
  // return address, as long as its calls link through $31 and those steps are 32-bit code.
  lemma InterpretIsReferenceRun(native: u32 -> Option<Cpu -> Cpu>, extension: Extension,
                                c: Cpu, d: Cpu32, start: u32, fuel: nat) returns (n: nat)
    requires Sim(c, d) && RunsLinked(native, extension, c, start, fuel)
    ensures var isa := Isa(native, extension);
            var out := I.Interpret(isa, c, start, 0, fuel).cpu;
            && I.FlatRun(isa, I.At(isa, c, start), n) == Some(I.At(isa, out, d.R(31)))
            && (NarrowRun(isa, I.At(isa, c, start), n) ==>
                RefReturns(State32(d, start, Wrap32(start + 4)), n, out, d.R(31)))
  {
    var isa := Isa(native, extension);
    var out := I.Interpret(isa, c, start, 0, fuel).cpu;
    RegisterSim(c, d, 31);
    SxLow(d.R(31));
    LinkedRefinesFlat(native, extension, c, start, fuel);
    n :| I.FlatRun(isa, I.At(isa, c, start), n) == Some(I.At(isa, out, d.R(31)));
    if NarrowRun(isa, I.At(isa, c, start), n) {
      ReturnSim(native, extension, c, d, start, n, out);
    }
  }

  lemma ReturnSim(native: u32 -> Option<Cpu -> Cpu>, extension: Extension,
                  c: Cpu, d: Cpu32, start: u32, n: nat, out: Cpu)
    requires Sim(c, d) && NarrowRun(Isa(native, extension), I.At(Isa(native, extension), c, start), n)
    requires I.FlatRun(Isa(native, extension), I.At(Isa(native, extension), c, start), n) ==
             Some(I.At(Isa(native, extension), out, d.R(31)))
    ensures RefReturns(State32(d, start, Wrap32(start + 4)), n, out, d.R(31))
  {
    hide Sim, RefRun, NarrowRun, I.FlatRun;
    var u := RunSim(native, extension, I.At(Isa(native, extension), c, start),
                    State32(d, start, Wrap32(start + 4)), n);
    assert u == State32(u.cpu, d.R(31), Wrap32(d.R(31) + 4));
  }
}
