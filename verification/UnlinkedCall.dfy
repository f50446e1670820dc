// A call that links through a register other than $31: the interpreter takes the callee's
// return for its own and resumes after the call, where the machine leaves the function.
module UnlinkedCall {
  import opened Options
  import opened Words
  import opened R4300
  import opened R4300Isa
  import opened Encoding
  import Rdram
  import I = Interpreter
  import Runs = InterpreterRuns

  // --- The program ----------------------------------------------------------------------------

  //  0: jalr $5, $4     8: addiu $2, $0, 1    20: jr $31
  //  4: nop            12: jr $31             24: nop
  //                    16: nop                28: no instruction
  predicate Program(m: seq<byte>) {
    && Decode(Fetch(m, 0)) == JumpReg(true, 4, 5)
    && Decode(Fetch(m, 8)) == Imm(AddIu, 2, 0, 1)
    && Decode(Fetch(m, 12)) == Decode(Fetch(m, 20)) == JumpReg(false, 31, 0)
    && Decode(Fetch(m, 4)) == Decode(Fetch(m, 16)) == Decode(Fetch(m, 24)) == Shift(Sll, 0, 0, 0)
    && Decode(Fetch(m, 28)) == Unimplemented
  }

  function Code(): seq<u32> {
    [Encode(JumpReg(true, 4, 5)), 0, Encode(Imm(AddIu, 2, 0, 1)), Encode(JumpReg(false, 31, 0)), 0,
     Encode(JumpReg(false, 31, 0)), 0, IType(0x13, 0, 0, 0)]
  }

  // Byte j of a word, the least significant first.
  function Digit(w: u32, j: nat): byte {
    if j == 0 then w % 0x100 else if j == 1 then w / 0x100 % 0x100
    else if j == 2 then w / 0x1_0000 % 0x100 else w / 0x100_0000
  }

  function Assemble(words: seq<u32>): seq<byte> {
    seq(4 * |words|, i requires 0 <= i < 4 * |words| => Digit(words[i / 4], i % 4))
  }

  lemma AssembledByte(words: seq<u32>, k: nat, j: nat)
    requires k < |words| && j < 4
    ensures Rdram.Get(Assemble(words), 4 * k + j) == Digit(words[k], j)
  {
    hide Digit;
    assert (4 * k + j) / 4 == k && (4 * k + j) % 4 == j;
  }

  lemma Assembled(words: seq<u32>, k: nat)
    requires k < |words| && 4 * |words| <= MEM_SIZE
    ensures Fetch(Assemble(words), 4 * k) == words[k]
  {
    hide Digit, Assemble, Rdram.Get;
    AssembledByte(words, k, 0);
    AssembledByte(words, k, 1);
    AssembledByte(words, k, 2);
    AssembledByte(words, k, 3);
    Digits(words[k]);
  }

  lemma Digits(w: u32)
    ensures w == Digit(w, 0) + Digit(w, 1) * 0x100 + Digit(w, 2) * 0x1_0000 + Digit(w, 3) * 0x100_0000
  {
    Rdram.WordBytes(w);
  }

  lemma Listing(k: nat)
    requires k < 8
    ensures Fetch(Assemble(Code()), 4 * k) == Code()[k]
  {
    hide Fetch, Assemble, Encode, IType;
    Assembled(Code(), k);
  }

  lemma Idle()
    ensures Decode(0) == Shift(Sll, 0, 0, 0)
  {}

  // There is such a program.
  lemma ProgramExists()
    ensures Program(Assemble(Code()))
  {
    hide Fetch, Assemble, Encode, Decode, IType;
    Listing(0); Listing(1); Listing(2); Listing(3); Listing(4); Listing(5); Listing(6); Listing(7);
    Decoded();
  }

  lemma Decoded()
    ensures Decode(Encode(JumpReg(true, 4, 5))) == JumpReg(true, 4, 5)
    ensures Decode(Encode(Imm(AddIu, 2, 0, 1))) == Imm(AddIu, 2, 0, 1)
    ensures Decode(Encode(JumpReg(false, 31, 0))) == JumpReg(false, 31, 0)
    ensures Decode(IType(0x13, 0, 0, 0)) == Unimplemented && Decode(0) == Shift(Sll, 0, 0, 0)
  {
    Idle();
    hide Encode, Decode, IType;
    DecodeEncode(JumpReg(true, 4, 5));
    DecodeEncode(Imm(AddIu, 2, 0, 1));
    DecodeEncode(JumpReg(false, 31, 0));
    ImmediateDecodes(0x13, 0, 0, 0);
  }

  // --- What each instruction does -------------------------------------------------------------

  // Entering the function at 0 with return address 28.
  predicate Entering(c: Cpu) {
    Program(c.mem) && c.R(0) == 0 && c.R(2) == 0 && c.R(4) == 20 && c.R(31) == 28
  }

  // After the call, and after the instruction the machine never comes to.
  function Called(c: Cpu): Cpu { c.Set(5, 8) }
  function Resumed(c: Cpu): Cpu { Called(c).Set(2, 1) }

  lemma Registers(c: Cpu)
    requires Entering(c)
    ensures Called(c).mem == Resumed(c).mem == c.mem
    ensures Called(c).R(31) == Resumed(c).R(31) == 28
    ensures Called(c).R(0) == 0 && Called(c).R(2) == 0 && Resumed(c).R(2) == 1
  {
    hide Program;
  }

  lemma Idles(c: Cpu)
    ensures Effect(c, Shift(Sll, 0, 0, 0)) == c
  {
    hide ExecShift;
  }

  lemma Nop(native: u32 -> Option<Cpu -> Cpu>, extension: Extension, c: Cpu, pc: u32)
    requires Program(c.mem) && (pc == 4 || pc == 16 || pc == 24)
    ensures Exec(extension, c, Fetch(c.mem, pc)) == Some(c)
    ensures Isa(native, extension).exec(c, pc) == Some(c) && Isa(native, extension).control(c, pc).Straight?
  {
    hide Fetch, Decode, Effect;
    Idles(c);
  }

  lemma Small()
    ensures Low(20) == 20 && Low(28) == 28 && Sx(8) == 8 && ExecImm(AddIu, 0, 1) == 1
  {}

  lemma CallTrip(native: u32 -> Option<Cpu -> Cpu>, extension: Extension, c: Cpu)
    requires Entering(c)
    ensures var isa := Isa(native, extension);
            && isa.control(c, 0) == I.Jump(Called(c), 20, true, true)
            && I.Loop(isa, c, 0, 28) == I.Enter(Called(c), 20, true)
  {
    hide Fetch, Decode, Exec, Isa, I.Loop, Low, Sx;
    Registers(c);
    Small();
    Nop(native, extension, Called(c), 4);
    JumpRegTrip(native, extension, c, 0, 28, true, 4, 5, Called(c));
  }

  // The call links through $5, and $31 holds something else.
  lemma NotLinked(native: u32 -> Option<Cpu -> Cpu>, extension: Extension, c: Cpu)
    requires Entering(c)
    ensures !Runs.LinkedAt(Isa(native, extension), c, 0)
  {
    hide Fetch, Decode, Exec, Effect, Low, Sx, Called;
    Registers(c);
    Small();
    Nop(native, extension, Called(c), 4);
    assert Link(c, true, 5, 0) == Called(c) by { CallTrip(native, extension, c); }
    CallIsLinked(native, extension, c, 0, 5);
  }

  lemma ReturnTrip(native: u32 -> Option<Cpu -> Cpu>, extension: Extension, c: Cpu, pc: u32)
    requires Program(c.mem) && c.R(31) == 28 && (pc == 12 || pc == 20)
    ensures var isa := Isa(native, extension);
            && isa.control(c, pc) == I.Jump(c, 28, false, true)
            && I.Loop(isa, c, pc, 28) == I.Return(c)
  {
    hide Fetch, Decode, Exec, Isa, I.Loop, Low, Sx;
    Small();
    Nop(native, extension, c, pc + 4);
    JumpRegTrip(native, extension, c, pc, 28, false, 31, 0, c);
  }

  lemma AddTrip(native: u32 -> Option<Cpu -> Cpu>, extension: Extension, c: Cpu)
    requires Entering(c)
    ensures I.Loop(Isa(native, extension), Called(c), 8, 28) == I.Go(Resumed(c), 12)
  {
    hide Fetch, Decode, Isa, I.Loop, ExecImm;
    Registers(c);
    Small();
    StraightTrip(native, extension, Called(c), 8, 28);
  }

  lemma Stops(native: u32 -> Option<Cpu -> Cpu>, extension: Extension, c: Cpu)
    requires Program(c.mem)
    ensures I.FlatStep(Isa(native, extension), I.At(Isa(native, extension), c, 28)).None?
  {
    hide Fetch, Decode;
  }

  // --- The interpreter and the machine ----------------------------------------------------------

  lemma Addresses(native: u32 -> Option<Cpu -> Cpu>, extension: Extension, c: Cpu)
    requires c.R(31) == 28
    ensures var isa := Isa(native, extension);
            && isa.returnAddress(c) == 28 && isa.next(0) == 4 && isa.next(4) == 8 && isa.next(20) == 24
            && isa.aligned(0) && isa.aligned(8) && isa.aligned(12) && isa.aligned(20)
            && isa.native == native
  {}

  lemma Interpreted(native: u32 -> Option<Cpu -> Cpu>, extension: Extension, c: Cpu, fuel: nat)
    requires Entering(c) && native(20).None? && fuel > 2
    ensures I.Interpret(Isa(native, extension), c, 0, 0, fuel) == I.Returned(Resumed(c), false)
  {
    var isa := Isa(native, extension);
    hide Called, Resumed, I.Loop, Program, Isa;
    Registers(c);
    Addresses(native, extension, c);
    Addresses(native, extension, Called(c));
    CallTrip(native, extension, c);
    ReturnTrip(native, extension, Called(c), 20);
    AddTrip(native, extension, c);
    ReturnTrip(native, extension, Resumed(c), 12);
    assert I.Interpret(isa, Called(c), 20, 1, fuel - 1) == I.Returned(Called(c), false);
    assert I.Frame(isa, Resumed(c), 12, 28, 0, fuel - 2) == I.Returned(Resumed(c), false);
    assert I.Frame(isa, Called(c), 8, 28, 0, fuel - 1) == I.Returned(Resumed(c), false);
    assert I.Frame(isa, c, 0, 28, 0, fuel) == I.Returned(Resumed(c), false);
  }

  // The machine's whole run from the entry on.
  ghost function Visited(isa: I.Isa<Cpu, u32>, c: Cpu): set<I.Flat<Cpu, u32>> {
    {I.At(isa, c, 0), I.Flat(Called(c), 4, 20), I.At(isa, Called(c), 20), I.Flat(Called(c), 24, 28),
     I.At(isa, Called(c), 28)}
  }

  lemma SlotStep(native: u32 -> Option<Cpu -> Cpu>, extension: Extension, c: Cpu, pc: u32, npc: u32)
    requires Program(c.mem) && (pc == 4 || pc == 24)
    ensures I.FlatStep(Isa(native, extension), I.Flat(c, pc, npc)) == Some(I.At(Isa(native, extension), c, npc))
  {
    hide Fetch, Decode, Exec, Program, Isa;
    Nop(native, extension, c, pc);
  }

  lemma Executed(native: u32 -> Option<Cpu -> Cpu>, extension: Extension, c: Cpu, u: I.Flat<Cpu, u32>)
    requires Entering(c) && u in Visited(Isa(native, extension), c)
    ensures var next := I.FlatStep(Isa(native, extension), u);
            next.Some? ==> next.value in Visited(Isa(native, extension), c)
  {
    var isa := Isa(native, extension);
    hide Called, Isa, Program, I.Loop;
    Registers(c);
    Addresses(native, extension, c);
    CallTrip(native, extension, c);
    SlotStep(native, extension, Called(c), 4, 20);
    ReturnTrip(native, extension, Called(c), 20);
    SlotStep(native, extension, Called(c), 24, 28);
    Stops(native, extension, Called(c));
  }

  // The interpreter returns with $2 = 1, and the machine, which leaves the function with
  // $2 = 0, never comes to that state.
  lemma InterpreterDiverges(native: u32 -> Option<Cpu -> Cpu>, extension: Extension, c: Cpu, fuel: nat)
    requires Entering(c) && native(20).None? && fuel > 2
    ensures var isa := Isa(native, extension);
            && I.Interpret(isa, c, 0, 0, fuel) == I.Returned(Resumed(c), false)
            && !I.Reaches(isa, I.At(isa, c, 0), I.At(isa, Resumed(c), isa.returnAddress(c)))
            && !Runs.LinkedAt(isa, c, 0)
  {
    var isa := Isa(native, extension);
    NotLinked(native, extension, c);
    Interpreted(native, extension, c, fuel);
    Registers(c);
    NotVisited(isa, c);
    hide Visited, Entering, Called, Resumed, Isa, I.FlatStep;
    var t := I.At(isa, Resumed(c), isa.returnAddress(c));
    forall u | u in Visited(isa, c) && I.FlatStep(isa, u).Some? ensures I.FlatStep(isa, u).value in Visited(isa, c) {
      Executed(native, extension, c, u);
    }
    forall n: nat ensures I.FlatRun(isa, I.At(isa, c, 0), n) != Some(t) {
      I.Confined(isa, Visited(isa, c), I.At(isa, c, 0), n);
    }
  }

  lemma NotVisited(isa: I.Isa<Cpu, u32>, c: Cpu)
    requires Entering(c)
    ensures I.At(isa, c, 0) in Visited(isa, c)
    ensures forall u :: u in Visited(isa, c) ==> u.cpu.R(2) == 0
    ensures Resumed(c).R(2) == 1
  {
    Registers(c);
    hide Program, Called, Resumed;
  }
}
