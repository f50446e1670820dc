// The interpreter's control loop (mips_interp.cpp, interpret): delay slots executed
// inline and calls recursing on the host stack, refined to a flat machine that has only
// a program counter and a next program counter. Both are written over any instruction
// set with one delay slot; R4300Isa.dfy supplies the R4300i.
module Interpreter {
  import opened Options

  // What the instruction at a program counter does to control. `linked` is the state
  // after the link register is written, which happens before the delay slot.
  datatype Control<+C, +P> =
    | Straight
    | Jump(linked: C, target: P, link: bool, viaRegister: bool)
    | Branch(linked: C, take: bool, likely: bool, target: P)

  datatype Isa<!C, !P> = Isa(
    native: P -> Option<C -> C>,       // recompiled functions by entry address
    control: (C, P) -> Control<C, P>,  // decode the instruction at P and read its operands
    exec: (C, P) -> Option<C>,         // run it as a non-control instruction
    next: P -> P,                      // the address of the following instruction
    aligned: P -> bool,
    returnAddress: C -> P)             // the address in the link register

  // A control transfer in a delay slot is refused.
  ghost predicate DelaySafe<C(!new), P(!new)>(isa: Isa<C, P>) {
    forall c: C, pc: P :: isa.exec(c, pc).Some? ==> isa.control(c, pc).Straight?
  }

  const MAX_DEPTH: nat := 256

  // `native` records that the run entered a recompiled function. A run the interpreter
  // refuses ends in the state it had reached; one that never returns exhausts every fuel.
  datatype Outcome<+C> =
    | OutOfFuel
    | Failed(cpu: C, native: bool)
    | Returned(cpu: C, native: bool)
  {
    predicate Plain() { Returned? && !native }

    function Noting(n: bool): Outcome<C> { if OutOfFuel? then this else this.(native := native || n) }
  }

  // What one trip round the loop does: stop, go on at another pc of this frame, or enter
  // another function, with the state after the delay slot.
  datatype Trip<+C, +P> =
    | Stuck(cpu: C)
    | Go(cpu: C, pc: P)
    | Return(cpu: C)
    | Enter(cpu: C, target: P, link: bool)

  function Loop<C, P(==)>(isa: Isa<C, P>, c: C, pc: P, ret: P): Trip<C, P> {
    match isa.control(c, pc)
    case Straight =>
      (match isa.exec(c, pc)
       case None => Stuck(c)
       case Some(c') => Go(c', isa.next(pc)))
    case Jump(c1, target, link, viaRegister) =>
      (match isa.exec(c1, isa.next(pc))
       case None => Stuck(c1)
       case Some(c') =>
         if viaRegister && !link && target == ret then Return(c') else Enter(c', target, link))
    case Branch(c1, take, likely, target) =>
      if likely && !take then Go(c1, isa.next(isa.next(pc)))
      else
        match isa.exec(c1, isa.next(pc))
        case None => Stuck(c1)
        case Some(c') => Go(c', if take then target else isa.next(isa.next(pc)))
  }

  // Interpret one function as a callee.
  function Interpret<C, P(==)>(isa: Isa<C, P>, c: C, start: P, depth: nat, fuel: nat): Outcome<C>
    decreases fuel, 1
  {
    if depth > MAX_DEPTH then Failed(c, false) else Frame(isa, c, start, isa.returnAddress(c), depth, fuel)
  }

  // The loop of one host-stack frame, from `pc` until control returns to `ret`. A transfer
  // enters a recompiled function when there is one; otherwise a call nests a frame and a
  // plain jump stays in this one.
  function Frame<C, P(==)>(isa: Isa<C, P>, c: C, pc: P, ret: P, depth: nat, fuel: nat): Outcome<C>
    decreases fuel, 0
  {
    if fuel == 0 then OutOfFuel
    else if !isa.aligned(pc) then Failed(c, false)
    else
      match Loop(isa, c, pc, ret)
      case Stuck(c') => Failed(c', false)
      case Return(c') => Returned(c', false)
      case Go(c', pc') => Frame(isa, c', pc', ret, depth, fuel - 1)
      case Enter(c1, target, link) =>
        var resume := isa.next(isa.next(pc));
        match isa.native(target)
        case Some(f) =>
          if link then Frame(isa, f(c1), resume, ret, depth, fuel - 1).Noting(true)
          else Returned(f(c1), true)
        case None =>
          if !link then Frame(isa, c1, target, ret, depth, fuel - 1)
          else
            var callee := Interpret(isa, c1, target, depth + 1, fuel - 1);
            if callee.Returned? then Frame(isa, callee.cpu, resume, ret, depth, fuel - 1).Noting(callee.native)
            else callee
  }

  // The fuel is only a bound: a frame that ends at all ends the same way with any more of it.
  lemma {:induction false} MoreFuel<C, P>(isa: Isa<C, P>, c: C, pc: P, ret: P, depth: nat,
                                             fuel: nat, more: nat)
    requires !Frame(isa, c, pc, ret, depth, fuel).OutOfFuel? && fuel <= more
    ensures Frame(isa, c, pc, ret, depth, more) == Frame(isa, c, pc, ret, depth, fuel)
    decreases fuel
  {
    if isa.aligned(pc) {
      match Loop(isa, c, pc, ret)
      case Stuck(_) =>
      case Return(_) =>
      case Go(c', pc') => MoreFuel(isa, c', pc', ret, depth, fuel - 1, more - 1);
      case Enter(c1, target, link) =>
        var resume := isa.next(isa.next(pc));
        match isa.native(target) {
          case Some(f) => if link { MoreFuel(isa, f(c1), resume, ret, depth, fuel - 1, more - 1); }
          case None =>
            if !link {
              MoreFuel(isa, c1, target, ret, depth, fuel - 1, more - 1);
            } else if depth < MAX_DEPTH {
              MoreFuel(isa, c1, target, isa.returnAddress(c1), depth + 1, fuel - 1, more - 1);
              var callee := Interpret(isa, c1, target, depth + 1, fuel - 1);
              if callee.Returned? {
                MoreFuel(isa, callee.cpu, resume, ret, depth, fuel - 1, more - 1);
              }
            }
        }
    }
  }

  // --- The interpreter as it runs, on a context it updates in place ---------------------

  datatype End = Finished | Refused | NoFuel

  class Host<C, P(==)> {
    const isa: Isa<C, P>
    var cpu: C
    var touchedNative: bool  // reported to a shadow diff in progress

    constructor (isa: Isa<C, P>, cpu: C)
      ensures this.isa == isa && this.cpu == cpu && !touchedNative
    {
      this.isa, this.cpu, touchedNative := isa, cpu, false;
    }

    // One trip round the loop, the delay slot included.
    method Step(pc: P, ret: P) returns (t: Trip<C, P>)
      modifies `cpu
      ensures t == Loop(isa, old(cpu), pc, ret) && cpu == t.cpu
    {
      match isa.control(cpu, pc)
      case Straight =>
        var r := isa.exec(cpu, pc);
        if r.None? { return Stuck(cpu); }
        cpu := r.value;
        return Go(cpu, isa.next(pc));
      case Branch(linked, take, likely, target) =>
        cpu := linked;
        if !likely || take {
          var r := isa.exec(cpu, isa.next(pc));
          if r.None? { return Stuck(cpu); }
          cpu := r.value;
        }
        return Go(cpu, if take then target else isa.next(isa.next(pc)));
      case Jump(linked, target, link, viaRegister) =>
        cpu := linked;
        var r := isa.exec(cpu, isa.next(pc));
        if r.None? { return Stuck(cpu); }
        cpu := r.value;
        return if viaRegister && !link && target == ret then Return(cpu) else Enter(cpu, target, link);
    }

    method Run(start: P, depth: nat, fuel: nat) returns (end: End)
      modifies this
      ensures match Interpret(isa, old(cpu), start, depth, fuel)
              case OutOfFuel => end == NoFuel
              case Failed(c, n) => end == Refused && cpu == c && touchedNative == (old(touchedNative) || n)
              case Returned(c, n) => end == Finished && cpu == c && touchedNative == (old(touchedNative) || n)
      decreases fuel
    {
      hide Loop;
      if depth > MAX_DEPTH { return Refused; }
      var ret := isa.returnAddress(cpu);
      var pc, left := start, fuel;
      ghost var native := false;
      while left > 0
        invariant 0 <= left <= fuel
        invariant Frame(isa, old(cpu), start, ret, depth, fuel) ==
                  Frame(isa, cpu, pc, ret, depth, left).Noting(native)
        invariant touchedNative == (old(touchedNative) || native)
      {
        if !isa.aligned(pc) { return Refused; }
        left := left - 1;
        var t := Step(pc, ret);
        match t
        case Stuck(_) => return Refused;
        case Return(_) => return Finished;
        case Go(_, pc') => pc := pc';
        case Enter(_, target, link) =>
          var f := isa.native(target);
          var resume := isa.next(isa.next(pc));
          if f.Some? {
            touchedNative, native := true, true;
            cpu := f.value(cpu);
            if !link { return Finished; }
            pc := resume;
          } else if link {
            ghost var callee := Interpret(isa, cpu, target, depth + 1, left);
            var inner := Run(target, depth + 1, left);
            if inner != Finished { return inner; }
            native := native || callee.native;
            pc := resume;
          } else {
            pc := target;
          }
      }
      return NoFuel;
    }
  }

  // --- The flat machine ---------------------------------------------------------------

  datatype Flat<+C, +P> = Flat(cpu: C, pc: P, npc: P)

  // At `pc` with nothing pending in a delay slot.
  function At<C, P>(isa: Isa<C, P>, c: C, pc: P): Flat<C, P> { Flat(c, pc, isa.next(pc)) }

  // One instruction: execute at pc, move npc into pc, and let a taken branch or jump
  // redirect only the new npc, so the instruction after it still executes. A likely branch
  // that is not taken annuls that instruction.
  function FlatStep<C, P>(isa: Isa<C, P>, s: Flat<C, P>): Option<Flat<C, P>> {
    match isa.control(s.cpu, s.pc)
    case Straight =>
      (match isa.exec(s.cpu, s.pc)
       case None => None
       case Some(c') => Some(At(isa, c', s.npc)))
    case Jump(c1, target, _, _) => Some(Flat(c1, s.npc, target))
    case Branch(c1, take, likely, target) =>
      if take then Some(Flat(c1, s.npc, target))
      else if likely then Some(At(isa, c1, isa.next(s.npc)))
      else Some(At(isa, c1, s.npc))
  }

  function FlatRun<C, P>(isa: Isa<C, P>, s: Flat<C, P>, n: nat): Option<Flat<C, P>>
    decreases n
  {
    if n == 0 then Some(s)
    else match FlatStep(isa, s) case None => None case Some(s') => FlatRun(isa, s', n - 1)
  }

  lemma {:induction false} FlatRunSplit<C, P>(isa: Isa<C, P>, s: Flat<C, P>, m: nat, n: nat)
    requires FlatRun(isa, s, m).Some?
    ensures FlatRun(isa, s, m + n) == FlatRun(isa, FlatRun(isa, s, m).value, n)
    decreases m
  {
    if m > 0 { FlatRunSplit(isa, FlatStep(isa, s).value, m - 1, n); }
  }

  ghost predicate Reaches<C, P>(isa: Isa<C, P>, s: Flat<C, P>, t: Flat<C, P>) {
    exists n: nat :: FlatRun(isa, s, n) == Some(t)
  }

  lemma ReachesTrans<C, P>(isa: Isa<C, P>, s: Flat<C, P>, t: Flat<C, P>, u: Flat<C, P>)
    requires Reaches(isa, s, t) && Reaches(isa, t, u)
    ensures Reaches(isa, s, u)
  {
    var n: nat :| FlatRun(isa, s, n) == Some(t);
    var m: nat :| FlatRun(isa, t, m) == Some(u);
    FlatRunSplit(isa, s, n, m);
  }

  // The flat machine after the instruction at pc together with its delay slot, if it has one.
  function Lands<C, P>(isa: Isa<C, P>, c: C, pc: P): Option<Flat<C, P>> {
    var steps := match isa.control(c, pc)
                 case Straight => 1
                 case Jump(_, _, _, _) => 2
                 case Branch(_, take, likely, _) => if likely && !take then 1 else 2;
    FlatRun(isa, At(isa, c, pc), steps)
  }

  // Where a trip goes on.
  function Landing<C, P>(isa: Isa<C, P>, t: Trip<C, P>, ret: P): Flat<C, P>
    requires !t.Stuck?
  {
    match t
    case Go(c, pc) => At(isa, c, pc)
    case Return(c) => At(isa, c, ret)
    case Enter(c, target, _) => At(isa, c, target)
  }

  // One trip of the loop is one or two steps of the flat machine.
  lemma LoopIsFlat<C(!new), P(!new)>(isa: Isa<C, P>, c: C, pc: P, ret: P)
    requires DelaySafe(isa) && !Loop(isa, c, pc, ret).Stuck?
    ensures Lands(isa, c, pc) == Some(Landing(isa, Loop(isa, c, pc, ret), ret))
  {
    var s' := FlatStep(isa, At(isa, c, pc)).value;
    assert FlatRun(isa, s', 0) == Some(s');
    if isa.control(c, pc).Jump? || (isa.control(c, pc).Branch? && s'.pc == isa.next(pc)) {
      assert FlatRun(isa, s', 1) == FlatStep(isa, s');
    }
  }

  // The instruction at pc executes, and so does its delay slot unless it has none or a likely
  // branch annuls it.
  predicate Executes<C, P>(isa: Isa<C, P>, c: C, pc: P) {
    match isa.control(c, pc)
    case Straight => isa.exec(c, pc).Some?
    case Jump(c1, _, _, _) => isa.exec(c1, isa.next(pc)).Some?
    case Branch(c1, take, likely, _) => (likely && !take) || isa.exec(c1, isa.next(pc)).Some?
  }

  // A trip gets stuck exactly when they do not, where the flat machine comes to what fails.
  lemma StuckIs<C, P>(isa: Isa<C, P>, c: C, pc: P, ret: P)
    ensures Loop(isa, c, pc, ret).Stuck? <==> !Executes(isa, c, pc)
    ensures Loop(isa, c, pc, ret).Stuck? ==>
              Loop(isa, c, pc, ret).cpu == match FlatStep(isa, At(isa, c, pc)) case None => c case Some(s') => s'.cpu
  {}

  // --- Where the flat machine cannot go -----------------------------------------------------

  // A set of states closed under the machine's step confines it.
  lemma {:induction false} Confined<C(!new), P(!new)>(isa: Isa<C, P>, inside: set<Flat<C, P>>, s: Flat<C, P>, n: nat)
    requires s in inside
    requires forall u :: u in inside && FlatStep(isa, u).Some? ==> FlatStep(isa, u).value in inside
    ensures FlatRun(isa, s, n).Some? ==> FlatRun(isa, s, n).value in inside
    decreases n
  {
    if n > 0 && FlatStep(isa, s).Some? { Confined(isa, inside, FlatStep(isa, s).value, n - 1); }
  }
}
