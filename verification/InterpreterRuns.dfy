// The runs of the interpreter's control loop, trip by trip: what they refuse, and when they
// follow the flat machine.
module InterpreterRuns {
  import opened Options
  import opened Interpreter

  // --- The positions an interpretation passes through ------------------------------------

  // The start of a trip: the state and the pc, the address its frame takes for a return, the
  // address the frame's caller resumes at, and the depth.
  datatype Visit<+C, +P> = Visit(cpu: C, pc: P, ret: P, home: P, depth: nat)

  // The trips of a run, those of nested calls included, in order.
  function Trace<C, P(==)>(isa: Isa<C, P>, c: C, pc: P, ret: P, home: P, depth: nat, fuel: nat)
    : (tr: seq<Visit<C, P>>)
    ensures fuel > 0 ==> tr != [] && tr[0] == Visit(c, pc, ret, home, depth)
    decreases fuel
  {
    if fuel == 0 then []
    else
      [Visit(c, pc, ret, home, depth)] +
      if !isa.aligned(pc) then []
      else
        match Loop(isa, c, pc, ret)
        case Stuck(_) => []
        case Return(_) => []
        case Go(c', pc') => Trace(isa, c', pc', ret, home, depth, fuel - 1)
        case Enter(c1, target, link) =>
          var resume := isa.next(isa.next(pc));
          match isa.native(target)
          case Some(f) => if link then Trace(isa, f(c1), resume, ret, home, depth, fuel - 1) else []
          case None =>
            if !link then Trace(isa, c1, target, ret, home, depth, fuel - 1)
            else if depth >= MAX_DEPTH then []
            else
              var callee := Interpret(isa, c1, target, depth + 1, fuel - 1);
              Trace(isa, c1, target, isa.returnAddress(c1), resume, depth + 1, fuel - 1) +
              if callee.Returned? then Trace(isa, callee.cpu, resume, ret, home, depth, fuel - 1) else []
  }

  // The trips of a whole interpretation.
  function Visits<C, P(==)>(isa: Isa<C, P>, c: C, start: P, fuel: nat): seq<Visit<C, P>> {
    Trace(isa, c, start, isa.returnAddress(c), isa.returnAddress(c), 0, fuel)
  }

  // A trip calls into code that is interpreted.
  predicate Nests<C, P>(isa: Isa<C, P>, t: Trip<C, P>) {
    t.Enter? && t.link && isa.native(t.target).None?
  }

  // A trip goes on in its frame, past a linked call into a recompiled function included.
  predicate Stays<C, P>(isa: Isa<C, P>, t: Trip<C, P>) {
    t.Go? || (t.Enter? && (t.link <==> isa.native(t.target).Some?))
  }

  function Next<C, P>(isa: Isa<C, P>, v: Visit<C, P>, t: Trip<C, P>): Visit<C, P>
    requires Stays(isa, t)
  {
    match t
    case Go(c, pc) => v.(cpu := c, pc := pc)
    case Enter(c, target, _) =>
      match isa.native(target)
      case Some(f) => v.(cpu := f(c), pc := isa.next(isa.next(v.pc)))
      case None => v.(cpu := c, pc := target)
  }

  function FrameOf<C, P(==)>(isa: Isa<C, P>, v: Visit<C, P>, fuel: nat): Outcome<C> {
    Frame(isa, v.cpu, v.pc, v.ret, v.depth, fuel)
  }

  function TraceOf<C, P(==)>(isa: Isa<C, P>, v: Visit<C, P>, fuel: nat): (tr: seq<Visit<C, P>>)
    ensures if fuel == 0 then tr == [] else tr != [] && tr[0] == v
  {
    Trace(isa, v.cpu, v.pc, v.ret, v.home, v.depth, fuel)
  }

  // A trip that is the last of its run or stays in its frame, unfolded.
  lemma Onward<C, P>(isa: Isa<C, P>, v: Visit<C, P>, fuel: nat)
    ensures var run, tr, t := FrameOf(isa, v, fuel), TraceOf(isa, v, fuel), Loop(isa, v.cpu, v.pc, v.ret);
            if fuel == 0 then run.OutOfFuel? && tr == []
            else if !isa.aligned(v.pc) then run == Failed(v.cpu, false) && tr == [v]
            else if Stays(isa, t) then
              && run == FrameOf(isa, Next(isa, v, t), fuel - 1).Noting(t.Enter? && t.link)
              && (run.Returned? ==> fuel > 1)
              && tr == [v] + TraceOf(isa, Next(isa, v, t), fuel - 1)
            else if Nests(isa, t) then v.depth >= MAX_DEPTH ==> run == Failed(t.cpu, false) && tr == [v]
            else tr == [v] && run == match t
                                     case Stuck(c) => Failed(c, false)
                                     case Return(c) => Returned(c, false)
                                     case Enter(c, target, _) => Returned(isa.native(target).value(c), true)
  {
    hide Loop;
    var t := Loop(isa, v.cpu, v.pc, v.ret);
    if fuel > 0 && t.Enter? && v.depth >= MAX_DEPTH {
      assert Interpret(isa, t.cpu, t.target, v.depth + 1, fuel - 1) == Failed(t.cpu, false);
    }
  }

  // The first trip of a callee.
  function Callee<C, P>(isa: Isa<C, P>, v: Visit<C, P>, t: Trip<C, P>): Visit<C, P>
    requires t.Enter?
  {
    Visit(t.cpu, t.target, isa.returnAddress(t.cpu), isa.next(isa.next(v.pc)), v.depth + 1)
  }

  // The trip after a call, in the state its callee left.
  function After<C, P>(isa: Isa<C, P>, v: Visit<C, P>, c: C): Visit<C, P> {
    v.(cpu := c, pc := isa.next(isa.next(v.pc)))
  }

  // A call into code that is interpreted, unfolded.
  lemma Call<C, P>(isa: Isa<C, P>, v: Visit<C, P>, fuel: nat)
    returns (first: Visit<C, P>, inner: Outcome<C>, there: seq<Visit<C, P>>)
    requires fuel > 0 && isa.aligned(v.pc) && v.depth < MAX_DEPTH && Nests(isa, Loop(isa, v.cpu, v.pc, v.ret))
    ensures first == Callee(isa, v, Loop(isa, v.cpu, v.pc, v.ret))
    ensures inner == FrameOf(isa, first, fuel - 1) && there == TraceOf(isa, first, fuel - 1)
    ensures var run, tr := FrameOf(isa, v, fuel), TraceOf(isa, v, fuel);
            if inner.Returned? then
              && fuel > 1 && run == FrameOf(isa, After(isa, v, inner.cpu), fuel - 1).Noting(inner.native)
              && tr == [v] + there + TraceOf(isa, After(isa, v, inner.cpu), fuel - 1)
            else run == inner && tr == [v] + there
  {
    hide Loop;
    first := Callee(isa, v, Loop(isa, v.cpu, v.pc, v.ret));
    inner := FrameOf(isa, first, fuel - 1);
    there := TraceOf(isa, first, fuel - 1);
    assert inner == Interpret(isa, first.cpu, first.pc, first.depth, fuel - 1);
    if inner.Returned? {
      var after := TraceOf(isa, After(isa, v, inner.cpu), fuel - 1);
      assert [v] + (there + after) == [v] + there + after;
    } else {
      assert there + [] == there;
    }
  }

  // --- What an interpretation refuses ------------------------------------------------------

  // The interpreter stops at a trip: the pc is not aligned, the instruction or its delay slot
  // does not execute, or a call would nest a 257th frame.
  predicate Refuses<C, P>(isa: Isa<C, P>, v: Visit<C, P>) {
    || !isa.aligned(v.pc)
    || !Executes(isa, v.cpu, v.pc)
    || (v.depth >= 256 &&
        match isa.control(v.cpu, v.pc)
        case Jump(_, target, link, _) => link && isa.native(target).None?
        case _ => false)
  }

  // The state the flat machine comes to in a trip.
  function Left<C, P>(isa: Isa<C, P>, v: Visit<C, P>): C {
    if !isa.aligned(v.pc) then v.cpu
    else
      match if Executes(isa, v.cpu, v.pc) then Lands(isa, v.cpu, v.pc) else FlatStep(isa, At(isa, v.cpu, v.pc))
      case None => v.cpu
      case Some(s) => s.cpu
  }

  lemma RefusedTrip<C(!new), P(!new)>(isa: Isa<C, P>, v: Visit<C, P>)
    requires DelaySafe(isa)
    ensures var t := Loop(isa, v.cpu, v.pc, v.ret);
            if !isa.aligned(v.pc) then Refuses(isa, v) && Left(isa, v) == v.cpu
            else
              && (Refuses(isa, v) <==>
                  t.Stuck? || (t.Enter? && t.link && isa.native(t.target).None? && v.depth >= MAX_DEPTH))
              && Left(isa, v) == t.cpu
  {
    hide Lands, FlatStep, DelaySafe;
    StuckIs(isa, v.cpu, v.pc, v.ret);
    if !Loop(isa, v.cpu, v.pc, v.ret).Stuck? { LoopIsFlat(isa, v.cpu, v.pc, v.ret); }
  }

  // A run fails exactly at a trip that is refused: no other trip of a run is, and the last is
  // just when the run fails, which then leaves the state reached there.
  ghost predicate FailsWhereRefused<C(!new), P(!new)>(isa: Isa<C, P>, run: Outcome<C>, tr: seq<Visit<C, P>>) {
    && (forall i :: 0 <= i < |tr| - 1 ==> !Refuses(isa, tr[i]))
    && (if run.Failed? then tr != [] && Refuses(isa, tr[|tr| - 1]) && run.cpu == Left(isa, tr[|tr| - 1])
        else tr != [] ==> !Refuses(isa, tr[|tr| - 1]))
  }

  lemma FailsAppend<C(!new), P(!new)>(isa: Isa<C, P>, a: seq<Visit<C, P>>, run: Outcome<C>, tr: seq<Visit<C, P>>,
                                      all: Outcome<C>)
    requires forall i :: 0 <= i < |a| ==> !Refuses(isa, a[i])
    requires FailsWhereRefused(isa, run, tr)
    requires if run.Failed? then all.Failed? && all.cpu == run.cpu else !all.Failed?
    ensures FailsWhereRefused(isa, all, a + tr)
  {
    hide Refuses, Left;
    var joined := a + tr;
    forall i | 0 <= i < |joined| - 1 ensures !Refuses(isa, joined[i]) {
      assert joined[i] == if i < |a| then a[i] else tr[i - |a|];
    }
    if tr != [] {
      assert joined[|joined| - 1] == tr[|tr| - 1];
    } else {
      assert joined == a;
    }
  }

  lemma {:induction false} FailsExactly<C(!new), P(!new)>(isa: Isa<C, P>, v: Visit<C, P>, fuel: nat)
    requires DelaySafe(isa) && v.depth <= MAX_DEPTH
    ensures FailsWhereRefused(isa, FrameOf(isa, v, fuel), TraceOf(isa, v, fuel))
    decreases fuel
  {
    hide Loop, FrameOf, TraceOf, Refuses, Left, DelaySafe;
    var run, t := FrameOf(isa, v, fuel), Loop(isa, v.cpu, v.pc, v.ret);
    RefusedTrip(isa, v);
    Onward(isa, v, fuel);
    if fuel > 0 && isa.aligned(v.pc) {
      if Stays(isa, t) {
        var next := Next(isa, v, t);
        FailsExactly(isa, next, fuel - 1);
        FailsAppend(isa, [v], FrameOf(isa, next, fuel - 1), TraceOf(isa, next, fuel - 1), run);
      } else if Nests(isa, t) && v.depth < MAX_DEPTH {
        var first, inner, there := Call(isa, v, fuel);
        FailsExactly(isa, first, fuel - 1);
        if inner.Returned? {
          var after := After(isa, v, inner.cpu);
          FailsExactly(isa, after, fuel - 1);
          FailsAppend(isa, [v] + there, FrameOf(isa, after, fuel - 1), TraceOf(isa, after, fuel - 1), run);
        } else {
          FailsAppend(isa, [v], inner, there, run);
        }
      }
    }
  }

  // The same of a whole interpretation.
  lemma InterpretFailsExactly<C(!new), P(!new)>(isa: Isa<C, P>, c: C, start: P, fuel: nat)
    requires DelaySafe(isa)
    ensures FailsWhereRefused(isa, Interpret(isa, c, start, 0, fuel), Visits(isa, c, start, fuel))
  {
    FailsExactly(isa, Visit(c, start, isa.returnAddress(c), isa.returnAddress(c), 0), fuel);
  }

  // --- The flat machine alongside ------------------------------------------------------------

  // A machine goes from each trip to the next.
  ghost predicate Lockstep<C, P>(isa: Isa<C, P>, go: (C, P) -> Option<Flat<C, P>>, tr: seq<Visit<C, P>>) {
    forall i :: 0 <= i < |tr| - 1 ==> go(tr[i].cpu, tr[i].pc) == Some(At(isa, tr[i + 1].cpu, tr[i + 1].pc))
  }

  // The flat machine, to which recompiled functions are code like any other.
  function Lander<C, P>(isa: Isa<C, P>): (C, P) -> Option<Flat<C, P>> { (c, pc) => Lands(isa, c, pc) }

  // A call at pc, if there is one, leaves the address the interpreter resumes at in the
  // link register.
  predicate LinkedAt<C, P(==)>(isa: Isa<C, P>, c: C, pc: P) {
    match isa.control(c, pc)
    case Jump(c1, _, true, _) =>
      var c' := isa.exec(c1, isa.next(pc));
      c'.Some? ==> isa.returnAddress(c'.value) == isa.next(isa.next(pc))
    case _ => true
  }

  ghost predicate AllLinked<C, P>(isa: Isa<C, P>, tr: seq<Visit<C, P>>) {
    forall i :: 0 <= i < |tr| ==> LinkedAt(isa, tr[i].cpu, tr[i].pc)
  }

  // The link test of a trip, by what the trip does.
  lemma LinkedTrip<C, P>(isa: Isa<C, P>, c: C, pc: P, ret: P)
    ensures match Loop(isa, c, pc, ret)
            case Enter(c1, _, true) => LinkedAt(isa, c, pc) <==> isa.returnAddress(c1) == isa.next(isa.next(pc))
            case _ => LinkedAt(isa, c, pc)
  {}

  lemma LockstepAppend<C, P>(isa: Isa<C, P>, go: (C, P) -> Option<Flat<C, P>>,
                             a: seq<Visit<C, P>>, b: seq<Visit<C, P>>)
    requires a != [] && b != []
    ensures Lockstep(isa, go, a + b) <==>
            Lockstep(isa, go, a) && Lockstep(isa, go, b) &&
            go(a[|a| - 1].cpu, a[|a| - 1].pc) == Some(At(isa, b[0].cpu, b[0].pc))
  {
    hide At;
    var ab := a + b;
    if Lockstep(isa, go, ab) {
      forall i | 0 <= i < |a| - 1
        ensures go(a[i].cpu, a[i].pc) == Some(At(isa, a[i + 1].cpu, a[i + 1].pc))
      {
        assert a[i] == ab[i] && a[i + 1] == ab[i + 1];
      }
      forall i | 0 <= i < |b| - 1
        ensures go(b[i].cpu, b[i].pc) == Some(At(isa, b[i + 1].cpu, b[i + 1].pc))
      {
        assert b[i] == ab[|a| + i] && b[i + 1] == ab[|a| + i + 1];
      }
      assert ab[|a| - 1] == a[|a| - 1] && ab[|a| - 1 + 1] == b[0];
    }
  }

  lemma AllLinkedAppend<C, P>(isa: Isa<C, P>, a: seq<Visit<C, P>>, b: seq<Visit<C, P>>)
    ensures AllLinked(isa, a + b) <==> AllLinked(isa, a) && AllLinked(isa, b)
  {
    hide LinkedAt;
    var ab := a + b;
    if AllLinked(isa, ab) {
      forall i | 0 <= i < |a| ensures LinkedAt(isa, a[i].cpu, a[i].pc) { assert a[i] == ab[i]; }
      forall i | 0 <= i < |b| ensures LinkedAt(isa, b[i].cpu, b[i].pc) { assert b[i] == ab[|a| + i]; }
    }
  }

  lemma Single<C, P>(isa: Isa<C, P>, go: (C, P) -> Option<Flat<C, P>>, v: Visit<C, P>)
    ensures Lockstep(isa, go, [v]) && (AllLinked(isa, [v]) <==> LinkedAt(isa, v.cpu, v.pc))
  {
    hide LinkedAt;
    assert [v][0] == v;
  }

  // The last trip of a returning run over interpreted code alone leaves the flat machine at the
  // return address, and the others are in lockstep with it exactly when every call is linked.
  ghost predicate FlatUnderLinks<C, P>(isa: Isa<C, P>, tr: seq<Visit<C, P>>, last: C, ret: P) {
    && tr != []
    && Lands(isa, tr[|tr| - 1].cpu, tr[|tr| - 1].pc) == Some(At(isa, last, ret))
    && (Lockstep(isa, Lander(isa), tr) <==> AllLinked(isa, tr))
  }

  lemma {:induction false} TraceIsFlat<C(!new), P(!new)>(isa: Isa<C, P>, v: Visit<C, P>, fuel: nat)
    requires DelaySafe(isa) && FrameOf(isa, v, fuel).Plain()
    ensures FlatUnderLinks(isa, TraceOf(isa, v, fuel), FrameOf(isa, v, fuel).cpu, v.ret)
    decreases fuel
  {
    hide Loop, FrameOf, TraceOf, Lands, DelaySafe, LinkedAt, Lockstep, AllLinked;
    var t := Loop(isa, v.cpu, v.pc, v.ret);
    Single(isa, Lander(isa), v);
    Onward(isa, v, fuel);
    LinkedTrip(isa, v.cpu, v.pc, v.ret);
    if !t.Stuck? { LoopIsFlat(isa, v.cpu, v.pc, v.ret); }
    if Stays(isa, t) {
      var next := Next(isa, v, t);
      TraceIsFlat(isa, next, fuel - 1);
      FlatCons(isa, v, TraceOf(isa, next, fuel - 1));
    } else if Nests(isa, t) {
      var first, inner, there := Call(isa, v, fuel);
      var after := After(isa, v, inner.cpu);
      TraceIsFlat(isa, first, fuel - 1);
      TraceIsFlat(isa, after, fuel - 1);
      FlatCons(isa, v, there);
      FlatAppend(isa, [v] + there, TraceOf(isa, after, fuel - 1));
    }
  }

  lemma FlatAppend<C, P>(isa: Isa<C, P>, a: seq<Visit<C, P>>, b: seq<Visit<C, P>>)
    requires a != [] && b != []
    ensures (a + b)[|a + b| - 1] == b[|b| - 1]
    ensures AllLinked(isa, a + b) <==> AllLinked(isa, a) && AllLinked(isa, b)
    ensures Lockstep(isa, Lander(isa), a + b) <==>
            Lockstep(isa, Lander(isa), a) && Lockstep(isa, Lander(isa), b) &&
            Lands(isa, a[|a| - 1].cpu, a[|a| - 1].pc) == Some(At(isa, b[0].cpu, b[0].pc))
  {
    hide Lockstep, AllLinked, Lands, At;
    LockstepAppend(isa, Lander(isa), a, b);
    AllLinkedAppend(isa, a, b);
  }

  lemma FlatCons<C, P>(isa: Isa<C, P>, v: Visit<C, P>, tr: seq<Visit<C, P>>)
    requires tr != []
    ensures ([v] + tr)[|[v] + tr| - 1] == tr[|tr| - 1]
    ensures AllLinked(isa, [v] + tr) <==> LinkedAt(isa, v.cpu, v.pc) && AllLinked(isa, tr)
    ensures Lockstep(isa, Lander(isa), [v] + tr) <==>
            Lockstep(isa, Lander(isa), tr) && Lands(isa, v.cpu, v.pc) == Some(At(isa, tr[0].cpu, tr[0].pc))
  {
    hide Lands, LinkedAt;
    FlatAppend(isa, [v], tr);
    assert [v][0] == v;
  }

  lemma LandsReaches<C, P>(isa: Isa<C, P>, c: C, pc: P)
    requires Lands(isa, c, pc).Some?
    ensures Reaches(isa, At(isa, c, pc), Lands(isa, c, pc).value)
  {}

  lemma {:induction false} LockstepReaches<C, P>(isa: Isa<C, P>, tr: seq<Visit<C, P>>, t: Flat<C, P>)
    requires tr != [] && Lockstep(isa, Lander(isa), tr)
    requires Lands(isa, tr[|tr| - 1].cpu, tr[|tr| - 1].pc) == Some(t)
    ensures Reaches(isa, At(isa, tr[0].cpu, tr[0].pc), t)
    decreases |tr|
  {
    hide Lands, Reaches;
    if |tr| == 1 {
      LandsReaches(isa, tr[0].cpu, tr[0].pc);
    } else {
      var rest := tr[1..];
      assert [tr[0]] + rest == tr;
      FlatCons(isa, tr[0], rest);
      LandsReaches(isa, tr[0].cpu, tr[0].pc);
      LockstepReaches(isa, rest, t);
      ReachesTrans(isa, At(isa, tr[0].cpu, tr[0].pc), At(isa, rest[0].cpu, rest[0].pc), t);
    }
  }

  // The interpreter's frames, delay slots and nested calls are a flat run: a frame that
  // returns with all its calls linked has the flat machine standing at its return address in
  // the same state.
  lemma FrameIsFlat<C(!new), P(!new)>(isa: Isa<C, P>, v: Visit<C, P>, fuel: nat)
    requires DelaySafe(isa) && FrameOf(isa, v, fuel).Plain() && AllLinked(isa, TraceOf(isa, v, fuel))
    ensures Reaches(isa, At(isa, v.cpu, v.pc), At(isa, FrameOf(isa, v, fuel).cpu, v.ret))
  {
    hide Lands, Reaches, DelaySafe, Trace;
    TraceIsFlat(isa, v, fuel);
    LockstepReaches(isa, TraceOf(isa, v, fuel), At(isa, FrameOf(isa, v, fuel).cpu, v.ret));
  }

  // Main result: when the interpreter returns true without entering a recompiled function,
  // the flat machine from the same state goes through the very positions the interpreter
  // goes through, if and only if every call on the way is linked; and then it reaches the
  // entry return address with the same registers and memory.
  lemma InterpretRefinesFlat<C(!new), P(!new)>(isa: Isa<C, P>, c: C, start: P, fuel: nat)
    requires DelaySafe(isa) && Interpret(isa, c, start, 0, fuel).Plain()
    ensures var tr, out := Visits(isa, c, start, fuel), Interpret(isa, c, start, 0, fuel).cpu;
            && (Lockstep(isa, Lander(isa), tr) <==> AllLinked(isa, tr))
            && (AllLinked(isa, tr) ==> Reaches(isa, At(isa, c, start), At(isa, out, isa.returnAddress(c))))
  {
    hide Lands, Reaches, DelaySafe, Trace, Lockstep, AllLinked;
    var v := Visit(c, start, isa.returnAddress(c), isa.returnAddress(c), 0);
    TraceIsFlat(isa, v, fuel);
    if AllLinked(isa, TraceOf(isa, v, fuel)) { FrameIsFlat(isa, v, fuel); }
  }
}
