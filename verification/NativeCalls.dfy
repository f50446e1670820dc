// Runs that enter recompiled functions: the interpreter against the flat machine with one more
// step, in which a recompiled function runs whole and returns to the address in the link register.
module NativeCalls {
  import opened Options
  import opened Interpreter
  import opened InterpreterRuns

  // The flat machine after the instruction at pc and its delay slot. Where a jump arrives at the
  // entry of a recompiled function, the function has run and control is at its return address.
  function Moves<C, P>(isa: Isa<C, P>, c: C, pc: P): Option<Flat<C, P>> {
    match Lands(isa, c, pc)
    case None => None
    case Some(s) => Some(if isa.control(c, pc).Jump? then Arriving(isa, s.cpu, s.pc) else s)
  }

  function Arriving<C, P>(isa: Isa<C, P>, c: C, pc: P): Flat<C, P> {
    match isa.native(pc)
    case None => At(isa, c, pc)
    case Some(f) => At(isa, f(c), isa.returnAddress(c))
  }

  function Mover<C, P>(isa: Isa<C, P>): (C, P) -> Option<Flat<C, P>> { (c, pc) => Moves(isa, c, pc) }

  // A jump at a trip goes where its frame takes it to go. One that the frame takes for its
  // return ends at the address the caller resumes at, which is not a recompiled function's, or
  // one's that does nothing. One that enters a recompiled function carries, in the link
  // register, the address after its delay slot if it links and the caller's otherwise.
  predicate Fits<C(==), P(==)>(isa: Isa<C, P>, v: Visit<C, P>) {
    match isa.control(v.cpu, v.pc)
    case Jump(c1, target, link, viaRegister) =>
      (match isa.exec(c1, isa.next(v.pc))
       case None => true
       case Some(c) =>
         if viaRegister && !link && target == v.ret then Arriving(isa, c, v.ret) == At(isa, c, v.home)
         else
           isa.native(target).Some? ==>
             isa.returnAddress(c) == if link then isa.next(isa.next(v.pc)) else v.home)
    case _ => true
  }

  ghost predicate AllFit<C, P>(isa: Isa<C, P>, tr: seq<Visit<C, P>>) {
    forall i :: 0 <= i < |tr| ==> Fits(isa, tr[i])
  }

  // The machine goes from each trip to the next, and from the last to `end`.
  ghost predicate Followed<C, P>(isa: Isa<C, P>, tr: seq<Visit<C, P>>, end: Flat<C, P>) {
    && tr != [] && Lockstep(isa, Mover(isa), tr)
    && Moves(isa, tr[|tr| - 1].cpu, tr[|tr| - 1].pc) == Some(end)
  }

  lemma FollowedAppend<C, P>(isa: Isa<C, P>, a: seq<Visit<C, P>>, b: seq<Visit<C, P>>, end: Flat<C, P>)
    requires a != [] && b != []
    ensures Followed(isa, a + b, end) <==> Followed(isa, a, At(isa, b[0].cpu, b[0].pc)) && Followed(isa, b, end)
    ensures AllFit(isa, a + b) <==> AllFit(isa, a) && AllFit(isa, b)
  {
    hide Lockstep, Moves, Fits, At;
    LockstepAppend(isa, Mover(isa), a, b);
    var ab := a + b;
    assert ab[|ab| - 1] == b[|b| - 1];
    if AllFit(isa, ab) {
      forall i | 0 <= i < |a| ensures Fits(isa, a[i]) { assert a[i] == ab[i]; }
      forall i | 0 <= i < |b| ensures Fits(isa, b[i]) { assert b[i] == ab[|a| + i]; }
    }
  }

  lemma FollowedOne<C, P>(isa: Isa<C, P>, v: Visit<C, P>, end: Flat<C, P>)
    ensures Followed(isa, [v], end) <==> Moves(isa, v.cpu, v.pc) == Some(end)
    ensures AllFit(isa, [v]) <==> Fits(isa, v)
  {
    hide Moves, Fits;
    assert [v][0] == v;
  }

  // Where the machine goes in a trip, by what the trip does.
  lemma TripMoves<C(!new), P(!new)>(isa: Isa<C, P>, v: Visit<C, P>)
    requires DelaySafe(isa) && !Loop(isa, v.cpu, v.pc, v.ret).Stuck?
    ensures var t, moved := Loop(isa, v.cpu, v.pc, v.ret), Moves(isa, v.cpu, v.pc);
            match t
            case Go(c, pc) => moved == Some(At(isa, c, pc)) && Fits(isa, v)
            case Return(c) => Fits(isa, v) <==> moved == Some(At(isa, c, v.home))
            case Enter(c, target, link) =>
              match isa.native(target)
              case None => moved == Some(At(isa, c, target)) && Fits(isa, v)
              case Some(f) =>
                Fits(isa, v) <==> moved == Some(At(isa, f(c), if link then isa.next(isa.next(v.pc)) else v.home))
  {
    hide Lands, DelaySafe;
    LoopIsFlat(isa, v.cpu, v.pc, v.ret);
  }

  // A run that returns, recompiled functions included, is followed by the machine to the address
  // its caller resumes at if and only if every trip fits.
  lemma {:induction false} RunIsFollowed<C(!new), P(!new)>(isa: Isa<C, P>, v: Visit<C, P>, fuel: nat)
    requires DelaySafe(isa) && FrameOf(isa, v, fuel).Returned?
    ensures var tr, out := TraceOf(isa, v, fuel), FrameOf(isa, v, fuel).cpu;
            Followed(isa, tr, At(isa, out, v.home)) <==> AllFit(isa, tr)
    decreases fuel
  {
    hide Loop, FrameOf, TraceOf, Followed, AllFit, Moves, Fits, DelaySafe;
    var out, t := FrameOf(isa, v, fuel).cpu, Loop(isa, v.cpu, v.pc, v.ret);
    var end := At(isa, out, v.home);
    Onward(isa, v, fuel);
    TripMoves(isa, v);
    if Stays(isa, t) {
      var next := Next(isa, v, t);
      RunIsFollowed(isa, next, fuel - 1);
      FollowedOne(isa, v, At(isa, next.cpu, next.pc));
      FollowedAppend(isa, [v], TraceOf(isa, next, fuel - 1), end);
    } else if Nests(isa, t) {
      var first, inner, there := Call(isa, v, fuel);
      var after := After(isa, v, inner.cpu);
      RunIsFollowed(isa, first, fuel - 1);
      RunIsFollowed(isa, after, fuel - 1);
      FollowedOne(isa, v, At(isa, first.cpu, first.pc));
      FollowedAppend(isa, [v], there, At(isa, after.cpu, after.pc));
      FollowedAppend(isa, [v] + there, TraceOf(isa, after, fuel - 1), end);
    } else {
      FollowedOne(isa, v, end);
    }
  }

  // --- What is noted --------------------------------------------------------------------------

  // A trip enters a recompiled function.
  predicate EntersNative<C(==), P(==)>(isa: Isa<C, P>, v: Visit<C, P>) {
    isa.aligned(v.pc) &&
    match isa.control(v.cpu, v.pc)
    case Jump(c1, target, link, viaRegister) =>
      && isa.exec(c1, isa.next(v.pc)).Some? && isa.native(target).Some?
      && !(viaRegister && !link && target == v.ret)
    case _ => false
  }

  ghost predicate SomeEnters<C(!new), P(!new)>(isa: Isa<C, P>, tr: seq<Visit<C, P>>) {
    exists i :: 0 <= i < |tr| && EntersNative(isa, tr[i])
  }

  lemma SomeEntersAppend<C(!new), P(!new)>(isa: Isa<C, P>, a: seq<Visit<C, P>>, b: seq<Visit<C, P>>)
    ensures SomeEnters(isa, a + b) <==> SomeEnters(isa, a) || SomeEnters(isa, b)
  {
    hide EntersNative;
    var ab := a + b;
    if i :| 0 <= i < |a| && EntersNative(isa, a[i]) { assert EntersNative(isa, ab[i]); }
    if i :| 0 <= i < |b| && EntersNative(isa, b[i]) { assert EntersNative(isa, ab[|a| + i]); }
  }

  lemma EntersTrip<C(!new), P(!new)>(isa: Isa<C, P>, v: Visit<C, P>)
    ensures SomeEnters(isa, [v]) <==> EntersNative(isa, v)
    ensures var t := Loop(isa, v.cpu, v.pc, v.ret);
            EntersNative(isa, v) <==> isa.aligned(v.pc) && t.Enter? && isa.native(t.target).Some?
  {
    assert [v][0] == v;
  }

  // A run that ends notes a recompiled function exactly when one of its trips entered one.
  lemma {:induction false} NativeIsNoted<C(!new), P(!new)>(isa: Isa<C, P>, v: Visit<C, P>, fuel: nat)
    requires !FrameOf(isa, v, fuel).OutOfFuel?
    ensures FrameOf(isa, v, fuel).native <==> SomeEnters(isa, TraceOf(isa, v, fuel))
    decreases fuel
  {
    hide Loop, FrameOf, TraceOf, EntersNative, SomeEnters;
    var t := Loop(isa, v.cpu, v.pc, v.ret);
    Onward(isa, v, fuel);
    EntersTrip(isa, v);
    if isa.aligned(v.pc) {
      if Stays(isa, t) {
        NativeIsNoted(isa, Next(isa, v, t), fuel - 1);
        SomeEntersAppend(isa, [v], TraceOf(isa, Next(isa, v, t), fuel - 1));
      } else if Nests(isa, t) && v.depth < MAX_DEPTH {
        var first, inner, there := Call(isa, v, fuel);
        SomeEntersAppend(isa, [v], there);
        NativeIsNoted(isa, first, fuel - 1);
        if inner.Returned? {
          NativeIsNoted(isa, After(isa, v, inner.cpu), fuel - 1);
          SomeEntersAppend(isa, [v] + there, TraceOf(isa, After(isa, v, inner.cpu), fuel - 1));
        }
      }
    }
  }

  // --- A whole interpretation ---------------------------------------------------------------

  function Moved<C, P>(isa: Isa<C, P>, s: Flat<C, P>, n: nat): Option<Flat<C, P>>
    decreases n
  {
    if n == 0 then Some(s)
    else match Moves(isa, s.cpu, s.pc) case None => None case Some(s') => Moved(isa, s', n - 1)
  }

  ghost predicate Arrives<C, P>(isa: Isa<C, P>, s: Flat<C, P>, t: Flat<C, P>) {
    exists n: nat :: Moved(isa, s, n) == Some(t)
  }

  lemma {:induction false} FollowedMoves<C, P>(isa: Isa<C, P>, tr: seq<Visit<C, P>>, end: Flat<C, P>)
    requires tr != [] && Followed(isa, tr, end)
    ensures Moved(isa, At(isa, tr[0].cpu, tr[0].pc), |tr|) == Some(end)
    decreases |tr|
  {
    hide Moves, Followed;
    var s := At(isa, tr[0].cpu, tr[0].pc);
    if |tr| == 1 {
      FollowedOne(isa, tr[0], end);
      assert tr == [tr[0]];
      assert Moved(isa, end, 0) == Some(end);
    } else {
      var rest := tr[1..];
      assert tr == [tr[0]] + rest;
      FollowedAppend(isa, [tr[0]], rest, end);
      FollowedOne(isa, tr[0], At(isa, rest[0].cpu, rest[0].pc));
      FollowedMoves(isa, rest, end);
    }
  }

  // A run that has not ended, or is refused, is followed as far as it went, and one that runs out
  // of fuel has gone on for as many trips.
  lemma {:induction false} UnendedIsFollowed<C(!new), P(!new)>(isa: Isa<C, P>, v: Visit<C, P>, fuel: nat)
    requires DelaySafe(isa) && AllFit(isa, TraceOf(isa, v, fuel))
    ensures Lockstep(isa, Mover(isa), TraceOf(isa, v, fuel))
    ensures FrameOf(isa, v, fuel).OutOfFuel? ==> |TraceOf(isa, v, fuel)| >= fuel
    decreases fuel
  {
    hide Loop, FrameOf, TraceOf, AllFit, Lockstep, Moves, Fits, DelaySafe;
    var run, t := FrameOf(isa, v, fuel), Loop(isa, v.cpu, v.pc, v.ret);
    Onward(isa, v, fuel);
    Short(isa, v);
    if fuel > 0 && isa.aligned(v.pc) && !t.Stuck? {
      TripMoves(isa, v);
      if Stays(isa, t) {
        var next := Next(isa, v, t);
        FitAppend(isa, [v], TraceOf(isa, next, fuel - 1));
        UnendedIsFollowed(isa, next, fuel - 1);
        LockstepOn(isa, [v], TraceOf(isa, next, fuel - 1), At(isa, next.cpu, next.pc));
      } else if Nests(isa, t) && v.depth < MAX_DEPTH {
        var first, inner, there := Call(isa, v, fuel);
        if inner.Returned? {
          var after := After(isa, v, inner.cpu);
          FitAppend(isa, [v] + there, TraceOf(isa, after, fuel - 1));
          FitAppend(isa, [v], there);
          CallIsFollowed(isa, v, first, fuel);
          UnendedIsFollowed(isa, after, fuel - 1);
          LockstepOn(isa, [v] + there, TraceOf(isa, after, fuel - 1), At(isa, after.cpu, after.pc));
        } else {
          FitAppend(isa, [v], there);
          UnendedIsFollowed(isa, first, fuel - 1);
          LockstepOn(isa, [v], there, At(isa, first.cpu, first.pc));
        }
      }
    }
  }

  lemma Short<C, P>(isa: Isa<C, P>, v: Visit<C, P>)
    ensures Lockstep(isa, Mover(isa), []) && Lockstep(isa, Mover(isa), [v])
    ensures AllFit(isa, [v]) <==> Fits(isa, v)
  {
    hide Fits;
    assert [v][0] == v;
  }

  lemma FitAppend<C, P>(isa: Isa<C, P>, a: seq<Visit<C, P>>, b: seq<Visit<C, P>>)
    requires AllFit(isa, a + b)
    ensures AllFit(isa, a) && AllFit(isa, b)
  {
    hide Fits;
    var ab := a + b;
    forall i | 0 <= i < |a| ensures Fits(isa, a[i]) { assert a[i] == ab[i]; }
    forall i | 0 <= i < |b| ensures Fits(isa, b[i]) { assert b[i] == ab[|a| + i]; }
  }

  lemma LockstepOn<C, P>(isa: Isa<C, P>, a: seq<Visit<C, P>>, b: seq<Visit<C, P>>, next: Flat<C, P>)
    requires a != [] && Lockstep(isa, Mover(isa), a) && Lockstep(isa, Mover(isa), b)
    requires Moves(isa, a[|a| - 1].cpu, a[|a| - 1].pc) == Some(next)
    requires b != [] ==> next == At(isa, b[0].cpu, b[0].pc)
    ensures Lockstep(isa, Mover(isa), a + b)
  {
    hide Moves, Lockstep;
    if b == [] { assert a + b == a; } else { LockstepAppend(isa, Mover(isa), a, b); }
  }

  // A call that returns, with all its trips fitting, is followed to the address after it.
  lemma CallIsFollowed<C(!new), P(!new)>(isa: Isa<C, P>, v: Visit<C, P>, first: Visit<C, P>, fuel: nat)
    requires fuel > 0 && DelaySafe(isa) && Nests(isa, Loop(isa, v.cpu, v.pc, v.ret))
    requires first == Callee(isa, v, Loop(isa, v.cpu, v.pc, v.ret))
    requires FrameOf(isa, first, fuel - 1).Returned? && AllFit(isa, TraceOf(isa, first, fuel - 1))
    ensures Followed(isa, [v] + TraceOf(isa, first, fuel - 1),
                     At(isa, FrameOf(isa, first, fuel - 1).cpu, isa.next(isa.next(v.pc))))
  {
    hide Loop, FrameOf, AllFit, Lockstep, Moves, Fits, DelaySafe, Followed;
    RunIsFollowed(isa, first, fuel - 1);
    Onward(isa, first, fuel - 1);
    TripMoves(isa, v);
    var there := TraceOf(isa, first, fuel - 1);
    hide Trace;
    FollowedOne(isa, v, At(isa, first.cpu, first.pc));
    FollowedAppend(isa, [v], there, At(isa, FrameOf(isa, first, fuel - 1).cpu, first.home));
  }

  // The machine comes to every trip of a run it is in lockstep with.
  lemma LockstepMoves<C, P>(isa: Isa<C, P>, tr: seq<Visit<C, P>>, k: nat)
    requires k < |tr| && Lockstep(isa, Mover(isa), tr)
    ensures Moved(isa, At(isa, tr[0].cpu, tr[0].pc), k) == Some(At(isa, tr[k].cpu, tr[k].pc))
  {
    hide Moves, At;
    if k > 0 {
      var before := tr[..k];
      forall i | 0 <= i < k - 1
        ensures Mover(isa)(before[i].cpu, before[i].pc) == Some(At(isa, before[i + 1].cpu, before[i + 1].pc))
      {
        assert before[i] == tr[i] && before[i + 1] == tr[i + 1];
      }
      assert tr[k - 1 + 1] == tr[k];
      FollowedMoves(isa, before, At(isa, tr[k].cpu, tr[k].pc));
    }
  }

  // Main result: an interpretation that returns, whatever recompiled functions it enters, is
  // followed trip by trip to the entry return address, in the state it leaves, if and only if
  // every trip fits.
  lemma InterpretIsFollowed<C(!new), P(!new)>(isa: Isa<C, P>, c: C, start: P, fuel: nat)
    requires DelaySafe(isa) && Interpret(isa, c, start, 0, fuel).Returned?
    ensures var tr, out := Visits(isa, c, start, fuel), Interpret(isa, c, start, 0, fuel).cpu;
            Followed(isa, tr, At(isa, out, isa.returnAddress(c))) <==> AllFit(isa, tr)
  {
    hide Moves, Fits, DelaySafe, Frame, Trace;
    RunIsFollowed(isa, Visit(c, start, isa.returnAddress(c), isa.returnAddress(c), 0), fuel);
  }

  ghost predicate StopsAt<C, P>(isa: Isa<C, P>, s: Flat<C, P>, v: Visit<C, P>, out: C) {
    Arrives(isa, s, At(isa, v.cpu, v.pc)) && Refuses(isa, v) && out == Left(isa, v)
  }

  // And then the machine tells how every interpretation ends: it arrives at the return address,
  // or at a trip that is refused, or is still going after as many moves as there was fuel.
  lemma InterpretEnds<C(!new), P(!new)>(isa: Isa<C, P>, c: C, start: P, fuel: nat)
    requires DelaySafe(isa) && AllFit(isa, Visits(isa, c, start, fuel))
    ensures var s, tr := At(isa, c, start), Visits(isa, c, start, fuel);
            match Interpret(isa, c, start, 0, fuel)
            case Returned(out, _) => Arrives(isa, s, At(isa, out, isa.returnAddress(c)))
            case Failed(out, _) => tr != [] && StopsAt(isa, s, tr[|tr| - 1], out)
            case OutOfFuel => fuel > 0 ==> Moved(isa, s, fuel - 1).Some?
  {
    hide Moves, Fits, DelaySafe, Frame, Trace, Refuses, Left, Lockstep, Followed, Moved;
    var v := Visit(c, start, isa.returnAddress(c), isa.returnAddress(c), 0);
    var run, tr := FrameOf(isa, v, fuel), TraceOf(isa, v, fuel);
    Onward(isa, v, fuel);
    UnendedIsFollowed(isa, v, fuel);
    match run
    case Returned(out, _) =>
      RunIsFollowed(isa, v, fuel);
      FollowedMoves(isa, tr, At(isa, out, v.home));
    case Failed(out, _) =>
      FailsExactly(isa, v, fuel);
      LockstepMoves(isa, tr, |tr| - 1);
    case OutOfFuel => if fuel > 0 { LockstepMoves(isa, tr, fuel - 1); }
  }

  // --- A condition on each trip alone ---------------------------------------------------------

  // The caller resumes, in every frame, where the frame returns.
  ghost predicate Homed<C, P>(tr: seq<Visit<C, P>>) {
    forall i :: 0 <= i < |tr| ==> tr[i].ret == tr[i].home
  }

  lemma HomedAppend<C, P>(a: seq<Visit<C, P>>, b: seq<Visit<C, P>>)
    requires Homed(a) && Homed(b)
    ensures Homed(a + b)
  {}

  // With every call linked, each frame returns where its caller resumes.
  lemma {:induction false} LinkedIsHomed<C, P>(isa: Isa<C, P>, v: Visit<C, P>, fuel: nat)
    requires v.ret == v.home && AllLinked(isa, TraceOf(isa, v, fuel))
    ensures Homed(TraceOf(isa, v, fuel))
    decreases fuel
  {
    hide Loop, FrameOf, TraceOf, LinkedAt, AllLinked, Homed;
    var t := Loop(isa, v.cpu, v.pc, v.ret);
    Onward(isa, v, fuel);
    HomedOne(v);
    LinkedTrip(isa, v.cpu, v.pc, v.ret);
    Single(isa, Mover(isa), v);
    if fuel == 0 {
      NoneHomed<C, P>();
    } else if isa.aligned(v.pc) {
      if Stays(isa, t) {
        var next := Next(isa, v, t);
        AllLinkedAppend(isa, [v], TraceOf(isa, next, fuel - 1));
        LinkedIsHomed(isa, next, fuel - 1);
        HomedAppend([v], TraceOf(isa, next, fuel - 1));
      } else if Nests(isa, t) && v.depth < MAX_DEPTH {
        var first, inner, there := Call(isa, v, fuel);
        AllLinkedAppend(isa, [v], there);
        if inner.Returned? {
          AllLinkedAppend(isa, [v] + there, TraceOf(isa, After(isa, v, inner.cpu), fuel - 1));
        }
        LinkedIsHomed(isa, first, fuel - 1);
        HomedAppend([v], there);
        if inner.Returned? {
          LinkedIsHomed(isa, After(isa, v, inner.cpu), fuel - 1);
          HomedAppend([v] + there, TraceOf(isa, After(isa, v, inner.cpu), fuel - 1));
        }
      }
    }
  }

  lemma HomedOne<C, P>(v: Visit<C, P>)
    ensures Homed([v]) <==> v.ret == v.home
  {
    assert [v][0] == v;
  }

  lemma NoneHomed<C, P>()
    ensures Homed<C, P>([])
  {}

  // A jump that does not link and is no return enters a recompiled function only with its
  // frame's return address in the link register, and no return is into a recompiled function.
  predicate TailSafe<C, P(==)>(isa: Isa<C, P>, c: C, pc: P, ret: P) {
    match isa.control(c, pc)
    case Jump(c1, target, false, viaRegister) =>
      (match isa.exec(c1, isa.next(pc))
       case None => true
       case Some(c') => isa.native(target).Some? ==> !(viaRegister && target == ret) && isa.returnAddress(c') == ret)
    case _ => true
  }

  ghost predicate AllTailSafe<C, P>(isa: Isa<C, P>, tr: seq<Visit<C, P>>) {
    forall i :: 0 <= i < |tr| ==> TailSafe(isa, tr[i].cpu, tr[i].pc, tr[i].ret)
  }

  // Linked calls and such jumps are enough.
  lemma LinkedFits<C(!new), P(!new)>(isa: Isa<C, P>, c: C, start: P, fuel: nat)
    requires AllLinked(isa, Visits(isa, c, start, fuel)) && AllTailSafe(isa, Visits(isa, c, start, fuel))
    ensures AllFit(isa, Visits(isa, c, start, fuel))
  {
    var tr := Visits(isa, c, start, fuel);
    LinkedIsHomed(isa, Visit(c, start, isa.returnAddress(c), isa.returnAddress(c), 0), fuel);
    hide Trace, Visits;
    forall i | 0 <= i < |tr| ensures Fits(isa, tr[i]) {
      FitsWhere(isa, tr[i]);
    }
  }

  lemma FitsWhere<C, P>(isa: Isa<C, P>, v: Visit<C, P>)
    requires v.ret == v.home && LinkedAt(isa, v.cpu, v.pc) && TailSafe(isa, v.cpu, v.pc, v.ret)
    ensures Fits(isa, v)
  {}
}
