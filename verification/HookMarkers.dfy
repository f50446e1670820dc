// The pass marks "no section yet" and "no function yet" by an address, and takes a hook at
// that address for the one it stands at.
module HookMarkers {
  import opened Options
  import opened Words
  import opened HookRegen
  import opened HookRegenProofs
  import opened HookRegenLists

  predicate FirstOfSection(hooks: seq<Hook>, i: nat)
    requires i < |hooks|
  {
    i == 0 || hooks[i - 1].rom != hooks[i].rom
  }

  // Hook i meets the cursor where it stands for nothing: the first hook of a section, at the
  // marker for "no function", or the first hook of all, at the marker for "no section". The
  // first is not looked up at all; the second, if it is, in the section with the marker's number.
  predicate MarkerAt(env: Env, hooks: seq<Hook>, i: nat)
    requires i < |hooks|
  {
    var h := hooks[i];
    if h.rom == NONE then i == 0 && (h.vram == NONE || FindFunc(env, START.index, Wrap32(h.vram - NONE)).Some?)
    else FirstOfSection(hooks, i) && h.vram == NONE && Info(env, h.rom).Some?
  }

  // Before any fault of another hook, one meets a marker.
  ghost predicate MarkerTaken(env: Env, hooks: seq<Hook>) {
    exists i :: 0 <= i < |hooks| && MarkerAt(env, hooks, i)
                && forall j :: 0 <= j < i ==> HookError(env, hooks[j]).None?
  }

  // No function can be at a marker, so a hook there should always be refused.
  lemma MarkerFault(env: Env, h: Hook)
    requires EnvOk(env) && (h.rom == NONE || h.vram == NONE)
    ensures HookError(env, h).Some?
  {
    if Target(env, h).Some? {
      var s := Info(env, h.rom).value;
      assert SectionOk(s) && Offset(env, h) in s.funcs;
      assert Offset(env, h) == NONE - s.ram;
    }
  }

  lemma StepHook(env: Env, st: State, h: Hook)
    requires CursorOk(st) && Step(env, st, h).Err?
    ensures Step(env, st, h).error.hook == h
  {
    hide Advance, FindFunc, BasePatch, Attach;
  }

  // An error after a prefix that went well is about a later hook.
  lemma {:induction false} LaterError(env: Env, hooks: seq<Hook>, n: nat) returns (j: nat)
    requires n <= |hooks| && Pass(env, hooks[..n]).Ok? && Pass(env, hooks).Err?
    ensures n <= j < |hooks| && Pass(env, hooks).error.hook == hooks[j]
    decreases |hooks|
  {
    hide Step;
    assert hooks[..|hooks|] == hooks;
    var front, last := hooks[..|hooks| - 1], hooks[|hooks| - 1];
    assert front[..n] == hooks[..n];
    if Pass(env, front).Ok? {
      StepHook(env, Pass(env, front).value, last);
      j := |hooks| - 1;
    } else {
      j := LaterError(env, front, n);
    }
  }

  // The pass at the start, before any hook.
  lemma FirstStep(env: Env, h: Hook)
    requires EnvOk(env) && h.rom == NONE
    ensures Step(env, State(EMPTY, START), h) == Err(HookError(env, h).value) <==>
            !(h.vram == NONE || FindFunc(env, START.index, Wrap32(h.vram - NONE)).Some?)
    ensures HookError(env, h) == Some(InvalidHook(h))
  {
    hide Advance, Attach, BasePatch;
  }

  lemma LaterStep(env: Env, st: State, h: Hook)
    requires EnvOk(env) && CursorOk(st) && h.rom == NONE && st.cursor.rom != NONE
    ensures Step(env, st, h) == Err(InvalidHook(h)) && HookError(env, h) == Some(InvalidHook(h))
  {}

  // A first hook of its section at the marker is attached where the cursor stood before.
  lemma MarkerStep(env: Env, st: State, h: Hook)
    requires CursorOk(st) && h.rom != st.cursor.rom && h.vram == NONE && Info(env, h.rom).Some?
    ensures Step(env, st, h).Ok?
    ensures var list, list' := st.list, Step(env, st, h).value.list;
            && list'.functions == list.functions && list'.relocs == list.relocs
            && if st.cursor.patched.Some? then list'.patchedHooks == list.patchedHooks + [(st.cursor.patched.value, h)]
               else Slots(list', h.atReturn) == Slots(list, h.atReturn)[LastIndex(|list.functions|) := h.slot]
  {}

  // So it takes the slot of the section before: of a hook on a function of one section and one
  // at the marker of another, the first loses its slot to the second.
  lemma MarkerTakesSlot(env: Env, a: Hook, h: Hook)
    requires HookError(env, a).None? && PatchOf(env, a).None? && a.rom != NONE && a.vram != NONE && !a.atReturn
    requires h.rom != a.rom && h.vram == NONE && Info(env, h.rom).Some? && !h.atReturn
    ensures Pass(env, [a, h]).Ok? && Pass(env, [a, h]).value.list.entryHooks == map[0 := h.slot]
  {
    assert [a, h][..1] == [a] && [a][..0] == [];
    FirstHook(env, a);
    hide Step;
    MarkerStep(env, Pass(env, [a]).value, h);
  }

  lemma FirstHook(env: Env, a: Hook)
    requires HookError(env, a).None? && PatchOf(env, a).None? && a.rom != NONE && a.vram != NONE && !a.atReturn
    ensures var r := Pass(env, [a]);
            r.Ok? && CursorOk(r.value) && r.value.cursor.rom == a.rom && r.value.cursor.patched.None?
            && |r.value.list.functions| == 1 && r.value.list.entryHooks == map[0 := a.slot]
  {
    hide Advance;
    assert [a][..0] == [] && Pass(env, []) == Ok(State(EMPTY, START));
    var st1 := EnterSection(env, State(EMPTY, START), a).value;
    EnterFunctionIs(env, NewGroup(env, a), st1, a);
  }

  // At the first faulty hook the pass reports its fault exactly when it meets no marker.
  lemma FaultStep(env: Env, hooks: seq<Hook>, i: nat, gs: seq<Group>, st: State)
    requires EnvOk(env) && HooksSorted(hooks) && i < |hooks| && HookError(env, hooks[i]).Some?
    requires Unmarked(hooks[..i]) && CursorOk(st) && Tracks(env, hooks[..i], gs, st)
    requires i == 0 ==> st == State(EMPTY, START)
    ensures Step(env, st, hooks[i]) == Err(HookError(env, hooks[i]).value) <==> !MarkerAt(env, hooks, i)
  {
    hide EnvOk, HooksSorted, HookError, Step, GroupsOk, Flatten, FindFunc, Info;
    var h, front := hooks[i], hooks[..i];
    if i > 0 {
      assert front[i - 1] == hooks[i - 1];
      CursorRom(env, gs[|gs| - 1], st.cursor, hooks[i - 1]);
      CursorSection(env, gs[|gs| - 1], st.cursor, hooks[i - 1]);
    }
    hide Tracks;
    if h.rom == NONE {
      if i == 0 { FirstStep(env, h); } else { LaterStep(env, st, h); }
    } else if h.vram == NONE && h.rom != st.cursor.rom && Info(env, h.rom).Some? {
      MarkerStep(env, st, h);
    } else {
      StepError(env, front, h, gs, st);
    }
  }

  lemma CursorSection(env: Env, g: Group, c: Cursor, h: Hook)
    requires CursorAt(env, g, c, h)
    ensures c.rom == h.rom
  {}

  // Up to a hook all before which are fine, no hook is at a marker and the pass goes well.
  lemma FrontFine(env: Env, hooks: seq<Hook>, i: nat)
    requires EnvOk(env) && HooksSorted(hooks) && i <= |hooks|
    requires forall j :: 0 <= j < i ==> HookError(env, hooks[j]).None?
    ensures HooksOk(hooks[..i]) && FirstError(env, hooks[..i]).None?
  {
    hide EnvOk, HookError, FirstError;
    var front := hooks[..i];
    FirstErrorIs(env, front);
    forall j | 0 <= j < i ensures front[j].rom != NONE && front[j].vram != NONE {
      if front[j].rom == NONE || front[j].vram == NONE { MarkerFault(env, front[j]); }
    }
  }

  // The pass up to the first faulty hook, and over it.
  lemma FaultAt(env: Env, hooks: seq<Hook>, i: nat)
    requires EnvOk(env) && HooksSorted(hooks) && i < |hooks| && HookError(env, hooks[i]).Some?
    requires HooksOk(hooks[..i]) && FirstError(env, hooks[..i]).None?
    ensures Pass(env, hooks[..i]).Ok?
    ensures Step(env, Pass(env, hooks[..i]).value, hooks[i]) == Err(HookError(env, hooks[i]).value) <==>
            !MarkerAt(env, hooks, i)
  {
    hide EnvOk, HooksSorted, Unmarked, HookError, FirstError, MarkerAt, Step, Tracks, MapsOk;
    var gs := PassIs(env, hooks[..i]);
    FaultStep(env, hooks, i, gs, Pass(env, hooks[..i]).value);
  }

  // The first faulty hook.
  lemma FirstFault(env: Env, hooks: seq<Hook>) returns (i: nat)
    requires EnvOk(env) && HooksSorted(hooks) && FirstError(env, hooks).Some?
    ensures i < |hooks| && HookError(env, hooks[i]) == FirstError(env, hooks)
    ensures forall j :: 0 <= j < i ==> HookError(env, hooks[j]).None?
    ensures Pass(env, hooks[..i]).Ok?
    ensures Step(env, Pass(env, hooks[..i]).value, hooks[i]) == Err(FirstError(env, hooks).value) <==>
            !MarkerAt(env, hooks, i)
  {
    hide HookError, MarkerAt, Step, EnvOk, HooksSorted, HooksOk, FirstError, Pass;
    FirstErrorIs(env, hooks);
    i :| 0 <= i < |hooks| && HookError(env, hooks[i]) == FirstError(env, hooks)
         && forall j :: 0 <= j < i ==> HookError(env, hooks[j]).None?;
    FrontFine(env, hooks, i);
    FaultAt(env, hooks, i);
  }

  // For hooks sorted by section and function the pass does what it is for if and only if no
  // hook meets a marker before any other fault.
  lemma RegenListIs(env: Env, hooks: seq<Hook>)
    requires EnvOk(env) && HooksSorted(hooks)
    ensures Regenerates(env, hooks) <==> !MarkerTaken(env, hooks)
  {
    hide EnvOk, HookError, MarkerAt, Step, ListOk;
    FirstErrorIs(env, hooks);
    forall i | 0 <= i < |hooks| && (hooks[i].rom == NONE || hooks[i].vram == NONE)
      ensures HookError(env, hooks[i]).Some?
    {
      MarkerFault(env, hooks[i]);
    }
    forall i | 0 <= i < |hooks| && MarkerAt(env, hooks, i) ensures HookError(env, hooks[i]).Some? {
      MarkedHook(env, hooks, i);
    }
    if FirstError(env, hooks).None? {
      UnmarkedRegenerates(env, hooks);
    } else {
      var i := FirstFault(env, hooks);
      assert hooks[..i + 1][..i] == hooks[..i];
      if MarkerAt(env, hooks, i) {
        NotRegenerated(env, hooks, i);
      } else {
        ErrorsPersist(env, hooks, i + 1);
      }
    }
  }

  lemma MarkedHook(env: Env, hooks: seq<Hook>, i: nat)
    requires i < |hooks| && MarkerAt(env, hooks, i)
    ensures hooks[i].rom == NONE || hooks[i].vram == NONE
  {}

  // Past the first fault the pass can only go on, or report something else.
  lemma NotRegenerated(env: Env, hooks: seq<Hook>, i: nat)
    requires HooksSorted(hooks) && i < |hooks| && FirstError(env, hooks) == HookError(env, hooks[i])
    requires HookError(env, hooks[i]).Some? && Pass(env, hooks[..i]).Ok?
    requires Step(env, Pass(env, hooks[..i]).value, hooks[i]) != Err(HookError(env, hooks[i]).value)
    ensures !Regenerates(env, hooks)
  {
    hide Step, ListOk;
    assert hooks[..i + 1][..i] == hooks[..i];
    if Pass(env, hooks[..i + 1]).Err? {
      ErrorsPersist(env, hooks, i + 1);
    } else if Pass(env, hooks).Err? {
      var j := LaterError(env, hooks, i + 1);
      assert !SameHook(hooks[i], hooks[j]);
    }
  }

  // A list the pass builds when no marker is met is of hooks at no marker.
  lemma BuiltUnmarked(env: Env, hooks: seq<Hook>)
    requires EnvOk(env) && HooksSorted(hooks) && !MarkerTaken(env, hooks) && Pass(env, hooks).Ok?
    ensures HooksOk(hooks)
  {
    RegenListIs(env, hooks);
    FirstErrorIs(env, hooks);
    hide EnvOk, HookError, MarkerTaken, ListOk;
    forall i | 0 <= i < |hooks| ensures hooks[i].rom != NONE && hooks[i].vram != NONE {
      if hooks[i].rom == NONE || hooks[i].vram == NONE { MarkerFault(env, hooks[i]); }
    }
  }
}
