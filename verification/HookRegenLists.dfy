// The finished list: what its slices and its hook slots are, and what the recompiler context
// built from it holds.
module HookRegenLists {
  import opened Options
  import opened HookRegen
  import opened HookRegenProofs

  // --- The whole pass -------------------------------------------------------------------------

  function FirstError(env: Env, hooks: seq<Hook>): Option<Error> {
    if hooks == [] then None
    else
      var before := FirstError(env, hooks[..|hooks| - 1]);
      if before.Some? then before else HookError(env, hooks[|hooks| - 1])
  }

  lemma {:induction false} FirstErrorIs(env: Env, hooks: seq<Hook>)
    ensures FirstError(env, hooks).None? <==> forall i :: 0 <= i < |hooks| ==> HookError(env, hooks[i]).None?
    ensures FirstError(env, hooks).Some? ==>
              exists i :: 0 <= i < |hooks| && HookError(env, hooks[i]) == FirstError(env, hooks)
                          && forall j :: 0 <= j < i ==> HookError(env, hooks[j]).None?
  {
    hide HookError;
    if hooks != [] {
      var n := |hooks| - 1;
      FirstErrorIs(env, hooks[..n]);
      assert forall i :: 0 <= i < n ==> hooks[..n][i] == hooks[i];
    }
  }

  // The pass fails exactly on the first hook that names nothing hookable; otherwise its list
  // is one group a hooked section, with every slot in place.
  lemma {:induction false} PassIs(env: Env, hooks: seq<Hook>) returns (gs: seq<Group>)
    requires EnvOk(env) && HooksOk(hooks)
    ensures match Pass(env, hooks)
            case Err(e) => FirstError(env, hooks) == Some(e)
            case Ok(st) =>
              FirstError(env, hooks).None? && Tracks(env, hooks, gs, st) && MapsOk(env, hooks, gs, st.list)
    decreases |hooks|
  {
    gs := [];
    if hooks == [] {
      assert MapsOk(env, [], [], EMPTY);
    } else {
      var n := |hooks| - 1;
      var front, h := hooks[..n], hooks[n];
      assert hooks == front + [h];
      FrontOk(hooks);
      var gs0 := PassIs(env, front);
      if Pass(env, front).Ok? {
        gs := PassStep(env, front, h, gs0, Pass(env, front).value);
      }
    }
  }

  lemma FrontOk(hooks: seq<Hook>)
    requires HooksOk(hooks) && hooks != []
    ensures HooksOk(hooks[..|hooks| - 1])
  {}

  lemma {:induction false} PassStep(env: Env, hooks: seq<Hook>, h: Hook, gs: seq<Group>, st: State)
    returns (gs': seq<Group>)
    requires EnvOk(env) && HooksOk(hooks + [h]) && FirstError(env, hooks).None?
    requires CursorOk(st) && Tracks(env, hooks, gs, st) && MapsOk(env, hooks, gs, st.list)
    ensures match Step(env, st, h)
            case Err(e) => HookError(env, h) == Some(e)
            case Ok(st') =>
              HookError(env, h).None? && Tracks(env, hooks + [h], gs', st') && MapsOk(env, hooks + [h], gs', st'.list)
  {
    gs' := gs;
    LastHook(env, hooks, h);
    if HookError(env, h).Some? {
      StepError(env, hooks, h, gs, st);
    } else {
      var st2;
      gs', st2 := StepTo(env, hooks, h, gs, st);
      SteppedTracks(env, hooks, h, st, gs, gs', st2);
    }
  }

  lemma LastHook(env: Env, hooks: seq<Hook>, h: Hook)
    requires HooksOk(hooks + [h]) && FirstError(env, hooks).None?
    ensures h.rom != NONE && h.vram != NONE && Precede(env, hooks, h)
    ensures hooks != [] ==> Precede(env, hooks, hooks[|hooks| - 1])
    ensures HookError(env, h).None? ==> AllFine(env, hooks, h)
  {
    var all := hooks + [h];
    FirstErrorIs(env, hooks);
    hide HookError;
    assert all[|hooks|] == h && forall i :: 0 <= i < |hooks| ==> all[i] == hooks[i];
    assert forall i :: 0 <= i < |hooks| ==> Before(all[i], all[|hooks|]) && !SameHook(all[i], all[|hooks|]);
    if hooks != [] {
      forall i | 0 <= i < |hooks| ensures Before(hooks[i], hooks[|hooks| - 1]) {
        if i < |hooks| - 1 { assert Before(all[i], all[|hooks| - 1]); }
      }
    }
  }

  lemma {:induction false} StepTo(env: Env, hooks: seq<Hook>, h: Hook, gs: seq<Group>, st: State)
    returns (gs': seq<Group>, st2: State)
    requires EnvOk(env) && HookError(env, h).None? && Precede(env, hooks, h) && h.rom != NONE && h.vram != NONE
    requires hooks != [] ==> Precede(env, hooks, hooks[|hooks| - 1])
    requires CursorOk(st) && Tracks(env, hooks, gs, st)
    ensures Stepped(env, hooks, h, st, gs, gs', st2)
  {
    hide EnvOk, HookError, GroupOk, Flatten, Stepped, Boundary, IsFor;
    if hooks == [] {
      gs', st2 := StepNewSection(env, hooks, h, gs, st);
    } else {
      var n, last := |gs| - 1, hooks[|hooks| - 1];
      assert gs == gs[..n] + [gs[n]] && Before(last, h) && last in hooks;
      if h.rom != st.cursor.rom {
        assert forall k :: 0 <= k < n ==> gs[k].rom < gs[n].rom;
        gs', st2 := StepNewSection(env, hooks, h, gs, st);
      } else if h.vram != st.cursor.vram {
        gs', st2 := StepNewFunction(env, hooks, h, gs[..n], gs[n], st, last);
      } else {
        gs', st2 := gs, st;
        StepSameFunction(env, hooks, h, gs[..n], gs[n], st, last);
      }
    }
  }

  lemma {:induction false} SteppedTracks(env: Env, hooks: seq<Hook>, h: Hook, st: State, gs: seq<Group>,
                                         gs': seq<Group>, st2: State)
    requires EnvOk(env) && AllFine(env, hooks, h) && Stepped(env, hooks, h, st, gs, gs', st2)
    requires Tracks(env, hooks, gs, st) && MapsOk(env, hooks, gs, st.list)
    ensures Step(env, st, h).Ok? && Tracks(env, hooks + [h], gs', Step(env, st, h).value)
    ensures MapsOk(env, hooks + [h], gs', Step(env, st, h).value.list)
  {
    hide *;
    SteppedFacts(env, hooks, h, st, gs, gs', st2);
    StepMaps(env, hooks, h, st.list, gs, gs', st2);
  }

  lemma {:induction false} SteppedFacts(env: Env, hooks: seq<Hook>, h: Hook, st: State, gs: seq<Group>,
                                        gs': seq<Group>, st2: State)
    requires Stepped(env, hooks, h, st, gs, gs', st2) && Tracks(env, hooks, gs, st)
    ensures CursorOk(st) && Step(env, st, h) == Ok(Attach(st2, h)) && Extends(gs, gs')
    ensures HookMaps(st2.list) == HookMaps(st.list) && FlatOf(st2.list) == Flatten(gs')
    ensures gs' != [] && CursorAt(env, gs'[|gs'| - 1], st2.cursor, h)
    ensures Tracks(env, hooks + [h], gs', Attach(st2, h))
  {
    hide GroupsOk, Flatten, CursorAt, Step, Attach, InGroups, Extends, HookMaps;
    CursorRom(env, gs'[|gs'| - 1], st2.cursor, h);
    AttachFrame(st2, h);
    StillGrouped(hooks, h, gs, gs');
    assert (hooks + [h])[|hooks|] == h;
  }

  lemma AttachFrame(st: State, h: Hook)
    ensures FlatOf(Attach(st, h).list) == FlatOf(st.list) && Attach(st, h).cursor == st.cursor
  {}

  lemma {:induction false} StillGrouped(hooks: seq<Hook>, h: Hook, gs: seq<Group>, gs': seq<Group>)
    requires forall i :: 0 <= i < |hooks| ==> InGroups(gs, hooks[i].rom)
    requires Extends(gs, gs') && gs' != [] && gs'[|gs'| - 1].rom == h.rom
    ensures forall i :: 0 <= i < |hooks + [h]| ==> InGroups(gs', (hooks + [h])[i].rom)
  {
    assert InGroups(gs', h.rom);
    AllGrouped(hooks, h, gs, gs');
  }

  lemma CursorRom(env: Env, g: Group, c: Cursor, h: Hook)
    requires CursorAt(env, g, c, h)
    ensures g.rom == h.rom
  {}

  // --- Slices of the list ---------------------------------------------------------------------------

  function FuncEnd(list: RegenList, s: nat): nat
    requires s < |list.sections|
  {
    if s + 1 < |list.sections| then list.sections[s + 1].firstFunc else |list.functions|
  }

  function RelocEnd(list: RegenList, s: nat): nat
    requires s < |list.sections|
  {
    if s + 1 < |list.sections| then list.sections[s + 1].firstReloc else |list.relocs|
  }

  ghost function FirstReloc(gs: seq<Group>, k: nat): nat
    requires k <= |gs|
  {
    |Flatten(gs[..k]).relocs|
  }

  // Section k's entry in the flat list, and its slices.
  lemma {:induction false} SliceIs(gs: seq<Group>, k: nat)
    requires k < |gs| && PtrsMatch(gs)
    ensures var f, g := Flatten(gs), gs[k];
            && |f.sections| == |gs|
            && f.sections[k] == RegenSection(g.rom, g.ram, g.index, First(gs, k), FirstReloc(gs, k), g.relocatable)
            && First(gs, k) + |g.funcs| == First(gs, k + 1) <= |f.functions|
            && FirstReloc(gs, k) + |g.relocs| == FirstReloc(gs, k + 1) <= |f.relocs|
            && f.functions[First(gs, k)..First(gs, k + 1)] == g.funcs
            && |f.ptrs| == |f.functions| && f.ptrs[First(gs, k)..First(gs, k + 1)] == g.ptrs
            && f.relocs[FirstReloc(gs, k)..FirstReloc(gs, k + 1)] == g.relocs
    decreases |gs|
  {
    var n := |gs| - 1;
    var front, last := gs[..n], gs[n];
    assert gs == front + [last];
    hide Flatten;
    FlattenSnoc(front, last);
    FlattenLength(front);
    FlattenPtrs(front);
    if k == n {
      assert gs[..k] == front && gs[..k + 1] == gs;
    } else {
      assert front[..k] == gs[..k] && front[..k + 1] == gs[..k + 1] && front[k] == gs[k];
      SliceIs(front, k);
      var f := Flatten(front);
      Within(f.functions, last.funcs, First(gs, k), First(gs, k + 1));
      Within(f.ptrs, last.ptrs, First(gs, k), First(gs, k + 1));
      Within(f.relocs, last.relocs, FirstReloc(gs, k), FirstReloc(gs, k + 1));
    }
  }

  lemma Within<T>(a: seq<T>, b: seq<T>, i: nat, j: nat)
    requires i <= j <= |a|
    ensures (a + b)[i..j] == a[i..j]
  {}

  lemma {:induction false} FlattenLength(gs: seq<Group>)
    ensures |Flatten(gs).sections| == |gs|
  {
    if gs != [] { FlattenLength(gs[..|gs| - 1]); }
  }

  // Every group has a host pointer for each of its functions.
  ghost predicate PtrsMatch(gs: seq<Group>) { forall k :: 0 <= k < |gs| ==> |gs[k].ptrs| == |gs[k].funcs| }

  lemma {:induction false} FlattenPtrs(gs: seq<Group>)
    requires PtrsMatch(gs)
    ensures |Flatten(gs).ptrs| == |Flatten(gs).functions|
  {
    if gs != [] { FlattenPtrs(gs[..|gs| - 1]); }
  }

  lemma GroupsPtrs(env: Env, hooks: seq<Hook>, gs: seq<Group>)
    requires GroupsOk(env, hooks, gs)
    ensures PtrsMatch(gs)
  {
    forall k | 0 <= k < |gs| ensures |gs[k].ptrs| == |gs[k].funcs| { assert GroupOk(env, hooks, gs[k]); }
  }

  lemma {:induction false} EndsAre(gs: seq<Group>, list: RegenList, k: nat)
    requires k < |gs| && FlatOf(list) == Flatten(gs) && PtrsMatch(gs)
    ensures |list.sections| == |gs| && FuncEnd(list, k) == First(gs, k + 1)
            && RelocEnd(list, k) == FirstReloc(gs, k + 1)
  {
    FlattenLength(gs);
    if k + 1 < |gs| { SliceIs(gs, k + 1); } else { assert gs[..k + 1] == gs; }
  }

  // Section k of the list: of a hooked section, with slices in bounds, holding hooked and
  // unpatched functions in address order with their host pointers, and exactly the section's
  // relocations inside hooked functions, in order.
  ghost predicate SliceOk(env: Env, hooks: seq<Hook>, list: RegenList, k: nat)
    requires k < |list.sections|
  {
    var s := list.sections[k];
    && Info(env, s.rom).Some? && HasRom(hooks, s.rom)
    && s.index == env.vrom[s.rom] && s.ram == Info(env, s.rom).value.ram
    && (s.relocatable <==> !env.forPatches && Info(env, s.rom).value.relocs != [])
    && s.firstFunc <= FuncEnd(list, k) <= |list.functions| && s.firstReloc <= RelocEnd(list, k) <= |list.relocs|
    && |list.ptrs| == |list.functions|
    && FuncsOk(env, hooks, s.rom, list.functions[s.firstFunc..FuncEnd(list, k)],
               list.ptrs[s.firstFunc..FuncEnd(list, k)])
    && list.relocs[s.firstReloc..RelocEnd(list, k)] == Wanted(env, hooks, s.rom, Info(env, s.rom).value.relocs)
  }

  // Sections in ROM order cut both lists into consecutive slices from the start to the end.
  ghost predicate Partitioned(list: RegenList) {
    var s := list.sections;
    && (s == [] ==> list.functions == [] && list.relocs == [])
    && (s != [] ==> s[0].firstFunc == 0 && s[0].firstReloc == 0)
    && (forall j, k :: 0 <= j < k < |s| ==> s[j].rom < s[k].rom)
  }

  // Function f of the list, with its host pointer, is the one h hooks, in h's section.
  ghost predicate Names(env: Env, list: RegenList, h: Hook, f: nat, k: nat)
    requires k < |list.sections|
  {
    && list.sections[k].rom == h.rom && list.sections[k].firstFunc <= f < FuncEnd(list, k)
    && f < |list.functions| && f < |list.ptrs| && IsFor(env, h, list.functions[f], list.ptrs[f])
  }

  ghost predicate NamesSome(env: Env, list: RegenList, h: Hook, f: nat) {
    exists k :: 0 <= k < |list.sections| && Names(env, list, h, f, k)
  }

  ghost predicate HasSlot(env: Env, list: RegenList, h: Hook) {
    exists f :: f in Slots(list, h.atReturn) && Slots(list, h.atReturn)[f] == h.slot && NamesSome(env, list, h, f)
  }

  ghost predicate SlotFrom(env: Env, hooks: seq<Hook>, list: RegenList, f: nat, atReturn: bool, slot: nat) {
    exists i :: 0 <= i < |hooks| && hooks[i].atReturn == atReturn && hooks[i].slot == slot
                && PatchOf(env, hooks[i]).None? && NamesSome(env, list, hooks[i], f)
  }

  lemma {:induction false} MappedNames(env: Env, gs: seq<Group>, list: RegenList, h: Hook, f: nat)
    requires FlatOf(list) == Flatten(gs) && PtrsMatch(gs) && MappedAt(env, gs, h, f)
    ensures NamesSome(env, list, h, f)
  {
    var k, j :| 0 <= k < |gs| && 0 <= j < |gs[k].funcs| && At(env, gs, h, f, k, j);
    hide Flatten, IsFor, PtrsMatch;
    SliceIs(gs, k);
    EndsAre(gs, list, k);
    assert list.functions[First(gs, k)..First(gs, k + 1)][j] == list.functions[f];
    assert list.ptrs[First(gs, k)..First(gs, k + 1)][j] == list.ptrs[f];
    assert Names(env, list, h, f, k);
  }

  lemma {:induction false} SlicesOk(env: Env, hooks: seq<Hook>, gs: seq<Group>, list: RegenList, k: nat)
    requires FlatOf(list) == Flatten(gs) && GroupsOk(env, hooks, gs) && k < |gs|
    ensures k < |list.sections| && SliceOk(env, hooks, list, k) && list.sections[k].rom == gs[k].rom
  {
    GroupsPtrs(env, hooks, gs);
    SliceIs(gs, k);
    EndsAre(gs, list, k);
    assert GroupOk(env, hooks, gs[k]) && HasRom(hooks, gs[k].rom);
    hide Flatten, Wanted, FuncsOk, HasRom;
  }

  lemma {:induction false} ListPartitioned(env: Env, hooks: seq<Hook>, gs: seq<Group>, list: RegenList)
    requires FlatOf(list) == Flatten(gs) && GroupsOk(env, hooks, gs)
    ensures |list.sections| == |gs| && Partitioned(list)
  {
    GroupsPtrs(env, hooks, gs);
    FlattenLength(gs);
    forall k | 0 <= k < |gs| ensures list.sections[k].rom == gs[k].rom { SliceIs(gs, k); }
    if gs != [] {
      SliceIs(gs, 0);
      var none := gs[..0];
      assert none == [] && Flatten(none) == Flat([], [], [], []);
    }
    hide GroupOk, HasRom;
  }

  // What the pass is for: it either reports the first hook that names nothing hookable, or
  // builds a list whose section slices hold the hooked functions the base program has not
  // patched, with their host pointers, and exactly the relocations inside hooked functions,
  // each once and in order, whose slots are exactly those of the hooks the base program has
  // not patched, each on its own function, and which diverts the other hooks in order.
  ghost predicate Regenerates(env: Env, hooks: seq<Hook>) {
    match Pass(env, hooks)
    case Err(e) => FirstError(env, hooks) == Some(e)
    case Ok(st) => FirstError(env, hooks).None? && ListOk(env, hooks, st.list)
  }

  ghost predicate ListOk(env: Env, hooks: seq<Hook>, list: RegenList) {
    && Partitioned(list)
    && (forall k :: 0 <= k < |list.sections| ==> SliceOk(env, hooks, list, k))
    && (forall i :: 0 <= i < |hooks| ==>
          exists k :: 0 <= k < |list.sections| && list.sections[k].rom == hooks[i].rom)
    && (forall i :: 0 <= i < |hooks| && PatchOf(env, hooks[i]).None? ==> HasSlot(env, list, hooks[i]))
    && (forall f, r :: f in Slots(list, r) ==> SlotFrom(env, hooks, list, f, r, Slots(list, r)[f]))
    && list.patchedHooks == PatchedOf(env, hooks)
  }

  lemma UnmarkedRegenerates(env: Env, hooks: seq<Hook>)
    requires EnvOk(env) && HooksOk(hooks)
    ensures Regenerates(env, hooks)
  {
    hide EnvOk, HooksOk, Tracks, MapsOk, Pass, ListOk, FirstError;
    var gs := PassIs(env, hooks);
    if Pass(env, hooks).Ok? { BuiltList(env, hooks, gs, Pass(env, hooks).value); }
  }

  lemma {:induction false} BuiltList(env: Env, hooks: seq<Hook>, gs: seq<Group>, st: State)
    requires Tracks(env, hooks, gs, st) && MapsOk(env, hooks, gs, st.list)
    ensures ListOk(env, hooks, st.list)
  {
    hide Flatten, FlatOf, GroupsOk, PtrsMatch, CursorAt, SliceOk, PatchOf, HasSlot, SlotFrom, Partitioned;
    hide Attached, Owned;
    var list := st.list;
    GroupsPtrs(env, hooks, gs);
    ListPartitioned(env, hooks, gs, list);
    forall k | 0 <= k < |gs| ensures SliceOk(env, hooks, list, k) && list.sections[k].rom == gs[k].rom {
      SlicesOk(env, hooks, gs, list, k);
    }
    forall i | 0 <= i < |hooks| ensures exists k :: 0 <= k < |list.sections| && list.sections[k].rom == hooks[i].rom {
      var k :| 0 <= k < |gs| && gs[k].rom == hooks[i].rom;
      assert list.sections[k].rom == hooks[i].rom;
    }
    forall i | 0 <= i < |hooks| && PatchOf(env, hooks[i]).None? ensures HasSlot(env, list, hooks[i]) {
      SlotPlaced(env, gs, list, hooks[i]);
    }
    forall f, r | f in Slots(list, r) ensures SlotFrom(env, hooks, list, f, r, Slots(list, r)[f]) {
      SlotOwned(env, hooks, gs, list, f, r);
    }
  }

  lemma {:induction false} SlotPlaced(env: Env, gs: seq<Group>, list: RegenList, h: Hook)
    requires FlatOf(list) == Flatten(gs) && PtrsMatch(gs) && Attached(env, gs, list, h)
    ensures HasSlot(env, list, h)
  {
    hide Flatten, MappedAt, NamesSome;
    var f :| f in Slots(list, h.atReturn) && Slots(list, h.atReturn)[f] == h.slot && MappedAt(env, gs, h, f);
    MappedNames(env, gs, list, h, f);
  }

  lemma {:induction false} SlotOwned(env: Env, hooks: seq<Hook>, gs: seq<Group>, list: RegenList, f: nat, r: bool)
    requires FlatOf(list) == Flatten(gs) && PtrsMatch(gs)
    requires f in Slots(list, r) && Owned(env, hooks, gs, f, r, Slots(list, r)[f])
    ensures SlotFrom(env, hooks, list, f, r, Slots(list, r)[f])
  {
    hide Flatten, MappedAt, NamesSome;
    var slot := Slots(list, r)[f];
    var i :| 0 <= i < |hooks| && hooks[i].atReturn == r && hooks[i].slot == slot
             && PatchOf(env, hooks[i]).None? && MappedAt(env, gs, hooks[i], f);
    MappedNames(env, gs, list, hooks[i], f);
  }
}
