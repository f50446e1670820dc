// What the one-pass list holds: exactly the relocations inside hooked functions, section by
// section and in order, and for every hook the function it was meant for.
module HookRegenProofs {
  import opened Options
  import opened Words
  import opened HookRegen

  // --- Assumptions ---------------------------------------------------------------------------

  ghost predicate SectionOk(s: SectionInfo) {
    && (forall j, k :: 0 <= j < k < |s.relocs| ==> s.relocs[j].offset <= s.relocs[k].offset)
    && (forall a :: a in s.funcs ==> s.ram + a + s.funcs[a].romSize < TWO32)
    && (forall a, b :: a in s.funcs && b in s.funcs && a < b ==> a + s.funcs[a].romSize <= b)
  }

  // Relocations are sorted, functions lie apart inside their sections, and no section is at the
  // marker for "none yet".
  ghost predicate EnvOk(env: Env) {
    && (forall k :: 0 <= k < |env.sections| ==> SectionOk(env.sections[k]))
    && (forall rom :: rom in env.vrom ==> env.vrom[rom] < |env.sections| && rom != NONE)
  }

  predicate Before(a: Hook, b: Hook) { a.rom < b.rom || (a.rom == b.rom && a.vram <= b.vram) }

  // Sorted by section and function, each definition once.
  ghost predicate HooksSorted(hooks: seq<Hook>) {
    && (forall i, j :: 0 <= i < j < |hooks| ==> Before(hooks[i], hooks[j]))
    && (forall i, j :: 0 <= i < j < |hooks| ==> !SameHook(hooks[i], hooks[j]))
  }

  // No hook is at one of the two markers.
  ghost predicate Unmarked(hooks: seq<Hook>) {
    forall i :: 0 <= i < |hooks| ==> hooks[i].rom != NONE && hooks[i].vram != NONE
  }

  ghost predicate HooksOk(hooks: seq<Hook>) { HooksSorted(hooks) && Unmarked(hooks) }

  predicate SameHook(a: Hook, b: Hook) { a.rom == b.rom && a.vram == b.vram && a.atReturn == b.atReturn }

  // --- What a hook names, independent of the pass ----------------------------------------------

  function Info(env: Env, rom: u32): Option<SectionInfo> {
    if rom in env.vrom && env.vrom[rom] < |env.sections| then Some(env.sections[env.vrom[rom]]) else None
  }

  function Offset(env: Env, h: Hook): u32 {
    match Info(env, h.rom) case None => 0 case Some(s) => Wrap32(h.vram - s.ram)
  }

  function Target(env: Env, h: Hook): Option<FuncInfo> {
    match Info(env, h.rom)
    case None => None
    case Some(s) => if Offset(env, h) in s.funcs then Some(s.funcs[Offset(env, h)]) else None
  }

  function HookError(env: Env, h: Hook): Option<Error> {
    var target := Target(env, h);
    if target.None? then Some(InvalidHook(h))
    else if target.value.romSize == 0 then Some(CannotBeHooked(h))
    else None
  }

  function Size(env: Env, h: Hook): u32 { match Target(env, h) case None => 0 case Some(f) => f.romSize }

  function PatchOf(env: Env, h: Hook): Option<Patched> {
    match Target(env, h)
    case None => None
    case Some(f) => if !env.forPatches && f.func in env.patches then Some(env.patches[f.func]) else None
  }

  predicate InFunction(env: Env, h: Hook, r: Reloc) {
    Offset(env, h) <= r.offset < Offset(env, h) + Size(env, h)
  }

  // Some hooked function of the section holds the relocation.
  ghost predicate Hooked(env: Env, hooks: seq<Hook>, rom: u32, r: Reloc) {
    exists i :: 0 <= i < |hooks| && hooks[i].rom == rom && InFunction(env, hooks[i], r)
  }

  // The relocations of a list that lie inside some hooked function, in order.
  ghost function Wanted(env: Env, hooks: seq<Hook>, rom: u32, relocs: seq<Reloc>): seq<Reloc> {
    if relocs == [] then []
    else
      var n := |relocs| - 1;
      Wanted(env, hooks, rom, relocs[..n]) + if Hooked(env, hooks, rom, relocs[n]) then [relocs[n]] else []
  }

  // --- Properties of the filter --------------------------------------------------------------

  lemma {:induction false} WantedConcat(env: Env, hooks: seq<Hook>, rom: u32, a: seq<Reloc>, b: seq<Reloc>)
    ensures Wanted(env, hooks, rom, a + b) == Wanted(env, hooks, rom, a) + Wanted(env, hooks, rom, b)
    decreases |b|
  {
    hide Hooked;
    if b == [] {
      assert a + b == a;
    } else {
      var n := |b| - 1;
      WantedConcat(env, hooks, rom, a, b[..n]);
      assert (a + b)[..|a + b| - 1] == a + b[..n] && (a + b)[|a + b| - 1] == b[n];
    }
  }

  lemma {:induction false} WantedNone(env: Env, hooks: seq<Hook>, rom: u32, relocs: seq<Reloc>)
    requires forall j :: 0 <= j < |relocs| ==> !Hooked(env, hooks, rom, relocs[j])
    ensures Wanted(env, hooks, rom, relocs) == []
    decreases |relocs|
  {
    hide Hooked;
    if relocs != [] { WantedNone(env, hooks, rom, relocs[..|relocs| - 1]); }
  }

  lemma {:induction false} WantedAll(env: Env, hooks: seq<Hook>, rom: u32, relocs: seq<Reloc>)
    requires forall j :: 0 <= j < |relocs| ==> Hooked(env, hooks, rom, relocs[j])
    ensures Wanted(env, hooks, rom, relocs) == relocs
    decreases |relocs|
  {
    hide Hooked;
    if relocs != [] {
      var n := |relocs| - 1;
      WantedAll(env, hooks, rom, relocs[..n]);
      assert relocs == relocs[..n] + [relocs[n]];
    }
  }

  lemma {:induction false} WantedSame(env: Env, a: seq<Hook>, b: seq<Hook>, rom: u32, relocs: seq<Reloc>)
    requires forall j :: 0 <= j < |relocs| ==> (Hooked(env, a, rom, relocs[j]) <==> Hooked(env, b, rom, relocs[j]))
    ensures Wanted(env, a, rom, relocs) == Wanted(env, b, rom, relocs)
    decreases |relocs|
  {
    hide Hooked;
    if relocs != [] { WantedSame(env, a, b, rom, relocs[..|relocs| - 1]); }
  }

  lemma HookedSnoc(env: Env, hooks: seq<Hook>, h: Hook, rom: u32, r: Reloc)
    ensures Hooked(env, hooks + [h], rom, r) <==> Hooked(env, hooks, rom, r) || (h.rom == rom && InFunction(env, h, r))
  {
    if Hooked(env, hooks, rom, r) {
      var i :| 0 <= i < |hooks| && hooks[i].rom == rom && InFunction(env, hooks[i], r);
      assert (hooks + [h])[i] == hooks[i];
    }
    if h.rom == rom && InFunction(env, h, r) { assert (hooks + [h])[|hooks|] == h; }
  }

  // --- The list as groups, one a section -------------------------------------------------------

  // Lemmas about lists of groups are proved without the default induction, which gets in the way.
  datatype Group = Group(rom: u32, ram: u32, index: nat, relocatable: bool,
                         funcs: seq<RegenFunc>, ptrs: seq<nat>, relocs: seq<Reloc>)

  datatype Flat = Flat(sections: seq<RegenSection>, functions: seq<RegenFunc>, ptrs: seq<nat>, relocs: seq<Reloc>)

  // Groups laid one after the other: a section's first indices are what precedes it.
  ghost function Flatten(gs: seq<Group>): Flat {
    if gs == [] then Flat([], [], [], [])
    else
      var n := |gs| - 1;
      var f, g := Flatten(gs[..n]), gs[n];
      Flat(f.sections + [RegenSection(g.rom, g.ram, g.index, |f.functions|, |f.relocs|, g.relocatable)],
           f.functions + g.funcs, f.ptrs + g.ptrs, f.relocs + g.relocs)
  }

  function FlatOf(list: RegenList): Flat { Flat(list.sections, list.functions, list.ptrs, list.relocs) }

  // A function of the list was put there for a hook on it, one the base program did not patch.
  ghost predicate FromHook(env: Env, hooks: seq<Hook>, rom: u32, f: RegenFunc, ptr: nat) {
    exists i :: 0 <= i < |hooks| && hooks[i].rom == rom && IsFor(env, hooks[i], f, ptr)
  }

  predicate IsFor(env: Env, h: Hook, f: RegenFunc, ptr: nat) {
    PatchOf(env, h).None? && Target(env, h) == Some(FuncInfo(ptr, f.size)) && Offset(env, h) == f.offset
  }

  // A group holds the wanted relocations of its section and functions in address order.
  ghost predicate GroupOk(env: Env, hooks: seq<Hook>, g: Group) {
    && Info(env, g.rom).Some? && g.index == env.vrom[g.rom] && g.ram == Info(env, g.rom).value.ram
    && (g.relocatable <==> !env.forPatches && Info(env, g.rom).value.relocs != [])
    && g.relocs == Wanted(env, hooks, g.rom, Info(env, g.rom).value.relocs)
    && FuncsOk(env, hooks, g.rom, g.funcs, g.ptrs)
  }

  // A section's functions are hooked and unpatched, each once in address order, with their
  // host pointers.
  ghost predicate FuncsOk(env: Env, hooks: seq<Hook>, rom: u32, funcs: seq<RegenFunc>, ptrs: seq<nat>) {
    && |ptrs| == |funcs|
    && (forall j, k :: 0 <= j < k < |funcs| ==> funcs[j].offset < funcs[k].offset)
    && (forall j :: 0 <= j < |funcs| ==> FromHook(env, hooks, rom, funcs[j], ptrs[j]))
  }

  ghost predicate HasRom(hooks: seq<Hook>, rom: u32) { exists i :: 0 <= i < |hooks| && hooks[i].rom == rom }

  // One group a hooked section, in ROM order.
  ghost predicate GroupsOk(env: Env, hooks: seq<Hook>, gs: seq<Group>) {
    && (forall k :: 0 <= k < |gs| ==> GroupOk(env, hooks, gs[k]) && HasRom(hooks, gs[k].rom))
    && (forall j, k :: 0 <= j < k < |gs| ==> gs[j].rom < gs[k].rom)
  }

  // --- Another section's group ------------------------------------------------------------------

  lemma OtherGroup(env: Env, hooks: seq<Hook>, h: Hook, g: Group)
    requires GroupOk(env, hooks, g) && g.rom != h.rom
    ensures GroupOk(env, hooks + [h], g)
  {
    var relocs := Info(env, g.rom).value.relocs;
    forall j | 0 <= j < |relocs|
      ensures Hooked(env, hooks, g.rom, relocs[j]) <==> Hooked(env, hooks + [h], g.rom, relocs[j])
    {
      HookedSnoc(env, hooks, h, g.rom, relocs[j]);
    }
    WantedSame(env, hooks, hooks + [h], g.rom, relocs);
    forall j | 0 <= j < |g.funcs| ensures FromHook(env, hooks + [h], g.rom, g.funcs[j], g.ptrs[j]) {
      FromHookSnoc(env, hooks, h, g.rom, g.funcs[j], g.ptrs[j]);
    }
  }

  lemma FromHookSnoc(env: Env, hooks: seq<Hook>, h: Hook, rom: u32, f: RegenFunc, ptr: nat)
    requires FromHook(env, hooks, rom, f, ptr)
    ensures FromHook(env, hooks + [h], rom, f, ptr)
  {
    var i :| 0 <= i < |hooks| && hooks[i].rom == rom && IsFor(env, hooks[i], f, ptr);
    assert (hooks + [h])[i] == hooks[i];
  }

  lemma HasRomSnoc(hooks: seq<Hook>, h: Hook, rom: u32)
    ensures HasRom(hooks + [h], rom) <==> HasRom(hooks, rom) || h.rom == rom
  {
    if HasRom(hooks, rom) {
      var i :| 0 <= i < |hooks| && hooks[i].rom == rom;
      assert (hooks + [h])[i] == hooks[i];
    }
    if h.rom == rom { assert (hooks + [h])[|hooks|] == h; }
  }

  // --- Entering a function ----------------------------------------------------------------------

  // Everything before the cursor ends before the limit, everything from it on begins at or
  // after it.
  predicate Boundary(relocs: seq<Reloc>, next: nat, limit: nat) {
    && next <= |relocs|
    && (forall j :: 0 <= j < next ==> relocs[j].offset < limit)
    && (forall j :: next <= j < |relocs| ==> relocs[j].offset >= limit)
  }

  // Every hooked function so far of the section ends by the limit.
  ghost predicate EndBy(env: Env, hooks: seq<Hook>, rom: u32, limit: nat) {
    forall i :: 0 <= i < |hooks| && hooks[i].rom == rom ==> Offset(env, hooks[i]) + Size(env, hooks[i]) <= limit
  }

  predicate Sorted(relocs: seq<Reloc>) {
    forall j, k :: 0 <= j < k < |relocs| ==> relocs[j].offset <= relocs[k].offset
  }

  // The cursor's two scans cut the section's relocations in four: done, between functions,
  // inside this function, and later.
  lemma Scan(env: Env, hooks: seq<Hook>, h: Hook, relocs: seq<Reloc>, next: nat, limit: nat,
             from: nat, to: nat)
    requires Sorted(relocs) && Boundary(relocs, next, limit) && EndBy(env, hooks, h.rom, limit)
    requires limit <= Offset(env, h)
    requires from == Advance(relocs, next, Offset(env, h)) && to == Advance(relocs, from, Offset(env, h) + Size(env, h))
    ensures Wanted(env, hooks + [h], h.rom, relocs) == Wanted(env, hooks, h.rom, relocs) + relocs[from..to]
    ensures Boundary(relocs, to, Offset(env, h) + Size(env, h))
  {
    hide *;
    ScanMarks(env, hooks, h, relocs, next, limit, from, to);
    Cut(relocs, from, to);
    WantedCut(env, hooks, hooks + [h], h.rom, relocs[..from], relocs[from..to], relocs[to..]);
  }

  lemma Cut(relocs: seq<Reloc>, from: nat, to: nat)
    requires from <= to <= |relocs|
    ensures relocs == relocs[..from] + (relocs[from..to] + relocs[to..])
  {}

  lemma WantedCut(env: Env, hooks: seq<Hook>, hooks': seq<Hook>, rom: u32, a: seq<Reloc>,
                  b: seq<Reloc>, c: seq<Reloc>)
    requires forall j :: 0 <= j < |a| ==> (Hooked(env, hooks, rom, a[j]) <==> Hooked(env, hooks', rom, a[j]))
    requires forall j :: 0 <= j < |b| ==> !Hooked(env, hooks, rom, b[j]) && Hooked(env, hooks', rom, b[j])
    requires forall j :: 0 <= j < |c| ==> !Hooked(env, hooks, rom, c[j]) && !Hooked(env, hooks', rom, c[j])
    ensures Wanted(env, hooks', rom, a + (b + c)) == Wanted(env, hooks, rom, a + (b + c)) + b
  {
    hide *;
    WantedConcat(env, hooks, rom, a, b + c);
    WantedConcat(env, hooks, rom, b, c);
    WantedConcat(env, hooks', rom, a, b + c);
    WantedConcat(env, hooks', rom, b, c);
    WantedSame(env, hooks, hooks', rom, a);
    WantedNone(env, hooks, rom, b);
    WantedNone(env, hooks, rom, c);
    WantedAll(env, hooks', rom, b);
    WantedNone(env, hooks', rom, c);
  }

  lemma ScanMarks(env: Env, hooks: seq<Hook>, h: Hook, relocs: seq<Reloc>, next: nat, limit: nat,
                  from: nat, to: nat)
    requires Sorted(relocs) && Boundary(relocs, next, limit) && EndBy(env, hooks, h.rom, limit)
    requires limit <= Offset(env, h)
    requires from == Advance(relocs, next, Offset(env, h)) && to == Advance(relocs, from, Offset(env, h) + Size(env, h))
    ensures from <= to <= |relocs| && Boundary(relocs, to, Offset(env, h) + Size(env, h))
    ensures forall j :: 0 <= j < from ==>
              (Hooked(env, hooks, h.rom, relocs[j]) <==> Hooked(env, hooks + [h], h.rom, relocs[j]))
    ensures forall j :: from <= j < |relocs| ==> !Hooked(env, hooks, h.rom, relocs[j])
    ensures forall j :: from <= j < |relocs| ==> (Hooked(env, hooks + [h], h.rom, relocs[j]) <==> j < to)
  {
    var offset, end := Offset(env, h), Offset(env, h) + Size(env, h);
    assert from < |relocs| ==> relocs[from].offset >= offset;
    assert to < |relocs| ==> relocs[to].offset >= end;
    assert Boundary(relocs, to, end);
    hide Advance, Hooked, EndBy, Offset, Size;
    forall j | 0 <= j < |relocs|
      ensures Hooked(env, hooks + [h], h.rom, relocs[j]) <==>
              Hooked(env, hooks, h.rom, relocs[j]) || offset <= relocs[j].offset < end
      ensures relocs[j].offset >= limit ==> !Hooked(env, hooks, h.rom, relocs[j])
    {
      HookedSnoc(env, hooks, h, h.rom, relocs[j]);
      if relocs[j].offset >= limit { PastTheLimit(env, hooks, h.rom, limit, relocs[j]); }
    }
  }

  lemma PastTheLimit(env: Env, hooks: seq<Hook>, rom: u32, limit: nat, r: Reloc)
    requires EndBy(env, hooks, rom, limit) && r.offset >= limit
    ensures !Hooked(env, hooks, rom, r)
  {}

  // --- The cursor ---------------------------------------------------------------------------------

  // The cursor stands after hook h, in group g.
  ghost predicate CursorAt(env: Env, g: Group, c: Cursor, h: Hook) {
    && InSection(env, g, c) && g.rom == h.rom && c.vram == h.vram && HookError(env, h).None?
    && c.patched == PatchOf(env, h)
    && Boundary(c.relocs, c.next, Offset(env, h) + Size(env, h))
    && (PatchOf(env, h).None? ==> g.funcs != [] && |g.ptrs| == |g.funcs|
                                  && IsFor(env, h, g.funcs[|g.funcs| - 1], g.ptrs[|g.ptrs| - 1]))
  }

  predicate InSection(env: Env, g: Group, c: Cursor) {
    && Info(env, g.rom).Some? && c.rom == g.rom && c.index == env.vrom[g.rom]
    && c.ram == Info(env, g.rom).value.ram && c.relocs == Info(env, g.rom).value.relocs
  }

  // Hooks in order: what an earlier hook's function covers ends where a later one begins.
  lemma EarlierEnds(env: Env, a: Hook, b: Hook)
    requires EnvOk(env) && a.rom == b.rom && a.vram <= b.vram
    requires HookError(env, a).None? && HookError(env, b).None?
    ensures a.vram == b.vram ==> Offset(env, a) == Offset(env, b)
    ensures a.vram < b.vram ==> Offset(env, a) + Size(env, a) <= Offset(env, b)
  {
    var s := Info(env, a.rom).value;
    assert SectionOk(s);
    Placed(env, a);
    Placed(env, b);
  }

  // A hooked function lies in its section, so its address is not wrapped.
  lemma Placed(env: Env, h: Hook)
    requires EnvOk(env) && HookError(env, h).None?
    ensures h.vram == Info(env, h.rom).value.ram + Offset(env, h) && Size(env, h) > 0
  {
    var s := Info(env, h.rom).value;
    assert SectionOk(s);
    Unwrap(h.vram, s.ram);
  }

  lemma Unwrap(vram: u32, ram: u32)
    requires ram + Wrap32(vram - ram) < TWO32
    ensures vram == ram + Wrap32(vram - ram)
  {
    assert Wrap32(vram - ram) == if vram < ram then vram - ram + TWO32 else vram - ram;
  }

  // --- Entering h's function --------------------------------------------------------------------

  // Group g once h's function has been entered with the cursor at `next`.
  function Grown(env: Env, g: Group, h: Hook, copied: seq<Reloc>): Group
    requires HookError(env, h).None?
  {
    var f := Target(env, h).value;
    if PatchOf(env, h).Some? then g.(relocs := g.relocs + copied)
    else g.(funcs := g.funcs + [RegenFunc(Offset(env, h), f.romSize)], ptrs := g.ptrs + [f.func], relocs := g.relocs + copied)
  }

  lemma GrownOk(env: Env, hooks: seq<Hook>, h: Hook, g: Group, next: nat, limit: nat, from: nat,
                to: nat)
    requires EnvOk(env) && GroupOk(env, hooks, g) && g.rom == h.rom && HookError(env, h).None?
    requires forall i :: 0 <= i < |hooks| && hooks[i].rom == h.rom ==>
               HookError(env, hooks[i]).None? && hooks[i].vram < h.vram
    requires var relocs := Info(env, g.rom).value.relocs;
             && Boundary(relocs, next, limit) && EndBy(env, hooks, h.rom, limit) && limit <= Offset(env, h)
             && from == Advance(relocs, next, Offset(env, h)) && to == Advance(relocs, from, Offset(env, h) + Size(env, h))
    ensures from <= to <= |Info(env, g.rom).value.relocs|
    ensures GroupOk(env, hooks + [h], Grown(env, g, h, Info(env, g.rom).value.relocs[from..to]))
    ensures Boundary(Info(env, g.rom).value.relocs, to, Offset(env, h) + Size(env, h))
  {
    var relocs := Info(env, g.rom).value.relocs;
    assert SectionOk(Info(env, g.rom).value);
    Scan(env, hooks, h, relocs, next, limit, from, to);
    FuncsGrown(env, hooks, h, g, relocs[from..to]);
    hide FuncsOk, Wanted, Boundary, EndBy, Advance, Sorted, SectionOk, EnvOk;
  }

  lemma FuncsGrown(env: Env, hooks: seq<Hook>, h: Hook, g: Group, copied: seq<Reloc>)
    requires EnvOk(env) && FuncsOk(env, hooks, g.rom, g.funcs, g.ptrs) && g.rom == h.rom && HookError(env, h).None?
    requires forall i :: 0 <= i < |hooks| && hooks[i].rom == h.rom ==>
               HookError(env, hooks[i]).None? && hooks[i].vram < h.vram
    ensures var g' := Grown(env, g, h, copied); FuncsOk(env, hooks + [h], g'.rom, g'.funcs, g'.ptrs)
  {
    var g', hooks' := Grown(env, g, h, copied), hooks + [h];
    forall j | 0 <= j < |g.funcs|
      ensures g.funcs[j].offset < Offset(env, h) && FromHook(env, hooks', g.rom, g.funcs[j], g.ptrs[j])
    {
      FromHookSnoc(env, hooks, h, g.rom, g.funcs[j], g.ptrs[j]);
      var i :| 0 <= i < |hooks| && hooks[i].rom == g.rom && IsFor(env, hooks[i], g.funcs[j], g.ptrs[j]);
      EarlierEnds(env, hooks[i], h);
      Placed(env, hooks[i]);
    }
    hide HookError, EnvOk;
    if PatchOf(env, h).None? {
      assert hooks'[|hooks|] == h && IsFor(env, h, g'.funcs[|g.funcs|], g'.ptrs[|g.funcs|]);
      assert FromHook(env, hooks', g.rom, g'.funcs[|g.funcs|], g'.ptrs[|g.funcs|]);
    }
  }

  // --- One hook -------------------------------------------------------------------------------------

  lemma {:induction false} FlattenSnoc(gs: seq<Group>, g: Group)
    ensures var f := Flatten(gs);
            Flatten(gs + [g]) ==
            Flat(f.sections + [RegenSection(g.rom, g.ram, g.index, |f.functions|, |f.relocs|, g.relocatable)],
                 f.functions + g.funcs, f.ptrs + g.ptrs, f.relocs + g.relocs)
  {
    assert (gs + [g])[..|gs|] == gs;
  }

  // The list with h's function added to its last group.
  function ListGrown(env: Env, list: RegenList, h: Hook, copied: seq<Reloc>): RegenList
    requires HookError(env, h).None?
  {
    var f := Target(env, h).value;
    if PatchOf(env, h).Some? then list.(relocs := list.relocs + copied)
    else list.(functions := list.functions + [RegenFunc(Offset(env, h), f.romSize)], ptrs := list.ptrs + [f.func],
               relocs := list.relocs + copied)
  }

  lemma {:induction false} GrownFlat(env: Env, gs: seq<Group>, g: Group, list: RegenList, h: Hook, copied: seq<Reloc>)
    requires FlatOf(list) == Flatten(gs + [g]) && HookError(env, h).None?
    ensures FlatOf(ListGrown(env, list, h, copied)) == Flatten(gs + [Grown(env, g, h, copied)])
  {
    FlattenSnoc(gs, g);
    FlattenSnoc(gs, Grown(env, g, h, copied));
  }

  // Entering a function, given a cursor in the hook's section: an error exactly when the
  // hook itself is at fault.
  lemma EnterFunctionIs(env: Env, g: Group, st: State, h: Hook)
    requires CursorOk(st) && InSection(env, g, st.cursor) && g.rom == h.rom && st.cursor.vram != h.vram
    ensures EnterFunction(env, st, h) ==
            match HookError(env, h)
            case Some(e) => Err(e)
            case None =>
              var c := st.cursor;
              var from := Advance(c.relocs, c.next, Offset(env, h));
              var to := Advance(c.relocs, from, Offset(env, h) + Size(env, h));
              Ok(State(ListGrown(env, st.list, h, c.relocs[from..to]),
                       c.(vram := h.vram, next := to, patched := PatchOf(env, h))))
  {
    hide Advance;
  }

  // The hooks before h, in the order the pass sees them.
  ghost predicate Precede(env: Env, hooks: seq<Hook>, h: Hook) {
    forall i :: 0 <= i < |hooks| ==> HookError(env, hooks[i]).None? && Before(hooks[i], h)
  }

  lemma {:induction false} NewFunction(env: Env, hooks: seq<Hook>, h: Hook, gs: seq<Group>, g: Group, st: State,
                                       limit: nat)
    returns (g': Group)
    requires EnvOk(env) && HookError(env, h).None? && Precede(env, hooks, h)
    requires forall i :: 0 <= i < |hooks| && hooks[i].rom == h.rom ==> hooks[i].vram != h.vram
    requires GroupOk(env, hooks, g) && g.rom == h.rom && FlatOf(st.list) == Flatten(gs + [g])
    requires InSection(env, g, st.cursor) && st.cursor.vram != h.vram
    requires Boundary(st.cursor.relocs, st.cursor.next, limit) && EndBy(env, hooks, h.rom, limit)
             && limit <= Offset(env, h)
    ensures GroupOk(env, hooks + [h], g') && g'.rom == h.rom
    ensures var r := EnterFunction(env, st, h);
            && r.Ok? && FlatOf(r.value.list) == Flatten(gs + [g']) && CursorAt(env, g', r.value.cursor, h)
            && HookMaps(r.value.list) == HookMaps(st.list)
    ensures g.funcs <= g'.funcs && g.ptrs <= g'.ptrs
  {
    hide *;
    var c := st.cursor;
    assert c.next <= |c.relocs| && c.relocs == Info(env, g.rom).value.relocs by { CursorIn(env, g, st, limit); }
    var from := Advance(c.relocs, c.next, Offset(env, h));
    var to := Advance(c.relocs, from, Offset(env, h) + Size(env, h));
    assert CursorOk(st) by { CursorIn(env, g, st, limit); }
    EnterFunctionIs(env, g, st, h);
    PrecedeSame(env, hooks, h);
    GrownOk(env, hooks, h, g, c.next, limit, from, to);
    GrownFlat(env, gs, g, st.list, h, c.relocs[from..to]);
    g' := Grown(env, g, h, c.relocs[from..to]);
    GrownCursor(env, hooks, g, h, c, c.relocs[from..to], to);
    GrownMaps(env, st.list, h, c.relocs[from..to]);
  }

  lemma CursorIn(env: Env, g: Group, st: State, limit: nat)
    requires InSection(env, g, st.cursor) && Boundary(st.cursor.relocs, st.cursor.next, limit)
    ensures CursorOk(st) && Info(env, g.rom).Some? && st.cursor.relocs == Info(env, g.rom).value.relocs
    ensures st.cursor.next <= |st.cursor.relocs|
  {}

  lemma PrecedeSame(env: Env, hooks: seq<Hook>, h: Hook)
    requires Precede(env, hooks, h)
    requires forall i :: 0 <= i < |hooks| && hooks[i].rom == h.rom ==> hooks[i].vram != h.vram
    ensures forall i :: 0 <= i < |hooks| && hooks[i].rom == h.rom ==>
              HookError(env, hooks[i]).None? && hooks[i].vram < h.vram
  {}

  lemma GrownCursor(env: Env, hooks: seq<Hook>, g: Group, h: Hook, c: Cursor, copied: seq<Reloc>,
                    to: nat)
    requires InSection(env, g, c) && g.rom == h.rom && HookError(env, h).None? && GroupOk(env, hooks, g)
    requires Boundary(c.relocs, to, Offset(env, h) + Size(env, h))
    ensures CursorAt(env, Grown(env, g, h, copied), c.(vram := h.vram, next := to, patched := PatchOf(env, h)), h)
    ensures g.funcs <= Grown(env, g, h, copied).funcs && g.ptrs <= Grown(env, g, h, copied).ptrs
    ensures Grown(env, g, h, copied).rom == h.rom
  {
    hide Boundary, Wanted, FromHook;
  }

  lemma GrownMaps(env: Env, list: RegenList, h: Hook, copied: seq<Reloc>)
    requires HookError(env, h).None?
    ensures HookMaps(ListGrown(env, list, h, copied)) == HookMaps(list)
  {}

  function HookMaps(list: RegenList): (map<nat, nat>, map<nat, nat>, seq<(Patched, Hook)>) {
    (list.entryHooks, list.returnHooks, list.patchedHooks)
  }

  // --- The invariant of the pass ---------------------------------------------------------------------

  ghost predicate InGroups(gs: seq<Group>, rom: u32) { exists k :: 0 <= k < |gs| && gs[k].rom == rom }

  ghost predicate Tracks(env: Env, hooks: seq<Hook>, gs: seq<Group>, st: State) {
    && GroupsOk(env, hooks, gs) && FlatOf(st.list) == Flatten(gs)
    && (forall i :: 0 <= i < |hooks| ==> InGroups(gs, hooks[i].rom))
    && if hooks == [] then gs == [] && st.cursor == START
       else gs != [] && CursorAt(env, gs[|gs| - 1], st.cursor, hooks[|hooks| - 1])
  }

  // Groups only gain functions at their end, and new groups come last.
  ghost predicate Extends(gs: seq<Group>, gs': seq<Group>) {
    && |gs| <= |gs'|
    && (forall k :: 0 <= k < |gs| - 1 ==> gs'[k] == gs[k])
    && (gs != [] ==> var g, g' := gs[|gs| - 1], gs'[|gs| - 1];
                     g'.rom == g.rom && g.funcs <= g'.funcs && g.ptrs <= g'.ptrs && (|gs| < |gs'| ==> g == g'))
  }

  // All but the last group are of other sections; the last is h's.
  lemma {:induction false} GroupsSnoc(env: Env, hooks: seq<Hook>, h: Hook, gs: seq<Group>, g': Group)
    requires GroupsOk(env, hooks, gs) && GroupOk(env, hooks + [h], g') && g'.rom == h.rom
    requires forall k :: 0 <= k < |gs| ==> gs[k].rom < h.rom
    ensures GroupsOk(env, hooks + [h], gs + [g'])
  {
    hide GroupOk, HasRom;
    var gs' := gs + [g'];
    forall k | 0 <= k < |gs'| ensures GroupOk(env, hooks + [h], gs'[k]) && HasRom(hooks + [h], gs'[k].rom) {
      HasRomSnoc(hooks, h, gs'[k].rom);
      if k < |gs| { OtherGroup(env, hooks, h, gs[k]); }
    }
  }

  lemma {:induction false} AllGrouped(hooks: seq<Hook>, h: Hook, gs: seq<Group>, gs': seq<Group>)
    requires forall i :: 0 <= i < |hooks| ==> InGroups(gs, hooks[i].rom)
    requires |gs| <= |gs'| && (forall k :: 0 <= k < |gs| ==> gs'[k].rom == gs[k].rom) && InGroups(gs', h.rom)
    ensures forall i :: 0 <= i < |hooks + [h]| ==> InGroups(gs', (hooks + [h])[i].rom)
  {
    forall i | 0 <= i < |hooks| ensures InGroups(gs', hooks[i].rom) {
      var k :| 0 <= k < |gs| && gs[k].rom == hooks[i].rom;
      assert gs'[k].rom == hooks[i].rom;
    }
  }

  // The empty group of a section no hook has named yet.
  function NewGroup(env: Env, h: Hook): Group
    requires Info(env, h.rom).Some?
  {
    var info := Info(env, h.rom).value;
    Group(h.rom, info.ram, env.vrom[h.rom], !env.forPatches && info.relocs != [], [], [], [])
  }

  lemma NewGroupOk(env: Env, hooks: seq<Hook>, h: Hook)
    requires Info(env, h.rom).Some? && forall i :: 0 <= i < |hooks| ==> hooks[i].rom != h.rom
    ensures GroupOk(env, hooks, NewGroup(env, h)) && EndBy(env, hooks, h.rom, 0)
  {
    var relocs := Info(env, h.rom).value.relocs;
    assert forall j :: 0 <= j < |relocs| ==> !Hooked(env, hooks, h.rom, relocs[j]);
    WantedNone(env, hooks, h.rom, relocs);
  }

  lemma {:induction false} NewSection(env: Env, hooks: seq<Hook>, h: Hook, gs: seq<Group>, st: State)
    returns (st1: State)
    requires Info(env, h.rom).Some? && FlatOf(st.list) == Flatten(gs) && h.rom != st.cursor.rom
    ensures EnterSection(env, st, h) == Ok(st1) && FlatOf(st1.list) == Flatten(gs + [NewGroup(env, h)])
    ensures HookMaps(st1.list) == HookMaps(st.list)
    ensures InSection(env, NewGroup(env, h), st1.cursor) && st1.cursor.vram == NONE
    ensures st1.cursor.next == 0 && Boundary(st1.cursor.relocs, 0, 0)
  {
    FlattenSnoc(gs, NewGroup(env, h));
    st1 := EnterSection(env, st, h).value;
  }

  // --- The three cases of a step --------------------------------------------------------------------

  // What a step gives: the same groups or more, the hook attached last.
  ghost predicate Stepped(env: Env, hooks: seq<Hook>, h: Hook, st: State, gs: seq<Group>, gs': seq<Group>, st2: State) {
    && CursorOk(st) && Step(env, st, h) == Ok(Attach(st2, h)) && HookMaps(st2.list) == HookMaps(st.list)
    && GroupsOk(env, hooks + [h], gs') && FlatOf(st2.list) == Flatten(gs')
    && gs' != [] && CursorAt(env, gs'[|gs'| - 1], st2.cursor, h)
    && Extends(gs, gs')
  }

  lemma {:induction false} StepNewSection(env: Env, hooks: seq<Hook>, h: Hook, gs: seq<Group>, st: State)
    returns (gs': seq<Group>, st2: State)
    requires EnvOk(env) && HookError(env, h).None? && Precede(env, hooks, h) && h.vram != NONE
    requires CursorOk(st) && GroupsOk(env, hooks, gs) && FlatOf(st.list) == Flatten(gs) && h.rom != st.cursor.rom
    requires forall i :: 0 <= i < |hooks| ==> hooks[i].rom != h.rom
    requires forall k :: 0 <= k < |gs| ==> gs[k].rom < h.rom
    ensures Stepped(env, hooks, h, st, gs, gs', st2)
  {
    hide EnvOk, Precede, GroupsOk, GroupOk, Flatten, EnterSection, EnterFunction, Boundary, EndBy, CursorAt, InSection;
    var st1 := NewSection(env, hooks, h, gs, st);
    NewGroupOk(env, hooks, h);
    var g' := NewFunction(env, hooks, h, gs, NewGroup(env, h), st1, 0);
    GroupsSnoc(env, hooks, h, gs, g');
    gs' := gs + [g'];
    st2 := EnterFunction(env, st1, h).value;
  }

  // The hooks up to the one the cursor stands after end by the end of its function.
  lemma EndBySoFar(env: Env, hooks: seq<Hook>, last: Hook)
    requires EnvOk(env) && HookError(env, last).None? && Precede(env, hooks, last)
    ensures EndBy(env, hooks, last.rom, Offset(env, last) + Size(env, last))
  {
    forall i | 0 <= i < |hooks| && hooks[i].rom == last.rom
      ensures Offset(env, hooks[i]) + Size(env, hooks[i]) <= Offset(env, last) + Size(env, last)
    {
      EarlierEnds(env, hooks[i], last);
    }
  }

  lemma {:induction false} StepNewFunction(env: Env, hooks: seq<Hook>, h: Hook, gs: seq<Group>, g: Group, st: State,
                                           last: Hook)
    returns (gs': seq<Group>, st2: State)
    requires EnvOk(env) && HookError(env, h).None? && Precede(env, hooks, h) && Precede(env, hooks, last)
    requires CursorOk(st) && GroupsOk(env, hooks, gs + [g]) && FlatOf(st.list) == Flatten(gs + [g])
    requires CursorAt(env, g, st.cursor, last) && last.rom == h.rom && last.vram < h.vram
    ensures Stepped(env, hooks, h, st, gs + [g], gs', st2)
  {
    hide EnvOk, Precede, GroupsOk, GroupOk, Flatten, EnterSection, EnterFunction, Boundary, EndBy, CursorAt, InSection;
    hide HookError, Before;
    var limit := Offset(env, last) + Size(env, last);
    NewFunctionReady(env, hooks, h, gs, g, st, last);
    var g' := NewFunction(env, hooks, h, gs, g, st, limit);
    GroupsSnoc(env, hooks, h, gs, g');
    gs' := gs + [g'];
    st2 := EnterFunction(env, st, h).value;
  }

  lemma {:induction false} NewFunctionReady(env: Env, hooks: seq<Hook>, h: Hook, gs: seq<Group>, g: Group, st: State,
                                            last: Hook)
    requires EnvOk(env) && HookError(env, h).None? && Precede(env, hooks, h) && Precede(env, hooks, last)
    requires CursorOk(st) && GroupsOk(env, hooks, gs + [g])
    requires CursorAt(env, g, st.cursor, last) && last.rom == h.rom && last.vram < h.vram
    ensures g.rom == h.rom && st.cursor.vram != h.vram && EnterSection(env, st, h) == Ok(st)
    ensures GroupOk(env, hooks, g) && GroupsOk(env, hooks, gs) && forall k :: 0 <= k < |gs| ==> gs[k].rom < h.rom
    ensures InSection(env, g, st.cursor)
    ensures var limit := Offset(env, last) + Size(env, last);
            Boundary(st.cursor.relocs, st.cursor.next, limit) && EndBy(env, hooks, h.rom, limit) && limit <= Offset(env, h)
    ensures forall i :: 0 <= i < |hooks| && hooks[i].rom == h.rom ==> hooks[i].vram != h.vram
  {
    SplitGroups(env, hooks, gs, g);
    EarlierEnds(env, last, h);
    EndBySoFar(env, hooks, last);
    hide EnvOk, GroupOk, GroupsOk, EndBy, Boundary, HookError, PatchOf, IsFor;
    assert forall i :: 0 <= i < |hooks| && hooks[i].rom == h.rom ==> Before(hooks[i], last);
  }

  lemma {:induction false} SplitGroups(env: Env, hooks: seq<Hook>, gs: seq<Group>, g: Group)
    requires GroupsOk(env, hooks, gs + [g])
    ensures GroupOk(env, hooks, g) && GroupsOk(env, hooks, gs) && forall k :: 0 <= k < |gs| ==> gs[k].rom < g.rom
  {
    hide GroupOk, HasRom;
    var gs' := gs + [g];
    assert gs'[|gs|] == g && forall k :: 0 <= k < |gs| ==> gs'[k] == gs[k];
  }

  lemma {:induction false} StepSameFunction(env: Env, hooks: seq<Hook>, h: Hook, gs: seq<Group>, g: Group, st: State,
                                            last: Hook)
    requires CursorOk(st) && GroupsOk(env, hooks, gs + [g]) && FlatOf(st.list) == Flatten(gs + [g])
    requires CursorAt(env, g, st.cursor, last) && last.rom == h.rom && last.vram == h.vram && last in hooks
    ensures Stepped(env, hooks, h, st, gs + [g], gs + [g], st)
  {
    hide GroupsOk, GroupOk, Flatten, Step;
    SplitGroups(env, hooks, gs, g);
    CursorSame(env, g, st.cursor, last, h);
    hide CursorAt;
    SameGroup(env, hooks, h, g, last);
    StepStays(env, st, h);
    GroupsSnoc(env, hooks, h, gs, g);
  }

  // Hooks on one function leave the cursor in the same place.
  lemma CursorSame(env: Env, g: Group, c: Cursor, a: Hook, b: Hook)
    requires CursorAt(env, g, c, a) && a.rom == b.rom && a.vram == b.vram
    ensures CursorAt(env, g, c, b) && c.rom == g.rom == b.rom && c.vram == b.vram
  {
    hide Boundary, BasePatch;
  }

  lemma StepStays(env: Env, st: State, h: Hook)
    requires CursorOk(st) && st.cursor.rom == h.rom && st.cursor.vram == h.vram
    ensures Step(env, st, h) == Ok(Attach(st, h))
  {
    hide Attach;
  }

  lemma SameGroup(env: Env, hooks: seq<Hook>, h: Hook, g: Group, last: Hook)
    requires GroupOk(env, hooks, g) && g.rom == h.rom && last.rom == h.rom && last.vram == h.vram && last in hooks
    ensures GroupOk(env, hooks + [h], g)
  {
    var relocs := Info(env, g.rom).value.relocs;
    forall j | 0 <= j < |relocs|
      ensures Hooked(env, hooks, g.rom, relocs[j]) <==> Hooked(env, hooks + [h], g.rom, relocs[j])
    {
      HookedSnoc(env, hooks, h, g.rom, relocs[j]);
    }
    WantedSame(env, hooks, hooks + [h], g.rom, relocs);
    forall j | 0 <= j < |g.funcs| ensures FromHook(env, hooks + [h], g.rom, g.funcs[j], g.ptrs[j]) {
      FromHookSnoc(env, hooks, h, g.rom, g.funcs[j], g.ptrs[j]);
    }
  }

  // A hook that names nothing hookable stops the pass, and no other does.
  lemma {:induction false} StepError(env: Env, hooks: seq<Hook>, h: Hook, gs: seq<Group>, st: State)
    requires EnvOk(env) && CursorOk(st) && Tracks(env, hooks, gs, st) && HookError(env, h).Some?
    requires h.rom != NONE && (h.vram != NONE || h.rom == st.cursor.rom || Info(env, h.rom).None?)
    ensures Step(env, st, h) == Err(HookError(env, h).value)
  {
    hide Step, Flatten, GroupsOk, CursorAt, HookError, InSection, EnvOk;
    if h.rom == st.cursor.rom {
      var last := AfterLast(env, hooks, h, gs, st);
      EnterFunctionIs(env, gs[|gs| - 1], st, h);
      StepFails(env, st, st, h);
    } else if Info(env, h.rom).Some? {
      var st1 := NewSection(env, hooks, h, gs, st);
      EnterFunctionIs(env, NewGroup(env, h), st1, h);
      StepFails(env, st, st1, h);
    } else {
      NoSection(env, st, h);
    }
  }

  // A faulty hook in the cursor's section is on another function than the last hook.
  lemma AfterLast(env: Env, hooks: seq<Hook>, h: Hook, gs: seq<Group>, st: State) returns (last: Hook)
    requires Tracks(env, hooks, gs, st) && HookError(env, h).Some? && h.rom == st.cursor.rom && h.rom != NONE
    ensures gs != [] && CursorAt(env, gs[|gs| - 1], st.cursor, last) && last.rom == h.rom
    ensures InSection(env, gs[|gs| - 1], st.cursor) && gs[|gs| - 1].rom == h.rom && st.cursor.vram != h.vram
  {
    hide GroupsOk, Flatten, Boundary;
    last := hooks[|hooks| - 1];
    assert h.vram == last.vram ==> HookError(env, h).Some? == HookError(env, last).Some?;
  }

  lemma StepFails(env: Env, st: State, st1: State, h: Hook)
    requires CursorOk(st) && CursorOk(st1) && EnterFunction(env, st1, h).Err?
    requires if h.rom == st.cursor.rom then st1 == st else EnterSection(env, st, h) == Ok(st1)
    ensures Step(env, st, h) == Err(EnterFunction(env, st1, h).error)
  {
    hide EnterFunction, Attach;
  }

  lemma NoSection(env: Env, st: State, h: Hook)
    requires CursorOk(st) && h.rom != st.cursor.rom && Info(env, h.rom).None?
    ensures Step(env, st, h) == Err(InvalidHook(h)) && HookError(env, h) == Some(InvalidHook(h))
  {
    hide EnterFunction, Attach;
  }

  // --- Hook slots ----------------------------------------------------------------------------------------

  ghost function First(gs: seq<Group>, k: nat): nat
    requires k <= |gs|
  {
    |Flatten(gs[..k]).functions|
  }

  lemma {:induction false} FirstGrows(gs: seq<Group>, j: nat, k: nat)
    requires j < k <= |gs|
    ensures First(gs, j) + |gs[j].funcs| <= First(gs, k)
    decreases k
  {
    assert gs[..k][..k - 1] == gs[..k - 1];
    if j < k - 1 { FirstGrows(gs, j, k - 1); }
  }

  // The list's function f is the one h hooks.
  ghost predicate MappedAt(env: Env, gs: seq<Group>, h: Hook, f: nat) {
    exists k, j :: 0 <= k < |gs| && 0 <= j < |gs[k].funcs| && At(env, gs, h, f, k, j)
  }

  ghost predicate At(env: Env, gs: seq<Group>, h: Hook, f: nat, k: nat, j: nat)
    requires k < |gs| && j < |gs[k].funcs|
  {
    gs[k].rom == h.rom && j < |gs[k].ptrs| && IsFor(env, h, gs[k].funcs[j], gs[k].ptrs[j]) && f == First(gs, k) + j
  }

  function Slots(list: RegenList, atReturn: bool): map<nat, nat> {
    if atReturn then list.returnHooks else list.entryHooks
  }

  ghost predicate Attached(env: Env, gs: seq<Group>, list: RegenList, h: Hook) {
    exists f :: f in Slots(list, h.atReturn) && Slots(list, h.atReturn)[f] == h.slot && MappedAt(env, gs, h, f)
  }

  ghost predicate Owned(env: Env, hooks: seq<Hook>, gs: seq<Group>, f: nat, atReturn: bool, slot: nat) {
    exists i :: 0 <= i < |hooks| && hooks[i].atReturn == atReturn && hooks[i].slot == slot
                && PatchOf(env, hooks[i]).None? && MappedAt(env, gs, hooks[i], f)
  }

  function PatchedOf(env: Env, hooks: seq<Hook>): seq<(Patched, Hook)> {
    if hooks == [] then []
    else
      var h := hooks[|hooks| - 1];
      PatchedOf(env, hooks[..|hooks| - 1]) + if PatchOf(env, h).Some? then [(PatchOf(env, h).value, h)] else []
  }

  // Every unpatched hook has its slot at its function, no slot is there for anything else,
  // and the others are diverted in order.
  ghost predicate MapsOk(env: Env, hooks: seq<Hook>, gs: seq<Group>, list: RegenList) {
    && AllAttached(env, hooks, gs, list) && AllOwned(env, hooks, gs, list)
    && list.patchedHooks == PatchedOf(env, hooks)
  }

  ghost predicate AllAttached(env: Env, hooks: seq<Hook>, gs: seq<Group>, list: RegenList) {
    forall i :: 0 <= i < |hooks| && PatchOf(env, hooks[i]).None? ==> Attached(env, gs, list, hooks[i])
  }

  ghost predicate AllOwned(env: Env, hooks: seq<Hook>, gs: seq<Group>, list: RegenList) {
    forall f, r :: f in Slots(list, r) ==> Owned(env, hooks, gs, f, r, Slots(list, r)[f])
  }

  lemma {:induction false} MappedExtends(env: Env, gs: seq<Group>, gs': seq<Group>, h: Hook, f: nat)
    requires MappedAt(env, gs, h, f) && Extends(gs, gs')
    ensures MappedAt(env, gs', h, f)
  {
    var k, j :| 0 <= k < |gs| && 0 <= j < |gs[k].funcs| && At(env, gs, h, f, k, j);
    assert gs'[..k] == gs[..k];
    assert gs[k].funcs[j] == gs'[k].funcs[j] && gs[k].ptrs[j] == gs'[k].ptrs[j];
    assert At(env, gs', h, f, k, j);
  }

  // Only hooks on one function share its place in the list.
  lemma {:induction false} SamePlace(env: Env, gs: seq<Group>, a: Hook, b: Hook, f: nat)
    requires EnvOk(env) && MappedAt(env, gs, a, f) && MappedAt(env, gs, b, f)
    requires HookError(env, a).None? && HookError(env, b).None?
    ensures a.rom == b.rom && a.vram == b.vram
  {
    var k, j :| 0 <= k < |gs| && 0 <= j < |gs[k].funcs| && At(env, gs, a, f, k, j);
    var k', j' :| 0 <= k' < |gs| && 0 <= j' < |gs[k'].funcs| && At(env, gs, b, f, k', j');
    if k < k' { FirstGrows(gs, k, k'); }
    if k' < k { FirstGrows(gs, k', k); }
    Placed(env, a);
    Placed(env, b);
  }

  lemma {:induction false} LastMapped(env: Env, gs: seq<Group>, c: Cursor, h: Hook)
    requires gs != [] && CursorAt(env, gs[|gs| - 1], c, h) && PatchOf(env, h).None?
    ensures |Flatten(gs).functions| > 0 && MappedAt(env, gs, h, |Flatten(gs).functions| - 1)
  {
    var n := |gs| - 1;
    assert gs == gs[..n] + [gs[n]];
    FlattenSnoc(gs[..n], gs[n]);
    assert At(env, gs, h, |Flatten(gs).functions| - 1, n, |gs[n].funcs| - 1);
  }

  lemma {:induction false} OwnedSnoc(env: Env, hooks: seq<Hook>, h: Hook, gs: seq<Group>, gs': seq<Group>, f: nat,
                                     r: bool, slot: nat)
    requires Owned(env, hooks, gs, f, r, slot) && Extends(gs, gs')
    ensures Owned(env, hooks + [h], gs', f, r, slot)
  {
    var i :| 0 <= i < |hooks| && hooks[i].atReturn == r && hooks[i].slot == slot
             && PatchOf(env, hooks[i]).None? && MappedAt(env, gs, hooks[i], f);
    assert (hooks + [h])[i] == hooks[i];
    MappedExtends(env, gs, gs', hooks[i], f);
  }

  // What attaching h changes.
  ghost predicate SlotsStep(env: Env, h: Hook, gs: seq<Group>, list: RegenList, list': RegenList, last: nat) {
    && Slots(list', !h.atReturn) == Slots(list, !h.atReturn)
    && match PatchOf(env, h)
       case None =>
         && MappedAt(env, gs, h, last) && list'.patchedHooks == list.patchedHooks
         && Slots(list', h.atReturn) == Slots(list, h.atReturn)[last := h.slot]
       case Some(patched) =>
         && Slots(list', h.atReturn) == Slots(list, h.atReturn)
         && list'.patchedHooks == list.patchedHooks + [(patched, h)]
  }

  lemma {:induction false} AttachSlots(env: Env, h: Hook, list: RegenList, gs: seq<Group>, st: State)
    returns (last: nat)
    requires HookMaps(st.list) == HookMaps(list) && FlatOf(st.list) == Flatten(gs)
    requires gs != [] && CursorAt(env, gs[|gs| - 1], st.cursor, h)
    ensures SlotsStep(env, h, gs, list, Attach(st, h).list, last)
  {
    last := 0;
    assert st.cursor.patched == PatchOf(env, h);
    if PatchOf(env, h).None? {
      LastMapped(env, gs, st.cursor, h);
      last := |Flatten(gs).functions| - 1;
    }
    hide Flatten, CursorAt, MappedAt, PatchOf;
  }

  lemma {:induction false} AttachedStays(env: Env, gs: seq<Group>, gs': seq<Group>, list: RegenList, list': RegenList,
                                         a: Hook, h: Hook, last: nat)
    requires EnvOk(env) && Attached(env, gs, list, a) && Extends(gs, gs') && !SameHook(a, h)
    requires HookError(env, a).None? && HookError(env, h).None? && SlotsStep(env, h, gs', list, list', last)
    ensures Attached(env, gs', list', a)
  {
    hide EnvOk, HookError, Extends, MappedAt;
    var f :| f in Slots(list, a.atReturn) && Slots(list, a.atReturn)[f] == a.slot && MappedAt(env, gs, a, f);
    MappedExtends(env, gs, gs', a, f);
    if a.atReturn == h.atReturn && PatchOf(env, h).None? && f == last { SamePlace(env, gs', a, h, f); }
  }

  lemma {:induction false} OwnedStep(env: Env, hooks: seq<Hook>, gs: seq<Group>, gs': seq<Group>, list: RegenList,
                                     list': RegenList, h: Hook,
                  last: nat, f: nat, r: bool)
    requires f in Slots(list, r) ==> Owned(env, hooks, gs, f, r, Slots(list, r)[f])
    requires Extends(gs, gs') && SlotsStep(env, h, gs', list, list', last) && f in Slots(list', r)
    ensures Owned(env, hooks + [h], gs', f, r, Slots(list', r)[f])
  {
    hide Extends, MappedAt, PatchOf;
    if PatchOf(env, h).None? && r == h.atReturn && f == last {
      assert (hooks + [h])[|hooks|] == h;
    } else {
      OwnedSnoc(env, hooks, h, gs, gs', f, r, Slots(list, r)[f]);
    }
  }

  ghost predicate AllFine(env: Env, hooks: seq<Hook>, h: Hook) {
    && HookError(env, h).None?
    && forall i :: 0 <= i < |hooks| ==> HookError(env, hooks[i]).None? && !SameHook(hooks[i], h)
  }

  lemma {:induction false} AttachedNow(env: Env, h: Hook, gs: seq<Group>, list: RegenList, list': RegenList, last: nat)
    requires SlotsStep(env, h, gs, list, list', last) && PatchOf(env, h).None?
    ensures Attached(env, gs, list', h)
  {
    hide MappedAt, PatchOf;
    assert last in Slots(list', h.atReturn);
  }

  lemma {:induction false} AllAttachedStep(env: Env, hooks: seq<Hook>, h: Hook, gs: seq<Group>, gs': seq<Group>,
                                           list: RegenList,
                        list': RegenList, last: nat)
    requires EnvOk(env) && AllFine(env, hooks, h) && Extends(gs, gs') && SlotsStep(env, h, gs', list, list', last)
    requires AllAttached(env, hooks, gs, list)
    ensures AllAttached(env, hooks + [h], gs', list')
  {
    hide EnvOk, HookError, Extends, SlotsStep, Attached, PatchOf;
    forall i | 0 <= i < |hooks + [h]| && PatchOf(env, (hooks + [h])[i]).None?
      ensures Attached(env, gs', list', (hooks + [h])[i])
    {
      if i < |hooks| {
        AttachedStays(env, gs, gs', list, list', hooks[i], h, last);
      } else {
        AttachedNow(env, h, gs', list, list', last);
      }
    }
  }

  lemma {:induction false} AllOwnedStep(env: Env, hooks: seq<Hook>, h: Hook, gs: seq<Group>, gs': seq<Group>,
                                        list: RegenList,
                     list': RegenList, last: nat)
    requires Extends(gs, gs') && SlotsStep(env, h, gs', list, list', last) && AllOwned(env, hooks, gs, list)
    ensures AllOwned(env, hooks + [h], gs', list')
  {
    hide Extends, SlotsStep, Owned, Slots;
    forall f, r | f in Slots(list', r) ensures Owned(env, hooks + [h], gs', f, r, Slots(list', r)[f]) {
      OwnedStep(env, hooks, gs, gs', list, list', h, last, f, r);
    }
  }

  lemma {:induction false} PatchedStep(env: Env, hooks: seq<Hook>, h: Hook, gs: seq<Group>, list: RegenList,
                                       list': RegenList, last: nat)
    requires SlotsStep(env, h, gs, list, list', last) && list.patchedHooks == PatchedOf(env, hooks)
    ensures list'.patchedHooks == PatchedOf(env, hooks + [h])
  {
    hide MappedAt, PatchOf;
    assert (hooks + [h])[..|hooks + [h]| - 1] == hooks;
  }

  lemma {:induction false} StepMaps(env: Env, hooks: seq<Hook>, h: Hook, list: RegenList, gs: seq<Group>,
                                    gs': seq<Group>, st: State)
    requires EnvOk(env) && AllFine(env, hooks, h) && MapsOk(env, hooks, gs, list) && Extends(gs, gs')
    requires HookMaps(st.list) == HookMaps(list) && FlatOf(st.list) == Flatten(gs')
    requires gs' != [] && CursorAt(env, gs'[|gs'| - 1], st.cursor, h)
    ensures MapsOk(env, hooks + [h], gs', Attach(st, h).list)
  {
    hide EnvOk, AllFine, Extends, HookMaps, FlatOf, CursorAt, SlotsStep, Attach, AllAttached, AllOwned, PatchedOf;
    var list' := Attach(st, h).list;
    var last := AttachSlots(env, h, list, gs', st);
    AllAttachedStep(env, hooks, h, gs, gs', list, list', last);
    AllOwnedStep(env, hooks, h, gs, gs', list, list', last);
    PatchedStep(env, hooks, h, gs', list, list', last);
  }
}
