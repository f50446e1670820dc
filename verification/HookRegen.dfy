// Building the list of functions to regenerate for hooks (mods.cpp): one pass over hooks
// sorted by section and function, with a cursor over each section's relocations that only
// moves forward.
module HookRegen {
  import opened Options
  import opened Words

  datatype Hook = Hook(rom: u32, vram: u32, atReturn: bool, slot: nat)

  datatype Reloc = Reloc(offset: u32, targetSection: nat, targetOffset: u32, kind: nat)

  datatype FuncInfo = FuncInfo(func: nat, romSize: u32)

  // Functions are found by their offset in the section.
  datatype SectionInfo = SectionInfo(ram: u32, relocs: seq<Reloc>, funcs: map<u32, FuncInfo>)

  datatype Patched = Patched(section: nat, func: nat)

  // `forPatches` selects the list built for the base program's own patches, which has no
  // further base patches and whose sections never relocate.
  datatype Env = Env(vrom: map<u32, nat>, sections: seq<SectionInfo>, patches: map<nat, Patched>, forPatches: bool)

  datatype RegenSection =
    RegenSection(rom: u32, ram: u32, index: nat, firstFunc: nat, firstReloc: nat, relocatable: bool)

  datatype RegenFunc = RegenFunc(offset: u32, size: u32)

  datatype RegenList = RegenList(
    sections: seq<RegenSection>, functions: seq<RegenFunc>, relocs: seq<Reloc>, ptrs: seq<nat>,
    entryHooks: map<nat, nat>, returnHooks: map<nat, nat>, patchedHooks: seq<(Patched, Hook)>)

  datatype Error = InvalidHook(hook: Hook) | CannotBeHooked(hook: Hook)

  datatype Result<T> = Ok(value: T) | Err(error: Error)

  // What the pass carries from hook to hook.
  datatype Cursor =
    Cursor(rom: u32, ram: u32, index: nat, vram: u32, relocs: seq<Reloc>, next: nat, patched: Option<Patched>)

  const NONE: u32 := 0xFFFF_FFFF
  const START := Cursor(NONE, NONE, 0xFFFF, NONE, [], 0, None)
  const EMPTY := RegenList([], [], [], [], map[], map[], [])

  datatype State = State(list: RegenList, cursor: Cursor)

  // --- The pass, hook by hook ------------------------------------------------------------

  function EnterSection(env: Env, st: State, h: Hook): Result<State> {
    if h.rom == st.cursor.rom then Ok(st)
    else if h.rom !in env.vrom || env.vrom[h.rom] >= |env.sections| then Err(InvalidHook(h))
    else
      var index := env.vrom[h.rom];
      var info := env.sections[index];
      var section := RegenSection(h.rom, info.ram, index, |st.list.functions|, |st.list.relocs|,
                                  !env.forPatches && info.relocs != []);
      Ok(State(st.list.(sections := st.list.sections + [section]),
               st.cursor.(rom := h.rom, ram := info.ram, index := index, vram := NONE, relocs := info.relocs, next := 0)))
  }

  // The first relocation from k on that lies at or after the limit.
  function Advance(relocs: seq<Reloc>, k: nat, limit: nat): (r: nat)
    requires k <= |relocs|
    ensures k <= r <= |relocs|
    ensures forall j :: k <= j < r ==> relocs[j].offset < limit
    ensures r < |relocs| ==> relocs[r].offset >= limit
    decreases |relocs| - k
  {
    if k == |relocs| || relocs[k].offset >= limit then k else Advance(relocs, k + 1, limit)
  }

  function FindFunc(env: Env, index: nat, offset: u32): Option<FuncInfo> {
    if index < |env.sections| && offset in env.sections[index].funcs
    then Some(env.sections[index].funcs[offset]) else None
  }

  function BasePatch(env: Env, func: nat): Option<Patched> {
    if !env.forPatches && func in env.patches then Some(env.patches[func]) else None
  }

  function EnterFunction(env: Env, st: State, h: Hook): Result<State>
    requires st.cursor.next <= |st.cursor.relocs|
  {
    var c, list := st.cursor, st.list;
    if h.vram == c.vram then Ok(st)
    else
      var offset := Wrap32(h.vram - c.ram);
      var found := FindFunc(env, c.index, offset);
      if found.None? then Err(InvalidHook(h))
      else if found.value.romSize == 0 then Err(CannotBeHooked(h))
      else
        var patched := BasePatch(env, found.value.func);
        var from := Advance(c.relocs, c.next, offset);
        var to := Advance(c.relocs, from, offset + found.value.romSize);
        var list' := list.(relocs := list.relocs + c.relocs[from..to]);
        Ok(State(if patched.Some? then list'
                 else list'.(functions := list.functions + [RegenFunc(offset, found.value.romSize)],
                             ptrs := list.ptrs + [found.value.func]),
                 c.(vram := h.vram, next := to, patched := patched)))
  }

  // size_t arithmetic: with no function yet, the last index wraps.
  function LastIndex(n: nat): nat { if n == 0 then 0xFFFF_FFFF_FFFF_FFFF else n - 1 }

  function Attach(st: State, h: Hook): State {
    var c, list := st.cursor, st.list;
    if c.patched.Some? then st.(list := list.(patchedHooks := list.patchedHooks + [(c.patched.value, h)]))
    else
      var k := LastIndex(|list.functions|);
      if h.atReturn then st.(list := list.(returnHooks := list.returnHooks[k := h.slot]))
      else st.(list := list.(entryHooks := list.entryHooks[k := h.slot]))
  }

  ghost predicate CursorOk(st: State) { st.cursor.next <= |st.cursor.relocs| }

  function Step(env: Env, st: State, h: Hook): (r: Result<State>)
    requires CursorOk(st)
    ensures r.Ok? ==> CursorOk(r.value)
  {
    match EnterSection(env, st, h)
    case Err(e) => Err(e)
    case Ok(st1) =>
      match EnterFunction(env, st1, h)
      case Err(e) => Err(e)
      case Ok(st2) => Ok(Attach(st2, h))
  }

  function Pass(env: Env, hooks: seq<Hook>): (r: Result<State>)
    ensures r.Ok? ==> CursorOk(r.value)
  {
    if hooks == [] then Ok(State(EMPTY, START))
    else
      var n := |hooks| - 1;
      match Pass(env, hooks[..n])
      case Err(e) => Err(e)
      case Ok(st) => Step(env, st, hooks[n])
  }

  lemma {:induction false} ErrorsPersist(env: Env, hooks: seq<Hook>, n: nat)
    requires n <= |hooks| && Pass(env, hooks[..n]).Err?
    ensures Pass(env, hooks) == Pass(env, hooks[..n])
    decreases |hooks|
  {
    if n < |hooks| {
      var front := hooks[..|hooks| - 1];
      assert front[..n] == hooks[..n];
      ErrorsPersist(env, front, n);
    } else {
      assert hooks[..n] == hooks;
    }
  }

  // The two scanning loops: skip what lies before the function, copy what lies inside it.
  method GatherRelocs(relocs: seq<Reloc>, start: nat, offset: nat, limit: nat) returns (next: nat, copied: seq<Reloc>)
    requires start <= |relocs|
    ensures var from := Advance(relocs, start, offset);
            next == Advance(relocs, from, limit) && copied == relocs[from..next]
  {
    next, copied := start, [];
    while next < |relocs| && relocs[next].offset < offset
      invariant next <= |relocs| && Advance(relocs, next, offset) == Advance(relocs, start, offset)
    {
      next := next + 1;
    }
    ghost var from := next;
    while next < |relocs| && relocs[next].offset < limit
      invariant from <= next <= |relocs| && Advance(relocs, next, limit) == Advance(relocs, from, limit)
      invariant copied == relocs[from..next]
    {
      copied := copied + [relocs[next]];
      next := next + 1;
    }
  }

  method TrackFunction(env: Env, st: State, h: Hook) returns (r: Result<State>)
    requires CursorOk(st)
    ensures r == EnterFunction(env, st, h)
  {
    hide Advance, FindFunc, BasePatch;
    var c, list := st.cursor, st.list;
    if h.vram == c.vram { return Ok(st); }
    var offset: int := Wrap32(h.vram - c.ram);
    var found := FindFunc(env, c.index, offset);
    if found.None? { return Err(InvalidHook(h)); }
    var size := found.value.romSize;
    if size == 0 { return Err(CannotBeHooked(h)); }
    c := c.(patched := BasePatch(env, found.value.func), vram := h.vram);
    if c.patched.None? {
      list := list.(functions := list.functions + [RegenFunc(offset, size)], ptrs := list.ptrs + [found.value.func]);
    }
    var next, copied := GatherRelocs(c.relocs, c.next, offset, offset + size);
    return Ok(State(list.(relocs := list.relocs + copied), c.(next := next)));
  }

  method BuildRegenList(env: Env, hooks: seq<Hook>) returns (r: Result<RegenList>)
    ensures r == match Pass(env, hooks) case Ok(st) => Ok(st.list) case Err(e) => Err(e)
  {
    hide EnterSection, EnterFunction, Attach;
    var st := State(EMPTY, START);
    for n := 0 to |hooks|
      invariant Pass(env, hooks[..n]) == Ok(st)
    {
      var h := hooks[n];
      assert hooks[..n + 1][..n] == hooks[..n];
      var entered := EnterSection(env, st, h);
      if entered.Err? { ErrorsPersist(env, hooks, n + 1); return Err(entered.error); }
      EntryCursor(env, st, h);
      var tracked := TrackFunction(env, entered.value, h);
      if tracked.Err? { ErrorsPersist(env, hooks, n + 1); return Err(tracked.error); }
      st := Attach(tracked.value, h);
    }
    assert hooks[..|hooks|] == hooks;
    return Ok(st.list);
  }

  lemma EntryCursor(env: Env, st: State, h: Hook)
    requires CursorOk(st)
    ensures var r := EnterSection(env, st, h); r.Ok? ==> CursorOk(r.value)
  {}
}
