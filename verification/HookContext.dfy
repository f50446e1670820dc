// The recompiler context built from a finished list (mods.cpp): each section takes the slice
// of functions and relocations between its first indices and the next section's.
module HookContext {
  import opened Words
  import opened HookRegen
  import opened HookRegenProofs
  import opened HookRegenLists
  import opened HookMarkers
  import Rdram

  datatype ContextFunc = ContextFunc(vram: u32, rom: u32, words: seq<u32>, section: nat)

  datatype ContextReloc = ContextReloc(address: u32, symbol: u32, targetSection: nat, targetOffset: u32, kind: nat)

  datatype ContextSection =
    ContextSection(rom: u32, ram: u32, relocatable: bool, funcs: seq<nat>, relocs: seq<ContextReloc>)

  // `byVram` finds the functions at an address.
  datatype Context =
    Context(sections: seq<ContextSection>, functions: seq<ContextFunc>, byVram: map<u32, seq<nat>>)

  // The slices lie in bounds, in order.
  ghost predicate InBounds(list: RegenList) {
    forall k :: 0 <= k < |list.sections| ==>
      && list.sections[k].firstFunc <= FuncEnd(list, k) <= |list.functions|
      && list.sections[k].firstReloc <= RelocEnd(list, k) <= |list.relocs|
  }

  // A function with its words, copied as they stand in the ROM.
  function FuncOut(rom: seq<byte>, s: RegenSection, f: RegenFunc, k: nat): ContextFunc {
    var at := Wrap32(s.rom + f.offset);
    ContextFunc(Wrap32(s.ram + f.offset), at,
                seq(f.size / 4, i requires 0 <= i < f.size / 4 => Rdram.LoadNative(rom, at + 4 * i)), k)
  }

  function Found(byVram: map<u32, seq<nat>>, v: u32): seq<nat> { if v in byVram then byVram[v] else [] }

  // The lookup holds the functions of a range, each once at its address and in order.
  ghost predicate Indexed(byVram: map<u32, seq<nat>>, functions: seq<ContextFunc>, from: nat, to: nat)
    requires to <= |functions|
  {
    forall v: u32 :: IndexedAt(Found(byVram, v), functions, v, from, to)
  }

  ghost predicate IndexedAt(at: seq<nat>, functions: seq<ContextFunc>, v: u32, from: nat, to: nat)
    requires to <= |functions|
  {
    && (forall f: nat :: f in at <==> from <= f < to && functions[f].vram == v)
    && (forall i, j :: 0 <= i < j < |at| ==> at[i] < at[j])
  }

  function Registered(byVram: map<u32, seq<nat>>, v: u32, f: nat): map<u32, seq<nat>> {
    byVram[v := Found(byVram, v) + [f]]
  }

  lemma IndexedNext(byVram: map<u32, seq<nat>>, before: seq<ContextFunc>, after: seq<ContextFunc>, from: nat, to: nat)
    requires from <= to < |before| == |after| && Indexed(byVram, before, from, to)
    requires forall f :: 0 <= f < to ==> after[f] == before[f]
    ensures Indexed(Registered(byVram, after[to].vram, to), after, from, to + 1)
  {
    var r := Registered(byVram, after[to].vram, to);
    forall v: u32 ensures IndexedAt(Found(r, v), after, v, from, to + 1) {
      assert IndexedAt(Found(byVram, v), before, v, from, to);
      if v == after[to].vram { NextAt(Found(byVram, v), before, after, v, from, to); }
    }
  }

  lemma NextAt(at: seq<nat>, before: seq<ContextFunc>, after: seq<ContextFunc>, v: u32, from: nat, to: nat)
    requires from <= to < |before| == |after| && IndexedAt(at, before, v, from, to) && after[to].vram == v
    requires forall f :: 0 <= f < to ==> after[f] == before[f]
    ensures IndexedAt(at + [to], after, v, from, to + 1)
  {
    forall f: nat ensures f in at + [to] <==> from <= f < to + 1 && after[f].vram == v {
      assert f in at + [to] <==> f in at || f == to;
    }
    assert forall i :: 0 <= i < |at| ==> at[i] in at;
  }

  // `events` is the pseudo section number of event references, whose offset is the event.
  function RelocOut(s: RegenSection, r: Reloc, events: nat): ContextReloc {
    ContextReloc(Wrap32(r.offset + s.ram), if r.targetSection == events then r.targetOffset else 0,
                 r.targetSection, r.targetOffset, r.kind)
  }

  ghost predicate SectionDone(list: RegenList, out: ContextSection, k: nat, events: nat)
    requires k < |list.sections| && InBounds(list)
  {
    var s := list.sections[k];
    && out.rom == s.rom && out.ram == s.ram && out.relocatable == s.relocatable
    && |out.funcs| == FuncEnd(list, k) - s.firstFunc
    && (forall j :: 0 <= j < |out.funcs| ==> out.funcs[j] == s.firstFunc + j)
    && |out.relocs| == RelocEnd(list, k) - s.firstReloc
    && (forall j :: 0 <= j < |out.relocs| ==> out.relocs[j] == RelocOut(s, list.relocs[s.firstReloc + j], events))
  }

  ghost predicate FuncsDone(rom: seq<byte>, list: RegenList, functions: seq<ContextFunc>, k: nat)
    requires k < |list.sections| && InBounds(list) && |functions| == |list.functions|
  {
    forall f :: list.sections[k].firstFunc <= f < FuncEnd(list, k) ==>
      functions[f] == FuncOut(rom, list.sections[k], list.functions[f], k)
  }

  lemma {:induction false} SlicesInOrder(list: RegenList, j: nat, k: nat)
    requires InBounds(list) && j < k < |list.sections|
    ensures FuncEnd(list, j) <= list.sections[k].firstFunc
    decreases k
  {
    if j < k - 1 {
      SlicesInOrder(list, j, k - 1);
      assert list.sections[k - 1].firstFunc <= FuncEnd(list, k - 1);
    }
  }

  method CopyRelocs(list: RegenList, k: nat, events: nat) returns (relocs: seq<ContextReloc>)
    requires InBounds(list) && k < |list.sections|
    ensures |relocs| == RelocEnd(list, k) - list.sections[k].firstReloc
    ensures forall j :: 0 <= j < |relocs| ==>
              relocs[j] == RelocOut(list.sections[k], list.relocs[list.sections[k].firstReloc + j], events)
  {
    var s := list.sections[k];
    var numRelocs := RelocEnd(list, k) - s.firstReloc;
    relocs := [];
    for j := 0 to numRelocs
      invariant |relocs| == j
      invariant forall i :: 0 <= i < j ==> relocs[i] == RelocOut(s, list.relocs[s.firstReloc + i], events)
    {
      relocs := relocs + [RelocOut(s, list.relocs[s.firstReloc + j], events)];
    }
  }

  method BuildSection(rom: seq<byte>, list: RegenList, functions0: seq<ContextFunc>, byVram0: map<u32, seq<nat>>,
                      k: nat, events: nat)
    returns (out: ContextSection, functions: seq<ContextFunc>, byVram: map<u32, seq<nat>>)
    requires InBounds(list) && k < |list.sections| && |functions0| == |list.functions|
    requires list.sections[0].firstFunc <= list.sections[k].firstFunc
    requires Indexed(byVram0, functions0, list.sections[0].firstFunc, list.sections[k].firstFunc)
    ensures |functions| == |list.functions| && SectionDone(list, out, k, events) && FuncsDone(rom, list, functions, k)
    ensures forall f :: 0 <= f < |functions| && !(list.sections[k].firstFunc <= f < FuncEnd(list, k)) ==>
              functions[f] == functions0[f]
    ensures Indexed(byVram, functions, list.sections[0].firstFunc, FuncEnd(list, k))
  {
    hide Indexed, Registered, FuncOut, RelocOut;
    var s, first := list.sections[k], list.sections[0].firstFunc;
    var numFuncs := FuncEnd(list, k) - s.firstFunc;
    var funcs: seq<nat> := [];
    functions, byVram := functions0, byVram0;
    for j := 0 to numFuncs
      invariant |functions| == |list.functions| && |funcs| == j
      invariant forall i :: 0 <= i < j ==> funcs[i] == s.firstFunc + i
      invariant forall f :: s.firstFunc <= f < s.firstFunc + j ==> functions[f] == FuncOut(rom, s, list.functions[f], k)
      invariant forall f :: 0 <= f < |functions| && !(s.firstFunc <= f < s.firstFunc + j) ==>
                  functions[f] == functions0[f]
      invariant Indexed(byVram, functions, first, s.firstFunc + j)
    {
      var f := s.firstFunc + j;
      ghost var before := functions;
      funcs := funcs + [f];
      functions := functions[f := FuncOut(rom, s, list.functions[f], k)];
      IndexedNext(byVram, before, functions, first, f);
      byVram := Registered(byVram, functions[f].vram, f);
    }
    var relocs := CopyRelocs(list, k, events);
    out := ContextSection(s.rom, s.ram, s.relocatable, funcs, relocs);
  }

  // Where the functions of the sections from k on begin.
  function FuncStart(list: RegenList, k: nat): nat {
    if k < |list.sections| then list.sections[k].firstFunc else |list.functions|
  }

  lemma StartsAfter(list: RegenList, k: nat)
    requires InBounds(list) && k < |list.sections|
    ensures list.sections[0].firstFunc <= list.sections[k].firstFunc <= FuncEnd(list, k) <= |list.functions|
    ensures FuncEnd(list, k) == FuncStart(list, k + 1)
  {
    if k > 0 { SlicesInOrder(list, 0, k); }
  }

  lemma NothingIndexed(functions: seq<ContextFunc>, from: nat)
    requires from <= |functions|
    ensures Indexed(map[], functions, from, from)
  {}

  method BuildContext(rom: seq<byte>, list: RegenList, events: nat) returns (ctx: Context)
    requires InBounds(list)
    ensures |ctx.sections| == |list.sections| && |ctx.functions| == |list.functions|
    ensures forall k :: 0 <= k < |list.sections| ==>
              SectionDone(list, ctx.sections[k], k, events) && FuncsDone(rom, list, ctx.functions, k)
    ensures list.sections != [] ==> Indexed(ctx.byVram, ctx.functions, list.sections[0].firstFunc, |ctx.functions|)
    ensures list.sections == [] ==> ctx.byVram == map[]
  {
    if list.sections != [] { StartsAfter(list, 0); }
    hide SectionDone, FuncsDone, Indexed, FuncEnd, RelocEnd, InBounds;
    var sections: seq<ContextSection> := [];
    var functions := seq(|list.functions|, _ => ContextFunc(0, 0, [], 0));
    var byVram := map[];
    if list.sections != [] { NothingIndexed(functions, list.sections[0].firstFunc); }
    for k := 0 to |list.sections|
      invariant |sections| == k && |functions| == |list.functions| && FuncStart(list, k) <= |functions|
      invariant forall j :: 0 <= j < k ==>
                  SectionDone(list, sections[j], j, events) && FuncsDone(rom, list, functions, j)
      invariant list.sections == [] ==> byVram == map[]
      invariant list.sections != [] ==> Indexed(byVram, functions, list.sections[0].firstFunc, FuncStart(list, k))
    {
      ghost var before := functions;
      StartsAfter(list, k);
      var out;
      out, functions, byVram := BuildSection(rom, list, functions, byVram, k, events);
      forall j | 0 <= j < k ensures FuncsDone(rom, list, functions, j) {
        KeptBelow(rom, list, before, functions, j, k);
      }
      sections := sections + [out];
    }
    ctx := Context(sections, functions, byVram);
  }

  lemma KeptBelow(rom: seq<byte>, list: RegenList, before: seq<ContextFunc>, after: seq<ContextFunc>, j: nat, k: nat)
    requires InBounds(list) && j < k < |list.sections| && |before| == |after| == |list.functions|
    requires FuncsDone(rom, list, before, j)
    requires forall f :: 0 <= f < |after| && !(list.sections[k].firstFunc <= f < FuncEnd(list, k)) ==>
               after[f] == before[f]
    ensures FuncsDone(rom, list, after, j)
  {
    SlicesInOrder(list, j, k);
    assert FuncEnd(list, j) <= |list.functions|;
  }

  // Every function of the list is in exactly one section's slice.
  lemma OneSection(list: RegenList, f: nat)
    requires InBounds(list) && Partitioned(list) && f < |list.functions|
    ensures exists k :: 0 <= k < |list.sections| && InSlice(list, f, k)
    ensures forall j, k :: 0 <= j < k < |list.sections| ==> !(InSlice(list, f, j) && InSlice(list, f, k))
  {
    var k := |list.sections| - 1;
    while list.sections[k].firstFunc > f
      invariant 0 <= k < |list.sections| && f < FuncEnd(list, k)
      decreases k
    {
      k := k - 1;
    }
    assert InSlice(list, f, k);
    forall i, j | 0 <= i < j < |list.sections| ensures !(InSlice(list, f, i) && InSlice(list, f, j)) {
      SlicesInOrder(list, i, j);
    }
  }

  ghost predicate InSlice(list: RegenList, f: nat, k: nat)
    requires k < |list.sections|
  {
    list.sections[k].firstFunc <= f < FuncEnd(list, k)
  }

  // The function is at the hooked address of the ROM, and its words are the instructions there,
  // each as the host reads it, up to the size of the hooked function.
  predicate OwnWords(env: Env, h: Hook, rom: seq<byte>, f: ContextFunc) {
    && h.rom in env.vrom && env.vrom[h.rom] < |env.sections|
    && (var s := env.sections[env.vrom[h.rom]];
        && s.ram <= h.vram && h.vram - s.ram in s.funcs
        && f.rom == Wrap32(h.rom + (h.vram - s.ram))
        && |f.words| == s.funcs[h.vram - s.ram].romSize / 4)
    && forall j :: 0 <= j < |f.words| && f.rom + 4 * j + 4 <= |rom| ==> f.words[j] == HostWord(rom, f.rom + 4 * j)
  }

  // Four bytes of the ROM, the first the least significant.
  function HostWord(rom: seq<byte>, at: nat): int
    requires at + 4 <= |rom|
  {
    rom[at] as int + rom[at + 1] as int * 0x100 + rom[at + 2] as int * 0x1_0000 + rom[at + 3] as int * 0x100_0000
  }

  // From hooks to context: the slot of every hook that is not diverted sits on the context
  // function whose address is the hooked address, in the hooked section, found there by
  // address and with the hooked function's host pointer.
  lemma HookReachesItsFunction(env: Env, hooks: seq<Hook>, rom: seq<byte>, list: RegenList,
                               ctx: Context, i: nat)
    returns (f: nat)
    requires EnvOk(env) && HooksSorted(hooks) && !MarkerTaken(env, hooks)
    requires i < |hooks| && Pass(env, hooks).Ok? && Pass(env, hooks).value.list == list
    requires InBounds(list) && |ctx.sections| == |list.sections| && |ctx.functions| == |list.functions|
    requires forall k :: 0 <= k < |list.sections| ==> FuncsDone(rom, list, ctx.functions, k)
    requires forall k :: 0 <= k < |list.sections| ==> ctx.sections[k].rom == list.sections[k].rom
    requires list.sections != [] ==> Indexed(ctx.byVram, ctx.functions, list.sections[0].firstFunc, |ctx.functions|)
    requires PatchOf(env, hooks[i]).None?
    ensures var h := hooks[i];
            && f in Found(ctx.byVram, h.vram)
            && f in Slots(list, h.atReturn) && Slots(list, h.atReturn)[f] == h.slot && f < |ctx.functions|
            && ctx.functions[f].vram == h.vram && ctx.functions[f].section < |ctx.sections|
            && ctx.sections[ctx.functions[f].section].rom == h.rom
            && Target(env, h).Some? && f < |list.ptrs| && list.ptrs[f] == Target(env, h).value.func
            && OwnWords(env, h, rom, ctx.functions[f])
  {
    hide *;
    BuiltUnmarked(env, hooks);
    var k;
    f, k := HookedFunction(env, hooks, list, i);
    HookedContext(env, rom, list, ctx, hooks[i], f, k);
    PassInBounds(env, hooks);
    FoundThere(list, ctx, f, hooks[i].vram);
  }

  // The relocations of a context section are, in order, those of the section of the game or mod
  // that lie inside its hooked functions: each at its loaded address, with its target and kind,
  // and with the event's number for a symbol if it refers to an event.
  ghost predicate Rebased(env: Env, hooks: seq<Hook>, out: ContextSection, events: nat) {
    && out.rom in env.vrom && env.vrom[out.rom] < |env.sections|
    && (var s := env.sections[env.vrom[out.rom]];
        var wanted := Wanted(env, hooks, out.rom, s.relocs);
        && out.ram == s.ram && (out.relocatable <==> !env.forPatches && s.relocs != [])
        && |out.relocs| == |wanted|
        && forall j :: 0 <= j < |wanted| ==> RebasedReloc(s.ram, wanted[j], out.relocs[j], events))
  }

  predicate RebasedReloc(ram: u32, r: Reloc, out: ContextReloc, events: nat) {
    && out.address == Wrap32(ram + r.offset) && out.kind == r.kind
    && out.targetSection == r.targetSection && out.targetOffset == r.targetOffset
    && out.symbol == if r.targetSection == events then r.targetOffset else 0
  }

  lemma SectionRelocs(env: Env, hooks: seq<Hook>, list: RegenList, ctx: Context, k: nat, events: nat)
    requires EnvOk(env) && HooksSorted(hooks) && !MarkerTaken(env, hooks)
    requires Pass(env, hooks).Ok? && Pass(env, hooks).value.list == list && InBounds(list)
    requires k < |list.sections| == |ctx.sections| && SectionDone(list, ctx.sections[k], k, events)
    ensures Rebased(env, hooks, ctx.sections[k], events)
  {
    hide *;
    BuiltUnmarked(env, hooks);
    Built(env, hooks);
    SliceRebased(env, hooks, list, ctx.sections[k], k, events);
  }

  lemma SliceRebased(env: Env, hooks: seq<Hook>, list: RegenList, out: ContextSection, k: nat, events: nat)
    requires InBounds(list) && k < |list.sections| && SliceOk(env, hooks, list, k)
    requires SectionDone(list, out, k, events)
    ensures Rebased(env, hooks, out, events)
  {
    hide Wanted, FuncsOk, HasRom, FuncEnd, RelocEnd, Wrap32;
    var s, end := list.sections[k], RelocEnd(list, k);
    var slice := list.relocs[s.firstReloc..end];
    assert slice == Wanted(env, hooks, s.rom, Info(env, s.rom).value.relocs);
    forall j | 0 <= j < |slice| ensures RebasedReloc(s.ram, slice[j], out.relocs[j], events) {
      assert slice[j] == list.relocs[s.firstReloc + j];
    }
  }

  lemma FoundThere(list: RegenList, ctx: Context, f: nat, v: u32)
    requires Partitioned(list) && list.sections != [] && f < |ctx.functions| && ctx.functions[f].vram == v
    requires Indexed(ctx.byVram, ctx.functions, list.sections[0].firstFunc, |ctx.functions|)
    ensures f in Found(ctx.byVram, v)
  {
    assert IndexedAt(Found(ctx.byVram, v), ctx.functions, v, 0, |ctx.functions|);
  }

  // The list a pass builds can be cut into its sections.
  lemma PassInBounds(env: Env, hooks: seq<Hook>)
    requires EnvOk(env) && HooksSorted(hooks) && !MarkerTaken(env, hooks) && Pass(env, hooks).Ok?
    ensures InBounds(Pass(env, hooks).value.list) && Partitioned(Pass(env, hooks).value.list)
  {
    hide *;
    BuiltUnmarked(env, hooks);
    Built(env, hooks);
    SlicesInBounds(env, hooks, Pass(env, hooks).value.list);
  }

  lemma Built(env: Env, hooks: seq<Hook>)
    requires EnvOk(env) && HooksOk(hooks) && Pass(env, hooks).Ok?
    ensures FirstError(env, hooks).None? && Partitioned(Pass(env, hooks).value.list)
    ensures var list := Pass(env, hooks).value.list;
            && (forall k :: 0 <= k < |list.sections| ==> SliceOk(env, hooks, list, k))
            && (forall i :: 0 <= i < |hooks| && PatchOf(env, hooks[i]).None? ==> HasSlot(env, list, hooks[i]))
  {
    UnmarkedRegenerates(env, hooks);
    hide EnvOk, HooksOk, Partitioned, SliceOk, HasSlot, SlotFrom, PatchOf;
  }

  lemma SlicesInBounds(env: Env, hooks: seq<Hook>, list: RegenList)
    requires forall k :: 0 <= k < |list.sections| ==> SliceOk(env, hooks, list, k)
    ensures InBounds(list)
  {
    hide Wanted, HasRom, Info, FuncEnd, RelocEnd;
    forall k | 0 <= k < |list.sections|
      ensures list.sections[k].firstFunc <= FuncEnd(list, k) <= |list.functions|
      ensures list.sections[k].firstReloc <= RelocEnd(list, k) <= |list.relocs|
    {
      assert SliceOk(env, hooks, list, k);
    }
  }

  lemma HookedFunction(env: Env, hooks: seq<Hook>, list: RegenList, i: nat) returns (f: nat, k: nat)
    requires EnvOk(env) && HooksOk(hooks) && i < |hooks| && Pass(env, hooks).Ok? && Pass(env, hooks).value.list == list
    requires PatchOf(env, hooks[i]).None?
    ensures k < |list.sections| && Names(env, list, hooks[i], f, k) && HookError(env, hooks[i]).None?
    ensures f in Slots(list, hooks[i].atReturn) && Slots(list, hooks[i].atReturn)[f] == hooks[i].slot
    ensures Info(env, hooks[i].rom).Some? && list.sections[k].ram == Info(env, hooks[i].rom).value.ram
    ensures hooks[i].vram == Info(env, hooks[i].rom).value.ram + Offset(env, hooks[i])
  {
    hide *;
    var h := hooks[i];
    Built(env, hooks);
    FirstErrorIs(env, hooks);
    Placed(env, h);
    f, k := SlotFunction(env, list, h);
    SectionRam(env, hooks, list, k);
    NamedRom(env, list, h, f, k);
  }

  lemma SlotFunction(env: Env, list: RegenList, h: Hook) returns (f: nat, k: nat)
    requires HasSlot(env, list, h)
    ensures k < |list.sections| && Names(env, list, h, f, k)
    ensures f in Slots(list, h.atReturn) && Slots(list, h.atReturn)[f] == h.slot
  {
    hide Names;
    f :| f in Slots(list, h.atReturn) && Slots(list, h.atReturn)[f] == h.slot && NamesSome(env, list, h, f);
    k :| 0 <= k < |list.sections| && Names(env, list, h, f, k);
  }

  lemma NamedRom(env: Env, list: RegenList, h: Hook, f: nat, k: nat)
    requires k < |list.sections| && Names(env, list, h, f, k)
    ensures list.sections[k].rom == h.rom
  {}

  lemma HookedContext(env: Env, rom: seq<byte>, list: RegenList, ctx: Context, h: Hook, f: nat, k: nat)
    requires InBounds(list) && |ctx.sections| == |list.sections| && |ctx.functions| == |list.functions|
    requires forall k :: 0 <= k < |list.sections| ==> FuncsDone(rom, list, ctx.functions, k)
    requires forall k :: 0 <= k < |list.sections| ==> ctx.sections[k].rom == list.sections[k].rom
    requires k < |list.sections| && Names(env, list, h, f, k) && HookError(env, h).None?
    requires h.vram == list.sections[k].ram + Offset(env, h)
    ensures f < |ctx.functions| && ctx.functions[f].section == k && ctx.sections[k].rom == h.rom
    ensures ctx.functions[f].vram == h.vram
    ensures Target(env, h).Some? && f < |list.ptrs| && list.ptrs[f] == Target(env, h).value.func
    ensures OwnWords(env, h, rom, ctx.functions[f])
  {
    assert FuncsDone(rom, list, ctx.functions, k);
    hide InBounds;
  }

  lemma SectionRam(env: Env, hooks: seq<Hook>, list: RegenList, k: nat)
    requires k < |list.sections| && SliceOk(env, hooks, list, k)
    ensures Info(env, list.sections[k].rom).Some? && list.sections[k].ram == Info(env, list.sections[k].rom).value.ram
  {}
}
