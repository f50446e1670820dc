// The overlay loader's state and operations (overlays.cpp): the list of loaded sections,
// the table of section addresses, and the map from guest addresses to host functions.
module Loader {
  import opened Options
  import opened Words

  type Func = nat

  // `func` is absent for an entry without a host function.
  datatype FuncEntry = FuncEntry(func: Option<Func>, offset: u32)

  datatype Section = Section(rom: u32, link: u32, size: u32, funcs: seq<FuncEntry>, index: nat)

  datatype Loaded = Loaded(base: u32, section: nat)

  datatype State = State(loaded: seq<Loaded>, addresses: seq<u32>, funcMap: map<u32, Func>)

  type Table = seq<Section>

  // --- Function aliases ----------------------------------------------------------------

  // Registered at the runtime address and, when that differs, at the link-time address.
  function Install(m: map<u32, Func>, s: Section, base: u32, e: FuncEntry): map<u32, Func> {
    if e.func.None? then m
    else
      var m' := m[Wrap32(base + e.offset) := e.func.value];
      if s.link == base then m' else m'[Wrap32(s.link + e.offset) := e.func.value]
  }

  function Uninstall(m: map<u32, Func>, s: Section, base: u32, e: FuncEntry): map<u32, Func> {
    if e.func.None? then m
    else if s.link == base then m - {Wrap32(base + e.offset)}
    else m - {Wrap32(base + e.offset)} - {Wrap32(s.link + e.offset)}
  }

  // The first n functions, in order.
  function InstallAll(m: map<u32, Func>, s: Section, base: u32, n: nat): map<u32, Func>
    requires n <= |s.funcs|
    decreases n
  {
    if n == 0 then m else Install(InstallAll(m, s, base, n - 1), s, base, s.funcs[n - 1])
  }

  function UninstallAll(m: map<u32, Func>, s: Section, base: u32, n: nat): map<u32, Func>
    requires n <= |s.funcs|
    decreases n
  {
    if n == 0 then m else Uninstall(UninstallAll(m, s, base, n - 1), s, base, s.funcs[n - 1])
  }

  // Drop every entry whose address lies in the runtime range.
  function RangeErase(m: map<u32, Func>, base: u32, size: u32): map<u32, Func> {
    if size == 0 then m
    else map a | a in m && !(base <= a < Wrap32(base + size)) :: m[a]
  }

  // --- Load and unload -------------------------------------------------------------------

  // A misaligned address is rejected; the entry keeps its last value.
  function SetAddress(addresses: seq<u32>, index: nat, value: u32): seq<u32> {
    if value % 4 != 0 || index >= |addresses| then addresses else addresses[index := value]
  }

  function FindLoaded(loaded: seq<Loaded>, i: nat): (r: Option<nat>)
    ensures r.Some? ==> r.value < |loaded| && loaded[r.value].section == i
    ensures r.Some? ==> forall p :: 0 <= p < r.value ==> loaded[p].section != i
    ensures r.None? ==> forall p :: 0 <= p < |loaded| ==> loaded[p].section != i
    decreases |loaded|
  {
    if loaded == [] then None
    else if loaded[0].section == i then Some(0)
    else match FindLoaded(loaded[1..], i) case None => None case Some(p) => Some(p + 1)
  }

  function Load(t: Table, st: State, i: nat, base: u32): State
    requires i < |t|
  {
    State(st.loaded + [Loaded(base, i)], SetAddress(st.addresses, t[i].index, base),
          InstallAll(st.funcMap, t[i], base, |t[i].funcs|))
  }

  // Release the list entry at position p.
  function UnloadAt(t: Table, st: State, p: nat): State
    requires p < |st.loaded| && st.loaded[p].section < |t|
  {
    var s, base := t[st.loaded[p].section], st.loaded[p].base;
    State(st.loaded[..p] + st.loaded[p + 1..], SetAddress(st.addresses, s.index, s.link),
          RangeErase(UninstallAll(st.funcMap, s, base, |s.funcs|), base, s.size))
  }

  function Unload(t: Table, st: State, i: nat): State
    requires i < |t|
  {
    match FindLoaded(st.loaded, i) case None => st case Some(p) => UnloadAt(t, st, p)
  }

  // --- DMA loads ---------------------------------------------------------------------------

  predicate Overlap(a: u32, aSize: u32, b: u32, bSize: u32) { a < b + bSize && b < a + aSize }

  predicate InTable(t: Table, loaded: seq<Loaded>) {
    forall p :: 0 <= p < |loaded| ==> loaded[p].section < |t|
  }

  // The first loaded section, other than i, that runtime range [base, base + size of i) meets.
  function FirstOverlap(t: Table, loaded: seq<Loaded>, i: nat, base: u32): (r: Option<nat>)
    requires i < |t| && InTable(t, loaded)
    ensures r.Some? ==> r.value < |loaded| && Meets(t, loaded[r.value], i, base)
    ensures r.None? ==> forall p :: 0 <= p < |loaded| ==> !Meets(t, loaded[p], i, base)
    decreases |loaded|
  {
    if loaded == [] then None
    else if Meets(t, loaded[0], i, base) then Some(0)
    else match FirstOverlap(t, loaded[1..], i, base) case None => None case Some(p) => Some(p + 1)
  }

  predicate Meets(t: Table, l: Loaded, i: nat, base: u32)
    requires i < |t| && l.section < |t|
  {
    l.section != i && Overlap(base, t[i].size, l.base, t[l.section].size)
  }

  function Evict(t: Table, st: State, i: nat, base: u32): (st': State)
    requires i < |t| && InTable(t, st.loaded)
    ensures InTable(t, st'.loaded)
    decreases |st.loaded|
  {
    match FirstOverlap(t, st.loaded, i, base)
    case None => st
    case Some(p) => Evict(t, Unload(t, st, st.loaded[p].section), i, base)
  }

  function Register(t: Table, st: State, i: nat, base: u32): (st': State)
    requires i < |t| && InTable(t, st.loaded)
    ensures InTable(t, st'.loaded)
  {
    var st1 := Evict(t, st, i, base);
    match FindLoaded(st1.loaded, i)
    case None => Load(t, st1, i, base)
    case Some(p) => if st1.loaded[p].base == base then st1 else Load(t, Unload(t, st1, i), i, base)
  }

  // Index of the first section at or after a ROM address, and of the first one after it.
  function LowerBound(t: Table, rom: int): (k: nat)
    ensures k <= |t| && (forall j :: 0 <= j < k ==> t[j].rom < rom) && (k < |t| ==> t[k].rom >= rom)
    decreases |t|
  {
    if t == [] || t[0].rom >= rom then 0 else LowerBound(t[1..], rom) + 1
  }

  function UpperBound(t: Table, rom: int): (k: nat)
    ensures k <= |t| && (forall j :: 0 <= j < k ==> t[j].rom <= rom) && (k < |t| ==> t[k].rom > rom)
  {
    LowerBound(t, rom + 1)
  }

  // Register the sections lo..hi that the DMA covers entirely.
  function RegisterWhole(t: Table, st: State, lo: nat, hi: nat, rom: u32, ram: u32, size: u32): (st': State)
    requires hi <= |t| && InTable(t, st.loaded)
    ensures InTable(t, st'.loaded)
    decreases hi - lo
  {
    if lo >= hi then st
    else if Wrap32(t[lo].rom + t[lo].size) > Wrap32(rom + size) then RegisterWhole(t, st, lo + 1, hi, rom, ram, size)
    else RegisterWhole(t, Register(t, st, lo, Wrap32(t[lo].rom - rom + ram)), lo + 1, hi, rom, ram, size)
  }

  // The section whose ROM range begins before `rom` and contains it; k is the lower bound.
  function ChunkOf(t: Table, k: nat, rom: u32): (r: Option<nat>)
    requires k <= |t|
    ensures r.Some? ==> r.value < |t|
  {
    if k > 0 && t[k - 1].rom <= rom < Wrap32(t[k - 1].rom + t[k - 1].size) then Some(k - 1) else None
  }

  // The section beginning exactly at `rom`, when the DMA is only its first chunk.
  function FirstChunkOf(t: Table, k: nat, rom: u32, size: u32): (r: Option<nat>)
    requires k <= |t|
    ensures r.Some? ==> r.value < |t|
  {
    if k < |t| && t[k].rom == rom && Wrap32(t[k].rom + t[k].size) > Wrap32(rom + size) then Some(k) else None
  }

  function RegisterChunk(t: Table, st: State, chunk: Option<nat>, rom: u32, ram: u32): (st': State)
    requires InTable(t, st.loaded) && (chunk.Some? ==> chunk.value < |t|)
    ensures InTable(t, st'.loaded)
  {
    match chunk case None => st case Some(i) => Register(t, st, i, Wrap32(t[i].rom - rom + ram))
  }

  // A DMA of `size` bytes from ROM address `rom` to RAM address `ram`: the sections it
  // covers, then the section it is a chunk of.
  function LoadOverlays(t: Table, st: State, rom: u32, ram: u32, size: u32): (st': State)
    requires InTable(t, st.loaded)
    ensures InTable(t, st'.loaded)
  {
    var k := LowerBound(t, rom);
    var st1 := RegisterWhole(t, st, k, UpperBound(t, Wrap32(rom + size)), rom, ram, size);
    var st2 := RegisterChunk(t, st1, ChunkOf(t, k, rom), rom, ram);
    RegisterChunk(t, st2, FirstChunkOf(t, k, rom, size), rom, ram)
  }

  // --- Unloading a region --------------------------------------------------------------------

  predicate Touched(t: Table, l: Loaded, ram: u32, size: u32)
    requires l.section < |t|
  {
    ram < Wrap32(l.base + t[l.section].size) && Wrap32(ram + size) >= l.base
  }

  // The start is compared as signed words, the end as unsigned ones.
  predicate Partial(t: Table, l: Loaded, ram: u32, size: u32)
    requires l.section < |t|
  {
    Signed32(ram) > Signed32(l.base) || Wrap32(ram + size) < Wrap32(l.base + t[l.section].size)
  }

  // From list position p on; None where the process exits because the region covers a
  // section only in part.
  function UnloadRegion(t: Table, st: State, p: nat, ram: u32, size: u32): (r: Option<State>)
    requires InTable(t, st.loaded) && p <= |st.loaded|
    ensures r.Some? ==> InTable(t, r.value.loaded)
    decreases |st.loaded| - p
  {
    if p == |st.loaded| then Some(st)
    else if !Touched(t, st.loaded[p], ram, size) then UnloadRegion(t, st, p + 1, ram, size)
    else if Partial(t, st.loaded[p], ram, size) then None
    else UnloadRegion(t, UnloadAt(t, st, p), p, ram, size)
  }

  // --- Runtime fragments -----------------------------------------------------------------------

  // Evict every other section loaded at exactly this base, from list position p on.
  function EvictAtBase(t: Table, st: State, p: nat, keep: nat, base: u32): (st': State)
    requires InTable(t, st.loaded) && p <= |st.loaded|
    ensures InTable(t, st'.loaded)
    decreases |st.loaded| - p
  {
    if p == |st.loaded| then st
    else if st.loaded[p].base != base || st.loaded[p].section == keep then EvictAtBase(t, st, p + 1, keep, base)
    else
      var s := t[st.loaded[p].section];
      EvictAtBase(t, State(st.loaded[..p] + st.loaded[p + 1..], SetAddress(st.addresses, s.index, s.link),
                           UninstallAll(st.funcMap, s, base, |s.funcs|)), p, keep, base)
  }

  // A fragment placed at `base`: what was loaded there goes, and so does whatever `previous`,
  // the range where the same fragment was last live elsewhere, still maps. It is bound to
  // section i, or left without one when no section's contents match.
  function Place(t: Table, st: State, i: Option<nat>, base: u32, previous: Option<(u32, u32)>): (st': State)
    requires InTable(t, st.loaded) && (i.Some? ==> i.value < |t|)
    ensures InTable(t, st'.loaded)
  {
    var st1 := EvictAtBase(t, st, 0, if i.Some? then i.value else |t|, base);
    var m := if previous.Some? then RangeErase(st1.funcMap, previous.value.0, previous.value.1) else st1.funcMap;
    if i.None? then st1.(funcMap := m)
    else State(Rebase(st1.loaded, i.value, base), SetAddress(st1.addresses, t[i.value].index, base),
               InstallAll(m, t[i.value], base, |t[i.value].funcs|))
  }

  function Rebase(loaded: seq<Loaded>, i: nat, base: u32): seq<Loaded> {
    match FindLoaded(loaded, i)
    case None => loaded + [Loaded(base, i)]
    case Some(p) => loaded[p := Loaded(base, i)]
  }

  // --- Runs ------------------------------------------------------------------------------------

  // Unregistering a fragment unloads the section it was last bound to.
  datatype Op =
    | Dma(rom: u32, ram: u32, size: u32)
    | UnloadSection(section: nat)
    | UnloadMemory(ram: u32, size: u32)
    | Fragment(bound: Option<nat>, base: u32, previous: Option<(u32, u32)>)

  predicate OpInTable(t: Table, op: Op) {
    && (op.UnloadSection? ==> op.section < |t|)
    && (op.Fragment? && op.bound.Some? ==> op.bound.value < |t|)
  }

  predicate OpsInTable(t: Table, ops: seq<Op>) { forall op :: op in ops ==> OpInTable(t, op) }

  // None where the process exits.
  function Step(t: Table, st: State, op: Op): (r: Option<State>)
    requires InTable(t, st.loaded) && OpInTable(t, op)
    ensures r.Some? ==> InTable(t, r.value.loaded)
  {
    match op
    case Dma(rom, ram, size) => Some(LoadOverlays(t, st, rom, ram, size))
    case UnloadSection(i) => Some(Unload(t, st, i))
    case UnloadMemory(ram, size) => UnloadRegion(t, st, 0, ram, size)
    case Fragment(i, base, previous) => Some(Place(t, st, i, base, previous))
  }

  function Run(t: Table, st: State, ops: seq<Op>): (r: Option<State>)
    requires InTable(t, st.loaded) && OpsInTable(t, ops)
    ensures r.Some? ==> InTable(t, r.value.loaded)
    decreases |ops|
  {
    if ops == [] then Some(st)
    else
      var r := Step(t, st, ops[0]);
      if r.None? then None else Run(t, r.value, ops[1..])
  }
}
