// The content-keyed fragment tier (overlays.cpp, run_shadow_diff, frag_apply_diff_outcome
// and the fragment tier of unhandled_lookup_trampoline), as functions of its state.
module FragmentTier {
  import opened Options
  import opened Words
  import Rdram

  const RAM_SIZE: nat := 0x80_0000
  const MAX_WINDOW: nat := 0x8000

  // The 8 MiB of guest RAM.
  type Ram = s: seq<byte> | |s| == RAM_SIZE witness seq(RAM_SIZE, _ => 0)

  // The register context. `plumbing` is the host-side scaffolding a comparison leaves out.
  datatype Context = Context(gpr: seq<u64>, fpr: seq<u64>, hi: u64, lo: u64, plumbing: seq<u64>)

  datatype Guest = Guest(ctx: Context, ram: Ram)

  // What interpreting a function does: success, the state it leaves either way, and
  // whether it entered a recompiled function.
  datatype Interpreted = Interpreted(ok: bool, guest: Guest, touched: bool)

  // Everything the tier is handed and does not control. A shard is any transformer of
  // registers and RAM; `bounds` finds the length of the function at an address; `compiles`
  // says whether the compiler accepts that code; `zero` is the hash that marks a missing field of the manifest.
  datatype Env<!Hash(==)> = Env(
    zero: Hash,
    hash: seq<byte> -> Hash,
    interpret: (u32, Guest) -> Interpreted,
    shard: (nat, Guest) -> Guest,
    compiles: (u32, seq<byte>) -> bool,
    safeLeaf: (Ram, u32, nat) -> bool,
    bounds: (u32, Ram) -> Option<nat>)

  datatype Config = Config(native: bool, interpreter: bool, budget: nat)

  datatype Candidate<+Hash> = Candidate(
    addr: u32, hash: Hash, lo: u32, len: nat,
    fn: Option<nat>, passes: nat, pinned: bool, blacklisted: bool)

  // What a shard handle was compiled from: RAM as it was, and the stretch of it from the
  // address on that the compiler read.
  datatype Image = Image(addr: u32, ram: Ram, len: nat)

  datatype Tier<Hash> = Tier(cands: map<u32, seq<Candidate<Hash>>>, compiled: seq<Image>)

  datatype Outcome = Outcome(interpOk: bool, touched: bool, ranNative: bool, clean: bool)

  function Code(ram: Ram, lo: u32, len: nat): (b: seq<byte>)
    ensures |b| == len
  {
    seq<byte>(len, i requires 0 <= i < len => Rdram.Guest(ram, lo % 0x2000_0000 + i))
  }

  function Chain<Hash>(t: Tier<Hash>, addr: u32): seq<Candidate<Hash>> {
    if addr in t.cands then t.cands[addr] else []
  }

  predicate Live<Hash(==)>(env: Env<Hash>, c: Candidate<Hash>, ram: Ram) {
    c.len > 0 && env.hash(Code(ram, c.lo, c.len)) == c.hash
  }

  // The first candidate whose code bytes are resident.
  function FirstLive<Hash(==)>(env: Env<Hash>, chain: seq<Candidate<Hash>>, ram: Ram): (r: Option<nat>)
    ensures r.Some? ==> r.value < |chain| && Live(env, chain[r.value], ram)
                        && forall i :: 0 <= i < r.value ==> !Live(env, chain[i], ram)
    ensures r.None? ==> forall i :: 0 <= i < |chain| ==> !Live(env, chain[i], ram)
    decreases |chain|
  {
    if chain == [] then None
    else if Live(env, chain[0], ram) then Some(0)
    else match FirstLive(env, chain[1..], ram) case None => None case Some(i) => Some(i + 1)
  }

  // The first candidate with the given content hash.
  function FirstHashed<Hash(==)>(chain: seq<Candidate<Hash>>, hash: Hash): (r: Option<nat>)
    ensures r.Some? ==> r.value < |chain| && chain[r.value].hash == hash
                        && forall i :: 0 <= i < r.value ==> chain[i].hash != hash
    ensures r.None? ==> forall i :: 0 <= i < |chain| ==> chain[i].hash != hash
    decreases |chain|
  {
    if chain == [] then None
    else if chain[0].hash == hash then Some(0)
    else match FirstHashed(chain[1..], hash) case None => None case Some(i) => Some(i + 1)
  }

  function Replace<Hash(==)>(t: Tier<Hash>, addr: u32, hash: Hash,
                             f: Candidate<Hash> -> Candidate<Hash>): Tier<Hash> {
    match FirstHashed(Chain(t, addr), hash)
    case None => t
    case Some(i) => t.(cands := t.cands[addr := Chain(t, addr)[i := f(Chain(t, addr)[i])]])
  }

  // --- The shadow diff -------------------------------------------------------------

  // r0 is hard-wired, so comparison starts at r1.
  predicate RegsEqual(a: Context, b: Context) {
    && |a.gpr| == |b.gpr| && (forall i :: 1 <= i < |a.gpr| ==> a.gpr[i] == b.gpr[i])
    && a.fpr == b.fpr && a.hi == b.hi && a.lo == b.lo
  }

  function ShadowDiff<Hash>(env: Env<Hash>, g: Guest, addr: u32, fn: nat): (Guest, Outcome) {
    var r := env.interpret(addr, g);
    if !r.ok then (g, Outcome(false, false, false, false))
    else if r.touched then (r.guest, Outcome(true, true, false, false))
    else
      var n := env.shard(fn, g);
      (r.guest, Outcome(true, false, true, RegsEqual(n.ctx, r.guest.ctx) && n.ram == r.guest.ram))
  }

  function Judge<Hash>(c: Candidate<Hash>, o: Outcome, budget: nat): Candidate<Hash> {
    if o.touched then c.(pinned := true)
    else if !o.ranNative then c
    else if !o.clean then c.(passes := 0)
    else if c.passes < budget then c.(passes := c.passes + 1)
    else c
  }

  function Apply<Hash(==)>(t: Tier<Hash>, addr: u32, hash: Hash, o: Outcome, budget: nat): Tier<Hash> {
    Replace(t, addr, hash, c => Judge(c, o, budget))
  }

  // --- One dispatch miss ---------------------------------------------------------------

  // Bounds are looked for in the window of RAM from the address on.
  function FoundLength<Hash>(env: Env<Hash>, addr: u32, ram: Ram): Option<nat> {
    var base := addr % 0x2000_0000;
    var window := if base + MAX_WINDOW > RAM_SIZE then RAM_SIZE - base else MAX_WINDOW;
    if window < 8 then None
    else
      match env.bounds(addr, ram)
      case None => None
      case Some(n) => if n >= 8 && n % 4 == 0 && n <= window then Some(n) else None
  }

  // The compiler finds the bounds of the function for itself, whatever stretch the candidate
  // it compiles for was keyed by.
  function CompiledLength<Hash>(env: Env<Hash>, addr: u32, ram: Ram): Option<nat> {
    match FoundLength(env, addr, ram)
    case None => None
    case Some(n) => if env.compiles(addr, Code(ram, addr, n)) then Some(n) else None
  }

  // The candidate for the bytes resident at `addr`: an existing one that still matches,
  // given a shard or a pin if it has neither, or a new one.
  function Locate<Hash(==)>(env: Env<Hash>, cfg: Config, t: Tier<Hash>, ram: Ram, addr: u32)
    : (Tier<Hash>, Option<Candidate<Hash>>)
  {
    var chain := Chain(t, addr);
    var shard := |t.compiled|;
    var built := CompiledLength(env, addr, ram);
    match FirstLive(env, chain, ram)
    case Some(i) =>
      var c := chain[i];
      if !(cfg.native && c.fn.None? && !c.pinned && !c.blacklisted && c.len > 0) then (t, Some(c))
      else if !env.safeLeaf(ram, c.lo, c.len) then
        (Replace(t, addr, c.hash, (d: Candidate<Hash>) => d.(pinned := true)), Some(c.(pinned := true)))
      else if built.None? then (t, Some(c))
      else
        (Replace(t, addr, c.hash, (d: Candidate<Hash>) => d.(fn := Some(shard)))
           .(compiled := t.compiled + [Image(addr, ram, built.value)]),
         Some(c.(fn := Some(shard))))
    case None =>
      match FoundLength(env, addr, ram)
      case None => (t, None)
      case Some(len) =>
        var leaf := env.safeLeaf(ram, addr, len);
        var jit := cfg.native && leaf && built.Some?;
        var c := Candidate(addr, env.hash(Code(ram, addr, len)), addr, len,
                           if jit then Some(shard) else None, 0, cfg.native && !leaf, false);
        (Tier(t.cands[addr := chain + [c]], if jit then t.compiled + [Image(addr, ram, built.value)] else t.compiled), Some(c))
  }

  // What a miss came to: a shard run live, a shard compared with the interpreter, the
  // interpreter alone, or the end of the process.
  datatype Event<+Hash> =
    | NativeRun(cand: Candidate<Hash>)
    | Diffed(hash: Hash, fn: nat)
    | Fallback
    | Aborted

  datatype Result<Hash> = Result(tier: Tier<Hash>, guest: Guest, event: Event<Hash>)

  // The interpreter as the floor under the tier.
  function Floor<Hash>(env: Env<Hash>, cfg: Config, t: Tier<Hash>, g: Guest, addr: u32): Result<Hash> {
    var r := env.interpret(addr, g);
    if cfg.interpreter && r.ok then Result(t, r.guest, Fallback)
    else Result(t, if cfg.interpreter then r.guest else g, Aborted)
  }

  function Trusted<Hash>(cfg: Config, c: Candidate<Hash>): bool {
    c.fn.Some? && !c.pinned && !c.blacklisted && c.passes >= cfg.budget
  }

  function Execute<Hash(==)>(env: Env<Hash>, cfg: Config, t: Tier<Hash>, g: Guest, addr: u32,
                             c: Candidate<Hash>): Result<Hash> {
    if Trusted(cfg, c) then
      Result(t, env.shard(c.fn.value, g), NativeRun(c))
    else if c.fn.Some? && !c.pinned && !c.blacklisted then
      var d := ShadowDiff(env, g, addr, c.fn.value);
      if d.1.interpOk then
        Result(Apply(t, addr, c.hash, d.1, cfg.budget), d.0, Diffed(c.hash, c.fn.value))
      else Floor(env, cfg, t, d.0, addr)
    else if c.pinned || c.blacklisted then
      var r := env.interpret(addr, g);
      if r.ok then Result(t, r.guest, Fallback) else Floor(env, cfg, t, r.guest, addr)
    else Floor(env, cfg, t, g, addr)
  }

  // A miss at an address of guest RAM outside the resident static sections.
  function Dispatch<Hash(==)>(env: Env<Hash>, cfg: Config, t: Tier<Hash>, g: Guest, addr: u32): Result<Hash> {
    var (t', live) := Locate(env, cfg, t, g.ram, addr);
    if cfg.native && live.Some? then Execute(env, cfg, t', g, addr, live.value)
    else Floor(env, cfg, t', g, addr)
  }
}
