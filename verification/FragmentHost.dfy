// The fragment tier as it runs: candidate chains, registers and RAM updated in place.
module FragmentHost {
  import opened Options
  import opened Words
  import opened FragmentTier

  class Host<Hash(==)> {
    const env: Env<Hash>
    const cfg: Config
    var cands: map<u32, seq<Candidate<Hash>>>
    var compiled: seq<Image>
    var ctx: Context
    var ram: Ram

    constructor (env: Env<Hash>, cfg: Config, tier: Tier<Hash>, guest: Guest)
      ensures this.env == env && this.cfg == cfg && State() == tier && Now() == guest
    {
      this.env, this.cfg := env, cfg;
      cands, compiled, ctx, ram := tier.cands, tier.compiled, guest.ctx, guest.ram;
    }

    ghost function State(): Tier<Hash>
      reads this
    {
      Tier(cands, compiled)
    }

    ghost function Now(): Guest
      reads this
    {
      Guest(ctx, ram)
    }

    method Interpret(addr: u32) returns (ok: bool, touched: bool)
      modifies `ctx, `ram
      ensures Now() == env.interpret(addr, old(Now())).guest
      ensures ok == env.interpret(addr, old(Now())).ok && touched == env.interpret(addr, old(Now())).touched
    {
      var r := env.interpret(addr, Guest(ctx, ram));
      ctx, ram, ok, touched := r.guest.ctx, r.guest.ram, r.ok, r.touched;
    }

    method RunShard(fn: nat)
      modifies `ctx, `ram
      ensures Now() == env.shard(fn, old(Now()))
    {
      var g := env.shard(fn, Guest(ctx, ram));
      ctx, ram := g.ctx, g.ram;
    }

    // Interpret, rewind, run the shard from the same state, compare, and put the
    // interpreter's result back.
    method RunShadowDiff(addr: u32, fn: nat) returns (o: Outcome)
      modifies `ctx, `ram
      ensures (Now(), o) == ShadowDiff(env, old(Now()), addr, fn)
    {
      var ctx0, ram0 := ctx, ram;
      var ok, touched := Interpret(addr);
      if !ok {
        ctx, ram := ctx0, ram0;
        return Outcome(false, false, false, false);
      }
      if touched { return Outcome(true, true, false, false); }
      var ctxI, ramI := ctx, ram;
      ctx, ram := ctx0, ram0;
      RunShard(fn);
      var same := CompareRegs(ctx, ctxI);
      o := Outcome(true, false, true, same && ram == ramI);
      ctx, ram := ctxI, ramI;
    }

    method FindLive(addr: u32) returns (r: Option<nat>)
      ensures r == FirstLive(env, Chain(State(), addr), ram)
    {
      if addr !in cands { return None; }
      var chain := cands[addr];
      for i := 0 to |chain|
        invariant FirstLive(env, chain, ram) ==
                  match FirstLive(env, chain[i..], ram) case None => None case Some(k) => Some(i + k)
      {
        assert chain[i..][1..] == chain[i + 1..];
        if Live(env, chain[i], ram) { return Some(i); }
      }
      return None;
    }

    method FindHashed(addr: u32, hash: Hash) returns (r: Option<nat>)
      ensures r == FirstHashed(Chain(State(), addr), hash)
    {
      if addr !in cands { return None; }
      var chain := cands[addr];
      for i := 0 to |chain|
        invariant FirstHashed(chain, hash) ==
                  match FirstHashed(chain[i..], hash) case None => None case Some(k) => Some(i + k)
      {
        assert chain[i..][1..] == chain[i + 1..];
        if chain[i].hash == hash { return Some(i); }
      }
      return None;
    }

    // Re-found by content hash: the chain may have changed while the diff ran unlocked.
    method ApplyOutcome(addr: u32, hash: Hash, o: Outcome)
      modifies `cands
      ensures State() == Apply(old(State()), addr, hash, o, cfg.budget)
    {
      var at := FindHashed(addr, hash);
      if at.None? { return; }
      var c := cands[addr][at.value];
      if o.touched {
        c := c.(pinned := true);
      } else if o.ranNative {
        if o.clean {
          if c.passes < cfg.budget { c := c.(passes := c.passes + 1); }
        } else {
          c := c.(passes := 0);
        }
      }
      cands := cands[addr := cands[addr][at.value := c]];
    }

    method CompileShard(addr: u32) returns (fn: Option<nat>)
      modifies `compiled
      ensures match CompiledLength(env, addr, ram)
              case Some(n) => fn == Some(|old(compiled)|) && compiled == old(compiled) + [Image(addr, ram, n)]
              case None => fn == None && compiled == old(compiled)
    {
      var n := FoundLength(env, addr, ram);
      if n.None? || !env.compiles(addr, Code(ram, addr, n.value)) { return None; }
      fn := Some(|compiled|);
      compiled := compiled + [Image(addr, ram, n.value)];
    }

    method LocateCandidate(addr: u32) returns (live: Option<Candidate<Hash>>)
      modifies `cands, `compiled
      ensures (State(), live) == Locate(env, cfg, old(State()), ram, addr)
    {
      var at := FindLive(addr);
      if at.Some? {
        var c := cands[addr][at.value];
        live := Some(c);
        if cfg.native && c.fn.None? && !c.pinned && !c.blacklisted && c.len > 0 {
          var leaf := env.safeLeaf(ram, c.lo, c.len);
          var fn := None;
          if leaf { fn := CompileShard(addr); }
          if !leaf || fn.Some? {
            var first := FindHashed(addr, c.hash);
            if first.Some? {
              var d := cands[addr][first.value];
              var d' := if leaf then d.(fn := fn) else d.(pinned := true);
              cands := cands[addr := cands[addr][first.value := d']];
            }
            live := Some(if leaf then c.(fn := fn) else c.(pinned := true));
          }
        }
        return;
      }
      live := None;
      var len := FoundLength(env, addr, ram);
      if len.Some? {
        var c := Candidate(addr, env.hash(Code(ram, addr, len.value)), addr, len.value, None, 0, false, false);
        if cfg.native {
          if env.safeLeaf(ram, addr, len.value) {
            var fn := CompileShard(addr);
            c := c.(fn := fn);
          } else {
            c := c.(pinned := true);
          }
        }
        var chain := if addr in cands then cands[addr] else [];
        cands := cands[addr := chain + [c]];
        live := Some(c);
      }
    }

    // The fragment tier and the interpreter floor of the lookup-miss trampoline.
    method Trampoline(addr: u32) returns (event: Event<Hash>)
      modifies this
      ensures Result(State(), Now(), event) == Dispatch(env, cfg, old(State()), old(Now()), addr)
    {
      var live := LocateCandidate(addr);
      if cfg.native && live.Some? {
        var c := live.value;
        if c.fn.Some? && !c.pinned && !c.blacklisted {
          if c.passes >= cfg.budget {
            event := NativeRun(c);
            RunShard(c.fn.value);
            return;
          }
          var o := RunShadowDiff(addr, c.fn.value);
          if o.interpOk {
            ApplyOutcome(addr, c.hash, o);
            return Diffed(c.hash, c.fn.value);
          }
        } else if c.pinned || c.blacklisted {
          var ok, _ := Interpret(addr);
          if ok { return Fallback; }
        }
      }
      if cfg.interpreter {
        var ok, _ := Interpret(addr);
        if ok { return Fallback; }
      }
      return Aborted;
    }
  }

  method CompareRegs(a: Context, b: Context) returns (same: bool)
    ensures same <==> RegsEqual(a, b)
  {
    if |a.gpr| != |b.gpr| { return false; }
    var i := 1;
    while i < |a.gpr|
      invariant 1 <= i
      invariant forall j :: 1 <= j < i && j < |a.gpr| ==> a.gpr[j] == b.gpr[j]
    {
      if a.gpr[i] != b.gpr[i] { return false; }
      i := i + 1;
    }
    return a.fpr == b.fpr && a.hi == b.hi && a.lo == b.lo;
  }
}
