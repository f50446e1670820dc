// What code a live shard was compiled from: the compiler finds the function's bounds for
// itself, and a candidate only watches the stretch it was keyed by.
module FragmentStretch {
  import opened Options
  import opened Words
  import opened FragmentTier
  import opened FragmentRuns
  import Rdram

  // --- Stretches --------------------------------------------------------------------------------

  // The n bytes at addr lie among the len bytes at lo.
  predicate Covers(lo: u32, len: nat, addr: u32, n: nat) {
    var l, a := lo % 0x2000_0000, addr % 0x2000_0000;
    l <= a && a + n <= l + len
  }

  lemma CoveredBytes(r: Ram, r': Ram, lo: u32, len: nat, addr: u32, n: nat)
    requires Covers(lo, len, addr, n) && Code(r', lo, len) == Code(r, lo, len)
    ensures Code(r', addr, n) == Code(r, addr, n)
  {
    var d := addr % 0x2000_0000 - lo % 0x2000_0000;
    forall i | 0 <= i < n ensures Code(r', addr, n)[i] == Code(r, addr, n)[i] {
      assert Code(r', lo, len)[d + i] == Code(r, lo, len)[d + i];
    }
  }

  // RAM with one guest byte changed.
  function Changed(r: Ram, x: nat): Ram
    requires x < RAM_SIZE
  {
    Rdram.SwizzleInvolution(x);
    r[Rdram.Swizzle(x) := 255 - r[Rdram.Swizzle(x)]]
  }

  lemma ChangedByte(r: Ram, x: nat, y: nat)
    requires x < RAM_SIZE
    ensures (Rdram.Guest(Changed(r, x), y) == Rdram.Guest(r, y)) <==> y != x
  {
    Rdram.SwizzleInvolution(x);
    Rdram.SwizzleInvolution(y);
  }

  // A stretch is told by another one exactly when it lies in it: else some byte can change
  // unseen.
  lemma CoversExactly(r: Ram, lo: u32, len: nat, addr: u32, n: nat)
    requires 0 < n && addr % 0x2000_0000 + n <= RAM_SIZE
    ensures Covers(lo, len, addr, n) <==>
            forall r': Ram :: Code(r', lo, len) == Code(r, lo, len) ==> Code(r', addr, n) == Code(r, addr, n)
  {
    var l, a := lo % 0x2000_0000, addr % 0x2000_0000;
    if Covers(lo, len, addr, n) {
      forall r': Ram | Code(r', lo, len) == Code(r, lo, len) ensures Code(r', addr, n) == Code(r, addr, n) {
        CoveredBytes(r, r', lo, len, addr, n);
      }
    } else {
      var x := if l <= a < l + len then l + len else a;
      var r' := Changed(r, x);
      forall y: nat ensures (Rdram.Guest(r', y) == Rdram.Guest(r, y)) <==> y != x { ChangedByte(r, x, y); }
      assert Code(r', lo, len) == Code(r, lo, len);
      assert Code(r', addr, n)[x - a] != Code(r, addr, n)[x - a];
    }
  }

  // --- One line of the manifest -----------------------------------------------------------------

  // With this RAM the line's candidate is live and is given a shard compiled from n bytes.
  predicate Builds<Hash(==)>(env: Env<Hash>, e: Entry<Hash>, r: Ram, n: nat) {
    && env.hash(Code(r, e.lo, e.len)) == e.hash && env.safeLeaf(r, e.lo, e.len)
    && CompiledLength(env, e.addr, r) == Some(n)
  }

  // Whenever the line is given a shard, its stretch covers what was compiled.
  ghost predicate LineCovers<Hash>(env: Env<Hash>, e: Entry<Hash>) {
    forall r: Ram, n: nat :: Builds(env, e, r, n) ==> Covers(e.lo, e.len, e.addr, n)
  }

  // Whatever is written to RAM, while the line's bytes are there so are those compiled.
  ghost predicate LineTells<Hash>(env: Env<Hash>, e: Entry<Hash>) {
    forall r: Ram, n: nat, r': Ram ::
      Builds(env, e, r, n) && Code(r', e.lo, e.len) == Code(r, e.lo, e.len) ==>
        Code(r', e.addr, n) == Code(r, e.addr, n)
  }

  // The exact condition on a line.
  lemma LineExactly<Hash>(env: Env<Hash>, e: Entry<Hash>)
    ensures LineTells(env, e) <==> LineCovers(env, e)
  {
    forall r: Ram, n: nat | Builds(env, e, r, n)
      ensures Covers(e.lo, e.len, e.addr, n) <==>
              forall r': Ram :: Code(r', e.lo, e.len) == Code(r, e.lo, e.len) ==>
                Code(r', e.addr, n) == Code(r, e.addr, n)
    {
      CoversExactly(r, e.lo, e.len, e.addr, n);
    }
  }

  // --- Every run ----------------------------------------------------------------------------------

  // A candidate with a shard covers what the shard was compiled from.
  predicate Covered<Hash>(compiled: seq<Image>, addr: u32, c: Candidate<Hash>) {
    c.fn.Some? ==> c.fn.value < |compiled| && Covers(c.lo, c.len, addr, compiled[c.fn.value].len)
  }

  ghost predicate CoveredChain<Hash>(compiled: seq<Image>, addr: u32, chain: seq<Candidate<Hash>>) {
    forall i :: 0 <= i < |chain| ==> Covered(compiled, addr, chain[i])
  }

  ghost predicate CoveredTier<Hash(!new)>(t: Tier<Hash>) {
    forall a: u32 :: CoveredChain(t.compiled, a, Chain(t, a))
  }

  // Every live native run so far was of such a candidate.
  ghost predicate CoveredRuns<Hash>(compiled: seq<Image>, log: seq<Record<Hash>>) {
    forall i :: 0 <= i < |log| && log[i].event.NativeRun? ==> Covered(compiled, log[i].addr, log[i].event.cand)
  }

  // At this miss a candidate that is given its shard late covers what is compiled for it.
  predicate CoverAt<Hash(==)>(env: Env<Hash>, cfg: Config, t: Tier<Hash>, ram: Ram, addr: u32) {
    match FirstLive(env, Chain(t, addr), ram)
    case None => true
    case Some(i) =>
      var c, n := Chain(t, addr)[i], CompiledLength(env, addr, ram);
      cfg.native && c.fn.None? && !c.pinned && !c.blacklisted && env.safeLeaf(ram, c.lo, c.len) && n.Some? ==>
        Covers(c.lo, c.len, addr, n.value)
  }

  predicate CoverRun<Hash(==)>(env: Env<Hash>, cfg: Config, s: System<Hash>, actions: seq<Action>)
    decreases |actions|
  {
    actions != [] ==>
      && (actions[0].Miss? ==> CoverAt(env, cfg, s.tier, s.guest.ram, actions[0].addr))
      && CoverRun(env, cfg, Step(env, cfg, s, actions[0]), actions[1..])
  }

  // More shards, and one chain put in place.
  lemma StillCovered<Hash(!new)>(t: Tier<Hash>, t': Tier<Hash>, addr: u32, chain: seq<Candidate<Hash>>)
    requires CoveredTier(t) && t.compiled <= t'.compiled && t'.cands == t.cands[addr := chain]
    requires CoveredChain(t'.compiled, addr, chain)
    ensures CoveredTier(t')
  {
    forall a: u32 ensures CoveredChain(t'.compiled, a, Chain(t', a)) {
      if a != addr {
        assert Chain(t', a) == Chain(t, a) && CoveredChain(t.compiled, a, Chain(t, a));
      }
    }
  }

  // One candidate of a covered chain replaced, or one more.
  lemma CoveredUpdate<Hash>(compiled: seq<Image>, more: seq<Image>, addr: u32, chain: seq<Candidate<Hash>>,
                            i: nat, c: Candidate<Hash>)
    requires CoveredChain(compiled, addr, chain) && compiled <= more && i <= |chain|
    ensures CoveredChain(more, addr, if i < |chain| then chain[i := c] else chain + [c]) <==> Covered(more, addr, c)
  {
    hide Covers;
    var chain' := if i < |chain| then chain[i := c] else chain + [c];
    assert chain'[i] == c;
    assert forall j :: 0 <= j < |chain'| && j != i ==> chain'[j] == chain[j] && Covered(compiled, addr, chain[j]);
  }

  // Locating keeps every candidate covered exactly when a late shard is covered.
  lemma LocateCovers<Hash(!new)>(env: Env<Hash>, cfg: Config, t: Tier<Hash>, log: seq<Record<Hash>>,
                                 ram: Ram, addr: u32)
    requires TierOk(env, cfg, t, log) && CoveredTier(t)
    ensures CoveredTier(Locate(env, cfg, t, ram, addr).0) <==> CoverAt(env, cfg, t, ram, addr)
  {
    var chain, t' := Chain(t, addr), Locate(env, cfg, t, ram, addr).0;
    assert ChainOk(env, cfg, t.compiled, log, addr, chain) && CoveredChain(t.compiled, addr, chain);
    hide TierOk, CandidateOk, Undiffed, Code, CoveredTier;
    match FirstLive(env, chain, ram)
    case None =>
      if FoundLength(env, addr, ram).Some? {
        var chain' := Chain(t', addr);
        CoveredUpdate(t.compiled, t'.compiled, addr, chain, |chain|, chain'[|chain|]);
        StillCovered(t, t', addr, chain');
      }
    case Some(i) =>
      FirstHashedAt(chain, i);
      var c, n := chain[i], CompiledLength(env, addr, ram);
      if cfg.native && c.fn.None? && !c.pinned && !c.blacklisted && (!env.safeLeaf(ram, c.lo, c.len) || n.Some?) {
        LateShard(env, cfg, t, ram, addr, i);
      }
  }

  lemma LateShard<Hash(!new)>(env: Env<Hash>, cfg: Config, t: Tier<Hash>, ram: Ram, addr: u32, i: nat)
    requires CoveredTier(t) && FirstLive(env, Chain(t, addr), ram) == Some(i)
    requires FirstHashed(Chain(t, addr), Chain(t, addr)[i].hash) == Some(i)
    requires var c := Chain(t, addr)[i];
             && cfg.native && c.fn.None? && !c.pinned && !c.blacklisted
             && (!env.safeLeaf(ram, c.lo, c.len) || CompiledLength(env, addr, ram).Some?)
    ensures CoveredTier(Locate(env, cfg, t, ram, addr).0) <==> CoverAt(env, cfg, t, ram, addr)
  {
    hide Code, Covers, FirstHashed, FirstLive, CompiledLength, CoveredChain;
    var chain, t', n := Chain(t, addr), Locate(env, cfg, t, ram, addr).0, CompiledLength(env, addr, ram);
    var c := chain[i];
    assert CoveredChain(t.compiled, addr, chain);
    var c' := if env.safeLeaf(ram, c.lo, c.len) then c.(fn := Some(|t.compiled|)) else c.(pinned := true);
    assert t'.cands == t.cands[addr := chain[i := c']];
    CoveredUpdate(t.compiled, t'.compiled, addr, chain, i, c');
    if CoveredChain(t'.compiled, addr, chain[i := c']) {
      StillCovered(t, t', addr, chain[i := c']);
    } else {
      assert !CoveredChain(t'.compiled, addr, Chain(t', addr));
    }
  }

  lemma ApplyCovers<Hash(!new)>(t: Tier<Hash>, addr: u32, hash: Hash, o: Outcome, budget: nat)
    requires CoveredTier(t)
    ensures CoveredTier(Apply(t, addr, hash, o, budget))
  {
    hide Covers;
    var chain, at, t' := Chain(t, addr), FirstHashed(Chain(t, addr), hash), Apply(t, addr, hash, o, budget);
    assert CoveredChain(t.compiled, addr, chain);
    if at.Some? {
      var c := chain[at.value];
      assert Covered(t.compiled, addr, c);
      CoveredUpdate(t.compiled, t.compiled, addr, chain, at.value, Judge(c, o, budget));
      StillCovered(t, t', addr, chain[at.value := Judge(c, o, budget)]);
    }
  }

  lemma StepCovers<Hash(!new)>(env: Env<Hash>, cfg: Config, s: System<Hash>, a: Action)
    requires Inv(env, cfg, s) && CoveredTier(s.tier) && CoveredRuns(s.tier.compiled, s.log)
    requires a.Miss? ==>
               && Distinct(env, s.tier, s.guest.ram, a.addr) && CoverAt(env, cfg, s.tier, s.guest.ram, a.addr)
    ensures var s' := Step(env, cfg, s, a); CoveredTier(s'.tier) && CoveredRuns(s'.tier.compiled, s'.log)
  {
    hide Locate, Apply, Dispatch, TierOk, Covers, Distinct, CoverAt, Safe, ShadowDiff, CoveredTier, Live;
    hide ShardsKept, Chain;
    if a.Miss? {
      var addr, g := a.addr, s.guest;
      var (t', live) := Locate(env, cfg, s.tier, g.ram, addr);
      var s' := Step(env, cfg, s, a);
      LocateKeeps(env, cfg, s.tier, s.log, g.ram, addr);
      LocateCovers(env, cfg, s.tier, s.log, g.ram, addr);
      DispatchShape(env, cfg, s.tier, g, addr);
      var e := s'.log[|s.log|].event;
      if e.Diffed? {
        ApplyCovers(t', addr, e.hash, ShadowDiff(env, g, addr, e.fn).1, cfg.budget);
        ApplyCompiled(t', addr, e.hash, ShadowDiff(env, g, addr, e.fn).1, cfg.budget);
      } else if e.NativeRun? {
        CoveredOne(t', addr, e.cand);
      }
      forall i | 0 <= i < |s'.log| && s'.log[i].event.NativeRun?
        ensures Covered(s'.tier.compiled, s'.log[i].addr, s'.log[i].event.cand)
      {
        if i < |s.log| { assert s'.log[i] == s.log[i]; }
      }
    }
  }

  lemma ApplyCompiled<Hash>(t: Tier<Hash>, addr: u32, hash: Hash, o: Outcome, budget: nat)
    ensures Apply(t, addr, hash, o, budget).compiled == t.compiled
  {}

  lemma CoveredOne<Hash(!new)>(t: Tier<Hash>, addr: u32, c: Candidate<Hash>)
    requires CoveredTier(t) && c in Chain(t, addr)
    ensures Covered(t.compiled, addr, c)
  {
    assert CoveredChain(t.compiled, addr, Chain(t, addr));
  }

  lemma {:induction false} RunCovers<Hash(!new)>(env: Env<Hash>, cfg: Config, s: System<Hash>, actions: seq<Action>)
    requires Inv(env, cfg, s) && CoveredTier(s.tier) && CoveredRuns(s.tier.compiled, s.log)
    requires DistinctRun(env, cfg, s, actions) && CoverRun(env, cfg, s, actions)
    ensures var s' := Run(env, cfg, s, actions);
            Inv(env, cfg, s') && CoveredTier(s'.tier) && CoveredRuns(s'.tier.compiled, s'.log)
    decreases |actions|
  {
    hide Inv, CoveredTier, CoveredRuns, Step, Distinct, CoverAt, ShardsKept;
    if actions != [] {
      StepKeeps(env, cfg, s, actions[0]);
      StepCovers(env, cfg, s, actions[0]);
      RunCovers(env, cfg, Step(env, cfg, s, actions[0]), actions[1..]);
    }
  }

  // --- From start-up --------------------------------------------------------------------------------

  lemma {:induction false} ReloadCovers<Hash(!new)>(env: Env<Hash>, t: Tier<Hash>, entries: seq<Entry<Hash>>)
    requires CoveredTier(t)
    ensures CoveredTier(Reload(env, t, entries))
    decreases |entries|
  {
    if entries != [] {
      var e := entries[0];
      var chain := Chain(t, e.addr);
      var c := Candidate(e.addr, e.hash, e.lo, e.len, None, 0, false, false);
      var t1 := t.(cands := t.cands[e.addr := chain + [c]]);
      assert CoveredChain(t.compiled, e.addr, chain);
      CoveredUpdate(t.compiled, t.compiled, e.addr, chain, |chain|, c);
      StillCovered(t, t1, e.addr, chain + [c]);
      hide CoveredTier;
      ReloadCovers(env, t, entries[1..]);
      ReloadCovers(env, t1, entries[1..]);
    }
  }

  // Over every run from any manifest whatever, when each late shard is covered, every live
  // native run was of a shard whose code its candidate covers.
  lemma EveryRunIsCovered<Hash(!new)>(env: Env<Hash>, cfg: Config, entries: seq<Entry<Hash>>,
                                      g: Guest, actions: seq<Action>)
    requires var start := System(Reload(env, Tier(map[], []), entries), g, []);
             DistinctRun(env, cfg, start, actions) && CoverRun(env, cfg, start, actions)
    ensures var s := Run(env, cfg, System(Reload(env, Tier(map[], []), entries), g, []), actions);
            Inv(env, cfg, s) && CoveredRuns(s.tier.compiled, s.log)
  {
    var empty: Tier<Hash> := Tier(map[], []);
    assert TierOk(env, cfg, empty, []);
    ReloadOk(env, cfg, empty, entries);
    ReloadCovers(env, empty, entries);
    hide TierOk, CoveredTier, Reload, Run, DistinctRun, CoverRun;
    RunCovers(env, cfg, System(Reload(env, empty, entries), g, []), actions);
  }

  // The very bytes that the shard of a live native run was compiled from are resident, when
  // its candidate covers them and the two stretches hashed do not collide.
  lemma LiveCodeIsResident<Hash>(env: Env<Hash>, cfg: Config, compiled: seq<Image>, log: seq<Record<Hash>>,
                                 e: Record<Hash>)
    requires e.event.NativeRun? && Earned(env, cfg, compiled, log, e) && Covered(compiled, e.addr, e.event.cand)
    requires var c := e.event.cand;
             var was, now := Code(compiled[c.fn.value].ram, c.lo, c.len), Code(e.before.ram, c.lo, c.len);
             env.hash(was) == env.hash(now) ==> was == now
    ensures var image := compiled[e.event.cand.fn.value];
            Code(image.ram, e.addr, image.len) == Code(e.before.ram, e.addr, image.len)
  {
    var c := e.event.cand;
    var image := compiled[c.fn.value];
    CoveredBytes(image.ram, e.before.ram, c.lo, c.len, e.addr, image.len);
  }

  // --- What a manifest must be ------------------------------------------------------------------------

  ghost predicate KeyCovers<Hash>(env: Env<Hash>, addr: u32, c: Candidate<Hash>) {
    LineCovers(env, Entry(addr, c.hash, c.lo, c.len))
  }

  ghost predicate KeysCover<Hash(!new)>(env: Env<Hash>, t: Tier<Hash>) {
    forall a: u32 :: forall i :: 0 <= i < |Chain(t, a)| ==> KeyCovers(env, a, Chain(t, a)[i])
  }

  // Code found once and met again is not found to be longer.
  ghost predicate Finds<Hash(!new)>(env: Env<Hash>) {
    forall addr: u32, r: Ram, n: nat :: FoundLength(env, addr, r) == Some(n) ==>
      LineCovers(env, Entry(addr, env.hash(Code(r, addr, n)), addr, n))
  }

  // Chains grown by no more than candidates that cover.
  lemma KeysStep<Hash(!new)>(env: Env<Hash>, t: Tier<Hash>, t': Tier<Hash>, addr: u32)
    requires KeysCover(env, t) && Grown(t, t')
    requires forall a: u32 :: a != addr ==> |Chain(t', a)| == |Chain(t, a)|
    requires |Chain(t', addr)| > |Chain(t, addr)| ==>
               |Chain(t', addr)| == |Chain(t, addr)| + 1 && KeyCovers(env, addr, Chain(t', addr)[|Chain(t, addr)|])
    ensures KeysCover(env, t')
  {
    hide LineCovers;
    forall a: u32, i | 0 <= i < |Chain(t', a)| ensures KeyCovers(env, a, Chain(t', a)[i]) {
      assert ChainGrown(Chain(t, a), Chain(t', a));
      if i < |Chain(t, a)| {
        assert KeyCovers(env, a, Chain(t, a)[i]) && Kept(Chain(t, a)[i], Chain(t', a)[i]);
      }
    }
  }

  lemma LocateKeys<Hash(!new)>(env: Env<Hash>, cfg: Config, t: Tier<Hash>, ram: Ram, addr: u32)
    requires KeysCover(env, t) && Finds(env)
    ensures KeysCover(env, Locate(env, cfg, t, ram, addr).0)
  {
    var t' := Locate(env, cfg, t, ram, addr).0;
    LocateGrows(env, cfg, t, ram, addr);
    hide KeysCover, Grown, LineCovers, Code, Live;
    var n := FoundLength(env, addr, ram);
    if FirstLive(env, Chain(t, addr), ram).None? && n.Some? {
      assert LineCovers(env, Entry(addr, env.hash(Code(ram, addr, n.value)), addr, n.value));
    }
    KeysStep(env, t, t', addr);
  }

  lemma StepKeys<Hash(!new)>(env: Env<Hash>, cfg: Config, s: System<Hash>, a: Action)
    requires KeysCover(env, s.tier) && Finds(env)
    ensures KeysCover(env, Step(env, cfg, s, a).tier)
  {
    hide KeysCover, Finds, Locate, Apply, Dispatch, ShadowDiff, Chain, Trusted;
    if a.Miss? {
      var (t', live) := Locate(env, cfg, s.tier, s.guest.ram, a.addr);
      var r := Dispatch(env, cfg, s.tier, s.guest, a.addr);
      LocateKeys(env, cfg, s.tier, s.guest.ram, a.addr);
      DispatchShape(env, cfg, s.tier, s.guest, a.addr);
      if r.event.Diffed? {
        ApplyKeys(env, t', a.addr, r.event.hash, ShadowDiff(env, s.guest, a.addr, r.event.fn).1, cfg.budget);
      }
    }
  }

  lemma ApplyKeys<Hash(!new)>(env: Env<Hash>, t: Tier<Hash>, addr: u32, hash: Hash, o: Outcome, budget: nat)
    requires KeysCover(env, t)
    ensures KeysCover(env, Apply(t, addr, hash, o, budget))
  {
    ApplyGrows(t, addr, hash, o, budget);
    hide KeysCover, Grown, Judge;
    KeysStep(env, t, Apply(t, addr, hash, o, budget), addr);
  }

  lemma KeysAt<Hash(!new)>(env: Env<Hash>, cfg: Config, t: Tier<Hash>, ram: Ram, addr: u32)
    requires KeysCover(env, t)
    ensures CoverAt(env, cfg, t, ram, addr)
  {
    hide Code, Covers, CompiledLength;
    var at := FirstLive(env, Chain(t, addr), ram);
    if at.Some? {
      var c, n := Chain(t, addr)[at.value], CompiledLength(env, addr, ram);
      assert KeyCovers(env, addr, c);
      if n.Some? && env.safeLeaf(ram, c.lo, c.len) {
        assert Builds(env, Entry(addr, c.hash, c.lo, c.len), ram, n.value);
      }
    }
  }

  lemma {:induction false} KeysRun<Hash(!new)>(env: Env<Hash>, cfg: Config, s: System<Hash>, actions: seq<Action>)
    requires KeysCover(env, s.tier) && Finds(env)
    ensures CoverRun(env, cfg, s, actions)
    decreases |actions|
  {
    hide KeysCover, Finds, CoverAt, Step;
    if actions != [] {
      if actions[0].Miss? { KeysAt(env, cfg, s.tier, s.guest.ram, actions[0].addr); }
      StepKeys(env, cfg, s, actions[0]);
      KeysRun(env, cfg, Step(env, cfg, s, actions[0]), actions[1..]);
    }
  }

  lemma {:induction false} ReloadKeys<Hash(!new)>(env: Env<Hash>, t: Tier<Hash>, entries: seq<Entry<Hash>>)
    requires KeysCover(env, t) && forall e :: e in entries ==> LineCovers(env, e)
    ensures KeysCover(env, Reload(env, t, entries))
    decreases |entries|
  {
    if entries != [] {
      var e := entries[0];
      var c := Candidate(e.addr, e.hash, e.lo, e.len, None, 0, false, false);
      var t1 := t.(cands := t.cands[e.addr := Chain(t, e.addr) + [c]]);
      AppendGrows(t, t1, e.addr);
      assert LineCovers(env, e) && e == Entry(e.addr, c.hash, c.lo, c.len);
      hide KeysCover, Grown, LineCovers;
      KeysStep(env, t, t1, e.addr);
      ReloadKeys(env, t, entries[1..]);
      ReloadKeys(env, t1, entries[1..]);
    }
  }

  // A manifest whose every line covers what is compiled for it keeps each late shard covered,
  // over every run.
  lemma LinesCoverRun<Hash(!new)>(env: Env<Hash>, cfg: Config, entries: seq<Entry<Hash>>, g: Guest,
                                  actions: seq<Action>)
    requires Finds(env) && forall e :: e in entries ==> LineCovers(env, e)
    ensures CoverRun(env, cfg, System(Reload(env, Tier(map[], []), entries), g, []), actions)
  {
    var empty: Tier<Hash> := Tier(map[], []);
    assert KeysCover(env, empty);
    ReloadKeys(env, empty, entries);
    KeysRun(env, cfg, System(Reload(env, empty, entries), g, []), actions);
  }

  // --- Lines that do not cover ----------------------------------------------------------------------

  // The code at HERE is 8 bytes, of which one, `at` bytes on, is what the function leaves in
  // hi; a shard has the byte of its compilation, 5, built in. Hashes are the bytes themselves.
  function Baked(at: nat): Env<seq<byte>> {
    var interpret := (addr: u32, g: Guest) =>
      Interpreted(true, g.(ctx := g.ctx.(hi := Rdram.Guest(g.ram, at))), false);
    var shard := (fn: nat, g: Guest) => g.(ctx := g.ctx.(hi := 5));
    Env([], b => b, interpret, shard, (_, _) => true, (_, _, _) => true, (_, _) => Some(8))
  }

  function With(at: nat, b: byte): Guest { Guest(Context([], [], 0, 0, []), Store(at, b)) }

  const ZEROES: seq<byte> := [0, 0, 0, 0]

  function Watching(lo: u32, fn: Option<nat>, passes: nat): Candidate<seq<byte>> {
    Candidate(HERE, ZEROES, lo, 4, fn, passes, false, false)
  }

  // A line that watches the first half of the code when the second matters, or the second
  // when the first does.
  predicate Misses(lo: u32, at: nat) { (lo == HERE && at == 4) || (lo == HERE + 4 && at == 0) }

  lemma StoredByte(at: nat, b: byte, x: nat)
    requires x < 8
    ensures Rdram.Guest(With(at, b).ram, x) == if x == at then b else 0
  {
    Rdram.SwizzleInvolution(x);
    Rdram.SwizzleInvolution(at);
  }

  lemma WatchedCode(lo: u32, at: nat, b: byte)
    requires Misses(lo, at)
    ensures Code(With(at, b).ram, lo, 4) == ZEROES && Rdram.Guest(With(at, b).ram, at) == b
  {
    StoredByte(at, b, at);
    var l, code := lo % 0x2000_0000, Code(With(at, b).ram, lo, 4);
    assert l == 0 || l == 4;
    hide With, Rdram.Guest;
    forall i | 0 <= i < 4 ensures code[i] == ZEROES[i] { StoredByte(at, b, l + i); }
  }

  lemma WatchedBytes(lo: u32, at: nat, b: byte, fn: Option<nat>, passes: nat)
    requires Misses(lo, at)
    ensures FirstLive(Baked(at), [Watching(lo, fn, passes)], With(at, b).ram) == Some(0)
    ensures FirstHashed([Watching(lo, fn, passes)], ZEROES) == Some(0)
    ensures Rdram.Guest(With(at, b).ram, at) == b
  {
    WatchedCode(lo, at, b);
    hide With, Code;
    assert Live(Baked(at), Watching(lo, fn, passes), With(at, b).ram);
  }

  lemma LateMiss(cfg: Config, lo: u32, at: nat, t: Tier<seq<byte>>) returns (r: Result<seq<byte>>)
    requires cfg == Config(true, true, 1) && Misses(lo, at)
    requires Chain(t, HERE) == [Watching(lo, None, 0)] && t.compiled == []
    ensures r == Dispatch(Baked(at), cfg, t, With(at, 5), HERE)
    ensures r.event == Diffed(ZEROES, 0) && Chain(r.tier, HERE) == [Watching(lo, Some(0), 1)]
  {
    WatchedBytes(lo, at, 5, None, 0);
    WatchedBytes(lo, at, 5, Some(0), 0);
    r := Dispatch(Baked(at), cfg, t, With(at, 5), HERE);
    hide With, Live, Code;
    var (t', live) := Locate(Baked(at), cfg, t, With(at, 5).ram, HERE);
    assert live == Some(Watching(lo, Some(0), 0)) && Chain(t', HERE) == [Watching(lo, Some(0), 0)];
  }

  lemma StaleMiss(cfg: Config, lo: u32, at: nat, t: Tier<seq<byte>>)
    requires cfg == Config(true, true, 1) && Misses(lo, at) && Chain(t, HERE) == [Watching(lo, Some(0), 1)]
    ensures var r := Dispatch(Baked(at), cfg, t, With(at, 6), HERE);
            r.event == NativeRun(Watching(lo, Some(0), 1)) && r.guest.ctx.hi == 5
    ensures Baked(at).interpret(HERE, With(at, 6)).guest.ctx.hi == 6
  {
    WatchedBytes(lo, at, 6, Some(0), 1);
    hide With, Live, Code;
  }

  lemma ReloadedLine(at: nat, lo: u32)
    ensures var t := Reload(Baked(at), Tier(map[], []), [Entry(HERE, ZEROES, lo, 4)]);
            Chain(t, HERE) == [Watching(lo, None, 0)] && t.compiled == []
  {
    var line := [Entry(HERE, ZEROES, lo, 4)];
    assert line[1..] == [];
    assert ZEROES != [];
  }

  // After one clean comparison, and with a budget of 1, such a line's shard runs live on
  // code that has changed since, and leaves what no interpretation leaves. No hash collides.
  lemma LineRunsStale(cfg: Config, lo: u32, at: nat, g: Guest)
    requires cfg == Config(true, true, 1) && Misses(lo, at)
    ensures var start := System(Reload(Baked(at), Tier(map[], []), [Entry(HERE, ZEROES, lo, 4)]), g, []);
            var log := Run(Baked(at), cfg, start, Visit(With(at, 5)) + (Visit(With(at, 6)) + [])).log;
            && |log| == 2 && log[0].event == Diffed(ZEROES, 0) && log[1].event.NativeRun?
            && log[1].after.ctx.hi == 5 && Baked(at).interpret(HERE, log[1].before).guest.ctx.hi == 6
    ensures !Covers(lo, 4, HERE, 8)
  {
    var env, line := Baked(at), [Entry(HERE, ZEROES, lo, 4)];
    var t0 := Reload(env, Tier(map[], []), line);
    ReloadedLine(at, lo);
    hide Dispatch, Baked, Reload, Chain, Visit, With;
    var s0 := System(t0, g, []);
    Visited(env, cfg, s0, With(at, 5), Visit(With(at, 6)) + []);
    var r1 := LateMiss(cfg, lo, at, t0);
    var s1 := System(r1.tier, r1.guest, s0.log + [Record(HERE, With(at, 5), r1.event, r1.guest)]);
    Visited(env, cfg, s1, With(at, 6), []);
    StaleMiss(cfg, lo, at, r1.tier);
    var r2 := Dispatch(env, cfg, r1.tier, With(at, 6), HERE);
    var s2 := System(r2.tier, r2.guest, s1.log + [Record(HERE, With(at, 6), r2.event, r2.guest)]);
    assert Run(env, cfg, s2, []) == s2;
  }
}
