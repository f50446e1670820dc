// Safety of the fragment tier over every run: misses at any addresses, with guest RAM and
// registers rewritten arbitrarily in between.
module FragmentRuns {
  import opened Options
  import opened Words
  import opened Arith
  import opened FragmentTier
  import Rdram

  // One miss: where, the state it found, what the tier did and the state it left.
  datatype Record<+Hash> = Record(addr: u32, before: Guest, event: Event<Hash>, after: Guest)

  datatype System<Hash> = System(tier: Tier<Hash>, guest: Guest, log: seq<Record<Hash>>)

  datatype Action = Miss(addr: u32) | Rewrite(guest: Guest)

  function Step<Hash(==)>(env: Env<Hash>, cfg: Config, s: System<Hash>, a: Action): System<Hash> {
    match a
    case Rewrite(g) => s.(guest := g)
    case Miss(addr) =>
      var r := Dispatch(env, cfg, s.tier, s.guest, addr);
      System(r.tier, r.guest, s.log + [Record(addr, s.guest, r.event, r.guest)])
  }

  function Run<Hash(==)>(env: Env<Hash>, cfg: Config, s: System<Hash>, actions: seq<Action>): System<Hash>
    decreases |actions|
  {
    if actions == [] then s else Run(env, cfg, Step(env, cfg, s, actions[0]), actions[1..])
  }

  // --- What the log says about a candidate ---------------------------------------------

  predicate Concerns<Hash(==)>(e: Record<Hash>, addr: u32, hash: Hash) {
    e.event.Diffed? && e.addr == addr && e.event.hash == hash
  }

  // From this state the shard leaves r1 to r31, the FPRs, hi, lo and RAM as the interpreter does.
  predicate Agrees<Hash>(env: Env<Hash>, addr: u32, g: Guest, fn: nat) {
    var i, n := env.interpret(addr, g), env.shard(fn, g);
    i.ok && RegsEqual(n.ctx, i.guest.ctx) && n.ram == i.guest.ram
  }

  // A comparison counts unless the interpreter entered a recompiled function.
  predicate Counts<Hash(==)>(env: Env<Hash>, e: Record<Hash>, addr: u32, hash: Hash) {
    Concerns(e, addr, hash) && !env.interpret(addr, e.before).touched
  }

  // How many comparisons of this code, up to the last one, found this shard in agreement.
  function Streak<Hash(==)>(env: Env<Hash>, log: seq<Record<Hash>>, addr: u32, hash: Hash, fn: Option<nat>): nat
    decreases |log|
  {
    if log == [] then 0
    else
      var before, e := log[..|log| - 1], log[|log| - 1];
      if !Counts(env, e, addr, hash) then Streak(env, before, addr, hash, fn)
      else if fn == Some(e.event.fn) && Agrees(env, addr, e.before, e.event.fn)
      then Streak(env, before, addr, hash, fn) + 1
      else 0
  }

  predicate TouchedDevice<Hash(==)>(env: Env<Hash>, log: seq<Record<Hash>>, addr: u32, hash: Hash) {
    exists i :: 0 <= i < |log| && Concerns(log[i], addr, hash) && env.interpret(addr, log[i].before).touched
  }

  predicate Undiffed<Hash(==)>(log: seq<Record<Hash>>, addr: u32, hash: Hash) {
    forall i :: 0 <= i < |log| ==> !Concerns(log[i], addr, hash)
  }

  // What a live native run has behind it: the shard's own full streak of agreements, no
  // device touch, and at its compilation here the hash over the candidate's stretch that
  // RAM has there now.
  predicate Earned<Hash(==)>(env: Env<Hash>, cfg: Config, compiled: seq<Image>,
                             log: seq<Record<Hash>>, e: Record<Hash>)
    requires e.event.NativeRun?
  {
    var c := e.event.cand;
    && c.fn.Some? && e.after == env.shard(c.fn.value, e.before)
    && Streak(env, log, e.addr, c.hash, c.fn) >= cfg.budget
    && !TouchedDevice(env, log, e.addr, c.hash)
    && !c.pinned && !c.blacklisted
    && c.fn.value < |compiled| && compiled[c.fn.value].addr == e.addr
    && env.hash(Code(compiled[c.fn.value].ram, c.lo, c.len)) == env.hash(Code(e.before.ram, c.lo, c.len)) == c.hash
  }

  // A miss is safe: a live native run has been earned, and any other leaves exactly what
  // the interpreter makes of the state it found, whenever the interpreter can run it.
  predicate Safe<Hash(==)>(env: Env<Hash>, cfg: Config, compiled: seq<Image>,
                           log: seq<Record<Hash>>, e: Record<Hash>) {
    if e.event.NativeRun? then Earned(env, cfg, compiled, log, e)
    else cfg.interpreter && env.interpret(e.addr, e.before).ok ==>
           !e.event.Aborted? && e.after == env.interpret(e.addr, e.before).guest
  }

  // --- Streaks -----------------------------------------------------------------------------

  // The comparisons of this code that count.
  function Counted<Hash(==, !new)>(env: Env<Hash>, log: seq<Record<Hash>>, addr: u32, hash: Hash)
    : (r: seq<Record<Hash>>)
    ensures forall e :: e in r <==> e in log && Counts(env, e, addr, hash)
    decreases |log|
  {
    if log == [] then []
    else
      var before, e := log[..|log| - 1], log[|log| - 1];
      assert log == before + [e];
      Counted(env, before, addr, hash) + if Counts(env, e, addr, hash) then [e] else []
  }

  predicate Agreement<Hash(==)>(env: Env<Hash>, e: Record<Hash>, addr: u32, hash: Hash, fn: nat) {
    e.event == Diffed(hash, fn) && Agrees(env, addr, e.before, fn)
  }

  // A streak of k means what it should: in each of the last k comparisons of this code that
  // counted, this very shard agreed with the interpreter.
  lemma {:induction false} StreakAgrees<Hash(!new)>(env: Env<Hash>, log: seq<Record<Hash>>, addr: u32, hash: Hash,
                                                    fn: nat)
    ensures var k, all := Streak(env, log, addr, hash, Some(fn)), Counted(env, log, addr, hash);
            && k <= |all|
            && (forall i :: |all| - k <= i < |all| ==> Agreement(env, all[i], addr, hash, fn))
            && (k < |all| ==> !Agreement(env, all[|all| - k - 1], addr, hash, fn))
    decreases |log|
  {
    if log != [] {
      var before, e := log[..|log| - 1], log[|log| - 1];
      StreakAgrees(env, before, addr, hash, fn);
      var all := Counted(env, log, addr, hash);
      if Counts(env, e, addr, hash) { assert all == Counted(env, before, addr, hash) + [e]; }
    }
  }

  lemma {:induction false} UndiffedStreak<Hash>(env: Env<Hash>, log: seq<Record<Hash>>, addr: u32, hash: Hash,
                                                fn: Option<nat>)
    requires Undiffed(log, addr, hash)
    ensures Streak(env, log, addr, hash, fn) == 0 && !TouchedDevice(env, log, addr, hash)
    decreases |log|
  {
    if log != [] { UndiffedStreak(env, log[..|log| - 1], addr, hash, fn); }
  }

  // --- The invariant --------------------------------------------------------------------

  predicate CandidateOk<Hash(==)>(env: Env<Hash>, cfg: Config, compiled: seq<Image>,
                                  log: seq<Record<Hash>>, addr: u32, c: Candidate<Hash>) {
    && c.addr == addr
    && (if c.fn.None? then Undiffed(log, addr, c.hash)
        else && c.fn.value < |compiled| && compiled[c.fn.value].addr == addr
             && env.hash(Code(compiled[c.fn.value].ram, c.lo, c.len)) == c.hash)
    && c.passes == Min(cfg.budget, Streak(env, log, addr, c.hash, c.fn))
    && (TouchedDevice(env, log, addr, c.hash) ==> c.pinned)
  }

  ghost predicate ChainOk<Hash(!new)>(env: Env<Hash>, cfg: Config, compiled: seq<Image>,
                                      log: seq<Record<Hash>>, addr: u32, chain: seq<Candidate<Hash>>) {
    && (forall i :: 0 <= i < |chain| ==> CandidateOk(env, cfg, compiled, log, addr, chain[i]))
    && (forall i, j :: 0 <= i < j < |chain| ==> chain[i].hash != chain[j].hash)
    && (forall h :: FirstHashed(chain, h).None? ==> Undiffed(log, addr, h))
  }

  ghost predicate TierOk<Hash(!new)>(env: Env<Hash>, cfg: Config, t: Tier<Hash>, log: seq<Record<Hash>>) {
    forall a: u32 :: ChainOk(env, cfg, t.compiled, log, a, Chain(t, a))
  }

  ghost predicate Inv<Hash(!new)>(env: Env<Hash>, cfg: Config, s: System<Hash>) {
    && TierOk(env, cfg, s.tier, s.log)
    && (forall i :: 0 <= i < |s.log| ==> Safe(env, cfg, s.tier.compiled, s.log[..i], s.log[i]))
  }

  // At this miss no candidate of the chain has the hash of newly discovered code for
  // another stretch.
  predicate Distinct<Hash(==)>(env: Env<Hash>, t: Tier<Hash>, ram: Ram, addr: u32) {
    var chain, len := Chain(t, addr), FoundLength(env, addr, ram);
    FirstLive(env, chain, ram).None? && len.Some? ==>
      forall i :: 0 <= i < |chain| && chain[i].hash == env.hash(Code(ram, addr, len.value)) ==>
        chain[i].lo == addr && chain[i].len == len.value
  }

  predicate DistinctRun<Hash(==)>(env: Env<Hash>, cfg: Config, s: System<Hash>, actions: seq<Action>)
    decreases |actions|
  {
    actions != [] ==>
      && (actions[0].Miss? ==> Distinct(env, s.tier, s.guest.ram, actions[0].addr))
      && DistinctRun(env, cfg, Step(env, cfg, s, actions[0]), actions[1..])
  }

  // --- Replacing a candidate --------------------------------------------------------------

  lemma FirstHashedAt<Hash>(chain: seq<Candidate<Hash>>, i: nat)
    requires i < |chain| && forall j, k :: 0 <= j < k < |chain| ==> chain[j].hash != chain[k].hash
    ensures FirstHashed(chain, chain[i].hash) == Some(i)
  {
    assert FirstHashed(chain, chain[i].hash).Some?;
  }

  // Growing the list of shards keeps every chain in order.
  lemma MoreShards<Hash(!new)>(env: Env<Hash>, cfg: Config, compiled: seq<Image>, more: seq<Image>,
                               log: seq<Record<Hash>>, addr: u32, chain: seq<Candidate<Hash>>)
    requires ChainOk(env, cfg, compiled, log, addr, chain)
    ensures ChainOk(env, cfg, compiled + more, log, addr, chain)
  {
    forall i | 0 <= i < |chain|
      ensures CandidateOk(env, cfg, compiled + more, log, addr, chain[i])
    {
      assert CandidateOk(env, cfg, compiled, log, addr, chain[i]);
    }
  }

  lemma ReplaceOk<Hash(!new)>(env: Env<Hash>, cfg: Config, compiled: seq<Image>, log: seq<Record<Hash>>,
                              addr: u32, chain: seq<Candidate<Hash>>, i: nat, c: Candidate<Hash>)
    requires ChainOk(env, cfg, compiled, log, addr, chain) && i < |chain| && c.hash == chain[i].hash
    requires CandidateOk(env, cfg, compiled, log, addr, c)
    ensures ChainOk(env, cfg, compiled, log, addr, chain[i := c])
  {
    hide CandidateOk, Undiffed;
    var chain' := chain[i := c];
    forall h | FirstHashed(chain', h).None?
      ensures FirstHashed(chain, h).None?
    {
      assert forall j :: 0 <= j < |chain| ==> chain'[j].hash == chain[j].hash;
    }
  }

  lemma AppendOk<Hash(!new)>(env: Env<Hash>, cfg: Config, compiled: seq<Image>, log: seq<Record<Hash>>,
                             addr: u32, chain: seq<Candidate<Hash>>, c: Candidate<Hash>)
    requires ChainOk(env, cfg, compiled, log, addr, chain) && FirstHashed(chain, c.hash).None?
    requires CandidateOk(env, cfg, compiled, log, addr, c)
    ensures ChainOk(env, cfg, compiled, log, addr, chain + [c])
  {
    hide CandidateOk, Undiffed;
    var chain' := chain + [c];
    forall h | FirstHashed(chain', h).None?
      ensures FirstHashed(chain, h).None?
    {
      assert forall j :: 0 <= j < |chain| ==> chain'[j] == chain[j];
    }
  }

  // --- Appending to the log ---------------------------------------------------------------

  lemma StreakAppend<Hash>(env: Env<Hash>, log: seq<Record<Hash>>, e: Record<Hash>, addr: u32, hash: Hash,
                           fn: Option<nat>)
    ensures Streak(env, log + [e], addr, hash, fn) ==
            if !Counts(env, e, addr, hash) then Streak(env, log, addr, hash, fn)
            else if fn == Some(e.event.fn) && Agrees(env, addr, e.before, e.event.fn)
            then Streak(env, log, addr, hash, fn) + 1
            else 0
  {
    hide Agrees, Concerns;
    var log' := log + [e];
    assert log'[..|log'| - 1] == log && log'[|log|] == e;
  }

  lemma UndiffedAppend<Hash>(log: seq<Record<Hash>>, e: Record<Hash>, addr: u32, hash: Hash)
    ensures Undiffed(log + [e], addr, hash) <==> Undiffed(log, addr, hash) && !Concerns(e, addr, hash)
  {
    hide Concerns;
    var log' := log + [e];
    assert log'[|log|] == e && forall i :: 0 <= i < |log| ==> log'[i] == log[i];
  }

  lemma TouchedAppend<Hash>(env: Env<Hash>, log: seq<Record<Hash>>, e: Record<Hash>, addr: u32, hash: Hash)
    ensures TouchedDevice(env, log + [e], addr, hash) <==>
            TouchedDevice(env, log, addr, hash)
            || (Concerns(e, addr, hash) && env.interpret(addr, e.before).touched)
  {
    hide Concerns;
    var log' := log + [e];
    assert log'[|log|] == e && forall i :: 0 <= i < |log| ==> log'[i] == log[i];
  }

  // A candidate a record does not concern is as it was.
  lemma OtherCandidate<Hash>(env: Env<Hash>, cfg: Config, compiled: seq<Image>, log: seq<Record<Hash>>,
                             e: Record<Hash>, addr: u32, c: Candidate<Hash>)
    requires CandidateOk(env, cfg, compiled, log, addr, c) && !Concerns(e, addr, c.hash)
    ensures CandidateOk(env, cfg, compiled, log + [e], addr, c)
  {
    hide Streak, TouchedDevice, Undiffed;
    StreakAppend(env, log, e, addr, c.hash, c.fn);
    TouchedAppend(env, log, e, addr, c.hash);
    UndiffedAppend(log, e, addr, c.hash);
  }

  // A record that concerns no candidate of the chain leaves it in order.
  lemma QuietRecord<Hash(!new)>(env: Env<Hash>, cfg: Config, compiled: seq<Image>, log: seq<Record<Hash>>,
                                e: Record<Hash>, addr: u32, chain: seq<Candidate<Hash>>)
    requires ChainOk(env, cfg, compiled, log, addr, chain)
    requires !e.event.Diffed? || e.addr != addr
    ensures ChainOk(env, cfg, compiled, log + [e], addr, chain)
  {
    hide CandidateOk, Streak, TouchedDevice, Undiffed, Agrees;
    forall h | FirstHashed(chain, h).None? ensures Undiffed(log + [e], addr, h) {
      UndiffedAppend(log, e, addr, h);
    }
    forall i | 0 <= i < |chain|
      ensures CandidateOk(env, cfg, compiled, log + [e], addr, chain[i])
    {
      OtherCandidate(env, cfg, compiled, log, e, addr, chain[i]);
    }
  }

  // The record of a comparison that the interpreter could run.
  predicate Compared<Hash(==)>(env: Env<Hash>, c: Candidate<Hash>, addr: u32, e: Record<Hash>) {
    && e.addr == addr && c.fn.Some? && e.event == Diffed(c.hash, c.fn.value)
    && env.interpret(addr, e.before).ok
  }

  lemma JudgedCandidate<Hash>(env: Env<Hash>, cfg: Config, compiled: seq<Image>, log: seq<Record<Hash>>,
                              e: Record<Hash>, addr: u32, c: Candidate<Hash>)
    requires CandidateOk(env, cfg, compiled, log, addr, c) && Compared(env, c, addr, e)
    ensures CandidateOk(env, cfg, compiled, log + [e], addr,
                        Judge(c, ShadowDiff(env, e.before, addr, c.fn.value).1, cfg.budget))
  {
    hide Streak, TouchedDevice, Undiffed;
    StreakAppend(env, log, e, addr, c.hash, c.fn);
    TouchedAppend(env, log, e, addr, c.hash);
    UndiffedAppend(log, e, addr, c.hash);
  }

  // Applying a comparison's outcome and logging it keeps the candidate's record exact.
  lemma JudgedChain<Hash(!new)>(env: Env<Hash>, cfg: Config, compiled: seq<Image>, log: seq<Record<Hash>>,
                                e: Record<Hash>, addr: u32, chain: seq<Candidate<Hash>>, i: nat, c: Candidate<Hash>)
    requires ChainOk(env, cfg, compiled, log, addr, chain) && i < |chain| && Compared(env, chain[i], addr, e)
    requires c.hash == chain[i].hash && CandidateOk(env, cfg, compiled, log + [e], addr, c)
    ensures ChainOk(env, cfg, compiled, log + [e], addr, chain[i := c])
  {
    hide CandidateOk, Streak, TouchedDevice, Undiffed, Agrees;
    var chain' := chain[i := c];
    assert forall j :: 0 <= j < |chain| ==> chain'[j].hash == chain[j].hash;
    forall j | 0 <= j < |chain|
      ensures CandidateOk(env, cfg, compiled, log + [e], addr, chain'[j])
    {
      if j != i {
        assert chain[j].hash != chain[i].hash;
        OtherCandidate(env, cfg, compiled, log, e, addr, chain[j]);
      }
    }
    forall h | FirstHashed(chain', h).None?
      ensures Undiffed(log + [e], addr, h)
    {
      assert chain'[i].hash == chain[i].hash;
      assert FirstHashed(chain, h).None?;
      UndiffedAppend(log, e, addr, h);
    }
  }

  // --- Dispatch ----------------------------------------------------------------------------

  // Candidates keep their shards.
  ghost predicate ShardsKept<Hash(!new)>(t: Tier<Hash>, t': Tier<Hash>) {
    forall a: u32 :: SameShards(Chain(t, a), Chain(t', a))
  }

  ghost predicate SameShards<Hash>(chain: seq<Candidate<Hash>>, chain': seq<Candidate<Hash>>) {
    && |chain| <= |chain'|
    && forall i :: 0 <= i < |chain| && chain[i].fn.Some? ==> chain'[i].fn == chain[i].fn
  }

  lemma ShardsKeptTrans<Hash(!new)>(t: Tier<Hash>, u: Tier<Hash>, v: Tier<Hash>)
    requires ShardsKept(t, u) && ShardsKept(u, v)
    ensures ShardsKept(t, v)
  {
    forall a: u32 ensures SameShards(Chain(t, a), Chain(v, a)) {
      assert SameShards(Chain(t, a), Chain(u, a)) && SameShards(Chain(u, a), Chain(v, a));
    }
  }

  // The tier with one chain replaced and perhaps one more shard.
  lemma ChangedChain<Hash(!new)>(env: Env<Hash>, cfg: Config, t: Tier<Hash>, log: seq<Record<Hash>>,
                                 addr: u32, chain: seq<Candidate<Hash>>, more: seq<Image>)
    requires TierOk(env, cfg, t, log) && SameShards(Chain(t, addr), chain)
    requires ChainOk(env, cfg, t.compiled + more, log, addr, chain)
    ensures var t' := Tier(t.cands[addr := chain], t.compiled + more); TierOk(env, cfg, t', log) && ShardsKept(t, t')
  {
    hide ChainOk;
    var t' := Tier(t.cands[addr := chain], t.compiled + more);
    forall a: u32
      ensures ChainOk(env, cfg, t'.compiled, log, a, Chain(t', a)) && SameShards(Chain(t, a), Chain(t', a))
    {
      if a != addr {
        MoreShards(env, cfg, t.compiled, more, log, a, Chain(t, a));
        assert Chain(t', a) == Chain(t, a);
      }
    }
  }

  // A new candidate's hash is new to its chain: were it there already, for this stretch, it
  // would have been found live.
  lemma NewHash<Hash(!new)>(env: Env<Hash>, cfg: Config, t: Tier<Hash>, log: seq<Record<Hash>>,
                            ram: Ram, addr: u32, len: nat)
    requires TierOk(env, cfg, t, log) && Distinct(env, t, ram, addr)
    requires FirstLive(env, Chain(t, addr), ram).None? && FoundLength(env, addr, ram) == Some(len)
    ensures FirstHashed(Chain(t, addr), env.hash(Code(ram, addr, len))).None?
  {
    var chain, code := Chain(t, addr), Code(ram, addr, len);
    assert ChainOk(env, cfg, t.compiled, log, addr, chain);
    forall i | 0 <= i < |chain|
      ensures chain[i].hash != env.hash(code)
    {
      assert CandidateOk(env, cfg, t.compiled, log, addr, chain[i]) && !Live(env, chain[i], ram);
    }
  }

  // What Locate ensures, for each of its outcomes.
  ghost predicate Located<Hash(!new)>(env: Env<Hash>, cfg: Config, t: Tier<Hash>, log: seq<Record<Hash>>,
                                      ram: Ram, addr: u32, t': Tier<Hash>, live: Option<Candidate<Hash>>) {
    && TierOk(env, cfg, t', log) && t.compiled <= t'.compiled && ShardsKept(t, t')
    && (live.Some? ==> Live(env, live.value, ram) && live.value in Chain(t', addr))
  }

  lemma Unchanged<Hash(!new)>(t: Tier<Hash>)
    ensures ShardsKept(t, t)
  {}

  // One candidate of a chain is given a shard or a pin.
  lemma ReplacedCandidate<Hash(!new)>(env: Env<Hash>, cfg: Config, t: Tier<Hash>, log: seq<Record<Hash>>,
                                      ram: Ram, addr: u32, i: nat, c: Candidate<Hash>, more: seq<Image>)
    requires TierOk(env, cfg, t, log) && i < |Chain(t, addr)|
    requires c.hash == Chain(t, addr)[i].hash && (Chain(t, addr)[i].fn.Some? ==> c.fn == Chain(t, addr)[i].fn)
    requires CandidateOk(env, cfg, t.compiled + more, log, addr, c) && Live(env, c, ram)
    ensures Located(env, cfg, t, log, ram, addr,
                    Tier(t.cands[addr := Chain(t, addr)[i := c]], t.compiled + more), Some(c))
  {
    hide CandidateOk, Live, ChainOk;
    var chain := Chain(t, addr);
    assert ChainOk(env, cfg, t.compiled, log, addr, chain);
    MoreShards(env, cfg, t.compiled, more, log, addr, chain);
    ReplaceOk(env, cfg, t.compiled + more, log, addr, chain, i, c);
    ChangedChain(env, cfg, t, log, addr, chain[i := c], more);
    assert chain[i := c][i] == c;
  }

  lemma AppendedCandidate<Hash(!new)>(env: Env<Hash>, cfg: Config, t: Tier<Hash>, log: seq<Record<Hash>>,
                                      ram: Ram, addr: u32, c: Candidate<Hash>, more: seq<Image>)
    requires TierOk(env, cfg, t, log) && FirstHashed(Chain(t, addr), c.hash).None?
    requires CandidateOk(env, cfg, t.compiled + more, log, addr, c) && Live(env, c, ram)
    ensures Located(env, cfg, t, log, ram, addr,
                    Tier(t.cands[addr := Chain(t, addr) + [c]], t.compiled + more), Some(c))
  {
    hide CandidateOk, Live, ChainOk;
    var chain := Chain(t, addr);
    assert ChainOk(env, cfg, t.compiled, log, addr, chain);
    MoreShards(env, cfg, t.compiled, more, log, addr, chain);
    AppendOk(env, cfg, t.compiled + more, log, addr, chain, c);
    ChangedChain(env, cfg, t, log, addr, chain + [c], more);
    assert (chain + [c])[|chain|] == c;
  }

  // A candidate without a shard has no comparison behind it, so a new shard starts from nothing.
  lemma ShardGiven<Hash(!new)>(env: Env<Hash>, cfg: Config, compiled: seq<Image>, log: seq<Record<Hash>>,
                               ram: Ram, addr: u32, n: nat, c: Candidate<Hash>)
    requires CandidateOk(env, cfg, compiled, log, addr, c) && c.fn.None? && Live(env, c, ram)
    ensures CandidateOk(env, cfg, compiled + [Image(addr, ram, n)], log, addr, c.(fn := Some(|compiled|)))
  {
    UndiffedStreak(env, log, addr, c.hash, None);
    UndiffedStreak(env, log, addr, c.hash, Some(|compiled|));
    hide Streak, TouchedDevice, Undiffed;
    assert (compiled + [Image(addr, ram, n)])[|compiled|] == Image(addr, ram, n);
  }

  lemma NewCandidate<Hash(!new)>(env: Env<Hash>, cfg: Config, compiled: seq<Image>, log: seq<Record<Hash>>,
                                 ram: Ram, addr: u32, c: Candidate<Hash>)
    requires c.addr == addr && c.fn.None? && c.passes == 0 && Undiffed(log, addr, c.hash)
    ensures CandidateOk(env, cfg, compiled, log, addr, c)
  {
    UndiffedStreak(env, log, addr, c.hash, None);
  }

  lemma LocateKeeps<Hash(!new)>(env: Env<Hash>, cfg: Config, t: Tier<Hash>, log: seq<Record<Hash>>,
                                ram: Ram, addr: u32)
    requires TierOk(env, cfg, t, log) && Distinct(env, t, ram, addr)
    ensures var (t', live) := Locate(env, cfg, t, ram, addr); Located(env, cfg, t, log, ram, addr, t', live)
  {
    hide CandidateOk, Streak, Undiffed, ShardsKept;
    var chain := Chain(t, addr);
    assert ChainOk(env, cfg, t.compiled, log, addr, chain);
    Unchanged(t);
    match FirstLive(env, chain, ram)
    case Some(i) => LocateOld(env, cfg, t, log, ram, addr, i);
    case None =>
      match FoundLength(env, addr, ram)
      case None =>
      case Some(len) => LocateNew(env, cfg, t, log, ram, addr, len);
  }

  // Distinct hashes are a clause of the invariant, so distinctness at the miss is exactly what
  // keeps it; what a run without it can come to is CollisionMisplacesTrust.
  lemma LocateExactly<Hash(!new)>(env: Env<Hash>, cfg: Config, t: Tier<Hash>, log: seq<Record<Hash>>,
                                  ram: Ram, addr: u32)
    requires TierOk(env, cfg, t, log)
    ensures TierOk(env, cfg, Locate(env, cfg, t, ram, addr).0, log) <==> Distinct(env, t, ram, addr)
  {
    if Distinct(env, t, ram, addr) {
      LocateKeeps(env, cfg, t, log, ram, addr);
    } else {
      hide CandidateOk, Undiffed, Live, Code;
      var chain, t' := Chain(t, addr), Locate(env, cfg, t, ram, addr).0;
      var i :| 0 <= i < |chain| && chain[i].hash == env.hash(Code(ram, addr, FoundLength(env, addr, ram).value));
      var chain' := Chain(t', addr);
      assert chain'[i].hash == chain'[|chain|].hash;
      assert !ChainOk(env, cfg, t'.compiled, log, addr, chain');
    }
  }

  lemma LocateOld<Hash(!new)>(env: Env<Hash>, cfg: Config, t: Tier<Hash>, log: seq<Record<Hash>>,
                              ram: Ram, addr: u32, i: nat)
    requires TierOk(env, cfg, t, log) && FirstLive(env, Chain(t, addr), ram) == Some(i)
    ensures var (t', live) := Locate(env, cfg, t, ram, addr); Located(env, cfg, t, log, ram, addr, t', live)
  {
    var chain := Chain(t, addr);
    var c, shard, built := chain[i], |t.compiled|, CompiledLength(env, addr, ram);
    assert ChainOk(env, cfg, t.compiled, log, addr, chain);
    assert CandidateOk(env, cfg, t.compiled, log, addr, c);
    FirstHashedAt(chain, i);
    Unchanged(t);
    hide TierOk, ShardsKept, Streak, TouchedDevice, Undiffed, Code;
    if !(cfg.native && c.fn.None? && !c.pinned && !c.blacklisted && c.len > 0) {
    } else if !env.safeLeaf(ram, c.lo, c.len) {
      assert t.compiled + [] == t.compiled;
      ReplacedCandidate(env, cfg, t, log, ram, addr, i, c.(pinned := true), []);
    } else if built.Some? {
      ShardGiven(env, cfg, t.compiled, log, ram, addr, built.value, c);
      ReplacedCandidate(env, cfg, t, log, ram, addr, i, c.(fn := Some(shard)), [Image(addr, ram, built.value)]);
    }
  }

  lemma LocateNew<Hash(!new)>(env: Env<Hash>, cfg: Config, t: Tier<Hash>, log: seq<Record<Hash>>,
                              ram: Ram, addr: u32, len: nat)
    requires TierOk(env, cfg, t, log) && Distinct(env, t, ram, addr)
    requires FirstLive(env, Chain(t, addr), ram).None? && FoundLength(env, addr, ram) == Some(len)
    ensures var (t', live) := Locate(env, cfg, t, ram, addr); Located(env, cfg, t, log, ram, addr, t', live)
  {
    NewHash(env, cfg, t, log, ram, addr, len);
    assert ChainOk(env, cfg, t.compiled, log, addr, Chain(t, addr));
    hide TierOk, ShardsKept, Streak, TouchedDevice, Undiffed, Code, CandidateOk;
    var leaf := env.safeLeaf(ram, addr, len);
    var c := Candidate(addr, env.hash(Code(ram, addr, len)), addr, len, None, 0, cfg.native && !leaf, false);
    NewCandidate(env, cfg, t.compiled, log, ram, addr, c);
    var built := CompiledLength(env, addr, ram);
    if cfg.native && leaf && built.Some? {
      ShardGiven(env, cfg, t.compiled, log, ram, addr, built.value, c);
      AppendedCandidate(env, cfg, t, log, ram, addr, c.(fn := Some(|t.compiled|)), [Image(addr, ram, built.value)]);
    } else {
      assert t.compiled + [] == t.compiled;
      AppendedCandidate(env, cfg, t, log, ram, addr, c, []);
    }
  }

  lemma QuietTier<Hash(!new)>(env: Env<Hash>, cfg: Config, t: Tier<Hash>, log: seq<Record<Hash>>, e: Record<Hash>)
    requires TierOk(env, cfg, t, log) && !e.event.Diffed?
    ensures TierOk(env, cfg, t, log + [e])
  {
    hide ChainOk;
    forall a: u32
      ensures ChainOk(env, cfg, t.compiled, log + [e], a, Chain(t, a))
    {
      QuietRecord(env, cfg, t.compiled, log, e, a, Chain(t, a));
    }
  }

  // With distinct hashes an outcome is applied to the candidate itself.
  lemma ApplyAt<Hash>(t: Tier<Hash>, addr: u32, i: nat, o: Outcome, budget: nat)
    requires i < |Chain(t, addr)|
    requires forall j, k :: 0 <= j < k < |Chain(t, addr)| ==> Chain(t, addr)[j].hash != Chain(t, addr)[k].hash
    ensures var chain := Chain(t, addr);
            Apply(t, addr, chain[i].hash, o, budget) ==
            t.(cands := t.cands[addr := chain[i := Judge(chain[i], o, budget)]])
  {
    hide Judge;
    FirstHashedAt(Chain(t, addr), i);
  }

  lemma JudgeKeeps<Hash>(c: Candidate<Hash>, o: Outcome, budget: nat)
    ensures var c' := Judge(c, o, budget); c'.hash == c.hash && c'.fn == c.fn
  {}

  lemma AppliedDiff<Hash(!new)>(env: Env<Hash>, cfg: Config, t: Tier<Hash>, log: seq<Record<Hash>>,
                                addr: u32, c: Candidate<Hash>, e: Record<Hash>)
    requires TierOk(env, cfg, t, log) && c in Chain(t, addr) && Compared(env, c, addr, e)
    ensures var t' := Apply(t, addr, c.hash, ShadowDiff(env, e.before, addr, c.fn.value).1, cfg.budget);
            TierOk(env, cfg, t', log + [e]) && t'.compiled == t.compiled && ShardsKept(t, t')
  {
    hide Apply, Judge, ShadowDiff, CandidateOk, Undiffed;
    var chain, o := Chain(t, addr), ShadowDiff(env, e.before, addr, c.fn.value).1;
    var i :| 0 <= i < |chain| && chain[i] == c;
    assert ChainOk(env, cfg, t.compiled, log, addr, chain);
    ApplyAt(t, addr, i, o, cfg.budget);
    JudgeKeeps(c, o, cfg.budget);
    JudgedCandidate(env, cfg, t.compiled, log, e, addr, c);
    JudgedChain(env, cfg, t.compiled, log, e, addr, chain, i, Judge(c, o, cfg.budget));
    JudgedTier(env, cfg, t, log, addr, e, chain[i := Judge(c, o, cfg.budget)]);
  }

  lemma JudgedTier<Hash(!new)>(env: Env<Hash>, cfg: Config, t: Tier<Hash>, log: seq<Record<Hash>>,
                               addr: u32, e: Record<Hash>, chain: seq<Candidate<Hash>>)
    requires TierOk(env, cfg, t, log) && e.addr == addr && SameShards(Chain(t, addr), chain)
    requires ChainOk(env, cfg, t.compiled, log + [e], addr, chain)
    ensures var t' := t.(cands := t.cands[addr := chain]); TierOk(env, cfg, t', log + [e]) && ShardsKept(t, t')
  {
    hide ChainOk;
    var t' := t.(cands := t.cands[addr := chain]);
    forall a: u32
      ensures ChainOk(env, cfg, t'.compiled, log + [e], a, Chain(t', a)) && SameShards(Chain(t, a), Chain(t', a))
    {
      if a != addr {
        QuietRecord(env, cfg, t.compiled, log, e, a, Chain(t, a));
        assert Chain(t', a) == Chain(t, a);
      }
    }
  }

  // A trusted candidate's shard has earned its live run.
  lemma TrustIsEarned<Hash(!new)>(env: Env<Hash>, cfg: Config, t: Tier<Hash>, log: seq<Record<Hash>>,
                                  g: Guest, addr: u32, c: Candidate<Hash>)
    requires TierOk(env, cfg, t, log) && c in Chain(t, addr) && Live(env, c, g.ram) && Trusted(cfg, c)
    ensures Earned(env, cfg, t.compiled, log, Record(addr, g, NativeRun(c), env.shard(c.fn.value, g)))
  {
    assert ChainOk(env, cfg, t.compiled, log, addr, Chain(t, addr));
    assert CandidateOk(env, cfg, t.compiled, log, addr, c);
  }

  // How a dispatch changes the tier and the guest, by what it reports.
  lemma DispatchShape<Hash(!new)>(env: Env<Hash>, cfg: Config, t: Tier<Hash>, g: Guest, addr: u32)
    ensures var (t', live) := Locate(env, cfg, t, g.ram, addr);
            var r := Dispatch(env, cfg, t, g, addr);
            match r.event
            case NativeRun(c) =>
              live == Some(c) && Trusted(cfg, c) && r.tier == t' && r.guest == env.shard(c.fn.value, g)
            case Diffed(h, fn) =>
              && live.Some? && h == live.value.hash && live.value.fn == Some(fn) && env.interpret(addr, g).ok
              && r.tier == Apply(t', addr, h, ShadowDiff(env, g, addr, fn).1, cfg.budget)
            case _ => r.tier == t'
  {
    hide Locate, Apply;
  }

  lemma DispatchKeeps<Hash(!new)>(env: Env<Hash>, cfg: Config, t: Tier<Hash>, log: seq<Record<Hash>>,
                                  g: Guest, addr: u32)
    requires TierOk(env, cfg, t, log) && Distinct(env, t, g.ram, addr)
    ensures var r := Dispatch(env, cfg, t, g, addr);
            var e := Record(addr, g, r.event, r.guest);
            && TierOk(env, cfg, r.tier, log + [e]) && t.compiled <= r.tier.compiled && ShardsKept(t, r.tier)
            && Safe(env, cfg, r.tier.compiled, log, e)
  {
    hide Dispatch, Locate, TierOk, Earned, Live, Apply, ShadowDiff, Distinct, ShardsKept, Trusted;
    var (t', live) := Locate(env, cfg, t, g.ram, addr);
    var r := Dispatch(env, cfg, t, g, addr);
    var e := Record(addr, g, r.event, r.guest);
    LocateKeeps(env, cfg, t, log, g.ram, addr);
    DispatchShape(env, cfg, t, g, addr);
    if e.event.Diffed? {
      AppliedDiff(env, cfg, t', log, addr, live.value, e);
      ShardsKeptTrans(t, t', r.tier);
    } else {
      QuietTier(env, cfg, t', log, e);
    }
    if e.event.NativeRun? {
      TrustIsEarned(env, cfg, t', log, g, addr, live.value);
    } else if cfg.interpreter {
      UntrustedIsInterpreted(env, cfg, t, g, addr);
    }
  }

  lemma SafeLater<Hash(!new)>(env: Env<Hash>, cfg: Config, compiled: seq<Image>, more: seq<Image>,
                              log: seq<Record<Hash>>, e: Record<Hash>)
    requires Safe(env, cfg, compiled, log, e) && compiled <= more
    ensures Safe(env, cfg, more, log, e)
  {}

  lemma StepKeeps<Hash(!new)>(env: Env<Hash>, cfg: Config, s: System<Hash>, a: Action)
    requires Inv(env, cfg, s) && (a.Miss? ==> Distinct(env, s.tier, s.guest.ram, a.addr))
    ensures Inv(env, cfg, Step(env, cfg, s, a)) && ShardsKept(s.tier, Step(env, cfg, s, a).tier)
  {
    Unchanged(s.tier);
    hide Dispatch, TierOk, Safe, Distinct, ShardsKept;
    if a.Miss? {
      var s' := Step(env, cfg, s, a);
      DispatchKeeps(env, cfg, s.tier, s.log, s.guest, a.addr);
      forall i | 0 <= i < |s'.log|
        ensures Safe(env, cfg, s'.tier.compiled, s'.log[..i], s'.log[i])
      {
        if i < |s.log| {
          assert s'.log[..i] == s.log[..i] && s'.log[i] == s.log[i];
          SafeLater(env, cfg, s.tier.compiled, s'.tier.compiled, s.log[..i], s.log[i]);
        } else {
          assert s'.log[..i] == s.log;
        }
      }
    }
  }

  // Over every run: each candidate's pass count is its shard's streak capped at the budget,
  // a device touch has pinned it, it keeps its shard, and every miss has been safe.
  lemma {:induction false} RunKeeps<Hash(!new)>(env: Env<Hash>, cfg: Config, s: System<Hash>, actions: seq<Action>)
    requires Inv(env, cfg, s) && DistinctRun(env, cfg, s, actions)
    ensures Inv(env, cfg, Run(env, cfg, s, actions)) && ShardsKept(s.tier, Run(env, cfg, s, actions).tier)
    decreases |actions|
  {
    hide Inv, ShardsKept, Step, Distinct;
    if actions == [] {
      Unchanged(s.tier);
    } else {
      var s1 := Step(env, cfg, s, actions[0]);
      StepKeeps(env, cfg, s, actions[0]);
      RunKeeps(env, cfg, s1, actions[1..]);
      ShardsKeptTrans(s.tier, s1.tier, Run(env, cfg, s, actions).tier);
    }
  }

  // --- Why chains must be distinct --------------------------------------------------------

  const HERE: u32 := 0x8000_0000

  // Code starting with 5 is 8 bytes long and other code is 12, all of it with hash 5; the
  // interpreter changes nothing, and neither does any shard but the first, which is wrong.
  function Colliding(): Env<nat> {
    var shard := (fn: nat, g: Guest) => if fn == 0 then g.(ctx := g.ctx.(hi := 1)) else g;
    var bounds := (addr: u32, ram: Ram) => Some(if Rdram.Guest(ram, 0) == 5 then 8 else 12);
    Env(0, b => if |b| == 8 then b[0] else 5, (_, g) => Interpreted(true, g, false), shard,
        (_, _) => true, (_, _, _) => true, bounds)
  }

  // RAM holding one byte of guest memory and zeroes.
  function Store(x: nat, b: byte): Ram { seq(RAM_SIZE, i => if i == Rdram.Swizzle(x) then b else 0) }

  function Holding(b: byte): Guest { Guest(Context([], [], 0, 0, []), Store(0, b)) }

  function Entered(b: byte, passes: nat): Candidate<nat> {
    Candidate(HERE, 5, HERE, if b == 5 then 8 else 12, Some(if b == 5 then 0 else 1), passes, false, false)
  }

  lemma CollidingLive(b: byte, passes: nat)
    requires b == 5 || b == 6
    ensures Live(Colliding(), Entered(5, passes), Holding(b).ram) == (b == 5)
    ensures Live(Colliding(), Entered(6, passes), Holding(b).ram)
  {}

  lemma FirstLocated(cfg: Config, t: Tier<nat>)
    requires cfg == Config(true, true, 1) && t == Tier(map[], [])
    ensures var (t', live) := Locate(Colliding(), cfg, t, Holding(5).ram, HERE);
            && live == Some(Entered(5, 0)) && Chain(t', HERE) == [Entered(5, 0)] && |t'.compiled| == 1
            && FirstHashed(Chain(t', HERE), 5) == Some(0)
  {
    hide ShadowDiff, Apply;
  }

  lemma SecondLocated(cfg: Config, t: Tier<nat>)
    requires cfg == Config(true, true, 1) && Chain(t, HERE) == [Entered(5, 0)] && |t.compiled| == 1
    ensures var (t', live) := Locate(Colliding(), cfg, t, Holding(6).ram, HERE);
            && live == Some(Entered(6, 0)) && Chain(t', HERE) == [Entered(5, 0), Entered(6, 0)]
            && FirstHashed(Chain(t', HERE), 5) == Some(0)
  {
    hide ShadowDiff, Apply;
    CollidingLive(6, 0);
  }

  lemma FirstMiss(cfg: Config, t: Tier<nat>) returns (r: Result<nat>)
    requires cfg == Config(true, true, 1) && t == Tier(map[], [])
    ensures r == Dispatch(Colliding(), cfg, t, Holding(5), HERE)
    ensures r.event == Diffed(5, 0) && r.guest == Holding(5)
    ensures Chain(r.tier, HERE) == [Entered(5, 0)] && |r.tier.compiled| == 1
  {
    hide Locate, FirstHashed;
    FirstLocated(cfg, t);
    r := Dispatch(Colliding(), cfg, t, Holding(5), HERE);
  }

  lemma SecondMiss(cfg: Config, t: Tier<nat>) returns (r: Result<nat>)
    requires cfg == Config(true, true, 1) && Chain(t, HERE) == [Entered(5, 0)] && |t.compiled| == 1
    ensures r == Dispatch(Colliding(), cfg, t, Holding(6), HERE)
    ensures r.event == Diffed(5, 1) && Chain(r.tier, HERE) == [Entered(5, 1), Entered(6, 0)]
  {
    hide Locate, FirstHashed;
    SecondLocated(cfg, t);
    r := Dispatch(Colliding(), cfg, t, Holding(6), HERE);
  }

  lemma ThirdMiss(cfg: Config, t: Tier<nat>)
    requires cfg == Config(true, true, 1) && Chain(t, HERE) == [Entered(5, 1), Entered(6, 0)]
    ensures var r := Dispatch(Colliding(), cfg, t, Holding(5), HERE);
            r.event == NativeRun(Entered(5, 1)) && r.guest.ctx.hi == 1
  {
    CollidingLive(5, 1);
    assert FirstLive(Colliding(), Chain(t, HERE), Holding(5).ram) == Some(0);
  }

  lemma FirstNeverAgrees()
    ensures !Agrees(Colliding(), HERE, Holding(5), 0)
  {}

  // A guest is brought in and its code called.
  function Visit(g: Guest): seq<Action> { [Rewrite(g), Miss(HERE)] }

  lemma Visited<Hash>(env: Env<Hash>, cfg: Config, s: System<Hash>, g: Guest, rest: seq<Action>)
    ensures var r := Dispatch(env, cfg, s.tier, g, HERE);
            Run(env, cfg, s, Visit(g) + rest) ==
            Run(env, cfg, System(r.tier, r.guest, s.log + [Record(HERE, g, r.event, r.guest)]), rest)
  {
    hide Dispatch;
    assert (Visit(g) + rest)[1..] == [Miss(HERE)] + rest && ([Miss(HERE)] + rest)[1..] == rest;
  }

  // A shard that agrees with the interpreter under its own code lends its trust to another,
  // which only ever diverged: with a budget of 1 the third miss runs it live.
  lemma CollisionMisplacesTrust(cfg: Config, s: System<nat>)
    requires cfg == Config(true, true, 1) && s.tier == Tier(map[], []) && s.log == []
    ensures var log := Run(Colliding(), cfg, s, Visit(Holding(5)) + (Visit(Holding(6)) + (Visit(Holding(5)) + []))).log;
            && |log| == 3 && log[2].event == NativeRun(Entered(5, 1)) && log[2].after.ctx.hi == 1
            && log[0] == Record(HERE, Holding(5), Diffed(5, 0), Holding(5)) && log[1].event == Diffed(5, 1)
    ensures !Agrees(Colliding(), HERE, Holding(5), 0)
  {
    hide Dispatch, Colliding, Agrees, Chain, Visit, Holding;
    FirstNeverAgrees();
    var a, b, env := Holding(5), Holding(6), Colliding();
    Visited(env, cfg, s, a, Visit(b) + (Visit(a) + []));
    var r1 := FirstMiss(cfg, s.tier);
    var s1 := System(r1.tier, r1.guest, s.log + [Record(HERE, a, r1.event, r1.guest)]);
    Visited(env, cfg, s1, b, Visit(a) + []);
    var r2 := SecondMiss(cfg, r1.tier);
    var s2 := System(r2.tier, r2.guest, s1.log + [Record(HERE, b, r2.event, r2.guest)]);
    Visited(env, cfg, s2, a, []);
    ThirdMiss(cfg, r2.tier);
    var r3 := Dispatch(env, cfg, r2.tier, a, HERE);
    var s3 := System(r3.tier, r3.guest, s2.log + [Record(HERE, a, r3.event, r3.guest)]);
    assert Run(env, cfg, s3, []) == s3;
  }

  // --- Pins -------------------------------------------------------------------------------

  // Chains only grow, candidates keep their content, and a pin stays.
  ghost predicate Grown<Hash(!new)>(t: Tier<Hash>, t': Tier<Hash>) {
    forall a: u32 :: ChainGrown(Chain(t, a), Chain(t', a))
  }

  ghost predicate ChainGrown<Hash>(chain: seq<Candidate<Hash>>, chain': seq<Candidate<Hash>>) {
    |chain| <= |chain'| && forall i :: 0 <= i < |chain| ==> Kept(chain[i], chain'[i])
  }

  ghost predicate Kept<Hash>(c: Candidate<Hash>, c': Candidate<Hash>) {
    c'.hash == c.hash && c'.lo == c.lo && c'.len == c.len && (c.pinned ==> c'.pinned)
  }

  lemma GrownTrans<Hash(!new)>(t: Tier<Hash>, u: Tier<Hash>, v: Tier<Hash>)
    requires Grown(t, u) && Grown(u, v)
    ensures Grown(t, v)
  {
    forall a: u32 ensures ChainGrown(Chain(t, a), Chain(v, a)) {
      assert ChainGrown(Chain(t, a), Chain(u, a)) && ChainGrown(Chain(u, a), Chain(v, a));
    }
  }

  lemma NothingGrows<Hash(!new)>(t: Tier<Hash>)
    ensures Grown(t, t)
  {}

  lemma ReplaceGrows<Hash(!new)>(t: Tier<Hash>, t': Tier<Hash>, addr: u32, hash: Hash,
                                 f: Candidate<Hash> -> Candidate<Hash>)
    requires forall c :: Kept(c, f(c))
    requires t'.cands == Replace(t, addr, hash, f).cands
    ensures Grown(t, t')
  {
    var at := FirstHashed(Chain(t, addr), hash);
    forall a: u32 ensures ChainGrown(Chain(t, a), Chain(t', a)) {
      if a == addr && at.Some? {
        assert Chain(t', a) == Chain(t, a)[at.value := f(Chain(t, a)[at.value])];
      } else {
        assert Chain(t', a) == Chain(t, a);
      }
    }
  }

  lemma LocateGrows<Hash(!new)>(env: Env<Hash>, cfg: Config, t: Tier<Hash>, ram: Ram, addr: u32)
    ensures Grown(t, Locate(env, cfg, t, ram, addr).0)
  {
    hide Grown, Live, Code, Replace;
    var chain, t', shard := Chain(t, addr), Locate(env, cfg, t, ram, addr).0, |t.compiled|;
    NothingGrows(t);
    match FirstLive(env, chain, ram)
    case None => AppendGrows(t, t', addr);
    case Some(i) =>
      var c := chain[i];
      if cfg.native && c.fn.None? && !c.pinned && !c.blacklisted && c.len > 0 {
        if !env.safeLeaf(ram, c.lo, c.len) {
          ReplaceGrows(t, t', addr, c.hash, (d: Candidate<Hash>) => d.(pinned := true));
        } else if CompiledLength(env, addr, ram).Some? {
          ReplaceGrows(t, t', addr, c.hash, (d: Candidate<Hash>) => d.(fn := Some(shard)));
        }
      }
  }

  lemma AppendGrows<Hash(!new)>(t: Tier<Hash>, t': Tier<Hash>, addr: u32)
    requires t'.cands == t.cands || exists c :: t'.cands == t.cands[addr := Chain(t, addr) + [c]]
    ensures Grown(t, t')
  {
    forall a: u32 ensures ChainGrown(Chain(t, a), Chain(t', a)) {
      if a != addr || t'.cands == t.cands { assert Chain(t', a) == Chain(t, a); }
    }
  }

  lemma ApplyGrows<Hash(!new)>(t: Tier<Hash>, addr: u32, hash: Hash, o: Outcome, budget: nat)
    ensures Grown(t, Apply(t, addr, hash, o, budget))
  {
    ReplaceGrows(t, Apply(t, addr, hash, o, budget), addr, hash, c => Judge(c, o, budget));
  }

  lemma StepGrows<Hash(!new)>(env: Env<Hash>, cfg: Config, s: System<Hash>, a: Action)
    ensures Grown(s.tier, Step(env, cfg, s, a).tier)
  {
    hide Locate, Apply, Dispatch, ChainGrown;
    if a.Miss? {
      var (t', live) := Locate(env, cfg, s.tier, s.guest.ram, a.addr);
      var r := Dispatch(env, cfg, s.tier, s.guest, a.addr);
      LocateGrows(env, cfg, s.tier, s.guest.ram, a.addr);
      DispatchShape(env, cfg, s.tier, s.guest, a.addr);
      if r.event.Diffed? {
        ApplyGrows(t', a.addr, live.value.hash, ShadowDiff(env, s.guest, a.addr, r.event.fn).1, cfg.budget);
        GrownTrans(s.tier, t', r.tier);
      }
    } else {
      NothingGrows(s.tier);
    }
  }

  lemma {:induction false} RunGrows<Hash(!new)>(env: Env<Hash>, cfg: Config, s: System<Hash>, actions: seq<Action>)
    ensures Grown(s.tier, Run(env, cfg, s, actions).tier)
    decreases |actions|
  {
    if actions == [] {
      NothingGrows(s.tier);
    } else {
      var s1, s2 := Step(env, cfg, s, actions[0]), Run(env, cfg, s, actions);
      StepGrows(env, cfg, s, actions[0]);
      RunGrows(env, cfg, s1, actions[1..]);
      GrownTrans(s.tier, s1.tier, s2.tier);
    }
  }

  // --- The interpreter's result is what is committed ------------------------------------------

  // For every shard: a dispatch that does not run a trusted candidate natively leaves
  // exactly what the interpreter makes of the dispatch state, whenever the interpreter can
  // run it. When it cannot, the process aborts, except that a pinned candidate is first
  // interpreted again from whatever state the failed attempt left.
  lemma UntrustedIsInterpreted<Hash>(env: Env<Hash>, cfg: Config, t: Tier<Hash>, g: Guest, addr: u32)
    requires cfg.interpreter && !Dispatch(env, cfg, t, g, addr).event.NativeRun?
    ensures var r, i := Dispatch(env, cfg, t, g, addr), env.interpret(addr, g);
            var live := Locate(env, cfg, t, g.ram, addr).1;
            var again := env.interpret(addr, i.guest);
            if i.ok then !r.event.Aborted? && r.guest == i.guest
            else if cfg.native && live.Some? && (live.value.pinned || live.value.blacklisted) then
              r.event.Aborted? == !again.ok && r.guest == again.guest
            else r.event.Aborted?
  {
    hide Locate, Apply;
  }

  // An interpretation that fails once, after changing hi, and succeeds from what it left.
  function Faltering(): Env<nat> {
    var interpret := (addr: u32, g: Guest) =>
      Interpreted(g.ctx.hi > 0, g.(ctx := g.ctx.(hi := if g.ctx.hi == 0 then 1 else 2)), false);
    Env(1, _ => 0, interpret, (_, g) => g, (_, _) => false, (_, _, _) => false, (_, _) => None)
  }

  // Pinned, such a fragment counts as interpreted, in a state no interpretation of the
  // dispatch state leaves; still on trial, it is restored and the process aborts.
  lemma PinnedRetry(addr: u32, g: Guest, budget: nat, pinned: bool)
    requires g.ctx.hi == 0 && budget > 0
    ensures var env, c := Faltering(), Candidate(addr, 0, addr, 8, Some(0), 0, pinned, false);
            var r := Dispatch(env, Config(true, true, budget), Tier(map[addr := [c]], []), g, addr);
            && !env.interpret(addr, g).ok
            && (if pinned then r.event.Fallback? && r.guest.ctx.hi == 2 else r.event.Aborted?)
            && env.interpret(addr, g).guest.ctx.hi == 1
  {
    var c := Candidate(addr, 0, addr, 8, Some(0), 0, pinned, false);
    assert Live(Faltering(), c, g.ram);
    assert FirstLive(Faltering(), [c], g.ram) == Some(0);
  }

  // --- Starting up -----------------------------------------------------------------------------

  // One line of the persisted coverage manifest.
  datatype Entry<Hash> = Entry(addr: u32, hash: Hash, lo: u32, len: nat)

  // Reload the manifest into an empty tier: no shard, no trust, duplicates and incomplete
  // lines skipped.
  function Reload<Hash(==)>(env: Env<Hash>, t: Tier<Hash>, entries: seq<Entry<Hash>>): Tier<Hash>
    decreases |entries|
  {
    if entries == [] then t
    else
      var e := entries[0];
      var c := Candidate(e.addr, e.hash, e.lo, e.len, None, 0, false, false);
      var skip := || e.addr == 0 || e.len == 0 || e.hash == env.zero
                  || FirstHashed(Chain(t, e.addr), e.hash).Some?;
      Reload(env, if skip then t else t.(cands := t.cands[e.addr := Chain(t, e.addr) + [c]]), entries[1..])
  }

  lemma {:induction false} ReloadOk<Hash(!new)>(env: Env<Hash>, cfg: Config, t: Tier<Hash>, entries: seq<Entry<Hash>>)
    requires TierOk(env, cfg, t, [])
    ensures TierOk(env, cfg, Reload(env, t, entries), [])
    decreases |entries|
  {
    if entries != [] {
      var e := entries[0];
      var chain := Chain(t, e.addr);
      assert ChainOk(env, cfg, t.compiled, [], e.addr, chain);
      var c := Candidate(e.addr, e.hash, e.lo, e.len, None, 0, false, false);
      if || e.addr == 0 || e.len == 0 || e.hash == env.zero || FirstHashed(chain, e.hash).Some? {
        ReloadOk(env, cfg, t, entries[1..]);
      } else {
        AppendOk(env, cfg, t.compiled, [], e.addr, chain, c);
        assert t.compiled + [] == t.compiled;
        ChangedChain(env, cfg, t, [], e.addr, chain + [c], []);
        ReloadOk(env, cfg, t.(cands := t.cands[e.addr := chain + [c]]), entries[1..]);
      }
    }
  }

  // From start-up on: every run from a reloaded manifest.
  lemma EveryRunIsSafe<Hash(!new)>(env: Env<Hash>, cfg: Config, entries: seq<Entry<Hash>>,
                                   g: Guest, actions: seq<Action>)
    requires DistinctRun(env, cfg, System(Reload(env, Tier(map[], []), entries), g, []), actions)
    ensures Inv(env, cfg, Run(env, cfg, System(Reload(env, Tier(map[], []), entries), g, []), actions))
  {
    var empty: Tier<Hash> := Tier(map[], []);
    assert TierOk(env, cfg, empty, []);
    ReloadOk(env, cfg, empty, entries);
    RunKeeps(env, cfg, System(Reload(env, empty, entries), g, []), actions);
  }
}
