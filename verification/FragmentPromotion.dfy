// What the fragment tier must do, not only what it may: code that is found is compiled, and a
// shard that has agreed often enough runs.
module FragmentPromotion {
  import opened Options
  import opened Words
  import opened Arith
  import opened FragmentTier
  import opened FragmentRuns

  // The bytes a candidate was keyed by are in RAM.
  predicate Resident<Hash(==)>(env: Env<Hash>, c: Candidate<Hash>, ram: Ram) {
    c.len > 0 && env.hash(Code(ram, c.lo, c.len)) == c.hash
  }

  // Candidate i is the first of its chain whose bytes are.
  ghost predicate ResidentAt<Hash>(env: Env<Hash>, chain: seq<Candidate<Hash>>, ram: Ram, i: nat) {
    && i < |chain| && Resident(env, chain[i], ram)
    && forall j :: 0 <= j < i ==> !Resident(env, chain[j], ram)
  }

  ghost predicate NoneResident<Hash>(env: Env<Hash>, chain: seq<Candidate<Hash>>, ram: Ram) {
    forall j :: 0 <= j < |chain| ==> !Resident(env, chain[j], ram)
  }

  lemma ResidentIsLive<Hash>(env: Env<Hash>, chain: seq<Candidate<Hash>>, ram: Ram, i: nat)
    ensures ResidentAt(env, chain, ram, i) ==> FirstLive(env, chain, ram) == Some(i)
    ensures NoneResident(env, chain, ram) ==> FirstLive(env, chain, ram) == None
  {
    hide Code;
    var r := FirstLive(env, chain, ram);
    if r.Some? { assert Live(env, chain[r.value], ram) && Resident(env, chain[r.value], ram); }
    if ResidentAt(env, chain, ram, i) { assert Live(env, chain[i], ram); }
  }

  // --- A shard on trial --------------------------------------------------------------------------

  predicate OnTrial<Hash>(c: Candidate<Hash>) { c.fn.Some? && !c.pinned && !c.blacklisted }

  // What a miss at the code of a shard on trial comes to, by the comparisons behind it alone. With
  // a full streak the shard runs live and nothing is judged. Short of it the shard is compared,
  // if the interpreter can run the code, and nothing changes but its passes and, if a recompiled
  // function was entered, its pin.
  lemma TrialMiss<Hash(!new)>(env: Env<Hash>, cfg: Config, s: System<Hash>, addr: u32, i: nat)
    requires TierOk(env, cfg, s.tier, s.log) && cfg.native
    requires ResidentAt(env, Chain(s.tier, addr), s.guest.ram, i) && OnTrial(Chain(s.tier, addr)[i])
    ensures var s', chain := Step(env, cfg, s, Miss(addr)), Chain(s.tier, addr);
            var chain', c, r := Chain(s'.tier, addr), chain[i], env.interpret(addr, s.guest);
            if Streak(env, s.log, addr, c.hash, c.fn) >= cfg.budget then
              && s'.tier == s.tier && s'.guest == env.shard(c.fn.value, s.guest)
              && s'.log == s.log + [Record(addr, s.guest, NativeRun(c), s'.guest)]
            else if r.ok then
              && s'.guest == r.guest
              && s'.log == s.log + [Record(addr, s.guest, Diffed(c.hash, c.fn.value), s'.guest)]
              && |chain'| == |chain| && chain' == chain[i := chain'[i]]
              && chain'[i] == c.(pinned := r.touched, passes := chain'[i].passes)
            else
              && s'.tier == s.tier && |s'.log| == |s.log| + 1
              && (s'.log[|s.log|].event.Fallback? || s'.log[|s.log|].event.Aborted?)
  {
    var chain := Chain(s.tier, addr);
    ResidentIsLive(env, chain, s.guest.ram, i);
    assert ChainOk(env, cfg, s.tier.compiled, s.log, addr, chain);
    assert CandidateOk(env, cfg, s.tier.compiled, s.log, addr, chain[i]);
    hide TierOk, Streak, TouchedDevice, Undiffed, Apply, Code, Resident, RegsEqual;
    ApplyAt(s.tier, addr, i, ShadowDiff(env, s.guest, addr, chain[i].fn.value).1, cfg.budget);
  }

  // A shard with a full streak behind it runs live.
  lemma EarnedShardRuns<Hash(!new)>(env: Env<Hash>, cfg: Config, s: System<Hash>, addr: u32, i: nat)
    requires TierOk(env, cfg, s.tier, s.log) && cfg.native
    requires ResidentAt(env, Chain(s.tier, addr), s.guest.ram, i) && OnTrial(Chain(s.tier, addr)[i])
    requires var c := Chain(s.tier, addr)[i]; Streak(env, s.log, addr, c.hash, c.fn) >= cfg.budget
    ensures var c := Chain(s.tier, addr)[i];
            var after := env.shard(c.fn.value, s.guest);
            Step(env, cfg, s, Miss(addr)) ==
            System(s.tier, after, s.log + [Record(addr, s.guest, NativeRun(c), after)])
  {
    hide Step, Streak, ResidentAt, TierOk, Chain;
    TrialMiss(env, cfg, s, addr, i);
  }

  // With the interpreter switched off as a floor it still runs pinned code and the code of a
  // shard on trial; any other miss ends the process in the state it found.
  lemma WithoutFloor<Hash(!new)>(env: Env<Hash>, cfg: Config, s: System<Hash>, addr: u32)
    requires !cfg.interpreter
    ensures var s', i := Step(env, cfg, s, Miss(addr)), env.interpret(addr, s.guest);
            var live := Locate(env, cfg, s.tier, s.guest.ram, addr).1;
            var event := s'.log[|s.log|].event;
            if !cfg.native || live.None? then event == Aborted && s'.guest == s.guest
            else if live.value.pinned || live.value.blacklisted then
              event == (if i.ok then Fallback else Aborted) && s'.guest == i.guest
            else if live.value.fn.None? then event == Aborted && s'.guest == s.guest
            else event.NativeRun? || s'.guest == (if i.ok then i.guest else s.guest)
  {
    hide Locate, Apply, RegsEqual;
  }

  // --- Promotion over a run ------------------------------------------------------------------------

  // From this state the shard agrees with the interpreter, which enters no recompiled function.
  predicate Clean<Hash>(env: Env<Hash>, addr: u32, fn: nat, g: Guest) {
    Agrees(env, addr, g, fn) && !env.interpret(addr, g).touched
  }

  // The code at addr called from each of these states.
  function Calls(addr: u32, gs: seq<Guest>): seq<Action>
    decreases |gs|
  {
    if gs == [] then [] else [Rewrite(gs[0]), Miss(addr)] + Calls(addr, gs[1..])
  }

  // Candidate i of a chain has been judged and nothing else has changed.
  ghost predicate Judged<Hash(!new)>(chain: seq<Candidate<Hash>>, chain': seq<Candidate<Hash>>, i: nat) {
    && i < |chain| == |chain'| && chain' == chain[i := chain'[i]]
    && chain'[i] == chain[i].(passes := chain'[i].passes)
  }

  lemma JudgedResident<Hash(!new)>(env: Env<Hash>, chain: seq<Candidate<Hash>>, chain': seq<Candidate<Hash>>,
                                   i: nat, ram: Ram)
    requires Judged(chain, chain', i) && ResidentAt(env, chain, ram, i)
    ensures ResidentAt(env, chain', ram, i)
  {
    hide Code;
    forall j | 0 <= j < i ensures !Resident(env, chain'[j], ram) { assert chain'[j] == chain[j]; }
  }

  // A miss at clean code records a comparison in which the shard agrees, or its live run.
  lemma CleanMiss<Hash(!new)>(env: Env<Hash>, cfg: Config, s: System<Hash>, addr: u32, i: nat)
    returns (e: Record<Hash>)
    requires TierOk(env, cfg, s.tier, s.log) && cfg.native && i < |Chain(s.tier, addr)|
    requires ResidentAt(env, Chain(s.tier, addr), s.guest.ram, i) && OnTrial(Chain(s.tier, addr)[i])
    requires Clean(env, addr, Chain(s.tier, addr)[i].fn.value, s.guest)
    ensures var s', c := Step(env, cfg, s, Miss(addr)), Chain(s.tier, addr)[i];
            && Judged(Chain(s.tier, addr), Chain(s'.tier, addr), i) && s'.log == s.log + [e]
            && (if Streak(env, s.log, addr, c.hash, c.fn) >= cfg.budget then !e.event.Diffed?
                else e.addr == addr && e.before == s.guest && e.event == Diffed(c.hash, c.fn.value))
  {
    var chain, s' := Chain(s.tier, addr), Step(env, cfg, s, Miss(addr));
    CleanIsOk(env, addr, chain[i].fn.value, s.guest);
    assert chain == chain[i := chain[i]];
    hide *;
    hide Step, Streak, Clean, ResidentAt, TierOk, Chain;
    TrialMiss(env, cfg, s, addr, i);
    e := s'.log[|s.log|];
  }

  lemma StreakGoesOn<Hash>(env: Env<Hash>, log: seq<Record<Hash>>, e: Record<Hash>, budget: nat,
                           addr: u32, hash: Hash, fn: nat)
    requires if Streak(env, log, addr, hash, Some(fn)) >= budget then !e.event.Diffed?
             else e.addr == addr && Clean(env, addr, fn, e.before) && e.event == Diffed(hash, fn)
    ensures Streak(env, log + [e], addr, hash, Some(fn)) >= Min(budget, Streak(env, log, addr, hash, Some(fn)) + 1)
  {
    hide Agrees;
    StreakAppend(env, log, e, addr, hash, Some(fn));
  }

  // One call of code that is clean here.
  lemma CleanCall<Hash(!new)>(env: Env<Hash>, cfg: Config, s: System<Hash>, addr: u32, i: nat, g: Guest)
    returns (s': System<Hash>)
    requires Inv(env, cfg, s) && cfg.native && i < |Chain(s.tier, addr)|
    requires ResidentAt(env, Chain(s.tier, addr), g.ram, i) && OnTrial(Chain(s.tier, addr)[i])
    requires Chain(s.tier, addr)[i].fn.Some? && Clean(env, addr, Chain(s.tier, addr)[i].fn.value, g)
    ensures s' == Step(env, cfg, Step(env, cfg, s, Rewrite(g)), Miss(addr)) && Inv(env, cfg, s')
    ensures Judged(Chain(s.tier, addr), Chain(s'.tier, addr), i)
    ensures var c := Chain(s.tier, addr)[i];
            Streak(env, s'.log, addr, c.hash, c.fn) >= Min(cfg.budget, Streak(env, s.log, addr, c.hash, c.fn) + 1)
  {
    hide *;
    var s1, c := s.(guest := g), Chain(s.tier, addr)[i];
    s' := Step(env, cfg, s1, Miss(addr));
    Rewritten(env, cfg, s, g);
    NoNewCode(env, s1, addr, i);
    var e := CleanMiss(env, cfg, s1, addr, i);
    StepKeeps(env, cfg, s1, Miss(addr));
    assert c.fn == Some(c.fn.value);
    StreakGoesOn(env, s.log, e, cfg.budget, addr, c.hash, c.fn.value);
  }

  lemma NoNewCode<Hash>(env: Env<Hash>, s: System<Hash>, addr: u32, i: nat)
    requires ResidentAt(env, Chain(s.tier, addr), s.guest.ram, i)
    ensures Distinct(env, s.tier, s.guest.ram, addr)
  {
    ResidentIsLive(env, Chain(s.tier, addr), s.guest.ram, i);
  }

  lemma Rewritten<Hash(!new)>(env: Env<Hash>, cfg: Config, s: System<Hash>, g: Guest)
    requires Inv(env, cfg, s)
    ensures Step(env, cfg, s, Rewrite(g)) == s.(guest := g) && Inv(env, cfg, s.(guest := g))
    ensures TierOk(env, cfg, s.tier, s.log)
  {}

  lemma CleanIsOk<Hash>(env: Env<Hash>, addr: u32, fn: nat, g: Guest)
    requires Clean(env, addr, fn, g)
    ensures env.interpret(addr, g).ok && !env.interpret(addr, g).touched && Agrees(env, addr, g, fn)
  {}

  // Clean calls, each with its code resident at i.
  ghost predicate CleanAt<Hash(!new)>(env: Env<Hash>, chain: seq<Candidate<Hash>>, addr: u32, i: nat, gs: seq<Guest>) {
    && i < |chain| && OnTrial(chain[i])
    && forall g :: g in gs ==> ResidentAt(env, chain, g.ram, i) && Clean(env, addr, chain[i].fn.value, g)
  }

  lemma CleanFirst<Hash(!new)>(env: Env<Hash>, chain: seq<Candidate<Hash>>, addr: u32, i: nat, gs: seq<Guest>)
    requires CleanAt(env, chain, addr, i, gs)
    ensures i < |chain| && OnTrial(chain[i]) && chain[i].fn.Some?
    ensures gs != [] ==> ResidentAt(env, chain, gs[0].ram, i) && Clean(env, addr, chain[i].fn.value, gs[0])
    ensures Judged(chain, chain, i)
  {
    hide ResidentAt, Clean;
    assert chain == chain[i := chain[i]];
  }

  lemma CleanRest<Hash(!new)>(env: Env<Hash>, chain: seq<Candidate<Hash>>, chain': seq<Candidate<Hash>>, addr: u32,
                              i: nat, gs: seq<Guest>)
    requires CleanAt(env, chain, addr, i, gs) && gs != [] && Judged(chain, chain', i)
    ensures CleanAt(env, chain', addr, i, gs[1..]) && chain'[i].hash == chain[i].hash && chain'[i].fn == chain[i].fn
  {
    hide ResidentAt, Clean;
    forall g | g in gs[1..] ensures ResidentAt(env, chain', g.ram, i) { JudgedResident(env, chain, chain', i, g.ram); }
  }

  lemma JudgedTrans<Hash(!new)>(a: seq<Candidate<Hash>>, b: seq<Candidate<Hash>>, c: seq<Candidate<Hash>>, i: nat)
    requires Judged(a, b, i) && Judged(b, c, i)
    ensures Judged(a, c, i)
  {
    assert c == a[i := c[i]];
  }

  lemma {:induction false} CleanCalls<Hash(!new)>(env: Env<Hash>, cfg: Config, s: System<Hash>, addr: u32, i: nat,
                                                  gs: seq<Guest>)
    requires Inv(env, cfg, s) && cfg.native && CleanAt(env, Chain(s.tier, addr), addr, i, gs)
    ensures var s', c := Run(env, cfg, s, Calls(addr, gs)), Chain(s.tier, addr)[i];
            && Inv(env, cfg, s') && Judged(Chain(s.tier, addr), Chain(s'.tier, addr), i)
            && Streak(env, s'.log, addr, c.hash, c.fn) >=
               Min(cfg.budget, Streak(env, s.log, addr, c.hash, c.fn) + |gs|)
    decreases |gs|
  {
    hide Inv, Step, Streak, CleanAt, ResidentAt, Clean, Judged, Chain, OnTrial;
    var chain := Chain(s.tier, addr);
    CleanFirst(env, chain, addr, i, gs);
    if gs != [] {
      var s1 := CleanCall(env, cfg, s, addr, i, gs[0]);
      CleanRest(env, chain, Chain(s1.tier, addr), addr, i, gs);
      CleanCalls(env, cfg, s1, addr, i, gs[1..]);
      RunTwo(env, cfg, s, Rewrite(gs[0]), Miss(addr), Calls(addr, gs[1..]));
      JudgedTrans(chain, Chain(s1.tier, addr), Chain(Run(env, cfg, s1, Calls(addr, gs[1..])).tier, addr), i);
    }
  }

  lemma RunTwo<Hash>(env: Env<Hash>, cfg: Config, s: System<Hash>, a: Action, b: Action, rest: seq<Action>)
    ensures Run(env, cfg, s, [a, b] + rest) == Run(env, cfg, Step(env, cfg, Step(env, cfg, s, a), b), rest)
  {
    hide Step;
    assert ([a, b] + rest)[1..] == [b] + rest && ([b] + rest)[1..] == rest;
  }

  // A shard that agrees with the interpreter in as many calls on end as the budget runs live at
  // the next miss at its code, whatever came before.
  lemma CleanCodeIsPromoted<Hash(!new)>(env: Env<Hash>, cfg: Config, s: System<Hash>, addr: u32, i: nat,
                                        gs: seq<Guest>, g: Guest)
    requires Inv(env, cfg, s) && cfg.native && |gs| >= cfg.budget && CleanAt(env, Chain(s.tier, addr), addr, i, gs)
    requires ResidentAt(env, Chain(s.tier, addr), g.ram, i)
    ensures var s1 := Run(env, cfg, s, Calls(addr, gs));
            var s2 := Step(env, cfg, s1.(guest := g), Miss(addr));
            var fn := Chain(s.tier, addr)[i].fn.value;
            && s2.guest == env.shard(fn, g) && |s2.log| == |s1.log| + 1
            && s2.log[|s1.log|].event.NativeRun? && s2.log[|s1.log|].event.cand.fn == Some(fn)
  {
    hide *;
    CleanCalls(env, cfg, s, addr, i, gs);
    CleanFirst(env, Chain(s.tier, addr), addr, i, gs);
    var s1, fn := Run(env, cfg, s, Calls(addr, gs)), Chain(s.tier, addr)[i].fn;
    var chain, chain' := Chain(s.tier, addr), Chain(s1.tier, addr);
    JudgedIs(chain, chain', i);
    JudgedResident(env, chain, chain', i, g.ram);
    Rewritten(env, cfg, s1, g);
    MinAtMost(cfg.budget, Streak(env, s.log, addr, chain[i].hash, fn) + |gs|);
    EarnedShardRuns(env, cfg, s1.(guest := g), addr, i);
  }

  lemma JudgedIs<Hash(!new)>(chain: seq<Candidate<Hash>>, chain': seq<Candidate<Hash>>, i: nat)
    requires Judged(chain, chain', i) && OnTrial(chain[i])
    ensures i < |chain'| && OnTrial(chain'[i]) && chain'[i].fn == chain[i].fn && chain'[i].hash == chain[i].hash
  {}

  lemma MinAtMost(a: nat, b: nat)
    requires b >= a
    ensures Min(a, b) == a
  {}

  // --- Code that is found --------------------------------------------------------------------------

  // There is a function of n bytes at addr: whole words, at least two, no more than 32 KiB, and
  // all of it in RAM.
  predicate FoundThere<Hash>(env: Env<Hash>, addr: u32, ram: Ram, n: nat) {
    && env.bounds(addr, ram) == Some(n) && 8 <= n <= 0x8000 && n % 4 == 0
    && addr % 0x2000_0000 + n <= 0x80_0000
  }

  predicate NothingThere<Hash>(env: Env<Hash>, addr: u32, ram: Ram) {
    match env.bounds(addr, ram)
    case None => true
    case Some(n) => !FoundThere(env, addr, ram, n)
  }

  lemma FoundIs<Hash>(env: Env<Hash>, addr: u32, ram: Ram)
    ensures forall n: nat :: FoundThere(env, addr, ram, n) ==> FoundLength(env, addr, ram) == Some(n)
    ensures NothingThere(env, addr, ram) ==> FoundLength(env, addr, ram) == None
  {}

  // A shard for this code can be had: the tier may run native code, the stretch watched calls
  // nothing, and the compiler accepts the n bytes found at the address.
  predicate Compilable<Hash>(env: Env<Hash>, cfg: Config, addr: u32, ram: Ram, lo: u32, len: nat, n: nat) {
    cfg.native && env.safeLeaf(ram, lo, len) && FoundThere(env, addr, ram, n) && env.compiles(addr, Code(ram, addr, n))
  }

  // A miss where no candidate is resident adds one for the code found, with a shard for exactly
  // those bytes if one can be had and pinned if it calls out; where no code is found the tier is
  // as it was.
  lemma FoundCodeCompiled<Hash(!new)>(env: Env<Hash>, cfg: Config, s: System<Hash>, addr: u32, n: nat)
    requires NoneResident(env, Chain(s.tier, addr), s.guest.ram) && FoundThere(env, addr, s.guest.ram, n)
    ensures var t, t', ram := s.tier, Step(env, cfg, s, Miss(addr)).tier, s.guest.ram;
            var chain, chain' := Chain(t, addr), Chain(t', addr);
            && |chain'| == |chain| + 1
            && (var c, can := chain'[|chain|], Compilable(env, cfg, addr, ram, addr, n, n);
                && c.addr == c.lo == addr && c.len == n && c.hash == env.hash(Code(ram, addr, n)) && !c.blacklisted
                && c.fn == (if can then Some(|t.compiled|) else None)
                && t'.compiled == t.compiled + (if can then [Image(addr, ram, n)] else [])
                && (cfg.native && !env.safeLeaf(ram, addr, n) ==> c.pinned))
            && forall a: u32 :: a != addr ==> Chain(t', a) == Chain(t, a)
  {
    var t, ram := s.tier, s.guest.ram;
    ResidentIsLive(env, Chain(t, addr), ram, 0);
    FoundIs(env, addr, ram);
    hide Code, NoneResident, FirstLive, Apply, FoundLength;
    var (t1, live) := Locate(env, cfg, t, ram, addr);
    DispatchShape(env, cfg, t, s.guest, addr);
    var r := Dispatch(env, cfg, t, s.guest, addr);
    if r.event.Diffed? {
      ApplyTouches(t1, addr, r.event.hash, ShadowDiff(env, s.guest, addr, r.event.fn).1, cfg.budget);
    }
  }

  lemma NothingFound<Hash(!new)>(env: Env<Hash>, cfg: Config, s: System<Hash>, addr: u32)
    requires NoneResident(env, Chain(s.tier, addr), s.guest.ram) && NothingThere(env, addr, s.guest.ram)
    ensures Step(env, cfg, s, Miss(addr)).tier == s.tier
  {
    ResidentIsLive(env, Chain(s.tier, addr), s.guest.ram, 0);
    FoundIs(env, addr, s.guest.ram);
    hide Code, NoneResident, FirstLive, Apply, FoundLength;
  }

  // Judging a comparison changes no candidate's code or shard, and pins none that is not.
  lemma ApplyTouches<Hash(!new)>(t: Tier<Hash>, addr: u32, hash: Hash, o: Outcome, budget: nat)
    ensures var t' := Apply(t, addr, hash, o, budget);
            && t'.compiled == t.compiled && |Chain(t', addr)| == |Chain(t, addr)|
            && (forall a: u32 :: a != addr ==> Chain(t', a) == Chain(t, a))
            && forall i :: 0 <= i < |Chain(t, addr)| ==>
                 var c, c' := Chain(t, addr)[i], Chain(t', addr)[i];
                 c' == c.(passes := c'.passes, pinned := c'.pinned) && (c.pinned ==> c'.pinned)
  {}

  // A resident candidate without a shard, reloaded from a manifest say, gets one at the next miss
  // if one can be had, and is pinned if its stretch calls out.
  lemma LateShardCompiled<Hash(!new)>(env: Env<Hash>, cfg: Config, s: System<Hash>, addr: u32, i: nat)
    requires TierOk(env, cfg, s.tier, s.log) && cfg.native
    requires ResidentAt(env, Chain(s.tier, addr), s.guest.ram, i)
    requires var c := Chain(s.tier, addr)[i]; c.fn.None? && !c.pinned && !c.blacklisted
    ensures var t, t', ram := s.tier, Step(env, cfg, s, Miss(addr)).tier, s.guest.ram;
            var c, n := Chain(t, addr)[i], env.bounds(addr, ram);
            var can := n.Some? && Compilable(env, cfg, addr, ram, c.lo, c.len, n.value);
            && |Chain(t', addr)| == |Chain(t, addr)|
            && (var c' := Chain(t', addr)[i];
                && c' == c.(passes := c'.passes, pinned := c'.pinned, fn := c'.fn)
                && c'.fn == (if can then Some(|t.compiled|) else None)
                && t'.compiled == t.compiled + (if can then [Image(addr, ram, n.value)] else [])
                && (!env.safeLeaf(ram, c.lo, c.len) ==> c'.pinned))
  {
    var t, ram := s.tier, s.guest.ram;
    var chain := Chain(t, addr);
    ResidentIsLive(env, chain, ram, i);
    FoundIs(env, addr, ram);
    assert ChainOk(env, cfg, t.compiled, s.log, addr, chain);
    FirstHashedAt(chain, i);
    hide Code, Resident, FirstLive, FirstHashed, Apply, FoundLength, TierOk, ChainOk;
    var (t1, live) := Locate(env, cfg, t, ram, addr);
    DispatchShape(env, cfg, t, s.guest, addr);
    var r := Dispatch(env, cfg, t, s.guest, addr);
    if r.event.Diffed? {
      ApplyTouches(t1, addr, r.event.hash, ShadowDiff(env, s.guest, addr, r.event.fn).1, cfg.budget);
    }
  }

  // --- The manifest ------------------------------------------------------------------------------------

  predicate Complete<Hash(==)>(env: Env<Hash>, e: Entry<Hash>) { e.addr != 0 && e.len != 0 && e.hash != env.zero }

  // The first complete line for its address and hash.
  ghost predicate FirstLine<Hash>(env: Env<Hash>, entries: seq<Entry<Hash>>, k: int) {
    && 0 <= k < |entries| && Complete(env, entries[k])
    && forall j :: 0 <= j < k && Complete(env, entries[j]) ==>
         !(entries[j].addr == entries[k].addr && entries[j].hash == entries[k].hash)
  }

  function Reloaded<Hash>(e: Entry<Hash>): Candidate<Hash> {
    Candidate(e.addr, e.hash, e.lo, e.len, None, 0, false, false)
  }

  // The tier holds a candidate, without a shard and without trust, for each such line and no
  // other.
  ghost predicate HoldsLines<Hash(!new)>(env: Env<Hash>, t: Tier<Hash>, lines: seq<Entry<Hash>>) {
    && (forall k :: 0 <= k < |lines| && FirstLine(env, lines, k) ==> Reloaded(lines[k]) in Chain(t, lines[k].addr))
    && (forall a: u32, c :: c in Chain(t, a) ==>
          exists k :: 0 <= k < |lines| && FirstLine(env, lines, k) && lines[k].addr == a && c == Reloaded(lines[k]))
  }

  lemma SameLine<Hash>(env: Env<Hash>, lines: seq<Entry<Hash>>, e: Entry<Hash>, k: nat)
    requires k < |lines|
    ensures FirstLine(env, lines + [e], k) <==> FirstLine(env, lines, k)
    ensures (lines + [e])[k] == lines[k]
  {
    hide Complete;
    var more := lines + [e];
    assert forall j :: 0 <= j <= k ==> more[j] == lines[j];
  }

  lemma LineSkipped<Hash(!new)>(env: Env<Hash>, t: Tier<Hash>, lines: seq<Entry<Hash>>, e: Entry<Hash>)
    requires HoldsLines(env, t, lines) && !FirstLine(env, lines + [e], |lines|)
    ensures HoldsLines(env, t, lines + [e])
  {
    hide FirstLine;
    var more := lines + [e];
    forall k | 0 <= k < |more| && FirstLine(env, more, k) ensures Reloaded(more[k]) in Chain(t, more[k].addr) {
      if k < |lines| { SameLine(env, lines, e, k); }
    }
    forall a: u32, c | c in Chain(t, a)
      ensures exists k :: 0 <= k < |more| && FirstLine(env, more, k) && more[k].addr == a && c == Reloaded(more[k])
    {
      var k :| 0 <= k < |lines| && FirstLine(env, lines, k) && lines[k].addr == a && c == Reloaded(lines[k]);
      SameLine(env, lines, e, k);
    }
  }

  lemma LineAdded<Hash(!new)>(env: Env<Hash>, t: Tier<Hash>, t': Tier<Hash>, lines: seq<Entry<Hash>>, e: Entry<Hash>)
    requires HoldsLines(env, t, lines) && FirstLine(env, lines + [e], |lines|)
    requires t' == t.(cands := t.cands[e.addr := Chain(t, e.addr) + [Reloaded(e)]])
    ensures HoldsLines(env, t', lines + [e])
  {
    hide FirstLine, Reloaded;
    var more := lines + [e];
    assert more[|lines|] == e;
    forall k | 0 <= k < |more| && FirstLine(env, more, k) ensures Reloaded(more[k]) in Chain(t', more[k].addr) {
      if k < |lines| {
        SameLine(env, lines, e, k);
        assert Chain(t, more[k].addr) <= Chain(t', more[k].addr);
      } else {
        assert Chain(t', e.addr)[|Chain(t, e.addr)|] == Reloaded(e);
      }
    }
    forall a: u32, c | c in Chain(t', a)
      ensures exists k :: 0 <= k < |more| && FirstLine(env, more, k) && more[k].addr == a && c == Reloaded(more[k])
    {
      if c in Chain(t, a) {
        var k :| 0 <= k < |lines| && FirstLine(env, lines, k) && lines[k].addr == a && c == Reloaded(lines[k]);
          SameLine(env, lines, e, k);
      }
    }
  }

  // The hash of a complete line is already in its chain exactly when a line before gave it.
  lemma AlreadyThere<Hash(!new)>(env: Env<Hash>, t: Tier<Hash>, lines: seq<Entry<Hash>>, e: Entry<Hash>)
    requires HoldsLines(env, t, lines) && Complete(env, e)
    ensures FirstHashed(Chain(t, e.addr), e.hash).None? <==> FirstLine(env, lines + [e], |lines|)
  {
    var more, chain := lines + [e], Chain(t, e.addr);
    assert forall j :: 0 <= j < |lines| ==> more[j] == lines[j];
    var r := FirstHashed(chain, e.hash);
    hide FirstHashed, Chain;
    if r.Some? {
      assert chain[r.value] in chain;
      var k :| 0 <= k < |lines| && FirstLine(env, lines, k) && lines[k].addr == e.addr
               && chain[r.value] == Reloaded(lines[k]);
      assert more[k] == lines[k];
    }
    if !FirstLine(env, more, |lines|) {
      var j :| 0 <= j < |lines| && Complete(env, lines[j]) && lines[j].addr == e.addr && lines[j].hash == e.hash;
      var k := FirstOf(env, lines, j);
      assert Reloaded(lines[k]) in chain;
    }
  }

  // A complete line has a first one for its address and hash.
  lemma {:induction false} FirstOf<Hash>(env: Env<Hash>, lines: seq<Entry<Hash>>, j: nat) returns (k: nat)
    requires j < |lines| && Complete(env, lines[j])
    ensures FirstLine(env, lines, k) && lines[k].addr == lines[j].addr && lines[k].hash == lines[j].hash
    decreases j
  {
    k := j;
    if !FirstLine(env, lines, j) {
      var i :| 0 <= i < j && Complete(env, lines[i])
               && lines[i].addr == lines[j].addr && lines[i].hash == lines[j].hash;
      k := FirstOf(env, lines, i);
    }
  }

  lemma {:induction false} ReloadFrom<Hash(!new)>(env: Env<Hash>, t: Tier<Hash>, lines: seq<Entry<Hash>>,
                                                  entries: seq<Entry<Hash>>)
    requires HoldsLines(env, t, lines)
    ensures HoldsLines(env, Reload(env, t, entries), lines + entries)
    decreases |entries|
  {
    hide HoldsLines, FirstLine, FirstHashed;
    if entries == [] {
      assert lines + entries == lines;
    } else {
      var e := entries[0];
      var t' := t.(cands := t.cands[e.addr := Chain(t, e.addr) + [Reloaded(e)]]);
      assert lines + [e] + entries[1..] == lines + entries;
      if Complete(env, e) { AlreadyThere(env, t, lines, e); } else { Incomplete(env, lines, e); }
      if Complete(env, e) && FirstHashed(Chain(t, e.addr), e.hash).None? {
        LineAdded(env, t, t', lines, e);
        ReloadFrom(env, t', lines + [e], entries[1..]);
      } else {
        LineSkipped(env, t, lines, e);
        ReloadFrom(env, t, lines + [e], entries[1..]);
      }
    }
  }

  lemma Incomplete<Hash>(env: Env<Hash>, lines: seq<Entry<Hash>>, e: Entry<Hash>)
    requires !Complete(env, e)
    ensures !FirstLine(env, lines + [e], |lines|)
  {
    assert (lines + [e])[|lines|] == e;
  }

  // What start-up makes of the manifest.
  lemma ReloadHolds<Hash(!new)>(env: Env<Hash>, entries: seq<Entry<Hash>>)
    ensures HoldsLines(env, Reload(env, Tier(map[], []), entries), entries)
  {
    assert HoldsLines<Hash>(env, Tier(map[], []), []);
    ReloadFrom(env, Tier(map[], []), [], entries);
    assert [] + entries == entries;
  }
}
