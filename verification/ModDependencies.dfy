// Enabling and disabling mods (mods.cpp): the set of automatically enabled mods is kept by
// an incremental walk when a mod is enabled and rebuilt when one is disabled.
module ModDependencies {
  import opened Options

  type Id = string

  datatype Dependency = Dependency(id: Id, optional: bool)

  datatype Mod = Mod(id: Id, dependencies: seq<Dependency>, games: set<nat>, runtimeToggleable: bool,
                     enabledByDefault: bool)

  // The opened mods, and where to find one by its id.
  datatype Mods = Mods(list: seq<Mod>, byId: map<Id, nat>)

  ghost predicate ModsOk(m: Mods) { forall id :: id in m.byId ==> m.byId[id] < |m.list| }

  function Dependencies(m: Mods, id: Id): seq<Dependency>
    requires ModsOk(m)
  {
    if id in m.byId then m.list[m.byId[id]].dependencies else []
  }

  ghost predicate Requires(m: Mods, a: Id, b: Id)
    requires ModsOk(m)
  {
    exists k :: 0 <= k < |Dependencies(m, a)| && Dependencies(m, a)[k] == Dependency(b, false)
  }

  // --- Reachability, by paths ------------------------------------------------------------

  ghost predicate IsPath(m: Mods, path: seq<Id>)
    requires ModsOk(m)
  {
    forall k :: 0 <= k < |path| - 1 ==> Requires(m, path[k], path[k + 1])
  }

  // One or more required dependencies lead from a root to x.
  ghost predicate Reachable(m: Mods, roots: set<Id>, x: Id)
    requires ModsOk(m)
  {
    exists path :: |path| >= 2 && path[0] in roots && path[|path| - 1] == x && IsPath(m, path)
  }

  ghost predicate ClosedInto(m: Mods, s: set<Id>, t: set<Id>)
    requires ModsOk(m)
  {
    forall x, y :: x in s && Requires(m, x, y) ==> y in t
  }

  lemma ReachableStep(m: Mods, roots: set<Id>, x: Id, y: Id)
    requires ModsOk(m) && (x in roots || Reachable(m, roots, x)) && Requires(m, x, y)
    ensures Reachable(m, roots, y)
  {
    var path := [x];
    if x !in roots {
      path :| |path| >= 2 && path[0] in roots && path[|path| - 1] == x && IsPath(m, path);
    }
    var longer := path + [y];
    assert forall k :: 0 <= k < |path| ==> longer[k] == path[k];
    assert IsPath(m, longer) && longer[0] in roots && longer[|longer| - 1] == y;
  }

  lemma {:induction false} PathStaysInside(m: Mods, path: seq<Id>, s: set<Id>)
    requires ModsOk(m) && |path| >= 1 && path[0] in s && IsPath(m, path) && ClosedInto(m, s, s)
    ensures path[|path| - 1] in s
    decreases |path|
  {
    if |path| > 1 {
      assert Requires(m, path[0], path[1]);
      var rest := path[1..];
      assert forall k :: 0 <= k < |rest| ==> rest[k] == path[k + 1];
      assert IsPath(m, rest);
      PathStaysInside(m, rest, s);
    }
  }

  // What is reachable lies in every set closed under dependencies.
  lemma ReachableInside(m: Mods, roots: set<Id>, s: set<Id>, x: Id)
    requires ModsOk(m) && Reachable(m, roots, x) && ClosedInto(m, roots, s) && ClosedInto(m, s, s)
    ensures x in s
  {
    var path :| |path| >= 2 && path[0] in roots && path[|path| - 1] == x && IsPath(m, path);
    assert Requires(m, path[0], path[1]);
    var rest := path[1..];
    assert forall k :: 0 <= k < |rest| ==> rest[k] == path[k + 1];
    assert IsPath(m, rest);
    PathStaysInside(m, rest, s);
  }

  lemma ReachableUnion(m: Mods, r: set<Id>, s: set<Id>, x: Id)
    requires ModsOk(m)
    ensures Reachable(m, r + s, x) <==> Reachable(m, r, x) || Reachable(m, s, x)
  {
    if Reachable(m, r + s, x) {
      var path :| |path| >= 2 && path[0] in r + s && path[|path| - 1] == x && IsPath(m, path);
      assert path[0] in r || path[0] in s;
    }
  }

  lemma ReachableFromNone(m: Mods, x: Id)
    requires ModsOk(m)
    ensures !Reachable(m, {}, x)
  {}

  // Every id some mod depends on.
  function AllDependencies(m: Mods): set<Id> {
    set i, k | 0 <= i < |m.list| && 0 <= k < |m.list[i].dependencies| :: m.list[i].dependencies[k].id
  }

  // --- The walk -----------------------------------------------------------------------------

  // Nothing is marked or waiting that the root does not reach.
  ghost predicate Sound(m: Mods, root: Id, known: set<Id>, auto: set<Id>, open: seq<Id>)
    requires ModsOk(m)
  {
    && known <= auto
    && (forall x :: x in auto ==> x in known || Reachable(m, {root}, x))
    && (forall x :: x in open ==> x == root || Reachable(m, {root}, x))
  }

  // Every marked id has its dependencies marked, unless it is still waiting.
  ghost predicate Complete(m: Mods, root: Id, auto: set<Id>, open: seq<Id>)
    requires ModsOk(m)
  {
    forall x, y :: (x in auto || x == root) && x !in open && Requires(m, x, y) ==> y in auto
  }

  // Adds to `known` what is reachable from the root, and nothing else, whatever cycles the
  // graph has.
  method Walk(m: Mods, root: Id, known: set<Id>) returns (auto: set<Id>)
    requires ModsOk(m) && ClosedInto(m, known, known)
    ensures forall x :: x in auto <==> x in known || Reachable(m, {root}, x)
  {
    hide Sound, Complete, ClosedInto, Reachable, Requires, AllDependencies, Dependencies;
    var pending := [root];
    auto := known;
    ghost var all := AllDependencies(m);
    WalkStarts(m, root, known);
    while pending != []
      invariant Sound(m, root, known, auto, pending) && Complete(m, root, auto, pending)
      decreases |all - auto|, |pending|
    {
      var current := pending[|pending| - 1];
      assert pending == pending[..|pending| - 1] + [current];
      pending := pending[..|pending| - 1];
      var dependencies := Dependencies(m, current);
      ghost var before, before' := auto, |pending|;
      for k := 0 to |dependencies|
        invariant before <= auto && (auto == before ==> |pending| == before') && auto - before <= all
        invariant Sound(m, root, known, auto, pending + [current]) && Complete(m, root, auto, pending + [current])
        invariant forall j :: 0 <= j < k && !dependencies[j].optional ==> dependencies[j].id in auto
      {
        var dependency := dependencies[k];
        if !dependency.optional && dependency.id !in auto {
          Mark(m, root, known, auto, pending, current, k);
          auto := auto + {dependency.id};
          pending := pending + [dependency.id];
        }
      }
      Finish(m, root, known, auto, pending, current);
      if auto != before { Grew(all, before, auto); }
    }
    WalkEnds(m, root, known, auto);
  }

  lemma WalkStarts(m: Mods, root: Id, known: set<Id>)
    requires ModsOk(m) && ClosedInto(m, known, known)
    ensures Sound(m, root, known, known, [root]) && Complete(m, root, known, [root])
  {}

  // Marking one more dependency of the current mod.
  lemma Mark(m: Mods, root: Id, known: set<Id>, auto: set<Id>, pending: seq<Id>, current: Id, k: nat)
    requires ModsOk(m) && k < |Dependencies(m, current)| && !Dependencies(m, current)[k].optional
    requires Sound(m, root, known, auto, pending + [current]) && Complete(m, root, auto, pending + [current])
    ensures var id := Dependencies(m, current)[k].id;
            && id in AllDependencies(m)
            && Sound(m, root, known, auto + {id}, pending + [id] + [current])
            && Complete(m, root, auto + {id}, pending + [id] + [current])
  {
    var id := Dependencies(m, current)[k].id;
    assert Dependencies(m, current)[k] == Dependency(id, false);
    assert Requires(m, current, id);
    assert current in pending + [current];
    ReachableStep(m, {root}, current, id);
    assert m.list[m.byId[current]].dependencies[k].id == id;
    hide Requires, Reachable, AllDependencies;
    assert forall x :: x in pending + [id] + [current] <==> x in pending + [current] || x == id;
  }

  // All of the current mod's dependencies are marked.
  lemma Finish(m: Mods, root: Id, known: set<Id>, auto: set<Id>, pending: seq<Id>, current: Id)
    requires ModsOk(m)
    requires Sound(m, root, known, auto, pending + [current]) && Complete(m, root, auto, pending + [current])
    requires var d := Dependencies(m, current); forall j :: 0 <= j < |d| && !d[j].optional ==> d[j].id in auto
    ensures Sound(m, root, known, auto, pending) && Complete(m, root, auto, pending)
  {
    assert forall x :: x in pending + [current] <==> x in pending || x == current;
    assert forall y :: Requires(m, current, y) ==> y in auto;
    hide Requires, Reachable;
  }

  lemma WalkEnds(m: Mods, root: Id, known: set<Id>, auto: set<Id>)
    requires ModsOk(m) && Sound(m, root, known, auto, []) && Complete(m, root, auto, [])
    ensures forall x :: x in auto <==> x in known || Reachable(m, {root}, x)
  {
    hide Requires, Reachable;
    forall x | Reachable(m, {root}, x) ensures x in auto {
      ReachableInside(m, {root}, auto, x);
    }
  }

  lemma Grew(all: set<Id>, before: set<Id>, after: set<Id>)
    requires before < after && after - before <= all
    ensures |all - after| < |all - before|
  {
    Smaller(all - after, all - before);
  }

  lemma Smaller(a: set<Id>, b: set<Id>)
    requires a < b
    ensures |a| < |b|
  {
    assert b == a + (b - a) && |b| == |a| + |b - a| && b - a != {};
  }

  // --- The context ----------------------------------------------------------------------------

  // A call does nothing for an unknown id, nor, once mods are loaded, for a mod that cannot
  // be toggled at run time or is not for the active game.
  predicate Accepts(m: Mods, activeGame: Option<nat>, id: Id)
    requires ModsOk(m)
  {
    id in m.byId &&
    (activeGame.Some? ==>
      var mod := m.list[m.byId[id]];
      mod.runtimeToggleable && activeGame.value in mod.games)
  }

  function Toggled(m: Mods, activeGame: Option<nat>, enabled: set<Id>, id: Id, on: bool): set<Id>
    requires ModsOk(m)
  {
    if !Accepts(m, activeGame, id) then enabled else if on then enabled + {id} else enabled - {id}
  }

  class ModContext {
    const mods: Mods
    var activeGame: Option<nat>
    var enabled: set<Id>
    var autoEnabled: set<Id>

    ghost predicate Valid()
      reads this
    {
      && ModsOk(mods)
      && (forall x :: x in autoEnabled <==> Reachable(mods, enabled, x))
    }

    constructor (mods: Mods)
      requires ModsOk(mods)
      ensures Valid() && this.mods == mods && enabled == {} && activeGame == None
    {
      this.mods, this.activeGame := mods, None;
      this.enabled, this.autoEnabled := {}, {};
      new;
      forall x ensures !Reachable(mods, {}, x) { ReachableFromNone(mods, x); }
    }

    method EnableMod(id: Id, on: bool)
      requires Valid()
      modifies this`enabled, this`autoEnabled
      ensures Valid() && enabled == Toggled(mods, activeGame, old(enabled), id, on)
      ensures forall x :: x != id ==> (x in enabled <==> x in old(enabled))
      ensures id in enabled <==>
              if id in mods.byId && (activeGame.None? ||
                   (var mod := mods.list[mods.byId[id]]; mod.runtimeToggleable && activeGame.value in mod.games))
              then on else id in old(enabled)
    {
      if id !in mods.byId { return; }
      var mod := mods.list[mods.byId[id]];
      if activeGame.Some? && !mod.runtimeToggleable { return; }
      if activeGame.Some? && activeGame.value !in mod.games { return; }
      if on {
        if id in enabled { assert enabled == enabled + {id}; return; }
        enabled := enabled + {id};
        ReachableClosed(mods, old(enabled), autoEnabled);
        autoEnabled := Walk(mods, id, autoEnabled);
        forall x { ReachableUnion(mods, old(enabled), {id}, x); }
      } else {
        if id !in enabled { assert enabled == enabled - {id}; return; }
        enabled := enabled - {id};
        autoEnabled := Rebuild();
      }
    }

    // The automatically enabled set from scratch, roots in any order.
    method Rebuild() returns (auto: set<Id>)
      requires ModsOk(mods)
      ensures forall x :: x in auto <==> Reachable(mods, enabled, x)
    {
      auto := {};
      var roots := enabled;
      forall x ensures !Reachable(mods, {}, x) { ReachableFromNone(mods, x); }
      assert enabled - roots == {};
      while roots != {}
        invariant roots <= enabled
        invariant forall x :: x in auto <==> Reachable(mods, enabled - roots, x)
        decreases roots
      {
        var root :| root in roots;
        ReachableClosed(mods, enabled - roots, auto);
        auto := Walk(mods, root, auto);
        forall x { ReachableUnion(mods, enabled - roots, {root}, x); }
        assert enabled - (roots - {root}) == (enabled - roots) + {root};
        roots := roots - {root};
      }
      assert enabled - roots == enabled;
    }

    // The mods a saved configuration enables, and the new ones that ask to be on.
    method EnableConfigured(known: seq<bool>, configured: set<Id>)
      requires Valid() && |known| == |mods.list|
      modifies this`enabled, this`autoEnabled
      ensures Valid() && enabled == ConfiguredUpTo(mods, activeGame, old(enabled), known, configured, |known|)
    {
      for k := 0 to |mods.list|
        invariant Valid() && enabled == ConfiguredUpTo(mods, activeGame, old(enabled), known, configured, k)
      {
        var mod := mods.list[k];
        if (!known[k] && mod.enabledByDefault) || mod.id in configured { EnableMod(mod.id, true); }
      }
    }
  }

  function ConfiguredUpTo(m: Mods, activeGame: Option<nat>, enabled: set<Id>, known: seq<bool>, configured: set<Id>,
                          k: nat): set<Id>
    requires ModsOk(m) && k <= |m.list| == |known|
  {
    if k == 0 then enabled
    else
      var before := ConfiguredUpTo(m, activeGame, enabled, known, configured, k - 1);
      var mod := m.list[k - 1];
      if (!known[k - 1] && mod.enabledByDefault) || mod.id in configured
      then Toggled(m, activeGame, before, mod.id, true) else before
  }

  // --- Which mods are enabled after any calls --------------------------------------------------

  // Before mods are loaded any mod there is may be toggled; after, only one that allows it and is
  // for the active game.
  predicate MayToggle(m: Mods, activeGame: Option<nat>, id: Id)
    requires ModsOk(m)
  {
    id in m.byId &&
    match activeGame
    case None => true
    case Some(game) => m.list[m.byId[id]].runtimeToggleable && game in m.list[m.byId[id]].games
  }

  datatype Call = Call(id: Id, on: bool)

  function Calls(m: Mods, activeGame: Option<nat>, enabled: set<Id>, calls: seq<Call>): set<Id>
    requires ModsOk(m)
  {
    if calls == [] then enabled
    else
      var n := |calls| - 1;
      Toggled(m, activeGame, Calls(m, activeGame, enabled, calls[..n]), calls[n].id, calls[n].on)
  }

  // Call k is the last of the calls that names id.
  ghost predicate LastCall(calls: seq<Call>, k: nat, id: Id) {
    k < |calls| && calls[k].id == id && forall j :: k < j < |calls| ==> calls[j].id != id
  }

  // A mod that may be toggled is as the last call that names it says; any other mod, and any mod
  // no call names, is as it was.
  lemma {:induction false} LastCallDecides(m: Mods, activeGame: Option<nat>, enabled: set<Id>, calls: seq<Call>, id: Id)
    requires ModsOk(m)
    ensures forall k :: 0 <= k < |calls| && LastCall(calls, k, id) && MayToggle(m, activeGame, id) ==>
              (id in Calls(m, activeGame, enabled, calls) <==> calls[k].on)
    ensures !MayToggle(m, activeGame, id) || (forall k :: 0 <= k < |calls| ==> calls[k].id != id) ==>
              (id in Calls(m, activeGame, enabled, calls) <==> id in enabled)
    decreases |calls|
  {
    hide Toggled, MayToggle;
    if calls != [] {
      var n := |calls| - 1;
      var before := calls[..n];
      LastCallDecides(m, activeGame, enabled, before, id);
      ToggledIs(m, activeGame, Calls(m, activeGame, enabled, before), calls[n], id);
      forall k | 0 <= k < n && LastCall(calls, k, id) ensures LastCall(before, k, id) {
        assert calls[k] == before[k];
      }
    }
  }

  lemma ToggledIs(m: Mods, activeGame: Option<nat>, enabled: set<Id>, call: Call, id: Id)
    requires ModsOk(m)
    ensures id in Toggled(m, activeGame, enabled, call.id, call.on) <==>
            if id == call.id && MayToggle(m, activeGame, id) then call.on else id in enabled
  {}

  // A configuration enables just the mods that may be toggled and that it names, or that are new
  // and ask to be on.
  lemma {:induction false} ConfiguredExactly(m: Mods, activeGame: Option<nat>, enabled: set<Id>, known: seq<bool>,
                                             configured: set<Id>, k: nat, id: Id)
    requires ModsOk(m) && k <= |m.list| == |known|
    ensures id in ConfiguredUpTo(m, activeGame, enabled, known, configured, k) <==>
            id in enabled ||
            (MayToggle(m, activeGame, id) &&
             exists j :: 0 <= j < k && m.list[j].id == id &&
                         ((!known[j] && m.list[j].enabledByDefault) || id in configured))
    decreases k
  {
    if k > 0 { ConfiguredExactly(m, activeGame, enabled, known, configured, k - 1, id); }
  }

  lemma ReachableClosed(m: Mods, roots: set<Id>, auto: set<Id>)
    requires ModsOk(m) && forall x :: x in auto <==> Reachable(m, roots, x)
    ensures ClosedInto(m, auto, auto)
  {
    forall x, y | x in auto && Requires(m, x, y) ensures y in auto { ReachableStep(m, roots, x, y); }
  }
}
