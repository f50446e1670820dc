// The function map across fragment placements: exactly when binding a fragment keeps the map
// the scan of the loaded sections, and every run of the entry points.
module LoaderFragments {
  import opened Options
  import opened Words
  import opened Loader
  import opened LoaderBooks
  import opened LoaderRanges
  import opened LoaderIndex

  // --- Evicting a base ----------------------------------------------------------------------------

  // With the map in step, evicting an occupant of a base is unloading it: nothing is left in
  // its range for the range erase of an unload to drop.
  lemma EvictedIsUnload(t: Table, st: State, p: nat)
    requires LinkTableOk(t) && Inv(t, st) && Unique(st.loaded) && p < |st.loaded|
    ensures Evicted(t, st, p, st.loaded[p].base) == UnloadAt(t, st, p)
  {
    hide UninstallAll, LinkTableOk, Placed, Indexed, Unique, Covers;
    OwnRange(t, st, p);
    var s, base := t[st.loaded[p].section], st.loaded[p].base;
    var m := UninstallAll(st.funcMap, s, base, |s.funcs|);
    forall a | a in m ensures !(base <= a < Wrap32(base + s.size)) {
      UninstallAllIs(st.funcMap, s, base, |s.funcs|, a);
      if base <= a < base + s.size { OwnAddress(t, st, p, a); }
      OutOfRange(base, s.size, a);
    }
    assert RangeErase(m, base, s.size) == m;
  }

  lemma OwnRange(t: Table, st: State, p: nat)
    requires LinkTableOk(t) && Inv(t, st) && p < |st.loaded|
    ensures InTable(t, st.loaded) && SelfApart(t[st.loaded[p].section], st.loaded[p].base)
  {
    assert BaseOk(t, st.loaded[p].section, st.loaded[p].base);
    hide Indexed;
  }

  // What is mapped in a loaded section's range is its own.
  lemma OwnAddress(t: Table, st: State, p: nat, a: u32)
    requires LinkTableOk(t) && Inv(t, st) && Unique(st.loaded) && p < |st.loaded| && a in st.funcMap
    requires InRange(st.loaded[p].base, t[st.loaded[p].section].size, a)
    ensures var s := t[st.loaded[p].section]; Covers(s, st.loaded[p].base, a, |s.funcs|)
  {
    hide LinkTableOk, Placed, Unique, Covers, Provides;
    OwnRange(t, st, p);
    assert Scan(t, st.loaded, a, st.funcMap[a]);
    var q :| 0 <= q < |st.loaded| && Provides(t[st.loaded[q].section], st.loaded[q].base, a, st.funcMap[a]);
    if q == p {
      CoversIsProvides(t[st.loaded[p].section], st.loaded[p].base, a);
    } else {
      OthersElsewhere(t, st.loaded, p, q, a, st.funcMap[a]);
    }
  }

  lemma {:induction false} EvictAtBaseGood(t: Table, st: State, p: nat, keep: nat, base: u32)
    requires GoodTable(t) && Good(t, st) && p <= |st.loaded|
    ensures Good(t, EvictAtBase(t, st, p, keep, base))
    decreases |st.loaded| - p
  {
    if p < |st.loaded| {
      if st.loaded[p].base != base || st.loaded[p].section == keep {
        EvictAtBaseGood(t, st, p + 1, keep, base);
      } else {
        EvictedIsUnload(t, st, p);
        RemovedBooks(t, st, p, UnloadAt(t, st, p));
        UnloadAtIndex(t, st, p);
        hide Good, UnloadAt;
        EvictAtBaseGood(t, Evicted(t, st, p, base), p, keep, base);
      }
    }
  }

  // --- What a placement does at one address ---------------------------------------------------------

  // A loaded section other than i provides f at a.
  ghost predicate OtherProvides(t: Table, loaded: seq<Loaded>, i: nat, a: u32, f: Func)
    requires InTable(t, loaded)
  {
    exists q :: 0 <= q < |loaded| && loaded[q].section != i && Provides(t[loaded[q].section], loaded[q].base, a, f)
  }

  // Section i, where it is loaded now, provides f at a.
  ghost predicate OldProvides(t: Table, loaded: seq<Loaded>, i: nat, a: u32, f: Func)
    requires InTable(t, loaded)
  {
    exists q :: 0 <= q < |loaded| && loaded[q].section == i && Provides(t[i], loaded[q].base, a, f)
  }

  // The range of the fragment's earlier life holds no function of another section, and every
  // function of the section's own earlier place, unless the new place has one there.
  ghost predicate KeepsAt(t: Table, loaded: seq<Loaded>, i: nat, base: u32, previous: Option<(u32, u32)>, a: u32)
    requires InTable(t, loaded) && i < |t|
  {
    && ((exists f :: OtherProvides(t, loaded, i, a, f)) ==> !Superseded(previous, a))
    && ((exists f :: OldProvides(t, loaded, i, a, f)) && !Covers(t[i], base, a, |t[i].funcs|) ==>
          Superseded(previous, a))
  }

  lemma ScanSplit(t: Table, loaded: seq<Loaded>, i: nat, a: u32, f: Func)
    requires InTable(t, loaded) && i < |t|
    ensures Scan(t, loaded, a, f) <==> OtherProvides(t, loaded, i, a, f) || OldProvides(t, loaded, i, a, f)
  {
    hide Provides;
  }

  lemma ScanRebased(t: Table, loaded: seq<Loaded>, i: nat, base: u32, a: u32, f: Func)
    requires InTable(t, loaded) && i < |t| && Unique(loaded)
    ensures InTable(t, Rebase(loaded, i, base))
    ensures Scan(t, Rebase(loaded, i, base), a, f) <==> Provides(t[i], base, a, f) || OtherProvides(t, loaded, i, a, f)
  {
    hide Provides;
    var r, loaded' := FindLoaded(loaded, i), Rebase(loaded, i, base);
    var p := if r.Some? then r.value else |loaded|;
    assert loaded'[p] == Loaded(base, i);
    assert forall q :: 0 <= q < |loaded'| && q != p ==> loaded'[q] == loaded[q] && loaded[q].section != i;
    if OtherProvides(t, loaded, i, a, f) {
      var q :| 0 <= q < |loaded| && loaded[q].section != i && Provides(t[loaded[q].section], loaded[q].base, a, f);
      assert loaded'[q] == loaded[q];
    }
  }

  // Where a fragment is placed: at a word, where its range meets no link range but its own base,
  // and no other loaded range.
  ghost predicate FragmentFits(t: Table, loaded: seq<Loaded>, i: nat, base: u32)
    requires InTable(t, loaded) && i < |t|
  {
    && base % 4 == 0 && BaseOk(t, i, base)
    && forall q :: 0 <= q < |loaded| && loaded[q].section != i ==>
         Apart(loaded[q].base, t[loaded[q].section].size, base, t[i].size)
  }

  lemma OtherIsElsewhere(t: Table, loaded: seq<Loaded>, i: nat, base: u32, a: u32, f: Func)
    requires LinkTableOk(t) && Placed(t, loaded) && i < |t| && FragmentFits(t, loaded, i, base)
    requires OtherProvides(t, loaded, i, a, f)
    ensures !Covers(t[i], base, a, |t[i].funcs|)
  {
    var q :| 0 <= q < |loaded| && loaded[q].section != i && Provides(t[loaded[q].section], loaded[q].base, a, f);
    assert BaseOk(t, loaded[q].section, loaded[q].base);
    assert SectionOk(t[i]) && SectionOk(t[loaded[q].section]);
    ProvidedRange(t[loaded[q].section], loaded[q].base, a, f);
    NoSharedAddress(t, loaded[q], Loaded(base, i), a);
    hide LinkTableOk, Placed, FragmentFits, Provides, BaseOk;
    CoversIsProvides(t[i], base, a);
    if Covers(t[i], base, a, |t[i].funcs|) {
      var g :| Provides(t[i], base, a, g);
      ProvidedRange(t[i], base, a, g);
    }
  }

  // The map and the scan agree at an address.
  ghost predicate AgreeAt(t: Table, st: State, a: u32)
    requires InTable(t, st.loaded)
  {
    forall f: Func :: (a in st.funcMap && st.funcMap[a] == f) <==> Scan(t, st.loaded, a, f)
  }

  // What is left at an address after the range erase and the new aliases.
  lemma PlacedMap(m: map<u32, Func>, s: Section, base: u32, previous: Option<(u32, u32)>, a: u32)
    requires SelfApart(s, base)
    ensures var m1 := if previous.Some? then RangeErase(m, previous.value.0, previous.value.1) else m;
            var m' := InstallAll(m1, s, base, |s.funcs|);
            if Covers(s, base, a, |s.funcs|) then a in m' && Provides(s, base, a, m'[a])
            else (a in m' <==> a in m && !Superseded(previous, a)) && (a in m' ==> m'[a] == m[a])
  {
    var m1 := if previous.Some? then RangeErase(m, previous.value.0, previous.value.1) else m;
    InstallAllIs(m1, s, base, |s.funcs|, a);
    hide InstallAll, SelfApart;
  }

  lemma PlaceAt(t: Table, st: State, i: nat, base: u32, previous: Option<(u32, u32)>, a: u32, st': State)
    requires LinkTableOk(t) && Inv(t, st) && Unique(st.loaded) && i < |t| && FragmentFits(t, st.loaded, i, base)
    requires st'.loaded == Rebase(st.loaded, i, base) && InTable(t, st'.loaded)
    requires var m := if previous.Some? then RangeErase(st.funcMap, previous.value.0, previous.value.1) else st.funcMap;
             st'.funcMap == InstallAll(m, t[i], base, |t[i].funcs|)
    ensures AgreeAt(t, st', a) <==> KeepsAt(t, st.loaded, i, base, previous, a)
  {
    var s := t[i];
    assert SectionOk(s) && SelfApart(s, base);
    hide LinkTableOk, Unique, Placed, FragmentFits, InstallAll, RangeErase, SelfApart, Rebase, SectionOk;
    hide Covers, Provides, OtherProvides, OldProvides, Superseded, Scan;
    PlacedMap(st.funcMap, s, base, previous, a);
    CoversIsProvides(s, base, a);
    forall f: Func
      ensures Scan(t, st'.loaded, a, f) <==> Provides(s, base, a, f) || OtherProvides(t, st.loaded, i, a, f)
      ensures (a in st.funcMap && st.funcMap[a] == f) <==>
              OtherProvides(t, st.loaded, i, a, f) || OldProvides(t, st.loaded, i, a, f)
      ensures OtherProvides(t, st.loaded, i, a, f) ==> !Covers(s, base, a, |s.funcs|)
    {
      ScanRebased(t, st.loaded, i, base, a, f);
      ScanSplit(t, st.loaded, i, a, f);
      if OtherProvides(t, st.loaded, i, a, f) { OtherIsElsewhere(t, st.loaded, i, base, a, f); }
    }
    if Covers(s, base, a, |s.funcs|) {
      forall f: Func | Provides(s, base, a, f) ensures f == st'.funcMap[a] {
        ProvidesOnce(s, base, a, f, st'.funcMap[a]);
      }
    } else if exists f :: OldProvides(t, st.loaded, i, a, f) {
      var f :| OldProvides(t, st.loaded, i, a, f);
      OldIsAlone(t, st.loaded, i, a, f);
    }
  }

  // Where section i provides something, no other section does.
  lemma OldIsAlone(t: Table, loaded: seq<Loaded>, i: nat, a: u32, f: Func)
    requires LinkTableOk(t) && Placed(t, loaded) && Unique(loaded) && i < |t| && OldProvides(t, loaded, i, a, f)
    ensures forall g :: !OtherProvides(t, loaded, i, a, g)
  {
    var p :| 0 <= p < |loaded| && loaded[p].section == i && Provides(t[i], loaded[p].base, a, f);
    CoversIsProvides(t[i], loaded[p].base, a);
    hide LinkTableOk, Placed, Unique, Provides, Covers;
    forall g ensures !OtherProvides(t, loaded, i, a, g) {
      if OtherProvides(t, loaded, i, a, g) {
        var q :| 0 <= q < |loaded| && loaded[q].section != i && Provides(t[loaded[q].section], loaded[q].base, a, g);
        OthersElsewhere(t, loaded, p, q, a, g);
      }
    }
  }

  // --- A whole placement --------------------------------------------------------------------------------

  // Where a fragment is bound to no section, |t| stands for it.
  function Keep(t: Table, i: Option<nat>): nat { if i.Some? then i.value else |t| }

  // Exactly when a placement keeps the map in step.
  ghost predicate PlaceKeeps(t: Table, st: State, i: Option<nat>, base: u32, previous: Option<(u32, u32)>)
    requires InTable(t, st.loaded) && (i.Some? ==> i.value < |t|)
  {
    var loaded := EvictAtBase(t, st, 0, Keep(t, i), base).loaded;
    match i
    case Some(k) => forall a: u32 :: KeepsAt(t, loaded, k, base, previous, a)
    case None => forall a: u32 :: (exists f :: Scan(t, loaded, a, f)) ==> !Superseded(previous, a)
  }

  ghost predicate PlaceFits(t: Table, st: State, i: Option<nat>, base: u32)
    requires InTable(t, st.loaded) && (i.Some? ==> i.value < |t|)
  {
    i.Some? ==> FragmentFits(t, EvictAtBase(t, st, 0, i.value, base).loaded, i.value, base)
  }

  lemma PlaceGood(t: Table, st: State, i: Option<nat>, base: u32, previous: Option<(u32, u32)>)
    requires GoodTable(t) && Good(t, st) && (i.Some? ==> i.value < |t|) && PlaceFits(t, st, i, base)
    ensures Good(t, Place(t, st, i, base, previous)) <==> PlaceKeeps(t, st, i, base, previous)
  {
    var st1, st' := EvictAtBase(t, st, 0, Keep(t, i), base), Place(t, st, i, base, previous);
    EvictAtBaseGood(t, st, 0, Keep(t, i), base);
    if i.Some? {
      PlaceBooks(t, st, i, base, previous);
      BoundGood(t, st1, i.value, base, previous, st');
    } else {
      UnboundGood(t, st1, previous, st');
    }
  }

  lemma BoundGood(t: Table, st: State, i: nat, base: u32, previous: Option<(u32, u32)>, st': State)
    requires GoodTable(t) && Good(t, st) && i < |t| && FragmentFits(t, st.loaded, i, base) && Books(t, st')
    requires st'.loaded == Rebase(st.loaded, i, base)
    requires var m := if previous.Some? then RangeErase(st.funcMap, previous.value.0, previous.value.1) else st.funcMap;
             st'.funcMap == InstallAll(m, t[i], base, |t[i].funcs|)
    ensures Good(t, st') <==> forall a: u32 :: KeepsAt(t, st.loaded, i, base, previous, a)
  {
    RebasedPlaced(t, st.loaded, i, base);
    hide LinkTableOk, TableOk, Unique, Placed, FragmentFits, InstallAll, RangeErase, Rebase, KeepsAt, Scan;
    forall a: u32 ensures AgreeAt(t, st', a) <==> KeepsAt(t, st.loaded, i, base, previous, a) {
      PlaceAt(t, st, i, base, previous, a, st');
    }
    IndexedIs(t, st');
  }

  lemma IndexedIs(t: Table, st: State)
    requires InTable(t, st.loaded)
    ensures Indexed(t, st) <==> forall a: u32 :: AgreeAt(t, st, a)
  {
    hide Scan;
    if forall a: u32 :: AgreeAt(t, st, a) {
      forall a: u32, f: Func ensures (a in st.funcMap && st.funcMap[a] == f) <==> Scan(t, st.loaded, a, f) {
        assert AgreeAt(t, st, a);
      }
    }
  }

  lemma RebasedPlaced(t: Table, loaded: seq<Loaded>, i: nat, base: u32)
    requires Placed(t, loaded) && Unique(loaded) && i < |t| && FragmentFits(t, loaded, i, base)
    ensures Placed(t, Rebase(loaded, i, base))
  {
    hide BaseOk;
    var r, loaded' := FindLoaded(loaded, i), Rebase(loaded, i, base);
    var p := if r.Some? then r.value else |loaded|;
    assert loaded'[p] == Loaded(base, i);
    assert forall q :: 0 <= q < |loaded'| && q != p ==> loaded'[q] == loaded[q] && loaded[q].section != i;
  }

  lemma UnboundGood(t: Table, st: State, previous: Option<(u32, u32)>, st': State)
    requires GoodTable(t) && Good(t, st)
    requires st' == st.(funcMap := if previous.Some? then RangeErase(st.funcMap, previous.value.0, previous.value.1)
                                   else st.funcMap)
    ensures Good(t, st') <==> forall a: u32 :: (exists f :: Scan(t, st.loaded, a, f)) ==> !Superseded(previous, a)
  {
    hide LinkTableOk, TableOk, Unique, Placed, Scan;
    forall a: u32
      ensures AgreeAt(t, st', a) <==> ((exists f :: Scan(t, st.loaded, a, f)) ==> !Superseded(previous, a))
    {
      assert (a in st'.funcMap <==> a in st.funcMap && !Superseded(previous, a));
      if exists f :: Scan(t, st.loaded, a, f) {
        var f :| Scan(t, st.loaded, a, f);
        assert a in st.funcMap && st.funcMap[a] == f;
      }
    }
    IndexedIs(t, st');
  }

  // --- Every run -----------------------------------------------------------------------------------------

  // Each DMA and each fragment goes where sections may be, and each placement, as it comes, is one
  // that keeps the map in step.
  ghost predicate RunFits(t: Table, st: State, ops: seq<Op>)
    requires InTable(t, st.loaded) && OpsInTable(t, ops)
    decreases |ops|
  {
    ops != [] ==>
      assert ops[0] in ops && forall o :: o in ops[1..] ==> o in ops;
      && (ops[0].Dma? ==> DmaOk(t, ops[0].rom, ops[0].ram, ops[0].size))
      && (ops[0].Fragment? ==> PlaceFits(t, st, ops[0].bound, ops[0].base)
                               && PlaceKeeps(t, st, ops[0].bound, ops[0].base, ops[0].previous))
      && (Step(t, st, ops[0]).Some? ==> RunFits(t, Step(t, st, ops[0]).value, ops[1..]))
  }

  // Over every run of the entry points the function map is the scan of the loaded sections, their
  // ranges are apart, and the address table is right.
  lemma {:induction false} RunGood(t: Table, st: State, ops: seq<Op>)
    requires GoodTable(t) && RomSorted(t) && Good(t, st) && InTable(t, st.loaded) && OpsInTable(t, ops)
    requires RunFits(t, st, ops)
    ensures var r := Run(t, st, ops); r.Some? ==> Good(t, r.value)
    decreases |ops|
  {
    hide Good, GoodTable, RomSorted, DmaOk, InTable, LoadOverlays, Unload, UnloadRegion, Place, PlaceFits, PlaceKeeps;
    if ops != [] {
      var op := ops[0];
      assert op in ops && forall o :: o in ops[1..] ==> o in ops;
      if op.Dma? {
        LoadOverlaysGood(t, st, op.rom, op.ram, op.size);
      } else if op.UnloadSection? {
        UnloadGood(t, st, op.section);
      } else if op.UnloadMemory? {
        UnloadRegionGood(t, st, 0, op.ram, op.size);
      } else {
        PlaceGood(t, st, op.bound, op.base, op.previous);
      }
      var r := Step(t, st, op);
      if r.Some? { RunGood(t, r.value, ops[1..]); }
    }
  }

  // At start-up nothing is loaded, nothing is mapped and every entry holds a link base.
  lemma InitialGood(t: Table, addresses: seq<u32>)
    requires TableOk(t)
    requires forall i :: 0 <= i < |t| ==> t[i].index < |addresses| && addresses[t[i].index] == t[i].link
    ensures Good(t, State([], addresses, map[])) && Tidy(t, State([], addresses, map[]))
  {}

  // So every run from start-up.
  lemma EveryRunGood(t: Table, addresses: seq<u32>, ops: seq<Op>)
    requires GoodTable(t) && RomSorted(t) && OpsInTable(t, ops) && RunFits(t, State([], addresses, map[]), ops)
    requires forall i :: 0 <= i < |t| ==> t[i].index < |addresses| && addresses[t[i].index] == t[i].link
    ensures var r := Run(t, State([], addresses, map[]), ops); r.Some? ==> Good(t, r.value)
  {
    InitialGood(t, addresses);
    RunGood(t, State([], addresses, map[]), ops);
  }
}
