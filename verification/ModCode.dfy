// Initialising code mods (mods.cpp): the relocating pass and the loop over mods, on the guest's
// byte memory.
module ModCode {
  import opened Words
  import opened Rdram
  import opened ModLayout
  import opened ModLoad
  import opened ModCopy
  import opened ModWords

  // --- The relocating pass ----------------------------------------------------------------------

  lemma {:induction false} ItemsPrefix(sections: seq<Section>, k: nat, j: nat)
    requires Position(sections, k, j)
    ensures Items(sections, k, j) <= AllItems(sections)
    decreases |sections| - k, if k < |sections| then |sections[k].relocs| - j else 0
  {
    if k < |sections| {
      if j < |sections[k].relocs| {
        ItemsPrefix(sections, k, j + 1);
      } else {
        ItemsPrefix(sections, k + 1, 0);
      }
    }
  }

  // False at the first local relocation whose target is no section of the mod.
  method RelocateWords(mem: array<byte>, sections: seq<Section>, addrs: seq<u32>) returns (ok: bool)
    requires mem.Length % 4 == 0 && |addrs| == |sections| && RelocsOk(sections, addrs, mem.Length)
    modifies mem
    ensures ok <==> Loads(sections)
    ensures ok <==> TargetsExist(sections)
    ensures ok ==> mem[..] == Apply(old(mem[..]), Fixups(sections, addrs, AllItems(sections)))
  {
    hide Guest, LoadNative, StoreNative, At, Items, TargetsExist, OwnWord;
    ghost var m0 := mem[..];
    NoItems(sections);
    LoadsExactly(sections);
    for k := 0 to |sections|
      invariant TargetsOk(sections, Items(sections, k, 0))
      invariant mem[..] == Apply(m0, Fixups(sections, addrs, Items(sections, k, 0)))
    {
      for j := 0 to |sections[k].relocs|
        invariant TargetsOk(sections, Items(sections, k, j))
        invariant mem[..] == Apply(m0, Fixups(sections, addrs, Items(sections, k, j)))
      {
        var r := sections[k].relocs[j];
        ItemsStep(sections, k, j);
        ItemsPrefix(sections, k, j + 1);
        if IsLocal(r) {
          if r.target >= |sections| {
            assert AllItems(sections)[|Items(sections, k, j)|] == Item(k, r);
            return false;
          }
          assert AllItems(sections)[|Items(sections, k, j)|] == Item(k, r);
          MoveWord(mem, At(sections, addrs, Item(k, r)), addrs[r.target] - sections[r.target].ram);
          ApplyOne(sections, addrs, m0, Items(sections, k, j), Item(k, r));
        }
      }
      ItemsNext(sections, k);
    }
    return true;
  }

  lemma NoItems(sections: seq<Section>)
    ensures Items(sections, 0, 0) == []
  {}

  lemma ItemsStep(sections: seq<Section>, k: nat, j: nat)
    requires k < |sections| && j < |sections[k].relocs|
    ensures var r := sections[k].relocs[j];
            Items(sections, k, j + 1) ==
            if IsLocal(r) then Items(sections, k, j) + [Item(k, r)] else Items(sections, k, j)
  {}

  lemma ItemsNext(sections: seq<Section>, k: nat)
    requires k < |sections|
    ensures Items(sections, k + 1, 0) == Items(sections, k, |sections[k].relocs|)
  {}

  lemma ApplyOne(sections: seq<Section>, addrs: seq<u32>, m: seq<byte>, items: seq<Item>, item: Item)
    requires |addrs| == |sections| && TargetsOk(sections, items) && item.section < |sections|
             && item.reloc.target < |sections|
    ensures TargetsOk(sections, items + [item])
    ensures Apply(m, Fixups(sections, addrs, items + [item]))
            == Fix(Apply(m, Fixups(sections, addrs, items)), FixupOf(sections, addrs, item))
  {
    hide Fix, FixupOf;
    var fs := Fixups(sections, addrs, items + [item]);
    assert fs[..|fs| - 1] == Fixups(sections, addrs, items);
  }

  // A word read, displaced and written back, in host order.
  method MoveWord(mem: array<byte>, a: nat, delta: int)
    requires a + 4 <= mem.Length && a < TWO32
    modifies mem
    ensures mem[..] == Fix(old(mem[..]), Fixup(a, delta))
  {
    ghost var m := mem[..];
    var b0: int, b1: int, b2: int, b3: int := mem[a], mem[a + 1], mem[a + 2], mem[a + 3];
    var word := b0 + b1 * 0x100 + b2 * 0x1_0000 + b3 * 0x100_0000;
    var w := Moved(word, delta);
    mem[a], mem[a + 1], mem[a + 2], mem[a + 3] := w % 0x100, w / 0x100 % 0x100, w / 0x1_0000 % 0x100, w / 0x100_0000;
    assert word == LoadNative(m, a);
    assert mem[..] == StoreNative(m, a, w);
  }

  // --- One mod ----------------------------------------------------------------------------------

  method InitModCode(mem: array<byte>, mod: Mod, load: u32) returns (ok: bool, addrs: seq<u32>, used: nat)
    requires mem.Length % 4 == 0 && Fits(mod, load, mem.Length)
    requires RelocsOk(mod.sections, Addrs(mod.sections, load), mem.Length)
    modifies mem
    ensures ok <==> Loads(mod.sections)
    ensures ok <==> TargetsExist(mod.sections)
    ensures ok ==> addrs == Addrs(mod.sections, load) && used == Used(mod.sections, load)
    ensures ok ==> ModPlaced(mem[..], mod, load) && OnlySpan(old(mem[..]), mem[..], mod, load)
    ensures ok ==> forall p :: 0 <= p < |mod.sections| ==> Stands(mem[..], mod, addrs, p)
    ensures ok ==> StandsOutside(old(mem[..]), mem[..], mod, addrs, load, used)
  {
    hide *;
    LoadsExactly(mod.sections);
    var end;
    addrs, end := PlaceSections(mem, mod, load);
    ghost var m := mem[..];
    AddrsAre(mod, load, mem.Length, addrs);
    ok := RelocateWords(mem, mod.sections, addrs);
    used := 0;
    if ok {
      used := end - load;
      Initialised(old(mem[..]), m, mem[..], mod, load, addrs, end);
      InitialisedExactly(old(mem[..]), mem[..], mod, load);
    }
  }

  // --- Every mod, one after the other ---------------------------------------------------------------

  ghost predicate ModFits(mods: seq<Mod>, load: nat, m: nat, size: nat)
    requires m < |mods|
  {
    var mod, base := mods[m], ModBase(mods, load, m);
    && base < TWO32 && Fits(mod, base, size) && RelocsOk(mod.sections, Addrs(mod.sections, base), size)
  }

  // Relocated words lie in their own mod's span, or outside everything the mods occupy.
  ghost predicate WordsAtHome(mods: seq<Mod>, load: nat, m: nat)
    requires m < |mods| && load >= KSEG0
  {
    Loads(mods[m].sections) ==>
      var mod, base := mods[m], ModBase(mods, load, m);
      forall x: nat :: InFixups(LoadedWords(mod.sections, base), x) ==>
        InSpan(mod, base, x) || x < load - KSEG0 || x >= ModBase(mods, load, |mods|) - KSEG0
  }

  ghost predicate InSpan(mod: Mod, base: nat, x: nat) { base - KSEG0 <= x < base - KSEG0 + Used(mod.sections, base) }

  // Loading succeeds exactly when every mod's relocations name its own sections; then every
  // section of every mod stands in memory as placed, whatever was loaded after it.
  method LoadCodeMods(mem: array<byte>, mods: seq<Mod>, load: u32) returns (ok: bool, ramUsed: nat)
    requires mem.Length % 4 == 0 && load >= KSEG0
    requires forall m :: 0 <= m < |mods| ==> ModFits(mods, load, m, mem.Length) && WordsAtHome(mods, load, m)
    modifies mem
    ensures ok <==> forall m :: 0 <= m < |mods| ==> Loads(mods[m].sections)
    ensures ok <==> forall m :: 0 <= m < |mods| ==> TargetsExist(mods[m].sections)
    ensures load + ramUsed == ModBase(mods, load, |mods|)
    ensures ok ==> forall m :: 0 <= m < |mods| ==> ModPlaced(mem[..], mods[m], ModBase(mods, load, m))
    ensures ok ==> forall m, p :: 0 <= m < |mods| && 0 <= p < |mods[m].sections| ==>
                     Stands(mem[..], mods[m], Addrs(mods[m].sections, ModBase(mods, load, m)), p)
  {
    hide Fits, RelocsOk, Addrs, Loads, ModPlaced, OnlySpan, Used, Guest, OutsideMoved, WordsAtHome;
    hide TargetsExist, Stands, StandsOutside;
    ok, ramUsed := true, 0;
    for m := 0 to |mods|
      invariant load + ramUsed == ModBase(mods, load, m)
      invariant ok <==> forall j :: 0 <= j < m ==> Loads(mods[j].sections)
      invariant ok ==> forall j :: 0 <= j < m ==> ModPlaced(mem[..], mods[j], ModBase(mods, load, j))
    {
      assert ModFits(mods, load, m, mem.Length);
      ghost var before := mem[..];
      var good, addrs, used := InitModCode(mem, mods[m], load + ramUsed);
      if good {
        if ok {
          forall j | 0 <= j < m ensures ModPlaced(mem[..], mods[j], ModBase(mods, load, j)) {
            StillPlaced(before, mem[..], mods, load, j, m);
          }
        }
        ramUsed := ramUsed + used;
      } else {
        ok := false;
      }
    }
    AllStand(mem[..], mods, load, ok);
  }

  lemma AllStand(m: seq<byte>, mods: seq<Mod>, load: u32, ok: bool)
    requires forall j :: 0 <= j < |mods| ==> ModFits(mods, load, j, |m|)
    requires ok <==> forall j :: 0 <= j < |mods| ==> Loads(mods[j].sections)
    requires ok ==> forall j :: 0 <= j < |mods| ==> ModPlaced(m, mods[j], ModBase(mods, load, j))
    ensures ok <==> forall j :: 0 <= j < |mods| ==> TargetsExist(mods[j].sections)
    ensures ok ==> forall j, p :: 0 <= j < |mods| && 0 <= p < |mods[j].sections| ==>
                     Stands(m, mods[j], Addrs(mods[j].sections, ModBase(mods, load, j)), p)
  {
    hide Loads, TargetsExist, ModPlaced, Stands, Fits, RelocsOk, LoadAddress, Addrs;
    forall j | 0 <= j < |mods| ensures Loads(mods[j].sections) <==> TargetsExist(mods[j].sections) {
      LoadsExactly(mods[j].sections);
    }
    if ok {
      forall j, p | 0 <= j < |mods| && 0 <= p < |mods[j].sections|
        ensures Stands(m, mods[j], Addrs(mods[j].sections, ModBase(mods, load, j)), p)
      {
        assert ModFits(mods, load, j, |m|);
        LoadFits(mods[j], ModBase(mods, load, j), |m|, p);
        PlacedStands(m, mods[j], ModBase(mods, load, j), p);
      }
    }
  }

  lemma StillPlaced(m0: seq<byte>, m1: seq<byte>, mods: seq<Mod>, load: nat, j: nat, m: nat)
    requires j < m < |mods| && load >= KSEG0 && Loads(mods[j].sections) && Loads(mods[m].sections)
    requires ModBase(mods, load, m) >= KSEG0 && WordsAtHome(mods, load, m)
    requires ModPlaced(m0, mods[j], ModBase(mods, load, j)) && OnlySpan(m0, m1, mods[m], ModBase(mods, load, m))
    ensures ModPlaced(m1, mods[j], ModBase(mods, load, j))
  {
    hide Guest, LoadedWords, InFixups, ModPlaced, Used, InSpan, Loads, ModBase, WordsAtHome;
    SpansApart(mods, load, j, m);
    SpanIs(mods[m], ModBase(mods, load, m));
    KeptPlaced(m0, m1, mods[j], ModBase(mods, load, j));
  }

  lemma SpanIs(mod: Mod, base: nat)
    requires base >= KSEG0
    ensures forall x: nat :: InSpan(mod, base, x) <==> base - KSEG0 <= x < base - KSEG0 + Used(mod.sections, base)
  {}

  lemma KeptPlaced(m0: seq<byte>, m1: seq<byte>, mod: Mod, base: nat)
    requires Loads(mod.sections) && ModPlaced(m0, mod, base)
    requires forall x: nat :: InSpan(mod, base, x) ==> Guest(m1, x) == Guest(m0, x)
    ensures ModPlaced(m1, mod, base)
  {
    hide Guest, LoadedWords, SectionPlaced, Loads, Used, LoadAddress, AddressBefore;
    forall k | 0 <= k < |mod.sections| && !mod.sections[k].fixed
      ensures var a := LoadAddress(mod.sections, base, k) - KSEG0;
              SectionPlaced(m1, mod.binary, mod.sections[k], a, LoadedWords(mod.sections, base))
    {
      SectionsApart(mod.sections, base, k, |mod.sections|);
      var a := LoadAddress(mod.sections, base, k) - KSEG0;
      SameSection(m0, m1, mod.binary, mod.sections[k], a, LoadedWords(mod.sections, base));
    }
  }

  lemma SpansApart(mods: seq<Mod>, load: nat, j: nat, m: nat)
    requires j < m < |mods| && load >= KSEG0 && Loads(mods[j].sections) && WordsAtHome(mods, load, m)
             && Loads(mods[m].sections)
    ensures forall x: nat :: InSpan(mods[j], ModBase(mods, load, j), x) ==>
              !InSpan(mods[m], ModBase(mods, load, m), x)
              && !InFixups(LoadedWords(mods[m].sections, ModBase(mods, load, m)), x)
  {
    hide Used, Loads, LoadedWords, InFixups;
    BasesGrow(mods, load, 0, j);
    BasesGrow(mods, load, j + 1, m);
    BasesGrow(mods, load, m, |mods|);
  }

  lemma SameSection(m: seq<byte>, n: seq<byte>, binary: seq<byte>, s: Section, a: nat,
                    fs: seq<Fixup>)
    requires s.rom + s.size <= |binary| && SectionPlaced(m, binary, s, a, fs)
    requires forall x: nat :: a <= x < a + s.size + s.bss ==> Guest(n, x) == Guest(m, x)
    ensures SectionPlaced(n, binary, s, a, fs)
  {
    hide Guest, LoadBe32, InFixups, ImageWord, Moved, Image;
    forall i | 0 <= i < |fs| && Holds(s, a, fs[i].at, fs[i].at + 4)
      ensures LoadBe32(n, fs[i].at) == LoadBe32(m, fs[i].at)
    {
      SameWord(m, n, fs[i].at);
    }
  }

  // --- Words in another mod's span ------------------------------------------------------------------

  lemma SettledByte(m: seq<byte>, n: seq<byte>, mod: Mod, load: nat, k: nat, x: nat)
    requires Loads(mod.sections) && ModPlaced(m, mod, load) && ModPlaced(n, mod, load)
    requires k < |mod.sections| && !mod.sections[k].fixed
    requires Holds(mod.sections[k], LoadAddress(mod.sections, load, k) - KSEG0, x, x + 1)
    requires !InFixups(LoadedWords(mod.sections, load), x)
    ensures Guest(n, x) == Guest(m, x)
  {
    hide Guest, LoadBe32, ImageWord, Image, Moved, LoadedWords, InFixups, LoadAddress;
    var a, fs := LoadAddress(mod.sections, load, k) - KSEG0, LoadedWords(mod.sections, load);
    assert SectionPlaced(m, mod.binary, mod.sections[k], a, fs) && SectionPlaced(n, mod.binary, mod.sections[k], a, fs);
  }

  // A placed section's words are settled: its mod being placed says what each of them holds.
  lemma SettledWord(m: seq<byte>, n: seq<byte>, mod: Mod, load: nat, k: nat, at: nat)
    requires Loads(mod.sections) && ModPlaced(m, mod, load) && ModPlaced(n, mod, load)
    requires k < |mod.sections| && !mod.sections[k].fixed && at % 4 == 0
    requires Holds(mod.sections[k], LoadAddress(mod.sections, load, k) - KSEG0, at, at + 4)
    requires forall i :: 0 <= i < |LoadedWords(mod.sections, load)| ==> LoadedWords(mod.sections, load)[i].at % 4 == 0
    ensures LoadBe32(n, at) == LoadBe32(m, at)
  {
    hide Guest, LoadBe32, ImageWord, Image, Moved, LoadedWords, LoadAddress;
    var a, fs := LoadAddress(mod.sections, load, k) - KSEG0, LoadedWords(mod.sections, load);
    assert SectionPlaced(m, mod.binary, mod.sections[k], a, fs) && SectionPlaced(n, mod.binary, mod.sections[k], a, fs);
    if forall i :: 0 <= i < |fs| ==> fs[i].at != at {
      forall x: nat | at <= x < at + 4 ensures Guest(n, x) == Guest(m, x) {
        forall i | 0 <= i < |fs| ensures !InWord(fs[i].at, x) { Boundaries(fs[i].at, at); }
        SettledByte(m, n, mod, load, k, x);
      }
      SameWord(m, n, at);
    }
  }

  // A relocation of another mod into a placed section leaves that mod as it was placed only
  // when it moves nothing: why loading demands words at home.
  lemma StrayWord(m: seq<byte>, n: seq<byte>, mod: Mod, load: nat, k: nat, f: Fixup)
    requires Loads(mod.sections) && ModPlaced(m, mod, load) && k < |mod.sections| && !mod.sections[k].fixed
    requires f.at % 4 == 0 && Holds(mod.sections[k], LoadAddress(mod.sections, load, k) - KSEG0, f.at, f.at + 4)
    requires forall i :: 0 <= i < |LoadedWords(mod.sections, load)| ==> LoadedWords(mod.sections, load)[i].at % 4 == 0
    requires LoadBe32(n, f.at) == Moved(LoadBe32(m, f.at), f.delta)
    ensures ModPlaced(n, mod, load) ==> f.delta % TWO32 == 0
  {
    hide Guest, LoadBe32, LoadedWords, LoadAddress, Loads, ModPlaced;
    if ModPlaced(n, mod, load) {
      SettledWord(m, n, mod, load, k, f.at);
      var w := LoadBe32(m, f.at);
      assert (w + f.delta) % TWO32 == w;
    }
  }
}
